/** The values that pass through the crime service. Enumerations are kept as their underlying
  integers, because an intent or a stored payload can carry a number outside the enumeration.
  A float is its 32-bit IEEE pattern. */
module CrimeTypes {
  import opened Wrappers
  import opened ByteBuffers

  type Float = u32

  predicate Finite(f: Float) { f / 0x80_0000 % 0x100 != 0xff }
  /** `f < 0.f` for a finite f: the sign bit is set and f is not minus zero. */
  predicate Negative(f: Float) { f > 0x8000_0000 }

  const CRIME_VERSION: u16 := 2
  const MAX_WITNESSES := 1024
  const MAX_CELL_ID := 1024
  const MAX_REQUEST_ID := 128
  const MAX_SOURCE := 128
  const MAX_REVISION := 0x7fff_ffff_ffff_ffff
  const STATE_SCHEMA: u16 := 1

  // CrimeType
  const THEFT: u8 := 1
  const PICKPOCKET: u8 := 2
  const TRESPASS: u8 := 3
  const ASSAULT: u8 := 4
  const MURDER: u8 := 5
  const WEREWOLF: u8 := 6

  // CrimeSemanticError
  const NO_ERROR: u16 := 0
  const UNAUTHORIZED: u16 := 1
  const INVALID_INTENT: u16 := 2
  const DUPLICATE_CONFLICT: u16 := 3
  const STALE_REVISION: u16 := 4
  const STATE_OVERFLOW: u16 := 5
  const CORRUPT_STORED_RESULT: u16 := 6

  // CrimeWitnessEligibility
  const ELIGIBLE: u8 := 0
  const OUTSIDE_RADIUS: u8 := 1
  const KIND_REJECTED: u8 := 2
  const ACTOR_INELIGIBLE: u8 := 3
  const IN_COMBAT: u8 := 4
  const FOLLOWER: u8 := 5
  const RELATIONSHIP_UNKNOWN: u8 := 6

  // CrimeWitnessRelationship
  const REL_ELIGIBLE: u8 := 0
  const REL_IN_COMBAT: u8 := 1
  const REL_FOLLOWER: u8 := 2
  const REL_UNKNOWN: u8 := 3

  // ObservationActorKind
  const PLAYER: u8 := 0
  const NPC: u8 := 1
  const CREATURE: u8 := 2

  // ObservationAuthority
  const SERVER_AUTHORITATIVE: u8 := 0
  const ACTOR_DELEGATED: u8 := 1
  const PLAYER_DELEGATED: u8 := 2
  const MIXED_DELEGATED: u8 := 3

  // ObservationPath
  const LINE_OF_SIGHT: u8 := 0
  const VICTIM_AWARE: u8 := 1
  const MURDER_HEARING: u8 := 2

  predicate ValidType(t: u8) { THEFT <= t <= WEREWOLF }

  datatype Identity = Identity(kind: u8, playerGuid: u32, actorInstanceId: u64) {
    predicate IsValid() {
      if kind == PLAYER then playerGuid != 0 && actorInstanceId == 0
      else playerGuid == 0 && ValidInstance(actorInstanceId)
    }
  }

  /** isValidActorInstanceId: key kind 0 or 1 in bits 32..39 and a non-zero low word. */
  predicate ValidInstance(id: u64) { id % 0x1_0000_0000 != 0 && id / 0x1_0000_0000 % 0x100 <= 1 }

  datatype Vector = Vector(x: Float, y: Float, z: Float) {
    predicate IsFinite() { Finite(x) && Finite(y) && Finite(z) }
  }

  datatype Snapshot = Snapshot(
    identity: Identity, position: Vector, forward: Vector,
    hasFacing: bool, eligibilityKnown: bool, awarenessInputsKnown: bool,
    enabled: bool, alive: bool, conscious: bool, sneaking: bool, onGround: bool,
    sneakSkill: Float, agility: Float, luck: Float, fatigueCurrent: Float, fatigueMaximum: Float,
    bootWeight: Float, chameleon: Float, invisibility: Float, blind: Float,
    migrationGeneration: u32, authorityGeneration: u32, snapshotGeneration: u64, sampledAtMs: u64,
    authority: u8)

  datatype CellGeneration = CellGeneration(cellId: Text, generation: u64)

  datatype Intent = Intent(
    version: u16, eventId: Text, source: Text, crime: u8, cellId: Text, offender: Snapshot,
    victim: Option<Identity>, victimAware: bool, value: i64, observedAtMs: u64,
    maximumSnapshotAgeMs: u64, collisionGenerations: seq<CellGeneration>)

  datatype Candidate = Candidate(
    actor: Snapshot, alarm: i32, fight: i32, guard: bool, relationship: u8, relationshipAuthority: u8)

  datatype Observation = Observation(
    observable: bool, lineOfSight: Option<bool>, awareness: Option<bool>, roll: Option<i32>,
    threshold: Option<Float>, path: u8, reason: u8, authority: u8,
    observerMigration: u32, observerAuthority: u32, observerSnapshot: u64, targetSnapshot: u64,
    generations: seq<CellGeneration>)

  datatype Aggression = Aggression(
    evaluated: bool, combat: bool, baseFight: i32, finalFight: i32, crimeFight: i32,
    dispositionTerm: Float, dispositionBias: Float, distance: Float, distanceBias: Float,
    alarmTerm: Float, unclampedFightTerm: Float, fightTerm: Float)

  const NO_AGGRESSION := Aggression(false, false, 0, 0, 0, 0, 0, 0, 0, 0, 0, 0)

  datatype Witness = Witness(
    identity: Identity, candidate: bool, victim: bool, eligibility: u8, alarm: i32, fight: i32,
    guard: bool, relationshipAuthority: u8, observation: Option<Observation>,
    perceived: bool, reportCapable: bool, reported: bool, aggression: Aggression)

  datatype CrimeState = CrimeState(
    schemaVersion: u16, bounty: i32, currentCrimeId: i32, paidCrimeId: i32, revision: u64)

  /** The state of a character with no stored row. */
  const INITIAL_STATE := CrimeState(STATE_SCHEMA, 0, -1, -1, 0)

  predicate ValidState(s: CrimeState) {
    && s.schemaVersion == STATE_SCHEMA
    && s.bounty >= 0
    && -1 <= s.paidCrimeId <= s.currentCrimeId
    && s.revision <= MAX_REVISION
  }

  datatype CrimeResult = CrimeResult(
    version: u16, eventId: Text, crime: u8, accepted: bool, error: u16, witnesses: seq<Witness>,
    crimeSeen: bool, reportingStageRun: bool, bountyApplied: bool, bountyDelta: i32,
    crimeIdAdvanced: bool, state: CrimeState)
}
