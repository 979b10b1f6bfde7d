/** The OMCI encoding of an intent, which is what gets hashed as the request hash. There is no
  decoder; what matters is that two different intents never have the same bytes. */
module IntentCodec {
  import opened Wrappers
  import opened ByteBuffers
  import opened CrimeTypes
  import opened CrimeCodec
  import CrimeCodecMethods

  /** "OMCI". */
  const INTENT_MAGIC: Bytes := [0x4f, 0x4d, 0x43, 0x49]

  function PutI64(acc: Bytes, v: i64): (r: Bytes)
    ensures acc <= r
  {
    PutU64(acc, Unsigned64(v))
  }

  function PutVector(acc: Bytes, v: Vector): (r: Bytes)
    ensures acc <= r
  {
    PutU32(PutU32(PutU32(acc, v.x), v.y), v.z)
  }

  function PutPerception(acc: Bytes, s: Snapshot): (r: Bytes)
    ensures acc <= r
  {
    PutBool(PutBool(PutBool(PutBool(acc, s.hasFacing), s.eligibilityKnown), s.awarenessInputsKnown), s.enabled)
  }

  function PutCondition(acc: Bytes, s: Snapshot): (r: Bytes)
    ensures acc <= r
  {
    PutBool(PutBool(PutBool(PutBool(acc, s.alive), s.conscious), s.sneaking), s.onGround)
  }

  function PutStats(acc: Bytes, s: Snapshot): (r: Bytes)
    ensures acc <= r
  {
    PutU32(PutU32(PutU32(PutU32(PutU32(PutU32(PutU32(PutU32(PutU32(acc,
      s.sneakSkill), s.agility), s.luck), s.fatigueCurrent), s.fatigueMaximum), s.bootWeight), s.chameleon),
      s.invisibility), s.blind)
  }

  function PutProvenance(acc: Bytes, s: Snapshot): (r: Bytes)
    ensures acc <= r
  {
    PutU8(PutU64(PutU64(PutU32(PutU32(acc,
      s.migrationGeneration), s.authorityGeneration), s.snapshotGeneration), s.sampledAtMs), s.authority)
  }

  function PutSnapshot(acc: Bytes, s: Snapshot): (r: Bytes)
    ensures acc <= r
  {
    PutProvenance(PutStats(PutCondition(PutPerception(PutVector(PutVector(PutIdentity(acc,
      s.identity), s.position), s.forward), s), s), s), s)
  }

  function PutOptionalIdentity(acc: Bytes, o: Option<Identity>): (r: Bytes)
    ensures acc <= r
  {
    match o
    case None => PutBool(acc, false)
    case Some(i) => PutIdentity(PutBool(acc, true), i)
  }

  function PutIntentHead(acc: Bytes, n: Intent): (r: Bytes)
    ensures acc <= r
  {
    PutText(PutU8(PutText(PutText(PutU16(acc, n.version), n.eventId), n.source), n.crime), n.cellId)
  }

  function PutCause(acc: Bytes, n: Intent): (r: Bytes)
    ensures acc <= r
  {
    PutU64(PutU64(PutI64(PutBool(PutOptionalIdentity(acc,
      n.victim), n.victimAware), n.value), n.observedAtMs), n.maximumSnapshotAgeMs)
  }

  function PutIntent(acc: Bytes, n: Intent): (r: Bytes)
    ensures acc <= r
  {
    hide PutGenerations, PutU32, PutCause, PutSnapshot, PutIntentHead;
    PutGenerations(PutU32(PutCause(PutSnapshot(PutIntentHead(acc + INTENT_MAGIC, n), n.offender), n),
      Count32(|n.collisionGenerations|)), n.collisionGenerations)
  }

  /** encodeIntent. */
  function EncodeIntent(n: Intent): Bytes { PutIntent([], n) }

  // ----- nothing is lost: each field is determined by the bytes that follow its predecessor ---

  lemma U8Same(acc: Bytes, v: u8, w: u8, b: Bytes)
    requires PutU8(acc, v) <= b && PutU8(acc, w) <= b
    ensures v == w
  {
    assert b[..|acc|] == acc;
    U8Reads(b, |acc|, v);
    U8Reads(b, |acc|, w);
  }

  lemma U16Same(acc: Bytes, v: u16, w: u16, b: Bytes)
    requires PutU16(acc, v) <= b && PutU16(acc, w) <= b
    ensures v == w
  {
    assert b[..|acc|] == acc;
    U16Reads(b, |acc|, v);
    U16Reads(b, |acc|, w);
  }

  lemma U32Same(acc: Bytes, v: u32, w: u32, b: Bytes)
    requires PutU32(acc, v) <= b && PutU32(acc, w) <= b
    ensures v == w
  {
    assert b[..|acc|] == acc;
    U32Reads(b, |acc|, v);
    U32Reads(b, |acc|, w);
  }

  lemma U64Same(acc: Bytes, v: u64, w: u64, b: Bytes)
    requires PutU64(acc, v) <= b && PutU64(acc, w) <= b
    ensures v == w
  {
    assert b[..|acc|] == acc;
    U64Reads(b, |acc|, v);
    U64Reads(b, |acc|, w);
  }

  lemma BoolSame(acc: Bytes, v: bool, w: bool, b: Bytes)
    requires PutBool(acc, v) <= b && PutBool(acc, w) <= b
    ensures v == w
  {
    U8Same(acc, if v then 1 else 0, if w then 1 else 0, b);
  }

  lemma TextSame(acc: Bytes, v: Text, w: Text, b: Bytes)
    requires PutText(acc, v) <= b && PutText(acc, w) <= b
    ensures v == w
  {
    assert b[..|acc|] == acc;
    var maximum := if |v| < |w| then |w| else |v|;
    TextReads(b, |acc|, v, maximum);
    TextReads(b, |acc|, w, maximum);
  }

  lemma IdentitySame(acc: Bytes, v: Identity, w: Identity, b: Bytes)
    requires PutIdentity(acc, v) <= b && PutIdentity(acc, w) <= b
    ensures v == w
  {
    hide PutU8, PutU32, PutU64;
    U8Same(acc, v.kind, w.kind, b);
    var a := PutU8(acc, v.kind);
    U32Same(a, v.playerGuid, w.playerGuid, b);
    U64Same(PutU32(a, v.playerGuid), v.actorInstanceId, w.actorInstanceId, b);
  }

  lemma VectorSame(acc: Bytes, v: Vector, w: Vector, b: Bytes)
    requires PutVector(acc, v) <= b && PutVector(acc, w) <= b
    ensures v == w
  {
    hide PutU32;
    U32Same(acc, v.x, w.x, b);
    var a := PutU32(acc, v.x);
    U32Same(a, v.y, w.y, b);
    U32Same(PutU32(a, v.y), v.z, w.z, b);
  }

  lemma PerceptionSame(acc: Bytes, v: Snapshot, w: Snapshot, b: Bytes)
    requires PutPerception(acc, v) <= b && PutPerception(acc, w) <= b
    ensures PutPerception(acc, v) == PutPerception(acc, w)
    ensures v.hasFacing == w.hasFacing && v.eligibilityKnown == w.eligibilityKnown
    ensures v.awarenessInputsKnown == w.awarenessInputsKnown && v.enabled == w.enabled
  {
    hide PutBool;
    BoolSame(acc, v.hasFacing, w.hasFacing, b);
    var a := PutBool(acc, v.hasFacing);
    BoolSame(a, v.eligibilityKnown, w.eligibilityKnown, b);
    a := PutBool(a, v.eligibilityKnown);
    BoolSame(a, v.awarenessInputsKnown, w.awarenessInputsKnown, b);
    a := PutBool(a, v.awarenessInputsKnown);
    BoolSame(a, v.enabled, w.enabled, b);
  }

  lemma ConditionSame(acc: Bytes, v: Snapshot, w: Snapshot, b: Bytes)
    requires PutCondition(acc, v) <= b && PutCondition(acc, w) <= b
    ensures PutCondition(acc, v) == PutCondition(acc, w)
    ensures v.alive == w.alive && v.conscious == w.conscious && v.sneaking == w.sneaking
    ensures v.onGround == w.onGround
  {
    hide PutBool;
    BoolSame(acc, v.alive, w.alive, b);
    var a := PutBool(acc, v.alive);
    BoolSame(a, v.conscious, w.conscious, b);
    a := PutBool(a, v.conscious);
    BoolSame(a, v.sneaking, w.sneaking, b);
    a := PutBool(a, v.sneaking);
    BoolSame(a, v.onGround, w.onGround, b);
  }

  lemma StatsSame(acc: Bytes, v: Snapshot, w: Snapshot, b: Bytes)
    requires PutStats(acc, v) <= b && PutStats(acc, w) <= b
    ensures PutStats(acc, v) == PutStats(acc, w)
    ensures v.sneakSkill == w.sneakSkill && v.agility == w.agility && v.luck == w.luck
    ensures v.fatigueCurrent == w.fatigueCurrent && v.fatigueMaximum == w.fatigueMaximum
    ensures v.bootWeight == w.bootWeight && v.chameleon == w.chameleon
    ensures v.invisibility == w.invisibility && v.blind == w.blind
  {
    hide PutU32;
    U32Same(acc, v.sneakSkill, w.sneakSkill, b);
    var a := PutU32(acc, v.sneakSkill);
    U32Same(a, v.agility, w.agility, b);
    a := PutU32(a, v.agility);
    U32Same(a, v.luck, w.luck, b);
    a := PutU32(a, v.luck);
    U32Same(a, v.fatigueCurrent, w.fatigueCurrent, b);
    a := PutU32(a, v.fatigueCurrent);
    U32Same(a, v.fatigueMaximum, w.fatigueMaximum, b);
    a := PutU32(a, v.fatigueMaximum);
    U32Same(a, v.bootWeight, w.bootWeight, b);
    a := PutU32(a, v.bootWeight);
    U32Same(a, v.chameleon, w.chameleon, b);
    a := PutU32(a, v.chameleon);
    U32Same(a, v.invisibility, w.invisibility, b);
    a := PutU32(a, v.invisibility);
    U32Same(a, v.blind, w.blind, b);
  }

  lemma ProvenanceSame(acc: Bytes, v: Snapshot, w: Snapshot, b: Bytes)
    requires PutProvenance(acc, v) <= b && PutProvenance(acc, w) <= b
    ensures v.migrationGeneration == w.migrationGeneration && v.authorityGeneration == w.authorityGeneration
    ensures v.snapshotGeneration == w.snapshotGeneration && v.sampledAtMs == w.sampledAtMs
    ensures v.authority == w.authority
  {
    hide PutU8, PutU32, PutU64;
    U32Same(acc, v.migrationGeneration, w.migrationGeneration, b);
    var a := PutU32(acc, v.migrationGeneration);
    U32Same(a, v.authorityGeneration, w.authorityGeneration, b);
    a := PutU32(a, v.authorityGeneration);
    U64Same(a, v.snapshotGeneration, w.snapshotGeneration, b);
    a := PutU64(a, v.snapshotGeneration);
    U64Same(a, v.sampledAtMs, w.sampledAtMs, b);
    a := PutU64(a, v.sampledAtMs);
    U8Same(a, v.authority, w.authority, b);
  }

  lemma SnapshotSame(acc: Bytes, v: Snapshot, w: Snapshot, b: Bytes)
    requires PutSnapshot(acc, v) <= b && PutSnapshot(acc, w) <= b
    ensures v == w
  {
    hide PutIdentity, PutVector, PutPerception, PutCondition, PutStats, PutProvenance;
    IdentitySame(acc, v.identity, w.identity, b);
    var a := PutIdentity(acc, v.identity);
    VectorSame(a, v.position, w.position, b);
    a := PutVector(a, v.position);
    VectorSame(a, v.forward, w.forward, b);
    a := PutVector(a, v.forward);
    PerceptionSame(a, v, w, b);
    a := PutPerception(a, v);
    ConditionSame(a, v, w, b);
    a := PutCondition(a, v);
    StatsSame(a, v, w, b);
    ProvenanceSame(PutStats(a, v), v, w, b);
  }

  lemma OptionalIdentitySame(acc: Bytes, v: Option<Identity>, w: Option<Identity>, b: Bytes)
    requires PutOptionalIdentity(acc, v) <= b && PutOptionalIdentity(acc, w) <= b
    ensures v == w
  {
    hide PutBool, PutIdentity;
    BoolSame(acc, v.Some?, w.Some?, b);
    if v.Some? { IdentitySame(PutBool(acc, true), v.value, w.value, b); }
  }

  lemma GenerationSame(acc: Bytes, v: CellGeneration, w: CellGeneration, b: Bytes)
    requires PutGeneration(acc, v) <= b && PutGeneration(acc, w) <= b
    ensures v == w
  {
    hide PutText, PutU64;
    TextSame(acc, v.cellId, w.cellId, b);
    U64Same(PutText(acc, v.cellId), v.generation, w.generation, b);
  }

  /** Appending the whole list is appending its head and then its tail. */
  lemma {:induction false} GenerationsFromFront(acc: Bytes, gs: seq<CellGeneration>)
    requires gs != []
    ensures PutGenerations(acc, gs) == PutGenerations(PutGeneration(acc, gs[0]), gs[1..])
  {
    hide PutGeneration;
    if |gs| > 1 {
      var init := gs[..|gs| - 1];
      GenerationsFromFront(acc, init);
      assert init[1..] == gs[1..][..|gs| - 2];
    } else {
      assert PutGenerations(acc, gs[..0]) == acc;
      assert PutGenerations(PutGeneration(acc, gs[0]), gs[1..]) == PutGeneration(acc, gs[0]);
    }
  }

  /** Generation lists of any two lengths differ, whatever the 32-bit count says: both reach the
    end of the same buffer. */
  lemma {:induction false} GenerationsSame(acc: Bytes, v: seq<CellGeneration>, w: seq<CellGeneration>)
    requires PutGenerations(acc, v) == PutGenerations(acc, w)
    ensures v == w
    decreases |v|
  {
    hide PutGeneration;
    var b := PutGenerations(acc, v);
    if v != [] { GenerationsFromFront(acc, v); GrowsByGeneration(acc, v[0]); }
    if w != [] { GenerationsFromFront(acc, w); GrowsByGeneration(acc, w[0]); }
    if v != [] && w != [] {
      GenerationSame(acc, v[0], w[0], b);
      GenerationsSame(PutGeneration(acc, v[0]), v[1..], w[1..]);
    }
  }

  lemma GrowsByGeneration(acc: Bytes, g: CellGeneration)
    ensures |PutGeneration(acc, g)| > |acc|
  {
  }

  lemma IntentHeadSame(acc: Bytes, v: Intent, w: Intent, b: Bytes)
    requires PutIntentHead(acc, v) <= b && PutIntentHead(acc, w) <= b
    ensures PutIntentHead(acc, v) == PutIntentHead(acc, w)
    ensures v.version == w.version && v.eventId == w.eventId && v.source == w.source
    ensures v.crime == w.crime && v.cellId == w.cellId
  {
    hide PutU8, PutU16, PutText;
    U16Same(acc, v.version, w.version, b);
    var a := PutU16(acc, v.version);
    TextSame(a, v.eventId, w.eventId, b);
    a := PutText(a, v.eventId);
    TextSame(a, v.source, w.source, b);
    a := PutText(a, v.source);
    U8Same(a, v.crime, w.crime, b);
    a := PutU8(a, v.crime);
    TextSame(a, v.cellId, w.cellId, b);
  }

  lemma CauseSame(acc: Bytes, v: Intent, w: Intent, b: Bytes)
    requires PutCause(acc, v) <= b && PutCause(acc, w) <= b
    ensures PutCause(acc, v) == PutCause(acc, w)
    ensures v.victim == w.victim && v.victimAware == w.victimAware && v.value == w.value
    ensures v.observedAtMs == w.observedAtMs && v.maximumSnapshotAgeMs == w.maximumSnapshotAgeMs
  {
    hide PutBool, PutU64, PutI64, PutOptionalIdentity;
    OptionalIdentitySame(acc, v.victim, w.victim, b);
    var a := PutOptionalIdentity(acc, v.victim);
    BoolSame(a, v.victimAware, w.victimAware, b);
    a := PutBool(a, v.victimAware);
    I64Same(a, v.value, w.value, b);
    a := PutI64(a, v.value);
    U64Same(a, v.observedAtMs, w.observedAtMs, b);
    a := PutU64(a, v.observedAtMs);
    U64Same(a, v.maximumSnapshotAgeMs, w.maximumSnapshotAgeMs, b);
  }

  /** Equal encodings mean equal intents, in every field. */
  lemma EncodeIntentInjective(v: Intent, w: Intent)
    requires EncodeIntent(v) == EncodeIntent(w)
    ensures v == w
  {
    hide PutU32, PutCause, PutSnapshot, PutIntentHead, PutGenerations;
    var b := EncodeIntent(v);
    var a := [] + INTENT_MAGIC;
    IntentHeadSame(a, v, w, b);
    a := PutIntentHead(a, v);
    SnapshotSame(a, v.offender, w.offender, b);
    a := PutSnapshot(a, v.offender);
    CauseSame(a, v, w, b);
    a := PutCause(a, v);
    U32Same(a, Count32(|v.collisionGenerations|), Count32(|w.collisionGenerations|), b);
    a := PutU32(a, Count32(|v.collisionGenerations|));
    GenerationsSame(a, v.collisionGenerations, w.collisionGenerations);
  }

  lemma I64Same(acc: Bytes, v: i64, w: i64, b: Bytes)
    requires PutI64(acc, v) <= b && PutI64(acc, w) <= b
    ensures v == w
  {
    U64Same(acc, Unsigned64(v), Unsigned64(w), b);
  }

  // ----- the imperative encoder ---------------------------------------------------------------

  method WriteSnapshot(writer: Writer, s: Snapshot)
    modifies writer
    ensures writer.bytes == PutSnapshot(old(writer.bytes), s)
  {
    hide PutBool, PutU8, PutU32, PutU64, PutIdentity;
    CrimeCodecMethods.WriteIdentity(writer, s.identity);
    writer.U32(s.position.x);
    writer.U32(s.position.y);
    writer.U32(s.position.z);
    writer.U32(s.forward.x);
    writer.U32(s.forward.y);
    writer.U32(s.forward.z);
    writer.Bool(s.hasFacing);
    writer.Bool(s.eligibilityKnown);
    writer.Bool(s.awarenessInputsKnown);
    writer.Bool(s.enabled);
    writer.Bool(s.alive);
    writer.Bool(s.conscious);
    writer.Bool(s.sneaking);
    writer.Bool(s.onGround);
    writer.U32(s.sneakSkill);
    writer.U32(s.agility);
    writer.U32(s.luck);
    writer.U32(s.fatigueCurrent);
    writer.U32(s.fatigueMaximum);
    writer.U32(s.bootWeight);
    writer.U32(s.chameleon);
    writer.U32(s.invisibility);
    writer.U32(s.blind);
    writer.U32(s.migrationGeneration);
    writer.U32(s.authorityGeneration);
    writer.U64(s.snapshotGeneration);
    writer.U64(s.sampledAtMs);
    writer.U8(s.authority);
  }

  method Encode(intent: Intent) returns (bytes: Bytes)
    ensures bytes == EncodeIntent(intent)
  {
    hide PutBool, PutU8, PutU16, PutU32, PutU64, PutText, PutIdentity, PutSnapshot, PutGenerations;
    var writer := new Writer();
    writer.Fixed(INTENT_MAGIC);
    writer.U16(intent.version);
    writer.String(intent.eventId);
    writer.String(intent.source);
    writer.U8(intent.crime);
    writer.String(intent.cellId);
    WriteSnapshot(writer, intent.offender);
    writer.Bool(intent.victim.Some?);
    if intent.victim.Some? { CrimeCodecMethods.WriteIdentity(writer, intent.victim.value); }
    writer.Bool(intent.victimAware);
    writer.U64(Unsigned64(intent.value));
    writer.U64(intent.observedAtMs);
    writer.U64(intent.maximumSnapshotAgeMs);
    CrimeCodecMethods.WriteGenerations(writer, intent.collisionGenerations);
    return writer.bytes;
  }
}
