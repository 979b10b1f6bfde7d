/** The OMCS payload of a journaled crime result: encoder, decoder and their laws. */
module CrimeCodec {
  import opened Wrappers
  import opened ByteBuffers
  import opened CrimeTypes

  /** "OMCS". */
  const RESULT_MAGIC: Bytes := [0x4f, 0x4d, 0x43, 0x53]

  // ----- what the decoder admits ------------------------------------------------------------

  predicate StorableIdentity(i: Identity) { i.kind <= CREATURE && i.IsValid() }

  predicate StorableGeneration(g: CellGeneration) { |g.cellId| <= MAX_CELL_ID }

  /** The checks on the first eight fields. */
  predicate StorableObservationHead(o: Observation) {
    && o.path <= MURDER_HEARING && o.reason <= 8 && o.authority <= MIXED_DELEGATED
    && (o.roll.Some? ==> 0 <= o.roll.value <= 99)
    && (o.threshold.Some? ==> Finite(o.threshold.value))
  }

  predicate StorableObservation(o: Observation) {
    && StorableObservationHead(o)
    && |o.generations| <= MAX_WITNESSES
    && forall g <- o.generations :: StorableGeneration(g)
  }

  predicate StorableAggression(a: Aggression) {
    && 0 <= a.baseFight <= 100 && 0 <= a.finalFight <= 100
    && (a.combat ==> a.evaluated)
    && Finite(a.dispositionTerm) && Finite(a.dispositionBias)
    && Finite(a.distance) && !Negative(a.distance)
    && Finite(a.distanceBias) && Finite(a.alarmTerm)
    && Finite(a.unclampedFightTerm) && Finite(a.fightTerm)
  }

  predicate StorableWitness(w: Witness) {
    && StorableIdentity(w.identity)
    && w.eligibility <= RELATIONSHIP_UNKNOWN
    && w.relationshipAuthority <= MIXED_DELEGATED
    && (w.observation.Some? ==> StorableObservation(w.observation.value))
    && StorableAggression(w.aggression)
  }

  /** Everything checked while the fields are read. */
  predicate Readable(r: CrimeResult) {
    && r.version == CRIME_VERSION
    && |r.eventId| <= MAX_REQUEST_ID
    && ValidType(r.crime)
    && r.error <= CORRUPT_STORED_RESULT
    && |r.witnesses| <= MAX_WITNESSES
    && (forall w <- r.witnesses :: StorableWitness(w))
    && ValidState(r.state)
  }

  /** The cross-field check made after the last field. */
  predicate Consistent(r: CrimeResult) {
    && r.eventId != []
    && r.bountyDelta >= 0
    && (r.accepted <==> r.error == NO_ERROR)
    && r.reportingStageRun == r.crimeSeen
    && r.crimeIdAdvanced == (r.reportingStageRun && r.crime != WEREWOLF)
    && (r.bountyDelta != 0 ==> r.bountyApplied)
  }

  predicate Storable(r: CrimeResult) { Readable(r) && Consistent(r) }

  // ----- wire form --------------------------------------------------------------------------

  function PutIdentity(acc: Bytes, i: Identity): (r: Bytes)
    ensures acc <= r
  {
    PutU64(PutU32(PutU8(acc, i.kind), i.playerGuid), i.actorInstanceId)
  }

  function ParseIdentity(b: Bytes, p: nat): Parse<Identity>
  {
    var (kind, p) :- ParseU8(b, p);
    var (guid, p) :- ParseU32(b, p);
    var (instance, p) :- ParseU64(b, p);
    var identity := Identity(kind, guid, instance);
    if StorableIdentity(identity) then Parsed(identity, p) else Malformed
  }

  function PutState(acc: Bytes, s: CrimeState): (r: Bytes)
    ensures acc <= r
  {
    PutU64(PutI32(PutI32(PutI32(PutU16(acc, s.schemaVersion), s.bounty), s.currentCrimeId), s.paidCrimeId),
           s.revision)
  }

  function ParseState(b: Bytes, p: nat): Parse<CrimeState>
  {
    var (schema, p) :- ParseU16(b, p);
    var (bounty, p) :- ParseI32(b, p);
    var (current, p) :- ParseI32(b, p);
    var (paid, p) :- ParseI32(b, p);
    var (revision, p) :- ParseU64(b, p);
    var state := CrimeState(schema, bounty, current, paid, revision);
    if ValidState(state) then Parsed(state, p) else Malformed
  }

  function PutAggressionHead(acc: Bytes, a: Aggression): (r: Bytes)
    ensures acc <= r
  {
    PutI32(PutI32(PutI32(PutBool(PutBool(acc, a.evaluated), a.combat), a.baseFight), a.finalFight), a.crimeFight)
  }

  function PutAggression(acc: Bytes, a: Aggression): (r: Bytes)
    ensures acc <= r
  {
    PutU32(PutU32(PutU32(PutU32(PutU32(PutU32(PutU32(PutAggressionHead(acc, a),
      a.dispositionTerm), a.dispositionBias), a.distance), a.distanceBias), a.alarmTerm), a.unclampedFightTerm),
      a.fightTerm)
  }

  function ParseAggression(b: Bytes, p: nat): Parse<Aggression>
  {
    var (evaluated, p) :- ParseBool(b, p);
    var (combat, p) :- ParseBool(b, p);
    var (baseFight, p) :- ParseI32(b, p);
    var (finalFight, p) :- ParseI32(b, p);
    var (crimeFight, p) :- ParseI32(b, p);
    var (term, p) :- ParseU32(b, p);
    var (bias, p) :- ParseU32(b, p);
    var (distance, p) :- ParseU32(b, p);
    var (distanceBias, p) :- ParseU32(b, p);
    var (alarmTerm, p) :- ParseU32(b, p);
    var (unclamped, p) :- ParseU32(b, p);
    var (fightTerm, p) :- ParseU32(b, p);
    var a := Aggression(evaluated, combat, baseFight, finalFight, crimeFight,
                        term, bias, distance, distanceBias, alarmTerm, unclamped, fightTerm);
    if StorableAggression(a) then Parsed(a, p) else Malformed
  }

  function PutOptionalBool(acc: Bytes, o: Option<bool>): (r: Bytes)
    ensures acc <= r
  {
    PutU8(acc, match o case None => 0 case Some(v) => if v then 2 else 1)
  }

  function ParseOptionalBool(b: Bytes, p: nat): Parse<Option<bool>>
  {
    var (v, p) :- ParseU8(b, p);
    if v > 2 then Malformed else Parsed(if v == 0 then None else Some(v == 2), p)
  }

  function PutOptionalI32(acc: Bytes, o: Option<i32>): (r: Bytes)
    ensures acc <= r
  {
    match o
    case None => PutBool(acc, false)
    case Some(v) => PutI32(PutBool(acc, true), v)
  }

  function ParseOptionalI32(b: Bytes, p: nat): Parse<Option<i32>>
  {
    var (present, p) :- ParseBool(b, p);
    if !present then Parsed(None, p)
    else
      var (v, p) :- ParseI32(b, p);
      Parsed(Some(v), p)
  }

  function PutOptionalU32(acc: Bytes, o: Option<u32>): (r: Bytes)
    ensures acc <= r
  {
    match o
    case None => PutBool(acc, false)
    case Some(v) => PutU32(PutBool(acc, true), v)
  }

  function ParseOptionalU32(b: Bytes, p: nat): Parse<Option<u32>>
  {
    var (present, p) :- ParseBool(b, p);
    if !present then Parsed(None, p)
    else
      var (v, p) :- ParseU32(b, p);
      Parsed(Some(v), p)
  }

  function PutGeneration(acc: Bytes, g: CellGeneration): (r: Bytes)
    ensures acc <= r
  {
    PutU64(PutText(acc, g.cellId), g.generation)
  }

  function ParseGeneration(b: Bytes, p: nat): Parse<CellGeneration>
  {
    var (cellId, p) :- ParseText(b, p, MAX_CELL_ID);
    var (generation, p) :- ParseU64(b, p);
    Parsed(CellGeneration(cellId, generation), p)
  }

  function PutGenerations(acc: Bytes, gs: seq<CellGeneration>): (r: Bytes)
    ensures acc <= r
  {
    if gs == [] then acc
    else PutGeneration(PutGenerations(acc, gs[..|gs| - 1]), gs[|gs| - 1])
  }

  function ParseGenerations(b: Bytes, p: nat, count: nat): Parse<seq<CellGeneration>>
  {
    if count == 0 then Parsed([], p)
    else
      var (gs, p) :- ParseGenerations(b, p, count - 1);
      var (g, p) :- ParseGeneration(b, p);
      Parsed(gs + [g], p)
  }

  /** The size_t count is cut to 32 bits. */
  function Count32(n: nat): u32 { n % 0x1_0000_0000 }

  function PutObservationHead(acc: Bytes, o: Observation): (r: Bytes)
    ensures acc <= r
  {
    PutU8(PutU8(PutU8(PutOptionalU32(PutOptionalI32(PutOptionalBool(PutOptionalBool(PutBool(acc,
      o.observable), o.lineOfSight), o.awareness), o.roll), o.threshold), o.path), o.reason), o.authority)
  }

  function PutObservation(acc: Bytes, o: Observation): (r: Bytes)
    ensures acc <= r
  {
    PutGenerations(PutU32(PutU64(PutU64(PutU32(PutU32(PutObservationHead(acc, o),
      o.observerMigration), o.observerAuthority), o.observerSnapshot), o.targetSnapshot), Count32(|o.generations|)),
      o.generations)
  }

  /** An observation as readObservation has it after the first eight fields. */
  function ObservationHead(o: Observation): Observation {
    Observation(o.observable, o.lineOfSight, o.awareness, o.roll, o.threshold, o.path, o.reason, o.authority,
                0, 0, 0, 0, [])
  }

  function ParseObservationHead(b: Bytes, p: nat): Parse<Observation>
  {
    var (observable, p) :- ParseBool(b, p);
    var (lineOfSight, p) :- ParseOptionalBool(b, p);
    var (awareness, p) :- ParseOptionalBool(b, p);
    var (roll, p) :- ParseOptionalI32(b, p);
    var (threshold, p) :- ParseOptionalU32(b, p);
    var (path, p) :- ParseU8(b, p);
    var (reason, p) :- ParseU8(b, p);
    var (authority, p) :- ParseU8(b, p);
    var o := Observation(observable, lineOfSight, awareness, roll, threshold, path, reason, authority, 0, 0, 0, 0, []);
    if StorableObservationHead(o) then Parsed(o, p) else Malformed
  }

  function ParseObservation(b: Bytes, p: nat): Parse<Observation>
  {
    var (o, p) :- ParseObservationHead(b, p);
    var (migration, p) :- ParseU32(b, p);
    var (actorAuthority, p) :- ParseU32(b, p);
    var (observerSnapshot, p) :- ParseU64(b, p);
    var (targetSnapshot, p) :- ParseU64(b, p);
    var (count, p) :- ParseU32(b, p);
    if count > MAX_WITNESSES then Malformed
    else
      var (gs, p) :- ParseGenerations(b, p, count);
      Parsed(o.(observerMigration := migration, observerAuthority := actorAuthority,
                observerSnapshot := observerSnapshot, targetSnapshot := targetSnapshot, generations := gs), p)
  }

  function PutOptionalObservation(acc: Bytes, o: Option<Observation>): (r: Bytes)
    ensures acc <= r
  {
    match o
    case None => PutBool(acc, false)
    case Some(v) => PutObservation(PutBool(acc, true), v)
  }

  function ParseOptionalObservation(b: Bytes, p: nat): Parse<Option<Observation>>
  {
    var (present, p) :- ParseBool(b, p);
    if !present then Parsed(None, p)
    else
      var (v, p) :- ParseObservation(b, p);
      Parsed(Some(v), p)
  }

  function PutWitnessHead(acc: Bytes, w: Witness): (r: Bytes)
    ensures acc <= r
  {
    PutU8(PutBool(PutI32(PutI32(PutU8(PutBool(PutBool(PutIdentity(acc,
      w.identity), w.candidate), w.victim), w.eligibility), w.alarm), w.fight), w.guard), w.relationshipAuthority)
  }

  function PutWitness(acc: Bytes, w: Witness): (r: Bytes)
    ensures acc <= r
  {
    hide PutAggression, PutBool, PutOptionalObservation, PutWitnessHead;
    PutAggression(PutBool(PutBool(PutBool(PutOptionalObservation(PutWitnessHead(acc, w),
      w.observation), w.perceived), w.reportCapable), w.reported), w.aggression)
  }

  /** A witness as decodeResult has it after the first eight fields. */
  function WitnessHead(w: Witness): Witness {
    w.(observation := None, perceived := false, reportCapable := false, reported := false,
       aggression := NO_AGGRESSION)
  }

  function ParseWitnessHead(b: Bytes, p: nat): Parse<Witness>
  {
    var (identity, p) :- ParseIdentity(b, p);
    var (candidate, p) :- ParseBool(b, p);
    var (victim, p) :- ParseBool(b, p);
    var (eligibility, p) :- ParseU8(b, p);
    var (alarm, p) :- ParseI32(b, p);
    var (fight, p) :- ParseI32(b, p);
    var (guard, p) :- ParseBool(b, p);
    var (authority, p) :- ParseU8(b, p);
    if eligibility > RELATIONSHIP_UNKNOWN || authority > MIXED_DELEGATED then Malformed
    else Parsed(Witness(identity, candidate, victim, eligibility, alarm, fight, guard, authority,
                        None, false, false, false, NO_AGGRESSION), p)
  }

  function ParseWitness(b: Bytes, p: nat): Parse<Witness>
  {
    var (w, p) :- ParseWitnessHead(b, p);
    var (observation, p) :- ParseOptionalObservation(b, p);
    var (perceived, p) :- ParseBool(b, p);
    var (reportCapable, p) :- ParseBool(b, p);
    var (reported, p) :- ParseBool(b, p);
    var (aggression, p) :- ParseAggression(b, p);
    Parsed(w.(observation := observation, perceived := perceived, reportCapable := reportCapable,
              reported := reported, aggression := aggression), p)
  }

  function PutWitnesses(acc: Bytes, ws: seq<Witness>): (r: Bytes)
    ensures acc <= r
  {
    if ws == [] then acc
    else PutWitness(PutWitnesses(acc, ws[..|ws| - 1]), ws[|ws| - 1])
  }

  function ParseWitnesses(b: Bytes, p: nat, count: nat): Parse<seq<Witness>>
  {
    if count == 0 then Parsed([], p)
    else
      var (ws, p) :- ParseWitnesses(b, p, count - 1);
      var (w, p) :- ParseWitness(b, p);
      Parsed(ws + [w], p)
  }

  function PutResultHead(acc: Bytes, r: CrimeResult): (s: Bytes)
    ensures acc <= s
  {
    PutU16(PutBool(PutU8(PutText(PutU16(acc + RESULT_MAGIC, r.version), r.eventId), r.crime), r.accepted), r.error)
  }

  function PutResult(acc: Bytes, r: CrimeResult): (s: Bytes)
    ensures acc <= s
  {
    PutState(PutBool(PutI32(PutBool(PutBool(PutBool(
      PutWitnesses(PutU32(PutResultHead(acc, r), Count32(|r.witnesses|)), r.witnesses),
      r.crimeSeen), r.reportingStageRun), r.bountyApplied), r.bountyDelta), r.crimeIdAdvanced), r.state)
  }

  /** A result as decodeResult has it after the header. */
  function ResultHead(r: CrimeResult): CrimeResult {
    CrimeResult(r.version, r.eventId, r.crime, r.accepted, r.error, [], false, false, false, 0, false,
                INITIAL_STATE)
  }

  function ParseResultHead(b: Bytes, p: nat): Parse<CrimeResult>
    requires p <= |b|
  {
    if !(b[..p] + RESULT_MAGIC <= b) then Malformed
    else
      var (version, p) :- ParseU16(b, p + |RESULT_MAGIC|);
      if version != CRIME_VERSION then Malformed
      else
        var (eventId, p) :- ParseText(b, p, MAX_REQUEST_ID);
        var (crime, p) :- ParseU8(b, p);
        var (accepted, p) :- ParseBool(b, p);
        var (error, p) :- ParseU16(b, p);
        if !ValidType(crime) || error > CORRUPT_STORED_RESULT then Malformed
        else Parsed(CrimeResult(version, eventId, crime, accepted, error, [], false, false, false, 0, false,
                                INITIAL_STATE), p)
  }

  function ParseResult(b: Bytes, p: nat): Parse<CrimeResult>
    requires p <= |b|
  {
    var (r, p) :- ParseResultHead(b, p);
    var (count, p) :- ParseU32(b, p);
    if count > MAX_WITNESSES then Malformed
    else
      var (witnesses, p) :- ParseWitnesses(b, p, count);
      var (seen, p) :- ParseBool(b, p);
      var (run, p) :- ParseBool(b, p);
      var (applied, p) :- ParseBool(b, p);
      var (delta, p) :- ParseI32(b, p);
      var (advanced, p) :- ParseBool(b, p);
      var (state, p) :- ParseState(b, p);
      Parsed(r.(witnesses := witnesses, crimeSeen := seen, reportingStageRun := run, bountyApplied := applied,
                bountyDelta := delta, crimeIdAdvanced := advanced, state := state), p)
  }

  /** encodeResult. */
  function Encode(r: CrimeResult): Bytes { PutResult([], r) }

  /** decodeResult; None stands for any of its exceptions. */
  function Decode(b: Bytes): Option<CrimeResult>
  {
    match ParseResult(b, 0)
    case Malformed => None
    case Parsed(r, q) => if q == |b| && Consistent(r) then Some(r) else None
  }

  // ----- reading back what was put ----------------------------------------------------------

  lemma IdentityReads(b: Bytes, p: nat, i: Identity)
    requires p <= |b| && PutIdentity(b[..p], i) <= b && StorableIdentity(i)
    ensures var q := |PutIdentity(b[..p], i)|;
            ParseIdentity(b, p) == Parsed(i, q) && q <= |b| && b[..q] == PutIdentity(b[..p], i)
  {
    U8Reads(b, p, i.kind);
    U32Reads(b, p + 1, i.playerGuid);
    U64Reads(b, p + 5, i.actorInstanceId);
  }

  lemma StateReads(b: Bytes, p: nat, s: CrimeState)
    requires p <= |b| && PutState(b[..p], s) <= b && ValidState(s)
    ensures var q := |PutState(b[..p], s)|;
            ParseState(b, p) == Parsed(s, q) && q <= |b| && b[..q] == PutState(b[..p], s)
  {
    U16Reads(b, p, s.schemaVersion);
    I32Reads(b, p + 2, s.bounty);
    I32Reads(b, p + 6, s.currentCrimeId);
    I32Reads(b, p + 10, s.paidCrimeId);
    U64Reads(b, p + 14, s.revision);
  }

  lemma AggressionReads(b: Bytes, p: nat, a: Aggression)
    requires p <= |b| && PutAggression(b[..p], a) <= b && StorableAggression(a)
    ensures var q := |PutAggression(b[..p], a)|;
            ParseAggression(b, p) == Parsed(a, q) && q <= |b| && b[..q] == PutAggression(b[..p], a)
  {
    hide PutBool, PutI32, PutU32, ParseBool, ParseI32, ParseU32;
    var h := PutAggressionHead(b[..p], a);
    var t := PutU32(PutU32(PutU32(h, a.dispositionTerm), a.dispositionBias), a.distance);
    assert h <= t <= b;
    assert PutI32(PutBool(PutBool(b[..p], a.evaluated), a.combat), a.baseFight) <= h;
    BoolReads(b, p, a.evaluated);
    BoolReads(b, p + 1, a.combat);
    I32Reads(b, p + 2, a.baseFight);
    I32Reads(b, p + 6, a.finalFight);
    I32Reads(b, p + 10, a.crimeFight);
    U32Reads(b, p + 14, a.dispositionTerm);
    U32Reads(b, p + 18, a.dispositionBias);
    U32Reads(b, p + 22, a.distance);
    U32Reads(b, p + 26, a.distanceBias);
    U32Reads(b, p + 30, a.alarmTerm);
    U32Reads(b, p + 34, a.unclampedFightTerm);
    U32Reads(b, p + 38, a.fightTerm);
  }

  lemma OptionalBoolReads(b: Bytes, p: nat, o: Option<bool>)
    requires p <= |b| && PutOptionalBool(b[..p], o) <= b
    ensures p + 1 <= |b| && ParseOptionalBool(b, p) == Parsed(o, p + 1)
    ensures b[..p + 1] == PutOptionalBool(b[..p], o)
  {
    U8Reads(b, p, match o case None => 0 case Some(v) => if v then 2 else 1);
  }

  lemma OptionalI32Reads(b: Bytes, p: nat, o: Option<i32>)
    requires p <= |b| && PutOptionalI32(b[..p], o) <= b
    ensures var q := |PutOptionalI32(b[..p], o)|;
            ParseOptionalI32(b, p) == Parsed(o, q) && p <= q <= |b| && b[..q] == PutOptionalI32(b[..p], o)
  {
    hide PutBool, PutI32, ParseBool, ParseI32;
    BoolReads(b, p, o.Some?);
    if o.Some? { I32Reads(b, p + 1, o.value); }
  }

  lemma OptionalU32Reads(b: Bytes, p: nat, o: Option<u32>)
    requires p <= |b| && PutOptionalU32(b[..p], o) <= b
    ensures var q := |PutOptionalU32(b[..p], o)|;
            ParseOptionalU32(b, p) == Parsed(o, q) && p <= q <= |b| && b[..q] == PutOptionalU32(b[..p], o)
  {
    hide PutBool, PutU32, ParseBool, ParseU32;
    BoolReads(b, p, o.Some?);
    if o.Some? { U32Reads(b, p + 1, o.value); }
  }

  lemma GenerationReads(b: Bytes, p: nat, g: CellGeneration)
    requires p <= |b| && PutGeneration(b[..p], g) <= b && StorableGeneration(g)
    ensures var q := |PutGeneration(b[..p], g)|;
            ParseGeneration(b, p) == Parsed(g, q) && q <= |b| && b[..q] == PutGeneration(b[..p], g)
  {
    hide PutText, PutU64, ParseText, ParseU64;
    TextReads(b, p, g.cellId, MAX_CELL_ID);
    U64Reads(b, p + 4 + |g.cellId|, g.generation);
  }

  lemma {:induction false} GenerationsRead(b: Bytes, p: nat, gs: seq<CellGeneration>)
    requires p <= |b| && PutGenerations(b[..p], gs) <= b && forall g <- gs :: StorableGeneration(g)
    ensures var q := |PutGenerations(b[..p], gs)|;
            ParseGenerations(b, p, |gs|) == Parsed(gs, q) && q <= |b| && b[..q] == PutGenerations(b[..p], gs)
  {
    hide PutGeneration, ParseGeneration;
    if gs == [] {
    } else {
      var init := gs[..|gs| - 1];
      GenerationsRead(b, p, init);
      GenerationReads(b, |PutGenerations(b[..p], init)|, gs[|gs| - 1]);
      assert init + [gs[|gs| - 1]] == gs;
    }
  }

  lemma ObservationHeadReads(b: Bytes, p: nat, o: Observation)
    requires p <= |b| && PutObservationHead(b[..p], o) <= b && StorableObservationHead(o)
    ensures var q := |PutObservationHead(b[..p], o)|;
            && ParseObservationHead(b, p) == Parsed(ObservationHead(o), q)
            && q <= |b| && b[..q] == PutObservationHead(b[..p], o)
  {
    hide PutBool, PutU8, PutOptionalBool, PutOptionalI32, PutOptionalU32, Finite;
    hide ParseBool, ParseU8, ParseOptionalBool, ParseOptionalI32, ParseOptionalU32;
    BoolReads(b, p, o.observable);
    OptionalBoolReads(b, p + 1, o.lineOfSight);
    OptionalBoolReads(b, p + 2, o.awareness);
    OptionalI32Reads(b, p + 3, o.roll);
    var p1 := |PutOptionalI32(b[..p + 3], o.roll)|;
    OptionalU32Reads(b, p1, o.threshold);
    var p2 := |PutOptionalU32(b[..p1], o.threshold)|;
    U8Reads(b, p2, o.path);
    U8Reads(b, p2 + 1, o.reason);
    U8Reads(b, p2 + 2, o.authority);
  }

  lemma ObservationReads(b: Bytes, p: nat, o: Observation)
    requires p <= |b| && PutObservation(b[..p], o) <= b && StorableObservation(o)
    ensures var q := |PutObservation(b[..p], o)|;
            ParseObservation(b, p) == Parsed(o, q) && q <= |b| && b[..q] == PutObservation(b[..p], o)
  {
    hide PutU32, PutU64, PutObservationHead, PutGenerations, StorableObservationHead;
    hide ParseU32, ParseU64, ParseObservationHead, ParseGenerations;
    ObservationHeadReads(b, p, o);
    var p1 := |PutObservationHead(b[..p], o)|;
    U32Reads(b, p1, o.observerMigration);
    U32Reads(b, p1 + 4, o.observerAuthority);
    U64Reads(b, p1 + 8, o.observerSnapshot);
    U64Reads(b, p1 + 16, o.targetSnapshot);
    U32Reads(b, p1 + 24, |o.generations|);
    GenerationsRead(b, p1 + 28, o.generations);
  }

  lemma OptionalObservationReads(b: Bytes, p: nat, o: Option<Observation>)
    requires p <= |b| && PutOptionalObservation(b[..p], o) <= b
    requires o.Some? ==> StorableObservation(o.value)
    ensures var q := |PutOptionalObservation(b[..p], o)|;
            ParseOptionalObservation(b, p) == Parsed(o, q) && q <= |b| && b[..q] == PutOptionalObservation(b[..p], o)
  {
    hide PutBool, PutObservation, ParseBool, ParseObservation;
    BoolReads(b, p, o.Some?);
    if o.Some? { ObservationReads(b, p + 1, o.value); }
  }

  lemma WitnessHeadReads(b: Bytes, p: nat, w: Witness)
    requires p <= |b| && PutWitnessHead(b[..p], w) <= b && StorableWitness(w)
    ensures var q := |PutWitnessHead(b[..p], w)|;
            ParseWitnessHead(b, p) == Parsed(WitnessHead(w), q) && q <= |b| && b[..q] == PutWitnessHead(b[..p], w)
  {
    hide PutBool, PutU8, PutI32, PutIdentity, ParseBool, ParseU8, ParseI32, ParseIdentity;
    hide StorableIdentity, StorableObservation, StorableAggression;
    IdentityReads(b, p, w.identity);
    var p1 := |PutIdentity(b[..p], w.identity)|;
    BoolReads(b, p1, w.candidate);
    BoolReads(b, p1 + 1, w.victim);
    U8Reads(b, p1 + 2, w.eligibility);
    I32Reads(b, p1 + 3, w.alarm);
    I32Reads(b, p1 + 7, w.fight);
    BoolReads(b, p1 + 11, w.guard);
    U8Reads(b, p1 + 12, w.relationshipAuthority);
  }

  lemma WitnessReads(b: Bytes, p: nat, w: Witness)
    requires p <= |b| && PutWitness(b[..p], w) <= b && StorableWitness(w)
    ensures var q := |PutWitness(b[..p], w)|;
            ParseWitness(b, p) == Parsed(w, q) && q <= |b| && b[..q] == PutWitness(b[..p], w)
  {
    hide PutBool, PutWitnessHead, PutOptionalObservation, PutAggression;
    hide ParseBool, ParseWitnessHead, ParseOptionalObservation, ParseAggression;
    hide StorableIdentity, StorableObservation, StorableAggression;
    WitnessHeadReads(b, p, w);
    var p1 := |PutWitnessHead(b[..p], w)|;
    OptionalObservationReads(b, p1, w.observation);
    var p2 := |PutOptionalObservation(b[..p1], w.observation)|;
    BoolReads(b, p2, w.perceived);
    BoolReads(b, p2 + 1, w.reportCapable);
    BoolReads(b, p2 + 2, w.reported);
    AggressionReads(b, p2 + 3, w.aggression);
  }

  lemma {:induction false} WitnessesRead(b: Bytes, p: nat, ws: seq<Witness>)
    requires p <= |b| && PutWitnesses(b[..p], ws) <= b && forall w <- ws :: StorableWitness(w)
    ensures var q := |PutWitnesses(b[..p], ws)|;
            ParseWitnesses(b, p, |ws|) == Parsed(ws, q) && q <= |b| && b[..q] == PutWitnesses(b[..p], ws)
  {
    hide PutWitness, ParseWitness, StorableWitness;
    if ws == [] {
    } else {
      var init := ws[..|ws| - 1];
      WitnessesRead(b, p, init);
      WitnessReads(b, |PutWitnesses(b[..p], init)|, ws[|ws| - 1]);
      assert init + [ws[|ws| - 1]] == ws;
    }
  }

  lemma ResultHeadReads(b: Bytes, p: nat, r: CrimeResult)
    requires p <= |b| && PutResultHead(b[..p], r) <= b
    requires r.version == CRIME_VERSION && |r.eventId| <= MAX_REQUEST_ID
    ensures var q := |PutResultHead(b[..p], r)|;
            && q <= |b| && b[..q] == PutResultHead(b[..p], r)
            && ParseResultHead(b, p) == if ValidType(r.crime) && r.error <= CORRUPT_STORED_RESULT
                                        then Parsed(ResultHead(r), q) else Malformed
  {
    hide PutBool, PutU8, PutU16, PutText, ParseBool, ParseU8, ParseU16, ParseText, ValidType;
    var p1 := p + |RESULT_MAGIC|;
    assert b[..p] + RESULT_MAGIC <= PutResultHead(b[..p], r) <= b;
    assert b[..p] + RESULT_MAGIC == b[..p1];
    U16Reads(b, p1, r.version);
    TextReads(b, p1 + 2, r.eventId, MAX_REQUEST_ID);
    var p2 := p1 + 6 + |r.eventId|;
    U8Reads(b, p2, r.crime);
    BoolReads(b, p2 + 1, r.accepted);
    U16Reads(b, p2 + 2, r.error);
  }

  lemma ResultReads(b: Bytes, p: nat, r: CrimeResult)
    requires p <= |b| && PutResult(b[..p], r) <= b && Readable(r)
    ensures ParseResult(b, p) == Parsed(r, |PutResult(b[..p], r)|)
  {
    hide PutBool, PutU32, PutI32, PutWitnesses, PutState, PutResultHead;
    hide ParseBool, ParseU32, ParseI32, ParseWitnesses, ParseState, ParseResultHead;
    hide StorableWitness, ValidState;
    ResultHeadReads(b, p, r);
    var p1 := |PutResultHead(b[..p], r)|;
    U32Reads(b, p1, |r.witnesses|);
    WitnessesRead(b, p1 + 4, r.witnesses);
    var p2 := |PutWitnesses(b[..p1 + 4], r.witnesses)|;
    BoolReads(b, p2, r.crimeSeen);
    BoolReads(b, p2 + 1, r.reportingStageRun);
    BoolReads(b, p2 + 2, r.bountyApplied);
    I32Reads(b, p2 + 3, r.bountyDelta);
    BoolReads(b, p2 + 7, r.crimeIdAdvanced);
    StateReads(b, p2 + 8, r.state);
  }

  // ----- what is read was put ---------------------------------------------------------------

  lemma IdentityWasPut(b: Bytes, p: nat)
    requires p <= |b| && ParseIdentity(b, p).Parsed?
    ensures var Parsed(i, q) := ParseIdentity(b, p);
            p <= q <= |b| && b[..q] == PutIdentity(b[..p], i) && StorableIdentity(i)
  {
    U8WasPut(b, p);
    U32WasPut(b, p + 1);
    U64WasPut(b, p + 5);
  }

  lemma StateWasPut(b: Bytes, p: nat)
    requires p <= |b| && ParseState(b, p).Parsed?
    ensures var Parsed(s, q) := ParseState(b, p);
            p <= q <= |b| && b[..q] == PutState(b[..p], s) && ValidState(s)
  {
    U16WasPut(b, p);
    I32WasPut(b, p + 2);
    I32WasPut(b, p + 6);
    I32WasPut(b, p + 10);
    U64WasPut(b, p + 14);
  }

  lemma AggressionWasPut(b: Bytes, p: nat)
    requires p <= |b| && ParseAggression(b, p).Parsed?
    ensures var Parsed(a, q) := ParseAggression(b, p);
            p <= q <= |b| && b[..q] == PutAggression(b[..p], a) && StorableAggression(a)
  {
    hide PutBool, PutI32, PutU32, ParseBool, ParseI32, ParseU32, StorableAggression;
    BoolWasPut(b, p);
    BoolWasPut(b, p + 1);
    I32WasPut(b, p + 2);
    I32WasPut(b, p + 6);
    I32WasPut(b, p + 10);
    U32WasPut(b, p + 14);
    U32WasPut(b, p + 18);
    U32WasPut(b, p + 22);
    U32WasPut(b, p + 26);
    U32WasPut(b, p + 30);
    U32WasPut(b, p + 34);
    U32WasPut(b, p + 38);
  }

  lemma OptionalBoolWasPut(b: Bytes, p: nat)
    requires p <= |b| && ParseOptionalBool(b, p).Parsed?
    ensures var Parsed(o, q) := ParseOptionalBool(b, p);
            q == p + 1 <= |b| && b[..q] == PutOptionalBool(b[..p], o)
  {
    U8WasPut(b, p);
  }

  lemma OptionalI32WasPut(b: Bytes, p: nat)
    requires p <= |b| && ParseOptionalI32(b, p).Parsed?
    ensures var Parsed(o, q) := ParseOptionalI32(b, p);
            p <= q <= |b| && b[..q] == PutOptionalI32(b[..p], o)
  {
    hide PutBool, PutI32, ParseBool, ParseI32;
    BoolWasPut(b, p);
    if ParseBool(b, p).value { I32WasPut(b, p + 1); }
  }

  lemma OptionalU32WasPut(b: Bytes, p: nat)
    requires p <= |b| && ParseOptionalU32(b, p).Parsed?
    ensures var Parsed(o, q) := ParseOptionalU32(b, p);
            p <= q <= |b| && b[..q] == PutOptionalU32(b[..p], o)
  {
    hide PutBool, PutU32, ParseBool, ParseU32;
    BoolWasPut(b, p);
    if ParseBool(b, p).value { U32WasPut(b, p + 1); }
  }

  lemma {:induction false} GenerationsWerePut(b: Bytes, p: nat, count: nat)
    requires p <= |b| && ParseGenerations(b, p, count).Parsed?
    ensures var Parsed(gs, q) := ParseGenerations(b, p, count);
            && p <= q <= |b| && b[..q] == PutGenerations(b[..p], gs) && |gs| == count
            && forall g <- gs :: StorableGeneration(g)
  {
    hide PutText, PutU64, ParseText, ParseU64;
    if count > 0 {
      GenerationsWerePut(b, p, count - 1);
      var Parsed(init, q) := ParseGenerations(b, p, count - 1);
      TextWasPut(b, q, MAX_CELL_ID);
      U64WasPut(b, ParseText(b, q, MAX_CELL_ID).next);
      var g := ParseGeneration(b, q).value;
      assert (init + [g])[..count - 1] == init;
    }
  }

  lemma ObservationHeadWasPut(b: Bytes, p: nat)
    requires p <= |b| && ParseObservationHead(b, p).Parsed?
    ensures var Parsed(o, q) := ParseObservationHead(b, p);
            p <= q <= |b| && b[..q] == PutObservationHead(b[..p], o) && StorableObservationHead(o)
  {
    hide PutBool, PutU8, PutOptionalBool, PutOptionalI32, PutOptionalU32, StorableObservationHead;
    hide ParseBool, ParseU8, ParseOptionalBool, ParseOptionalI32, ParseOptionalU32;
    BoolWasPut(b, p);
    OptionalBoolWasPut(b, p + 1);
    OptionalBoolWasPut(b, p + 2);
    OptionalI32WasPut(b, p + 3);
    var p1 := ParseOptionalI32(b, p + 3).next;
    OptionalU32WasPut(b, p1);
    var p2 := ParseOptionalU32(b, p1).next;
    U8WasPut(b, p2);
    U8WasPut(b, p2 + 1);
    U8WasPut(b, p2 + 2);
  }

  /** The head of the wire form only depends on the head of the observation. */
  lemma SameObservationHead(acc: Bytes, v: Observation, w: Observation)
    requires ObservationHead(v) == ObservationHead(w)
    ensures PutObservationHead(acc, v) == PutObservationHead(acc, w)
    ensures StorableObservationHead(v) == StorableObservationHead(w)
  {
    hide PutBool, PutU8, PutOptionalBool, PutOptionalI32, PutOptionalU32;
  }

  lemma ObservationWasPut(b: Bytes, p: nat)
    requires p <= |b| && ParseObservation(b, p).Parsed?
    ensures var Parsed(o, q) := ParseObservation(b, p);
            p <= q <= |b| && b[..q] == PutObservation(b[..p], o) && StorableObservation(o)
  {
    hide PutU32, PutU64, PutObservationHead, PutGenerations, StorableObservationHead;
    hide ParseU32, ParseU64, ParseObservationHead, ParseGenerations;
    ObservationHeadWasPut(b, p);
    var Parsed(head, p1) := ParseObservationHead(b, p);
    SameObservationHead(b[..p], head, ParseObservation(b, p).value);
    U32WasPut(b, p1);
    U32WasPut(b, p1 + 4);
    U64WasPut(b, p1 + 8);
    U64WasPut(b, p1 + 16);
    U32WasPut(b, p1 + 24);
    GenerationsWerePut(b, p1 + 28, ParseU32(b, p1 + 24).value);
  }

  lemma OptionalObservationWasPut(b: Bytes, p: nat)
    requires p <= |b| && ParseOptionalObservation(b, p).Parsed?
    ensures var Parsed(o, q) := ParseOptionalObservation(b, p);
            && p <= q <= |b| && b[..q] == PutOptionalObservation(b[..p], o)
            && (o.Some? ==> StorableObservation(o.value))
  {
    hide PutBool, PutObservation, ParseBool, ParseObservation;
    BoolWasPut(b, p);
    if ParseBool(b, p).value { ObservationWasPut(b, p + 1); }
  }

  lemma WitnessWasPut(b: Bytes, p: nat)
    requires p <= |b| && ParseWitness(b, p).Parsed?
    ensures var Parsed(w, q) := ParseWitness(b, p);
            p <= q <= |b| && b[..q] == PutWitness(b[..p], w) && StorableWitness(w)
  {
    hide PutBool, PutU8, PutI32, PutIdentity, PutOptionalObservation, PutAggression;
    hide ParseBool, ParseU8, ParseI32, ParseIdentity, ParseOptionalObservation, ParseAggression;
    hide StorableIdentity, StorableObservation, StorableAggression;
    var w := ParseWitness(b, p).value;
    IdentityWasPut(b, p);
    var p1 := ParseIdentity(b, p).next;
    BoolWasPut(b, p1);
    BoolWasPut(b, p1 + 1);
    U8WasPut(b, p1 + 2);
    I32WasPut(b, p1 + 3);
    I32WasPut(b, p1 + 7);
    BoolWasPut(b, p1 + 11);
    U8WasPut(b, p1 + 12);
    assert PutWitnessHead(b[..p], w) == b[..p1 + 13];
    OptionalObservationWasPut(b, p1 + 13);
    var p2 := ParseOptionalObservation(b, p1 + 13).next;
    BoolWasPut(b, p2);
    BoolWasPut(b, p2 + 1);
    BoolWasPut(b, p2 + 2);
    AggressionWasPut(b, p2 + 3);
  }

  lemma {:induction false} WitnessesWerePut(b: Bytes, p: nat, count: nat)
    requires p <= |b| && ParseWitnesses(b, p, count).Parsed?
    ensures var Parsed(ws, q) := ParseWitnesses(b, p, count);
            && p <= q <= |b| && b[..q] == PutWitnesses(b[..p], ws) && |ws| == count
            && forall w <- ws :: StorableWitness(w)
  {
    hide PutWitness, ParseWitness, StorableWitness;
    if count > 0 {
      WitnessesWerePut(b, p, count - 1);
      var Parsed(init, q) := ParseWitnesses(b, p, count - 1);
      WitnessWasPut(b, q);
      var w := ParseWitness(b, q).value;
      assert (init + [w])[..count - 1] == init;
    }
  }

  lemma ResultWasPut(b: Bytes, p: nat)
    requires p <= |b| && ParseResult(b, p).Parsed?
    ensures var Parsed(r, q) := ParseResult(b, p);
            p <= q <= |b| && b[..q] == PutResult(b[..p], r) && Readable(r)
  {
    hide PutBool, PutU8, PutU16, PutU32, PutI32, PutText, PutWitnesses, PutState;
    hide ParseBool, ParseU8, ParseU16, ParseU32, ParseI32, ParseText, ParseWitnesses, ParseState;
    hide StorableWitness;
    var r := ParseResult(b, p).value;
    var p1 := p + |RESULT_MAGIC|;
    assert b[..p] + RESULT_MAGIC == b[..p1];
    U16WasPut(b, p1);
    TextWasPut(b, p1 + 2, MAX_REQUEST_ID);
    var p2 := ParseText(b, p1 + 2, MAX_REQUEST_ID).next;
    U8WasPut(b, p2);
    BoolWasPut(b, p2 + 1);
    U16WasPut(b, p2 + 2);
    assert PutResultHead(b[..p], r) == b[..p2 + 4];
    U32WasPut(b, p2 + 4);
    WitnessesWerePut(b, p2 + 8, ParseU32(b, p2 + 4).value);
    var p3 := ParseWitnesses(b, p2 + 8, ParseU32(b, p2 + 4).value).next;
    BoolWasPut(b, p3);
    BoolWasPut(b, p3 + 1);
    BoolWasPut(b, p3 + 2);
    I32WasPut(b, p3 + 3);
    BoolWasPut(b, p3 + 7);
    StateWasPut(b, p3 + 8);
  }

  lemma EncodeNonempty(r: CrimeResult)
    ensures Encode(r) != []
  {
    hide PutState, PutWitnesses;
    assert [] + RESULT_MAGIC <= PutResultHead([], r) <= Encode(r);
  }

  // ----- the laws of the journal payload ----------------------------------------------------

  /** Round trip, with the exact condition: a payload reads back as the result it was made from
    when the result is storable, and a result that only fails the final cross-field check is refused. */
  lemma DecodeEncode(r: CrimeResult)
    ensures Storable(r) ==> Decode(Encode(r)) == Some(r)
    ensures Readable(r) && !Consistent(r) ==> Decode(Encode(r)) == None
  {
    hide Readable, Consistent, PutResult, ParseResult;
    if Readable(r) {
      assert Encode(r)[..0] == [];
      ResultReads(Encode(r), 0, r);
    }
  }

  /** The encoding is canonical: the only payload that decodes to `r` is the encoding of `r`. */
  lemma EncodeDecode(b: Bytes)
    ensures Decode(b).Some? ==> Encode(Decode(b).value) == b && Storable(Decode(b).value)
  {
    hide ParseResult, PutResult, Readable;
    if ParseResult(b, 0).Parsed? {
      assert b[..0] == [];
      ResultWasPut(b, 0);
      assert b[..|b|] == b;
    }
  }

  /** A result survives the journal exactly when it is storable. */
  lemma SurvivesJournal(r: CrimeResult)
    ensures Decode(Encode(r)) == Some(r) <==> Storable(r)
  {
    DecodeEncode(r);
    EncodeDecode(Encode(r));
  }

  lemma EncodedHead(r: CrimeResult)
    ensures PutResultHead([], r) <= Encode(r)
  {
    hide PutWitnesses, PutResultHead, PutState, PutBool, PutI32, PutU32, Count32;
  }

  /** Whatever follows the header, the verdict is the header's. */
  lemma DecodedHead(b: Bytes)
    ensures ParseResultHead(b, 0).Malformed? ==> Decode(b) == None
    ensures Decode(b).Some? ==> var head := ParseResultHead(b, 0).value;
              Decode(b).value.accepted == head.accepted && Decode(b).value.error == head.error
  {
    hide ParseWitnesses, ParseResultHead, ParseBool, ParseI32, ParseU32, ParseState, Consistent;
  }

  /** Whatever else is lost, what reads back has the same verdict. */
  lemma VerdictSurvives(r: CrimeResult)
    requires r.version == CRIME_VERSION && |r.eventId| <= MAX_REQUEST_ID && Decode(Encode(r)).Some?
    ensures Decode(Encode(r)).value.accepted == r.accepted && Decode(Encode(r)).value.error == r.error
  {
    hide Encode, Decode, PutResultHead, ParseResultHead;
    var b := Encode(r);
    assert b[..0] == [];
    EncodedHead(r);
    DecodedHead(b);
    ResultHeadReads(b, 0, r);
  }

  /** A result whose crime type is outside the enumeration is journaled but never read back. */
  lemma InvalidTypeIsRefused(r: CrimeResult)
    requires r.version == CRIME_VERSION && |r.eventId| <= MAX_REQUEST_ID && !ValidType(r.crime)
    ensures Decode(Encode(r)) == None
  {
    hide Encode, Decode, PutResultHead, ParseResultHead;
    var b := Encode(r);
    assert b[..0] == [];
    EncodedHead(r);
    DecodedHead(b);
    ResultHeadReads(b, 0, r);
  }
}
