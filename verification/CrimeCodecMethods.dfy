/** encodeResult and decodeResult as the server runs them, over Writer and Reader. */
module CrimeCodecMethods {
  import opened Wrappers
  import opened ByteBuffers
  import opened CrimeTypes
  import opened CrimeCodec

  method WriteIdentity(writer: Writer, i: Identity)
    modifies writer
    ensures writer.bytes == PutIdentity(old(writer.bytes), i)
  {
    writer.U8(i.kind);
    writer.U32(i.playerGuid);
    writer.U64(i.actorInstanceId);
  }

  method WriteState(writer: Writer, s: CrimeState)
    modifies writer
    ensures writer.bytes == PutState(old(writer.bytes), s)
  {
    hide PutU16, PutI32, PutU64;
    writer.U16(s.schemaVersion);
    writer.I32(s.bounty);
    writer.I32(s.currentCrimeId);
    writer.I32(s.paidCrimeId);
    writer.U64(s.revision);
  }

  method WriteAggression(writer: Writer, a: Aggression)
    modifies writer
    ensures writer.bytes == PutAggression(old(writer.bytes), a)
  {
    hide PutBool, PutI32, PutU32;
    writer.Bool(a.evaluated);
    writer.Bool(a.combat);
    writer.I32(a.baseFight);
    writer.I32(a.finalFight);
    writer.I32(a.crimeFight);
    writer.U32(a.dispositionTerm);
    writer.U32(a.dispositionBias);
    writer.U32(a.distance);
    writer.U32(a.distanceBias);
    writer.U32(a.alarmTerm);
    writer.U32(a.unclampedFightTerm);
    writer.U32(a.fightTerm);
  }

  method WriteOptionalBool(writer: Writer, o: Option<bool>)
    modifies writer
    ensures writer.bytes == PutOptionalBool(old(writer.bytes), o)
  {
    writer.U8(match o case None => 0 case Some(v) => if v then 2 else 1);
  }

  method WriteGenerations(writer: Writer, gs: seq<CellGeneration>)
    modifies writer
    ensures writer.bytes == PutGenerations(PutU32(old(writer.bytes), Count32(|gs|)), gs)
  {
    hide PutU32, PutText, PutU64;
    writer.U32(Count32(|gs|));
    ghost var start := writer.bytes;
    for i := 0 to |gs|
      invariant writer.bytes == PutGenerations(start, gs[..i])
    {
      assert gs[..i + 1][..i] == gs[..i];
      writer.String(gs[i].cellId);
      writer.U64(gs[i].generation);
    }
    assert gs[..|gs|] == gs;
  }

  method WriteObservation(writer: Writer, o: Observation)
    modifies writer
    ensures writer.bytes == PutObservation(old(writer.bytes), o)
  {
    hide PutBool, PutU8, PutI32, PutU32, PutU64, PutOptionalBool, PutGenerations;
    writer.Bool(o.observable);
    WriteOptionalBool(writer, o.lineOfSight);
    WriteOptionalBool(writer, o.awareness);
    writer.Bool(o.roll.Some?);
    if o.roll.Some? { writer.I32(o.roll.value); }
    writer.Bool(o.threshold.Some?);
    if o.threshold.Some? { writer.U32(o.threshold.value); }
    writer.U8(o.path);
    writer.U8(o.reason);
    writer.U8(o.authority);
    writer.U32(o.observerMigration);
    writer.U32(o.observerAuthority);
    writer.U64(o.observerSnapshot);
    writer.U64(o.targetSnapshot);
    WriteGenerations(writer, o.generations);
  }

  method WriteWitness(writer: Writer, w: Witness)
    modifies writer
    ensures writer.bytes == PutWitness(old(writer.bytes), w)
  {
    hide PutBool, PutU8, PutI32, PutIdentity, PutObservation, PutAggression;
    WriteIdentity(writer, w.identity);
    writer.Bool(w.candidate);
    writer.Bool(w.victim);
    writer.U8(w.eligibility);
    writer.I32(w.alarm);
    writer.I32(w.fight);
    writer.Bool(w.guard);
    writer.U8(w.relationshipAuthority);
    writer.Bool(w.observation.Some?);
    if w.observation.Some? { WriteObservation(writer, w.observation.value); }
    writer.Bool(w.perceived);
    writer.Bool(w.reportCapable);
    writer.Bool(w.reported);
    WriteAggression(writer, w.aggression);
  }

  method EncodeResult(result: CrimeResult) returns (bytes: Bytes)
    ensures bytes == Encode(result)
  {
    hide PutBool, PutU8, PutU16, PutU32, PutI32, PutText, PutWitness, PutState;
    var writer := new Writer();
    writer.Fixed(RESULT_MAGIC);
    writer.U16(result.version);
    writer.String(result.eventId);
    writer.U8(result.crime);
    writer.Bool(result.accepted);
    writer.U16(result.error);
    writer.U32(Count32(|result.witnesses|));
    ghost var start := writer.bytes;
    for i := 0 to |result.witnesses|
      invariant writer.bytes == PutWitnesses(start, result.witnesses[..i])
    {
      assert result.witnesses[..i + 1][..i] == result.witnesses[..i];
      WriteWitness(writer, result.witnesses[i]);
    }
    assert result.witnesses[..|result.witnesses|] == result.witnesses;
    writer.Bool(result.crimeSeen);
    writer.Bool(result.reportingStageRun);
    writer.Bool(result.bountyApplied);
    writer.I32(result.bountyDelta);
    writer.Bool(result.crimeIdAdvanced);
    WriteState(writer, result.state);
    return writer.bytes;
  }

  method ReadIdentity(reader: Reader) returns (r: Option<Identity>)
    requires reader.Valid()
    modifies reader
    ensures reader.Valid() && reader.Yields(r, ParseIdentity(reader.bytes, old(reader.position)))
  {
    hide ParseU8, ParseU32, ParseU64;
    var kind :- reader.U8();
    var guid :- reader.U32();
    var instance :- reader.U64();
    var identity := Identity(kind, guid, instance);
    if identity.kind > CREATURE || !identity.IsValid() { return None; }
    r := Some(identity);
  }

  method ReadState(reader: Reader) returns (r: Option<CrimeState>)
    requires reader.Valid()
    modifies reader
    ensures reader.Valid() && reader.Yields(r, ParseState(reader.bytes, old(reader.position)))
  {
    hide ParseU16, ParseI32, ParseU64;
    var schema :- reader.U16();
    var bounty :- reader.I32();
    var current :- reader.I32();
    var paid :- reader.I32();
    var revision :- reader.U64();
    var state := CrimeState(schema, bounty, current, paid, revision);
    if !ValidState(state) { return None; }
    r := Some(state);
  }

  method ReadAggression(reader: Reader) returns (r: Option<Aggression>)
    requires reader.Valid()
    modifies reader
    ensures reader.Valid() && reader.Yields(r, ParseAggression(reader.bytes, old(reader.position)))
  {
    hide ParseBool, ParseI32, ParseU32;
    var evaluated :- reader.Boolean();
    var combat :- reader.Boolean();
    var baseFight :- reader.I32();
    var finalFight :- reader.I32();
    var crimeFight :- reader.I32();
    var term :- reader.U32();
    var bias :- reader.U32();
    var distance :- reader.U32();
    var distanceBias :- reader.U32();
    var alarmTerm :- reader.U32();
    var unclamped :- reader.U32();
    var fightTerm :- reader.U32();
    var a := Aggression(evaluated, combat, baseFight, finalFight, crimeFight,
                        term, bias, distance, distanceBias, alarmTerm, unclamped, fightTerm);
    if !StorableAggression(a) { return None; }
    r := Some(a);
  }

  method ReadOptionalBool(reader: Reader) returns (r: Option<Option<bool>>)
    requires reader.Valid()
    modifies reader
    ensures reader.Valid() && reader.Yields(r, ParseOptionalBool(reader.bytes, old(reader.position)))
  {
    var v :- reader.U8();
    if v > 2 { return None; }
    if v == 0 { return Some(None); }
    r := Some(Some(v == 2));
  }

  /** Once a generation cannot be read, neither can a longer list. */
  lemma {:induction false} ShortGenerations(b: Bytes, p: nat, few: nat, count: nat)
    requires few <= count && ParseGenerations(b, p, few).Malformed?
    ensures ParseGenerations(b, p, count).Malformed?
    decreases count
  {
    hide ParseGeneration;
    if few < count { ShortGenerations(b, p, few, count - 1); }
  }

  lemma {:induction false} ShortWitnesses(b: Bytes, p: nat, few: nat, count: nat)
    requires few <= count && ParseWitnesses(b, p, few).Malformed?
    ensures ParseWitnesses(b, p, count).Malformed?
    decreases count
  {
    hide ParseWitness;
    if few < count { ShortWitnesses(b, p, few, count - 1); }
  }

  method ReadGeneration(reader: Reader) returns (r: Option<CellGeneration>)
    requires reader.Valid()
    modifies reader
    ensures reader.Valid() && reader.Yields(r, ParseGeneration(reader.bytes, old(reader.position)))
  {
    hide ParseText, ParseU64;
    var cellId :- reader.String(MAX_CELL_ID);
    var generation :- reader.U64();
    r := Some(CellGeneration(cellId, generation));
  }

  method ReadGenerations(reader: Reader, count: nat) returns (r: Option<seq<CellGeneration>>)
    requires reader.Valid()
    modifies reader
    ensures reader.Valid() && reader.Yields(r, ParseGenerations(reader.bytes, old(reader.position), count))
  {
    hide ParseGeneration;
    var gs := [];
    for i := 0 to count
      invariant reader.Valid()
      invariant ParseGenerations(reader.bytes, old(reader.position), i) == Parsed(gs, reader.position)
    {
      var g := ReadGeneration(reader);
      if g.None? {
        ShortGenerations(reader.bytes, old(reader.position), i + 1, count);
        return None;
      }
      gs := gs + [g.value];
    }
    r := Some(gs);
  }

  method ReadOptionalI32(reader: Reader) returns (r: Option<Option<i32>>)
    requires reader.Valid()
    modifies reader
    ensures reader.Valid() && reader.Yields(r, ParseOptionalI32(reader.bytes, old(reader.position)))
  {
    hide ParseBool, ParseI32;
    var present :- reader.Boolean();
    if !present { return Some(None); }
    var v :- reader.I32();
    r := Some(Some(v));
  }

  method ReadOptionalU32(reader: Reader) returns (r: Option<Option<u32>>)
    requires reader.Valid()
    modifies reader
    ensures reader.Valid() && reader.Yields(r, ParseOptionalU32(reader.bytes, old(reader.position)))
  {
    hide ParseBool, ParseU32;
    var present :- reader.Boolean();
    if !present { return Some(None); }
    var v :- reader.U32();
    r := Some(Some(v));
  }

  method ReadObservationHead(reader: Reader) returns (r: Option<Observation>)
    requires reader.Valid()
    modifies reader
    ensures reader.Valid() && reader.Yields(r, ParseObservationHead(reader.bytes, old(reader.position)))
  {
    hide ParseBool, ParseU8, ParseOptionalBool, ParseOptionalI32, ParseOptionalU32, StorableObservationHead;
    var observable :- reader.Boolean();
    var lineOfSight :- ReadOptionalBool(reader);
    var awareness :- ReadOptionalBool(reader);
    var roll :- ReadOptionalI32(reader);
    var threshold :- ReadOptionalU32(reader);
    var path :- reader.U8();
    var reason :- reader.U8();
    var authority :- reader.U8();
    var o := Observation(observable, lineOfSight, awareness, roll, threshold, path, reason, authority, 0, 0, 0, 0, []);
    if !StorableObservationHead(o) { return None; }
    r := Some(o);
  }

  method ReadObservation(reader: Reader) returns (r: Option<Observation>)
    requires reader.Valid()
    modifies reader
    ensures reader.Valid() && reader.Yields(r, ParseObservation(reader.bytes, old(reader.position)))
  {
    hide ParseU32, ParseU64, ParseObservationHead, ParseGenerations;
    var o :- ReadObservationHead(reader);
    var migration :- reader.U32();
    var actorAuthority :- reader.U32();
    var observerSnapshot :- reader.U64();
    var targetSnapshot :- reader.U64();
    var count :- reader.U32();
    if count > MAX_WITNESSES { return None; }
    var gs :- ReadGenerations(reader, count);
    r := Some(o.(observerMigration := migration, observerAuthority := actorAuthority,
                 observerSnapshot := observerSnapshot, targetSnapshot := targetSnapshot, generations := gs));
  }

  method ReadOptionalObservation(reader: Reader) returns (r: Option<Option<Observation>>)
    requires reader.Valid()
    modifies reader
    ensures reader.Valid() && reader.Yields(r, ParseOptionalObservation(reader.bytes, old(reader.position)))
  {
    hide ParseBool, ParseObservation;
    var present :- reader.Boolean();
    if !present { return Some(None); }
    var observation :- ReadObservation(reader);
    r := Some(Some(observation));
  }

  method ReadWitnessHead(reader: Reader) returns (r: Option<Witness>)
    requires reader.Valid()
    modifies reader
    ensures reader.Valid() && reader.Yields(r, ParseWitnessHead(reader.bytes, old(reader.position)))
  {
    hide ParseBool, ParseU8, ParseI32, ParseIdentity;
    var identity :- ReadIdentity(reader);
    var candidate :- reader.Boolean();
    var victim :- reader.Boolean();
    var eligibility :- reader.U8();
    var alarm :- reader.I32();
    var fight :- reader.I32();
    var guard :- reader.Boolean();
    var authority :- reader.U8();
    if eligibility > RELATIONSHIP_UNKNOWN || authority > MIXED_DELEGATED { return None; }
    r := Some(Witness(identity, candidate, victim, eligibility, alarm, fight, guard, authority,
                      None, false, false, false, NO_AGGRESSION));
  }

  method ReadWitness(reader: Reader) returns (r: Option<Witness>)
    requires reader.Valid()
    modifies reader
    ensures reader.Valid() && reader.Yields(r, ParseWitness(reader.bytes, old(reader.position)))
  {
    hide ParseBool, ParseWitnessHead, ParseOptionalObservation, ParseAggression;
    var head :- ReadWitnessHead(reader);
    var observation :- ReadOptionalObservation(reader);
    var perceived :- reader.Boolean();
    var reportCapable :- reader.Boolean();
    var reported :- reader.Boolean();
    var aggression :- ReadAggression(reader);
    r := Some(head.(observation := observation, perceived := perceived, reportCapable := reportCapable,
                       reported := reported, aggression := aggression));
  }

  method ReadWitnesses(reader: Reader, count: nat) returns (r: Option<seq<Witness>>)
    requires reader.Valid()
    modifies reader
    ensures reader.Valid() && reader.Yields(r, ParseWitnesses(reader.bytes, old(reader.position), count))
  {
    hide ParseWitness;
    var ws := [];
    for i := 0 to count
      invariant reader.Valid()
      invariant ParseWitnesses(reader.bytes, old(reader.position), i) == Parsed(ws, reader.position)
    {
      var w := ReadWitness(reader);
      if w.None? {
        ShortWitnesses(reader.bytes, old(reader.position), i + 1, count);
        return None;
      }
      ws := ws + [w.value];
    }
    r := Some(ws);
  }

  method ReadResultHead(reader: Reader) returns (r: Option<CrimeResult>)
    requires reader.Valid()
    modifies reader
    ensures reader.Valid() && reader.Yields(r, ParseResultHead(reader.bytes, old(reader.position)))
  {
    hide ParseBool, ParseU8, ParseU16, ParseText;
    var magic := reader.Expect(RESULT_MAGIC);
    if !magic { return None; }
    var version :- reader.U16();
    if version != CRIME_VERSION { return None; }
    var eventId :- reader.String(MAX_REQUEST_ID);
    var crime :- reader.U8();
    var accepted :- reader.Boolean();
    var error :- reader.U16();
    if !ValidType(crime) || error > CORRUPT_STORED_RESULT { return None; }
    r := Some(CrimeResult(version, eventId, crime, accepted, error, [], false, false, false, 0, false,
                          INITIAL_STATE));
  }

  /** decodeResult: None stands for the exception that makes a stored result corrupt. */
  method DecodeResult(bytes: Bytes) returns (r: Option<CrimeResult>)
    ensures r == Decode(bytes)
  {
    hide ParseBool, ParseU32, ParseI32, ParseResultHead, ParseWitnesses, ParseState, Consistent;
    var reader := new Reader(bytes);
    var result :- ReadResultHead(reader);
    var count :- reader.U32();
    if count > MAX_WITNESSES { return None; }
    var witnesses :- ReadWitnesses(reader, count);
    var seen :- reader.Boolean();
    var run :- reader.Boolean();
    var applied :- reader.Boolean();
    var delta :- reader.I32();
    var advanced :- reader.Boolean();
    var state :- ReadState(reader);
    var finished := reader.Finish();
    if !finished { return None; }
    result := result.(witnesses := witnesses, crimeSeen := seen, reportingStageRun := run,
                      bountyApplied := applied, bountyDelta := delta, crimeIdAdvanced := advanced,
                      state := state);
    if !Consistent(result) { return None; }
    r := Some(result);
  }
}
