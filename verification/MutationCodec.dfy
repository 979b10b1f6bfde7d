/** Requests and results of explicit bounty changes: the OMCQ and OMCR encodings. */
module MutationCodec {
  import opened Wrappers
  import opened ByteBuffers
  import opened CrimeTypes
  import opened CrimeCodec
  import IntentCodec

  const PROTOCOL_VERSION: u16 := 1

  // CrimeMutationKind
  const SET_BOUNTY: u8 := 1
  const MODIFY_BOUNTY: u8 := 2

  // CrimeError
  const MUTATION_NONE: u16 := 0
  const MUTATION_INVALID_REQUEST: u16 := 1
  const MUTATION_UNSUPPORTED_VERSION: u16 := 2
  const MUTATION_STALE_REVISION: u16 := 3
  const MUTATION_INVALID_BOUNTY: u16 := 4
  const MUTATION_UNAUTHORIZED: u16 := 6
  const MUTATION_DUPLICATE_CONFLICT: u16 := 7
  const MUTATION_REVISION_OVERFLOW: u16 := 10
  const MUTATION_CORRUPT: u16 := 11

  datatype MutationRequest = MutationRequest(
    version: u16, requestId: Text, kind: u8, value: i64, expectedRevision: Option<u64>, source: Text)

  datatype MutationResult = MutationResult(
    version: u16, requestId: Text, accepted: bool, error: u16, state: CrimeState)

  /** "OMCQ" and "OMCR". */
  const REQUEST_MAGIC: Bytes := [0x4f, 0x4d, 0x43, 0x51]
  const RESULT_MAGIC: Bytes := [0x4f, 0x4d, 0x43, 0x52]

  function PutOptionalU64(acc: Bytes, o: Option<u64>): (r: Bytes)
    ensures acc <= r
  {
    match o
    case None => PutBool(acc, false)
    case Some(v) => PutU64(PutBool(acc, true), v)
  }

  function EncodeRequest(q: MutationRequest): Bytes {
    PutText(PutOptionalU64(IntentCodec.PutI64(PutU8(PutText(PutU16(REQUEST_MAGIC,
      q.version), q.requestId), q.kind), q.value), q.expectedRevision), q.source)
  }

  /** Two requests with the same encoding, hence the same hash, are the same request. */
  lemma EncodeRequestInjective(v: MutationRequest, w: MutationRequest)
    requires EncodeRequest(v) == EncodeRequest(w)
    ensures v == w
  {
    hide PutBool, PutU8, PutU16, PutU64, PutText, IntentCodec.PutI64;
    var b := EncodeRequest(v);
    IntentCodec.U16Same(REQUEST_MAGIC, v.version, w.version, b);
    var a := PutU16(REQUEST_MAGIC, v.version);
    IntentCodec.TextSame(a, v.requestId, w.requestId, b);
    a := PutText(a, v.requestId);
    IntentCodec.U8Same(a, v.kind, w.kind, b);
    a := PutU8(a, v.kind);
    IntentCodec.I64Same(a, v.value, w.value, b);
    a := IntentCodec.PutI64(a, v.value);
    IntentCodec.BoolSame(a, v.expectedRevision.Some?, w.expectedRevision.Some?, b);
    if v.expectedRevision.Some? {
      IntentCodec.U64Same(PutBool(a, true), v.expectedRevision.value, w.expectedRevision.value, b);
    }
    a := PutOptionalU64(a, v.expectedRevision);
    IntentCodec.TextSame(a, v.source, w.source, b);
  }

  predicate StorableMutation(r: MutationResult) {
    r.version == PROTOCOL_VERSION && |r.requestId| <= MAX_REQUEST_ID && r.error <= MUTATION_CORRUPT
    && ValidState(r.state)
  }

  function PutMutation(acc: Bytes, r: MutationResult): (s: Bytes)
    ensures acc <= s
  {
    PutState(PutU16(PutBool(PutText(PutU16(acc + RESULT_MAGIC, r.version), r.requestId), r.accepted), r.error),
             r.state)
  }

  function EncodeMutation(r: MutationResult): Bytes { PutMutation([], r) }

  function ParseMutation(b: Bytes): Parse<MutationResult>
  {
    if !(RESULT_MAGIC <= b) then Malformed
    else
      var (version, p) :- ParseU16(b, |RESULT_MAGIC|);
      if version != PROTOCOL_VERSION then Malformed
      else
        var (requestId, p) :- ParseText(b, p, MAX_REQUEST_ID);
        var (accepted, p) :- ParseBool(b, p);
        var (error, p) :- ParseU16(b, p);
        if error > MUTATION_CORRUPT then Malformed
        else
          var (state, p) :- ParseState(b, p);
          Parsed(MutationResult(version, requestId, accepted, error, state), p)
  }

  function DecodeMutation(b: Bytes): Option<MutationResult> {
    match ParseMutation(b)
    case Malformed => None
    case Parsed(r, q) => if q == |b| then Some(r) else None
  }

  /** The round trip; a result survives exactly when it is within the stored limits. */
  lemma DecodeEncodeMutation(r: MutationResult)
    ensures DecodeMutation(EncodeMutation(r)) == Some(r) <==> StorableMutation(r)
  {
    hide ParseMutation, PutMutation;
    EncodeDecodeMutation(EncodeMutation(r));
    if StorableMutation(r) { MutationReads(r); }
  }

  lemma MutationReads(r: MutationResult)
    requires StorableMutation(r)
    ensures DecodeMutation(EncodeMutation(r)) == Some(r)
  {
    hide PutBool, PutU16, PutText, PutState, ParseBool, ParseU16, ParseText, ParseState, ValidState;
    var b := EncodeMutation(r);
    assert [] + RESULT_MAGIC == RESULT_MAGIC == b[..4];
    U16Reads(b, 4, r.version);
    TextReads(b, 6, r.requestId, MAX_REQUEST_ID);
    var p := 10 + |r.requestId|;
    BoolReads(b, p, r.accepted);
    U16Reads(b, p + 1, r.error);
    StateReads(b, p + 3, r.state);
  }

  /** The only payload that decodes to `r` is the encoding of `r`. */
  lemma EncodeDecodeMutation(b: Bytes)
    ensures DecodeMutation(b).Some?
            ==> EncodeMutation(DecodeMutation(b).value) == b && StorableMutation(DecodeMutation(b).value)
  {
    hide PutBool, PutU16, PutText, PutState, ParseBool, ParseU16, ParseText, ParseState, ValidState;
    if ParseMutation(b).Parsed? {
      assert [] + RESULT_MAGIC == RESULT_MAGIC == b[..4];
      U16WasPut(b, 4);
      TextWasPut(b, 6, MAX_REQUEST_ID);
      var p := ParseText(b, 6, MAX_REQUEST_ID).next;
      BoolWasPut(b, p);
      U16WasPut(b, p + 1);
      StateWasPut(b, p + 3);
      assert b[..|b|] == b;
    }
  }
}
