/** How one committed request changes a character's crime state, and which commits the two crime
  services issue. */
module CrimeTransitions {
  import opened Wrappers
  import opened ByteBuffers
  import opened CrimeTypes
  import opened CrimeStore
  import CrimeCodec
  import IntentCodec
  import opened MutationCodec

  /** "crime-event" and "crime". */
  const EVENT_SERVICE: Text := [0x63, 0x72, 0x69, 0x6d, 0x65, 0x2d, 0x65, 0x76, 0x65, 0x6e, 0x74]
  const MUTATION_SERVICE: Text := [0x63, 0x72, 0x69, 0x6d, 0x65]

  /** The three overflow guards of an event. */
  predicate EventFits(base: CrimeState, delta: i32, advance: bool) {
    && !(advance && base.currentCrimeId == MAX_I32)
    && base.bounty + delta <= MAX_I32
    && !((advance || delta != 0) && base.revision >= MAX_REVISION)
  }

  /** The state after an event with this bounty and, when seen, one more crime id. */
  function Advance(base: CrimeState, delta: i32, advance: bool): (next: CrimeState)
    requires ValidState(base) && delta >= 0 && EventFits(base, delta, advance)
    ensures ValidState(next)
  {
    base.(bounty := base.bounty + delta,
          currentCrimeId := if advance then base.currentCrimeId + 1 else base.currentCrimeId,
          revision := if advance || delta != 0 then base.revision + 1 else base.revision)
  }

  /** The bounty an explicit request asks for; None when it leaves 0..2^31-1. */
  function RequestedBounty(base: CrimeState, q: MutationRequest): (r: Option<i32>)
    ensures r.Some? ==> 0 <= r.value
  {
    var target := if q.kind == SET_BOUNTY then q.value else base.bounty + q.value;
    if 0 <= target <= MAX_I32 then Some(target) else None
  }

  /** Paying the bounty off to zero also settles every crime recorded so far. */
  function Settle(base: CrimeState, bounty: i32): CrimeState
    requires base.revision < MAX_REVISION
  {
    base.(bounty := bounty,
          paidCrimeId := if bounty == 0 then base.currentCrimeId else base.paidCrimeId,
          revision := base.revision + 1)
  }

  /** A bounty request that nothing about itself stands against, made for the revision of `base` or for any. */
  predicate Admissible(q: MutationRequest, base: CrimeState) {
    && q.version == 1 && (q.kind == 1 || q.kind == 2)
    && 1 <= |q.requestId| <= 128 && NoNul(q.requestId) && 1 <= |q.source| <= 128 && NoNul(q.source)
    && (q.expectedRevision == None || q.expectedRevision == Some(base.revision))
  }

  /** The request behind a commit: an intent with the result that was judged for it, or a bounty request. */
  datatype Cause = Event(intent: Intent, result: CrimeResult) | Adjustment(request: MutationRequest)

  /** SHA-256 in hexadecimal. */
  type Sha = Bytes -> Bytes

  /** What is hashed into the request hash. */
  function Preimage(cause: Cause): Bytes {
    match cause
    case Event(n, _) => IntentCodec.EncodeIntent(n)
    case Adjustment(q) => EncodeRequest(q)
  }

  /** `c` is the commit that the service for `cause` issues after loading `base`. */
  ghost predicate MadeFrom(sha: Sha, base: CrimeState, c: Commit, cause: Cause) {
    hide Preimage, CrimeCodec.Encode, EncodeMutation;
    && c.expectedRevision == base.revision
    && c.hash == sha(Preimage(cause))
    && NoNul(c.key.requestId)
    && match cause
       case Event(n, r) =>
         && c.key.service == EVENT_SERVICE && c.key.requestId == n.eventId && c.source == n.source
         && c.payload == CrimeCodec.Encode(r)
         && r.accepted && CrimeCodec.Consistent(r) && r.crime == n.crime
         && ValidState(base) && EventFits(base, r.bountyDelta, r.crimeIdAdvanced)
         && c.resulting == r.state == Advance(base, r.bountyDelta, r.crimeIdAdvanced)
       case Adjustment(q) =>
         && c.key.service == MUTATION_SERVICE && c.key.requestId == q.requestId && c.source == q.source
         && Admissible(q, base) && ValidState(base) && base.revision < MAX_REVISION
         && RequestedBounty(base, q).Some?
         && c.resulting == Settle(base, RequestedBounty(base, q).value)
         && c.payload == EncodeMutation(MutationResult(PROTOCOL_VERSION, q.requestId, true, MUTATION_NONE, c.resulting))
  }

  /** The request behind a rejection row, with the rejected result that the row holds. */
  datatype Refusal = EventRefusal(intent: Intent, result: CrimeResult) | AdjustmentRefusal(request: MutationRequest, answer: MutationResult)

  /** `entry` is the row that the service for the request writes when it answers with this rejected result. */
  ghost predicate RefusedFrom(sha: Sha, key: Key, entry: Entry, refusal: Refusal) {
    hide Preimage, CrimeCodec.Encode, EncodeMutation, IntentCodec.EncodeIntent, EncodeRequest;
    && !entry.accepted
    && match refusal
       case EventRefusal(n, r) =>
         && key.service == EVENT_SERVICE && key.requestId == n.eventId && |n.eventId| <= MAX_REQUEST_ID && NoNul(n.eventId)
         && entry.hash == sha(IntentCodec.EncodeIntent(n))
         && r.version == CRIME_VERSION && r.eventId == n.eventId && !r.accepted
         && entry.error == r.error && entry.payload == CrimeCodec.Encode(r)
       case AdjustmentRefusal(q, m) =>
         && key.service == MUTATION_SERVICE && key.requestId == q.requestId
         && entry.hash == sha(EncodeRequest(q))
         && StorableMutation(m) && m.requestId == q.requestId && !m.accepted
         && entry.error == m.error && entry.payload == EncodeMutation(m)
  }

  /** Entry `i` of the history was issued by one of the crime services: a commit, from a state that the
    character had at some earlier moment, or the rejection of a request. */
  ghost predicate Honest(sha: Sha, v: View, i: nat)
    requires i < |v.history|
  {
    match v.history[i]
    case RejectWork(key, entry) => exists refusal :: RefusedFrom(sha, key, entry, refusal)
    case CommitWork(c) => exists j: nat, cause :: j <= i && MadeFrom(sha, v.Load(j, c.key.character), c, cause)
  }

  /** `v` became `w`, and whatever this connection wrote meanwhile is honest. */
  ghost predicate HonestlyGrew(sha: Sha, v: View, w: View) {
    && Grew(v, w)
    && forall i <- w.own :: i in v.own || (i < |w.history| && Honest(sha, w, i))
  }

  /** Entry `i` is a commit that took effect; every other entry leaves the crime states alone. */
  ghost predicate Succeeded(w: View, i: nat)
    requires i < |w.history|
  {
    w.history[i].CommitWork? && CommitMutation(w.At(i), w.history[i].commit).1.IsCommitted()
  }

  /** The commits of this connection that took effect between `v` and `w`. */
  ghost function Effects(v: View, w: View): set<nat> {
    set i | i in w.own && i !in v.own && i < |w.history| && Succeeded(w, i)
  }

  /** Of this connection's writes between `v` and `w`, exactly the last took effect, or none did. */
  ghost predicate OneEffect(v: View, w: View, done: bool) {
    if done then w.history != [] && Effects(v, w) == {w.Last()} else Effects(v, w) == {}
  }

  /** The last write is this connection's rejection, made between `v` and `w`. */
  ghost predicate JournaledLast(v: View, w: View, key: Key, entry: Entry) {
    && w.history != [] && w.Last() in w.own && w.Last() !in v.own
    && w.history[w.Last()] == RejectWork(key, entry) && w.db == AddRejection(w.At(w.Last()), key, entry)
  }

  /** Later writes do not change where an earlier one came from, nor whether it took effect. */
  lemma StillHonest(sha: Sha, v: View, w: View, i: nat)
    requires Grew(v, w) && i < |v.history|
    ensures i < |w.history| && w.history[i] == v.history[i]
    ensures Honest(sha, v, i) ==> Honest(sha, w, i)
    ensures Succeeded(v, i) == Succeeded(w, i)
  {
    hide CommitMutation, MadeFrom, RefusedFrom, Later, Run;
    PastStays(v, w, i);
    if Honest(sha, v, i) && v.history[i].CommitWork? {
      var c := v.history[i].commit;
      var j: nat, cause :| j <= i && MadeFrom(sha, v.Load(j, c.key.character), c, cause);
      PastStays(v, w, j);
      assert MadeFrom(sha, w.Load(j, c.key.character), c, cause);
    }
  }

  lemma HonestTransitive(sha: Sha, v: View, w: View, x: View)
    requires HonestlyGrew(sha, v, w) && HonestlyGrew(sha, w, x) && w.Valid()
    ensures HonestlyGrew(sha, v, x)
    ensures OneEffect(v, w, false) && OneEffect(w, x, true) ==> OneEffect(v, x, true)
    ensures OneEffect(v, w, false) && OneEffect(w, x, false) ==> OneEffect(v, x, false)
  {
    hide CommitMutation, MadeFrom, Later, Run, Honest, Succeeded, ValidDb;
    GrewTransitive(v, w, x);
    forall i <- w.own
      ensures i < |x.history| && (Honest(sha, w, i) ==> Honest(sha, x, i)) && Succeeded(w, i) == Succeeded(x, i)
    {
      StillHonest(sha, w, x, i);
    }
    assert Effects(v, x) == Effects(v, w) + Effects(w, x);
  }

  /** Reading writes nothing. */
  lemma QuietIsHonest(sha: Sha, v: View, w: View)
    requires Grew(v, w) && v.own == w.own
    ensures HonestlyGrew(sha, v, w) && OneEffect(v, w, false)
  {
  }

  lemma RejectionIsHonest(sha: Sha, v: View, w: View, refusal: Refusal)
    requires Grew(v, w) && |v.history| < |w.history| && w.own == v.own + {w.Last()}
    requires w.history[w.Last()].RejectWork?
    requires RefusedFrom(sha, w.history[w.Last()].key, w.history[w.Last()].entry, refusal)
    ensures HonestlyGrew(sha, v, w) && OneEffect(v, w, false)
  {
    hide RefusedFrom, Later, Run;
  }

  /** Committing what was made from the state loaded at `loaded` is honest, whatever others wrote
    in between. */
  lemma CommitIsHonest(sha: Sha, loaded: View, v: View, w: View, c: Commit, cause: Cause)
    requires Grew(loaded, v) && Grew(v, w) && |v.history| < |w.history| && w.own == v.own + {w.Last()}
    requires w.history[w.Last()] == CommitWork(c) && forall i <- v.own :: i < |v.history|
    requires MadeFrom(sha, loaded.Load(|loaded.history|, c.key.character), c, cause)
    ensures HonestlyGrew(sha, v, w)
    ensures OneEffect(v, w, CommitMutation(w.At(w.Last()), c).1.IsCommitted())
  {
    hide Run, Later, MadeFrom, ValidDb, CommitMutation;
    GrewTransitive(loaded, v, w);
    PastStays(loaded, w, |loaded.history|);
    assert MadeFrom(sha, w.Load(|loaded.history|, c.key.character), c, cause);
    assert Succeeded(w, w.Last()) == CommitMutation(w.At(w.Last()), c).1.IsCommitted();
  }
}
