/** The mutation boundary: authoritative transitions prepared by the semantic service, and
  explicit bounty requests. */
module CrimeService {
  import opened Wrappers
  import opened ByteBuffers
  import opened CrimeTypes
  import opened CrimeStore
  import opened CrimeTransitions
  import opened MutationCodec

  datatype Context = Context(account: i64, character: i64, failAfterStateWrite: bool)

  datatype Transition = Transition(
    requestId: Text, hash: Bytes, source: Text, bountyDelta: i64, advance: bool,
    expectedRevision: u64, payload: Bytes)

  datatype TransitionOutcome = TransitionOutcome(status: Status, state: CrimeState, storedPayload: Bytes)

  /** The argument check of commitAuthoritativeTransition. */
  predicate ValidTransition(t: Transition, ctx: Context) {
    && ctx.account > 0 && ctx.character > 0
    && t.requestId != [] && |t.requestId| <= MAX_REQUEST_ID && NoNul(t.requestId)
    && |t.hash| == 64
    && t.source != [] && |t.source| <= MAX_SOURCE && NoNul(t.source)
    && t.bountyDelta >= 0
    && t.payload != []
  }

  /** The state that a transition persists on top of `current`; None is one of the three overflow
    exceptions. */
  function TransitionNext(t: Transition, current: CrimeState): (r: Option<CrimeState>)
    requires ValidState(current) && t.bountyDelta >= 0
    ensures r.Some? ==> ValidState(r.value)
  {
    var changes := t.bountyDelta != 0 || t.advance;
    if changes && current.revision >= MAX_REVISION then None
    else if t.bountyDelta > MAX_I32 - current.bounty then None
    else if t.advance && current.currentCrimeId == MAX_I32 then None
    else
      var crimeId := if t.advance then current.currentCrimeId + 1 else current.currentCrimeId;
      var revision := if changes then current.revision + 1 else current.revision;
      Some(CrimeState(current.schemaVersion, current.bounty + t.bountyDelta, crimeId, current.paidCrimeId, revision))
  }

  function TransitionCommit(t: Transition, ctx: Context, current: CrimeState, next: CrimeState): Commit {
    Commit(Key(EVENT_SERVICE, ctx.account, ctx.character, t.requestId), t.hash, t.payload, t.source,
           current.revision, next, ctx.failAfterStateWrite)
  }

  /** The second computation of the next state agrees with the first, given the same base; it fails exactly where a field
    would overflow, and otherwise moves the bounty, the crime id when the crime was seen, and the revision when something
    changes. What is paid stays as it was. */
  lemma TransitionAdvances(t: Transition, base: CrimeState)
    requires ValidState(base) && 0 <= t.bountyDelta <= MAX_I32
    ensures TransitionNext(t, base)
            == if EventFits(base, t.bountyDelta, t.advance) then Some(Advance(base, t.bountyDelta, t.advance)) else None
    ensures TransitionNext(t, base).None? <==>
              || base.bounty + t.bountyDelta > 0x7fff_ffff
              || (t.advance && base.currentCrimeId == 0x7fff_ffff)
              || ((t.advance || t.bountyDelta > 0) && base.revision == 0x7fff_ffff_ffff_ffff)
    ensures TransitionNext(t, base).Some? ==>
              var next := TransitionNext(t, base).value;
              && next.bounty - base.bounty == t.bountyDelta
              && next.currentCrimeId - base.currentCrimeId == (if t.advance then 1 else 0)
              && next.revision - base.revision == (if t.advance || t.bountyDelta > 0 then 1 else 0)
              && next.paidCrimeId == base.paidCrimeId && next.schemaVersion == base.schemaVersion
  {
  }

  /** What commitAuthoritativeTransition does when its load sees `seen` and its commit meets
    `before`: the reply and, if a commit is issued, that commit. */
  function TransitionSpec(t: Transition, ctx: Context, seen: Db, before: Db): (Option<TransitionOutcome>, Option<Commit>)
    requires ValidState(StateOf(seen, ctx.character))
  {
    var current := StateOf(seen, ctx.character);
    if !ValidTransition(t, ctx) || ctx.character !in seen.owners then (None, None)
    else if current.revision != t.expectedRevision then (Some(TransitionOutcome(StaleRevision, current, [])), None)
    else
      match TransitionNext(t, current)
      case None => (None, None)
      case Some(next) =>
        var c := TransitionCommit(t, ctx, current, next);
        (match CommitMutation(before, c).1
         case Thrown => None
         case Reply(status, state, stored) =>
           Some(TransitionOutcome(status, if status == Committed then next else state, stored)),
         Some(c))
  }

  /** This connection wrote nothing, or one commit, on the store `before`. */
  ghost predicate Issued(v: View, w: View, c: Option<Commit>, before: Db) {
    match c
    case None => w.own == v.own
    case Some(c) =>
      && |v.history| < |w.history| && w.own == v.own + {w.Last()} && w.history[w.Last()] == CommitWork(c)
      && before == w.At(w.Last()) && w.db == CommitMutation(before, c).0
  }

  /** `r` is None when an exception is thrown. `seen` is the store at the load and `before` the
    store at the commit; other connections may have written in between. */
  method CommitAuthoritativeTransition(database: PlayerDatabase, t: Transition, ctx: Context)
    returns (r: Option<TransitionOutcome>, ghost seen: Db, ghost before: Db)
    requires database.Valid()
    modifies database
    ensures database.Valid() && Grew(old(database.Viewed()), database.Viewed())
    ensures Later(old(database.db), seen) && ValidDb(seen) && Later(seen, before) && ValidDb(before)
    ensures Later(before, database.db)
    ensures old(database.Alone()) ==> database.Alone() && seen == old(database.db) && before == old(database.db)
    ensures r == TransitionSpec(t, ctx, seen, before).0
    ensures Issued(old(database.Viewed()), database.Viewed(), TransitionSpec(t, ctx, seen, before).1, before)
  {
    hide Grew, CommitMutation, View.Valid, WellFormed;
    if !ValidTransition(t, ctx) {
      SameMoment(database.Viewed());
      ValidViewed(database.Viewed());
      return None, database.db, database.db;
    }
    var loaded := database.LoadState(ctx.character);
    ghost var v := database.Viewed();
    GrewIsLater(old(database.Viewed()), v);
    SameMoment(v);
    seen, before := database.db, database.db;
    assert ValidDb(seen) by { ValidViewed(v); }
    if loaded.None? { return None, seen, before; }
    var current := loaded.value;
    if current.revision != t.expectedRevision {
      return Some(TransitionOutcome(StaleRevision, current, [])), seen, before;
    }
    var changes := t.bountyDelta != 0 || t.advance;
    if changes && current.revision >= MAX_REVISION { return None, seen, before; }
    if t.bountyDelta > MAX_I32 - current.bounty { return None, seen, before; }
    if t.advance && current.currentCrimeId == MAX_I32 { return None, seen, before; }

    var next := current.(bounty := current.bounty + t.bountyDelta);
    if t.advance { next := next.(currentCrimeId := next.currentCrimeId + 1); }
    if changes { next := next.(revision := next.revision + 1); }
    assert TransitionNext(t, current) == Some(next);

    var reply;
    reply, before := database.Commit(TransitionCommit(t, ctx, current, next));
    GrewTransitive(old(database.Viewed()), v, database.Viewed());
    match reply
    case Thrown => r := None;
    case Reply(status, state, stored) =>
      r := Some(TransitionOutcome(status, if status == Committed then next else state, stored));
  }

  lemma SameMoment(v: View)
    ensures Grew(v, v) && Later(v.db, v.db)
  {
  }

  lemma GrewIsLater(v: View, w: View)
    requires Grew(v, w)
    ensures Later(v.db, w.db)
  {
  }

  lemma ValidViewed(v: View)
    requires v.Valid()
    ensures ValidDb(v.db)
  {
  }

  // ----- explicit requests --------------------------------------------------------------------

  datatype ExecuteOutcome = ExecuteOutcome(result: MutationResult, replayed: bool, committed: bool)

  /** validateCrimeMutationRequest, with the UTF-8 test as a parameter. */
  function ValidateMutation(q: MutationRequest, utf8: Text -> bool): (e: u16)
    ensures e <= MUTATION_CORRUPT
  {
    if q.version != PROTOCOL_VERSION then MUTATION_UNSUPPORTED_VERSION
    else if q.requestId == [] || |q.requestId| > MAX_REQUEST_ID || !NoNul(q.requestId) || !utf8(q.requestId)
            || q.source == [] || |q.source| > MAX_SOURCE || !NoNul(q.source) || !utf8(q.source)
    then MUTATION_INVALID_REQUEST
    else if q.kind != SET_BOUNTY && q.kind != MODIFY_BOUNTY then MUTATION_INVALID_REQUEST
    else if q.expectedRevision.Some? && q.expectedRevision.value > MAX_REVISION then MUTATION_STALE_REVISION
    else MUTATION_NONE
  }

  /** The decision of execute on a loaded state: an error, or none and the next state. */
  function Decide(q: MutationRequest, state: CrimeState, utf8: Text -> bool): (d: (u16, CrimeState))
    requires ValidState(state)
    ensures ValidState(d.1) && d.0 <= MUTATION_CORRUPT
  {
    var error := ValidateMutation(q, utf8);
    if error != MUTATION_NONE then (error, state)
    else if q.expectedRevision.Some? && q.expectedRevision.value != state.revision then (MUTATION_STALE_REVISION, state)
    else if state.revision >= MAX_REVISION then (MUTATION_REVISION_OVERFLOW, state)
    else
      match RequestedBounty(state, q)
      case None => (MUTATION_INVALID_BOUNTY, state)
      case Some(bounty) => (MUTATION_NONE, Settle(state, bounty))
  }

  /** The request by itself, whatever the stored state. */
  predicate WellFormedRequest(q: MutationRequest, utf8: Text -> bool) {
    && q.version == 1 && (q.kind == 1 || q.kind == 2)
    && 1 <= |q.requestId| <= 128 && NoNul(q.requestId) && utf8(q.requestId)
    && 1 <= |q.source| <= 128 && NoNul(q.source) && utf8(q.source)
  }

  /** Made for this revision, or for any. */
  predicate MadeFor(q: MutationRequest, revision: u64) { q.expectedRevision == None || q.expectedRevision == Some(revision) }

  /** The bounty that is asked for, however large. */
  function AskedFor(q: MutationRequest, bounty: int): int { if q.kind == 1 then q.value else bounty + q.value }

  /** Exactly when a request is accepted, exactly when it gets each of the errors, and the state it leaves. The check of
    the expected revision against the largest one never matters: a stored revision is in range. */
  lemma DecisionMeaning(q: MutationRequest, state: CrimeState, utf8: Text -> bool)
    requires ValidState(state)
    ensures var (error, next) := Decide(q, state, utf8);
            var formed, current, target := WellFormedRequest(q, utf8), MadeFor(q, state.revision), AskedFor(q, state.bounty);
            && (error == MUTATION_UNSUPPORTED_VERSION <==> q.version != 1)
            && (error == MUTATION_INVALID_REQUEST <==> q.version == 1 && !formed)
            && (error == MUTATION_STALE_REVISION <==> formed && !current)
            && (error == MUTATION_REVISION_OVERFLOW <==> formed && current && state.revision == 0x7fff_ffff_ffff_ffff)
            && (error == MUTATION_INVALID_BOUNTY <==>
                  formed && current && state.revision < 0x7fff_ffff_ffff_ffff && !(0 <= target <= 0x7fff_ffff))
            && (error == MUTATION_NONE <==>
                  formed && current && state.revision < 0x7fff_ffff_ffff_ffff && 0 <= target <= 0x7fff_ffff)
            && (error == MUTATION_NONE ==> Settled(state, target, next))
  {
  }

  /** `next` is `state` with this bounty and one revision more; at zero, every crime so far is paid. */
  predicate Settled(state: CrimeState, bounty: int, next: CrimeState) {
    && next.bounty == bounty && next.revision == state.revision + 1
    && next.schemaVersion == state.schemaVersion && next.currentCrimeId == state.currentCrimeId
    && next.paidCrimeId == if bounty == 0 then state.currentCrimeId else state.paidCrimeId
  }

  /** Whether a rejection is written to the journal. */
  predicate Journaled(q: MutationRequest) {
    q.requestId != [] && |q.requestId| <= MAX_REQUEST_ID && q.source != [] && |q.source| <= MAX_SOURCE
  }

  /** The answer that a journal row prescribes for a request with this hash. */
  predicate AnsweredFrom(entry: Entry, hash: Bytes, o: ExecuteOutcome) {
    if entry.hash != hash then !o.replayed && !o.result.accepted && o.result.error == MUTATION_DUPLICATE_CONFLICT
    else if DecodeMutation(entry.payload).None? then !o.replayed && !o.result.accepted && o.result.error == MUTATION_CORRUPT
    else o.replayed && o.result == DecodeMutation(entry.payload).value
  }

  function RequestKey(q: MutationRequest, ctx: Context): Key { Key(MUTATION_SERVICE, ctx.account, ctx.character, q.requestId) }

  function Denial(q: MutationRequest, error: u16, state: CrimeState): ExecuteOutcome {
    ExecuteOutcome(MutationResult(PROTOCOL_VERSION, q.requestId, false, error, state), false, false)
  }

  /** The row of a rejected request. */
  function RowOf(q: MutationRequest, hash: Bytes, result: MutationResult): Entry {
    Entry(hash, false, result.error, EncodeMutation(result), q.source)
  }

  /** What a call writes: a commit of the request, or the rejection that it answers with. */
  ghost predicate WroteAs(work: Work, q: MutationRequest, ctx: Context, hash: Bytes, r: Option<ExecuteOutcome>) {
    match work
    case CommitWork(c) => c.key == RequestKey(q, ctx) && c.hash == hash
    case RejectWork(key, entry) =>
      && r.Some? && !r.value.committed && !r.value.replayed && !r.value.result.accepted
      && key == RequestKey(q, ctx) && entry == RowOf(q, hash, r.value.result)
  }

  ghost predicate WritesOnly(v: View, w: View, q: MutationRequest, ctx: Context, hash: Bytes, r: Option<ExecuteOutcome>) {
    forall i <- w.own :: i in v.own || (i < |w.history| && WroteAs(w.history[i], q, ctx, hash, r))
  }

  /** The last write is the commit of this request, prepared on a state that the character had, and it is
      what the outcome reports and the store now holds. */
  ghost predicate SettledAs(sha: Sha, w: View, q: MutationRequest, ctx: Context, o: ExecuteOutcome) {
    && w.history != [] && w.history[w.Last()].CommitWork?
    && var c := w.history[w.Last()].commit;
       && c.key == RequestKey(q, ctx)
       && (exists j: nat :: j < |w.history| && MadeFrom(sha, w.Load(j, ctx.character), c, Adjustment(q)))
       && o == ExecuteOutcome(MutationResult(PROTOCOL_VERSION, q.requestId, true, MUTATION_NONE, c.resulting), false, true)
       && StateOf(w.db, ctx.character) == c.resulting
  }

  /** `next` is `db` after the commit of this request on the state that `db` holds. */
  ghost predicate CommittedOn(sha: Sha, db: Db, next: Db, q: MutationRequest, ctx: Context) {
    hide MadeFrom, CommitMutation;
    exists c :: && CommitMutation(db, c).1.IsCommitted() && next == CommitMutation(db, c).0 && c.key == RequestKey(q, ctx)
                && MadeFrom(sha, StateOf(db, ctx.character), c, Adjustment(q))
  }

  /** Some state the character had between `v` and `w`. */
  ghost predicate HadState(v: View, w: View, character: i64, state: CrimeState) {
    exists j: nat :: |v.history| <= j <= |w.history| && state == w.Load(j, character)
  }

  /** The row under the key gives this answer; a refusal reports the state as it is now. */
  ghost predicate RowAnswers(db: Db, q: MutationRequest, ctx: Context, hash: Bytes, o: ExecuteOutcome) {
    && RequestKey(q, ctx) in db.journal && AnsweredFrom(db.journal[RequestKey(q, ctx)], hash, o)
    && (!o.replayed ==> o == Denial(q, o.result.error, StateOf(db, ctx.character)))
  }

  /** Why an answer is not a commit: the row under the key says so; or the request was decided against, on a
      state that the character had during the call, and the answer was journaled; or the revision has moved on during the call. */
  ghost predicate Explained(v: View, w: View, q: MutationRequest, ctx: Context, hash: Bytes, utf8: Text -> bool, o: ExecuteOutcome) {
    && !o.committed
    && (|| RowAnswers(w.db, q, ctx, hash, o)
        || (HadState(v, w, ctx.character, o.result.state) && ValidState(o.result.state)
            && Decide(q, o.result.state, utf8).0 != MUTATION_NONE
            && o == Denial(q, Decide(q, o.result.state, utf8).0, o.result.state)
            && if Journaled(q) then JournaledLast(v, w, RequestKey(q, ctx), RowOf(q, hash, o.result)) else w.own == v.own)
        || (HadState(v, w, ctx.character, o.result.state)
            && o.result.state.revision > StateOf(v.db, ctx.character).revision
            && o == Denial(q, MUTATION_STALE_REVISION, o.result.state)))
  }

  /** What makes a request fail with an exception: an unknown or foreign character, an injected failure, an
      unreadable row found by a commit that came second, or an empty hash. */
  predicate Fails(db: Db, q: MutationRequest, ctx: Context, hash: Bytes) {
    || !Owned(db, RequestKey(q, ctx)) || ctx.failAfterStateWrite || hash == []
    || (RequestKey(q, ctx) in db.journal && db.journal[RequestKey(q, ctx)].hash == hash
        && DecodeMutation(db.journal[RequestKey(q, ctx)].payload).None?)
  }

  /** A request for which nothing stands in the way. */
  ghost predicate Ready(db: Db, q: MutationRequest, ctx: Context, hash: Bytes, utf8: Text -> bool) {
    && ctx.account > 0 && ctx.character > 0 && RequestKey(q, ctx) !in db.journal && !Fails(db, q, ctx, hash)
    && ValidState(StateOf(db, ctx.character)) && Decide(q, StateOf(db, ctx.character), utf8).0 == MUTATION_NONE
  }

  lemma ExplainedFromEarlier(u: View, v: View, w: View, q: MutationRequest, ctx: Context, hash: Bytes,
                             utf8: Text -> bool, o: ExecuteOutcome)
    requires Grew(u, v) && u.own == v.own && Explained(v, w, q, ctx, hash, utf8, o)
    ensures Explained(u, w, q, ctx, hash, utf8, o)
  {
    hide Decide, RowAnswers, View.Load, AddRejection, RowOf;
    if HadState(v, w, ctx.character, o.result.state) {
      var j: nat :| |v.history| <= j <= |w.history| && o.result.state == w.Load(j, ctx.character);
      assert HadState(u, w, ctx.character, o.result.state);
    }
  }

  lemma CommitIsWellFormed(sha: Sha, c: Commit, state: CrimeState, q: MutationRequest, ctx: Context)
    requires MadeFrom(sha, state, c, Adjustment(q)) && c.key == RequestKey(q, ctx) && c.source != []
    requires ctx.account > 0 && ctx.character > 0 && q.requestId != [] && c.hash != []
    ensures WellFormed(c) && Filed(c.key) == c.key && c.resulting.revision == state.revision + 1 == c.expectedRevision + 1
  {
    hide EncodeRequest, Filed, Cut;
    assert NoNul(MUTATION_SERVICE);
  }

  /** The commit of a decided request is well-formed, so an exception means that the store refuses it. */
  lemma CommitFails(sha: Sha, before: Db, c: Commit, state: CrimeState, q: MutationRequest, ctx: Context)
    requires MadeFrom(sha, state, c, Adjustment(q)) && c.key == RequestKey(q, ctx) && c.source != []
    requires c.failAfterStateWrite == ctx.failAfterStateWrite && ctx.account > 0 && ctx.character > 0
    requires q.requestId != []
    ensures CommitMutation(before, c).1.Thrown? ==> Fails(before, q, ctx, c.hash)
    ensures (StateOf(before, ctx.character) == state && !Fails(before, q, ctx, c.hash) && c.key !in before.journal)
            ==> CommitMutation(before, c).1.IsCommitted()
  {
    hide WellFormed, Filed, MadeFrom, DecodeMutation;
    if c.hash != [] { CommitIsWellFormed(sha, c, state, q, ctx); }
  }

  lemma CommittedIsSettled(sha: Sha, loaded: View, x: View, before: Db, q: MutationRequest, ctx: Context, state: CrimeState,
                           c: Commit, o: ExecuteOutcome)
    requires Grew(loaded, x) && |loaded.history| < |x.history| && x.history[x.Last()] == CommitWork(c)
    requires state == loaded.Load(|loaded.history|, ctx.character) && MadeFrom(sha, state, c, Adjustment(q))
    requires c.key == RequestKey(q, ctx)
    requires CommitMutation(before, c).1.IsCommitted() && x.db == CommitMutation(before, c).0
    requires o == ExecuteOutcome(MutationResult(PROTOCOL_VERSION, q.requestId, true, MUTATION_NONE, c.resulting), false, true)
    ensures SettledAs(sha, x, q, ctx, o)
  {
    hide MadeFrom, CommitMutation, Later, Run;
    CommittedState(before, c);
    PastStays(loaded, x, |loaded.history|);
    assert MadeFrom(sha, x.Load(|loaded.history|, ctx.character), c, Adjustment(q));
  }

  /** The store that a commit meets is one of the moments of the call, with no smaller a revision. */
  lemma MetState(loaded: View, x: View, before: Db, character: i64)
    requires Grew(loaded, x) && loaded.Valid() && |loaded.history| < |x.history| && before == x.At(x.Last())
    requires Later(loaded.db, before)
    ensures HadState(loaded, x, character, StateOf(before, character))
    ensures StateOf(before, character).revision >= StateOf(loaded.db, character).revision
  {
    hide Run;
    assert StateOf(before, character) == x.Load(x.Last(), character);
  }

  lemma SameNow(v: View, character: i64)
    requires v.Valid()
    ensures v.Load(|v.history|, character) == StateOf(v.db, character)
    ensures HadState(v, v, character, StateOf(v.db, character))
  {
    assert v.history[..|v.history|] == v.history;
  }

  lemma OwnedStays(a: Db, b: Db, key: Key)
    requires Later(a, b)
    ensures Owned(a, key) == Owned(b, key)
    ensures key in a.journal ==> key in b.journal && b.journal[key] == a.journal[key]
  {
  }

  /** Nothing that makes a request fail goes away. */
  lemma FailsForGood(a: Db, b: Db, q: MutationRequest, ctx: Context, hash: Bytes)
    requires Later(a, b) && Fails(a, q, ctx, hash)
    ensures Fails(b, q, ctx, hash)
  {
  }

  lemma OwnInHistory(v: View)
    requires v.Valid()
    ensures forall i <- v.own :: i < |v.history|
  {
  }

  lemma DenialIsRefused(sha: Sha, q: MutationRequest, ctx: Context, result: MutationResult)
    requires Journaled(q) && ValidState(result.state) && result.version == PROTOCOL_VERSION && result.requestId == q.requestId
    requires !result.accepted && result.error <= MUTATION_CORRUPT
    ensures RefusedFrom(sha, RequestKey(q, ctx), RowOf(q, sha(EncodeRequest(q)), result), AdjustmentRefusal(q, result))
  {
    hide EncodeRequest, EncodeMutation;
  }

  /** One commit of the request, and nothing but reading before and after it. */
  lemma CommitWrites(v: View, x: View, y: View, c: Commit, q: MutationRequest, ctx: Context, hash: Bytes)
    requires Grew(x, y) && y.own == x.own && x.history != [] && x.own == v.own + {x.Last()} && x.history[x.Last()] == CommitWork(c)
    requires c.key == RequestKey(q, ctx) && c.hash == hash
    ensures forall r :: WritesOnly(v, y, q, ctx, hash, r)
  {
  }

  lemma QuietWrites(v: View, w: View, q: MutationRequest, ctx: Context, hash: Bytes, r: Option<ExecuteOutcome>)
    requires v.own == w.own
    ensures WritesOnly(v, w, q, ctx, hash, r)
  {
  }

  lemma WritesSince(u: View, v: View, w: View, q: MutationRequest, ctx: Context, hash: Bytes, r: Option<ExecuteOutcome>)
    requires u.own == v.own && WritesOnly(v, w, q, ctx, hash, r)
    ensures WritesOnly(u, w, q, ctx, hash, r)
  {
  }

  class CrimeService {
    const database: PlayerDatabase
    const sha: Sha
    const utf8: Text -> bool

    constructor (database: PlayerDatabase, sha: Sha, utf8: Text -> bool)
      ensures this.database == database && this.sha == sha && this.utf8 == utf8
    {
      this.database := database;
      this.sha := sha;
      this.utf8 := utf8;
    }

    function HashOf(q: MutationRequest): Bytes { sha(EncodeRequest(q)) }

    method Reject(q: MutationRequest, ctx: Context, error: u16, state: CrimeState) returns (o: ExecuteOutcome)
      requires database.Valid() && ValidState(state) && MUTATION_NONE != error <= MUTATION_CORRUPT
      modifies database
      ensures database.Valid() && HonestlyGrew(sha, old(database.Viewed()), database.Viewed())
      ensures OneEffect(old(database.Viewed()), database.Viewed(), false)
      ensures o == Denial(q, error, state)
      ensures if Journaled(q)
              then && database.history != [] && database.own == old(database.own) + {database.Viewed().Last()}
                   && JournaledLast(old(database.Viewed()), database.Viewed(), RequestKey(q, ctx), RowOf(q, HashOf(q), o.result))
              else database.Viewed() == old(database.Viewed())
      ensures old(database.Alone()) ==>
                && database.Alone()
                && database.db == if Journaled(q) then AddRejection(old(database.db), RequestKey(q, ctx), RowOf(q, HashOf(q), o.result))
                                  else old(database.db)
    {
      hide Grew, View.Valid, HonestlyGrew, OneEffect, EncodeMutation, EncodeRequest, AddRejection, RefusedFrom;
      var result := MutationResult(PROTOCOL_VERSION, q.requestId, false, error, state);
      o := ExecuteOutcome(result, false, false);
      if !Journaled(q) {
        SameMoment(database.Viewed());
        QuietIsHonest(sha, database.Viewed(), database.Viewed());
        return;
      }
      assert forall i <- database.own :: i < |database.history| by { OwnInHistory(database.Viewed()); }
      var entry := Entry(sha(EncodeRequest(q)), false, error, EncodeMutation(result), q.source);
      database.InsertRejected(Key(MUTATION_SERVICE, ctx.account, ctx.character, q.requestId), entry);
      DenialIsRefused(sha, q, ctx, result);
      RejectionIsHonest(sha, old(database.Viewed()), database.Viewed(), AdjustmentRefusal(q, result));
    }

    /** The answer for a request whose key is already in the journal. */
    method Replay(q: MutationRequest, ctx: Context, entry: Entry) returns (r: Option<ExecuteOutcome>)
      requires database.Valid()
      modifies database
      ensures database.Valid() && Grew(old(database.Viewed()), database.Viewed()) && database.own == old(database.own)
      ensures r.Some? ==> !r.value.committed && AnsweredFrom(entry, HashOf(q), r.value)
      ensures r.Some? && !r.value.replayed ==> r.value == Denial(q, r.value.result.error, StateOf(database.db, ctx.character))
      ensures r.None? ==> ctx.character !in database.db.owners
      ensures old(database.Alone()) ==> database.Alone()
    {
      var error := MUTATION_DUPLICATE_CONFLICT;
      if entry.hash == sha(EncodeRequest(q)) {
        var stored := DecodeMutation(entry.payload);
        if stored.Some? {
          SameMoment(database.Viewed());
          return Some(ExecuteOutcome(stored.value, true, false));
        }
        error := MUTATION_CORRUPT;
      }
      var now :- database.LoadState(ctx.character);
      r := Some(ExecuteOutcome(MutationResult(PROTOCOL_VERSION, q.requestId, false, error, now), false, false));
    }

    /** execute. None when an exception escapes. Every write is the honest commit of this request
      or a rejection; exactly a committed outcome has had an effect; a key that is in the journal
      is never executed again; and every other outcome is explained. */
    method Execute(q: MutationRequest, ctx: Context) returns (r: Option<ExecuteOutcome>)
      requires database.Valid()
      modifies database
      ensures database.Valid() && HonestlyGrew(sha, old(database.Viewed()), database.Viewed())
      ensures OneEffect(old(database.Viewed()), database.Viewed(), r.Some? && r.value.committed)
      // without an account or a character nothing is looked at
      ensures ctx.account <= 0 || ctx.character <= 0 ==>
                r == Some(Denial(q, MUTATION_UNAUTHORIZED, INITIAL_STATE)) && database.own == old(database.own)
      ensures RequestKey(q, ctx) in old(database.db.journal) ==>
                && database.own == old(database.own)
                && (r.Some? && ctx.account > 0 && ctx.character > 0 ==>
                      !r.value.committed && AnsweredFrom(old(database.db.journal)[RequestKey(q, ctx)], HashOf(q), r.value))
      // nothing is written but the commit of this request and the rejection that is answered
      ensures WritesOnly(old(database.Viewed()), database.Viewed(), q, ctx, HashOf(q), r)
      ensures r.Some? && r.value.committed ==> SettledAs(sha, database.Viewed(), q, ctx, r.value)
      ensures r.Some? && !r.value.committed && ctx.account > 0 && ctx.character > 0 ==>
                Explained(old(database.Viewed()), database.Viewed(), q, ctx, HashOf(q), utf8, r.value)
      ensures r.None? ==> Fails(database.db, q, ctx, HashOf(q))
      // undisturbed, a request that nothing stands against commits, and one that is decided against is journaled
      ensures old(database.Alone()) && Ready(old(database.db), q, ctx, HashOf(q), utf8) ==> r.Some? && r.value.committed
      ensures old(database.Alone()) && Deniable(old(database.db), q, ctx) ==> r == Some(Denied(old(database.db), q, ctx))
      ensures old(database.Alone()) && Deniable(old(database.db), q, ctx) ==> database.db == AfterDenial(old(database.db), q, ctx)
      ensures old(database.Alone()) ==> database.Alone()
      ensures old(database.Alone()) && r.Some? && r.value.committed ==> CommittedOn(sha, old(database.db), database.db, q, ctx)
    {
      hide Grew, HonestlyGrew, MadeFrom, WellFormed, ValidDb, OneEffect, Explained, SettledAs, Fails, Decide, AddRejection, WritesOnly;
      hide CommittedOn;
      ghost var v := database.Viewed();
      var key := Key(MUTATION_SERVICE, ctx.account, ctx.character, q.requestId);
      if ctx.account <= 0 || ctx.character <= 0 {
        SameMoment(v);
        QuietIsHonest(sha, v, v);
        var result := MutationResult(PROTOCOL_VERSION, q.requestId, false, MUTATION_UNAUTHORIZED, INITIAL_STATE);
        r := Some(ExecuteOutcome(result, false, false));
        QuietWrites(v, v, q, ctx, HashOf(q), r);
        return;
      }
      var existing := database.LoadRequest(key);
      ghost var w := database.Viewed();
      GrewIsLater(v, w);
      OwnedStays(v.db, w.db, key);
      if existing.Some? {
        r := Replay(q, ctx, existing.value);
        GrewTransitive(v, w, database.Viewed());
        QuietIsHonest(sha, v, database.Viewed());
        OwnedStays(w.db, database.db, key) by { GrewIsLater(w, database.Viewed()); }
        RowExplains(v, database.Viewed(), q, ctx, r);
        QuietWrites(v, database.Viewed(), q, ctx, HashOf(q), r);
        return;
      }
      r := ExecuteNew(q, ctx);
      WritesSince(v, w, database.Viewed(), q, ctx, HashOf(q), r);
      QuietIsHonest(sha, v, w);
      HonestTransitive(sha, v, w, database.Viewed());
      if r.Some? && !r.value.committed { ExplainedFromEarlier(v, w, database.Viewed(), q, ctx, HashOf(q), utf8, r.value); }
    }

    lemma RowExplains(v: View, w: View, q: MutationRequest, ctx: Context, r: Option<ExecuteOutcome>)
      requires r.Some? ==> !r.value.committed && RowAnswers(w.db, q, ctx, HashOf(q), r.value)
      requires r.None? ==> ctx.character !in w.db.owners
      ensures r.Some? ==> Explained(v, w, q, ctx, HashOf(q), utf8, r.value)
      ensures r.None? ==> Fails(w.db, q, ctx, HashOf(q))
    {}

    lemma MovedOnExplains(loaded: View, x: View, before: Db, c: Commit, q: MutationRequest, ctx: Context, o: ExecuteOutcome)
      requires CommitMutation(before, c).1.Reply? && CommitMutation(before, c).1.status == StaleRevision
      requires c.key == RequestKey(q, ctx) && c.expectedRevision == StateOf(loaded.db, ctx.character).revision
      requires HadState(loaded, x, ctx.character, StateOf(before, ctx.character))
      requires StateOf(before, ctx.character).revision >= StateOf(loaded.db, ctx.character).revision
      requires o == Denial(q, MUTATION_STALE_REVISION, CommitMutation(before, c).1.current)
      ensures Explained(loaded, x, q, ctx, HashOf(q), utf8, o)
    {
      hide HadState, RowAnswers, Decide, WellFormed, Filed;
    }

    /** A request of a known character under a fresh key that is decided against on the stored state. */
    ghost predicate Deniable(db: Db, q: MutationRequest, ctx: Context) {
      && ctx.account > 0 && ctx.character in db.owners && ctx.character > 0 && RequestKey(q, ctx) !in db.journal
      && ValidState(StateOf(db, ctx.character)) && Decide(q, StateOf(db, ctx.character), utf8).0 != MUTATION_NONE
    }

    function Denied(db: Db, q: MutationRequest, ctx: Context): ExecuteOutcome
      requires ValidState(StateOf(db, ctx.character))
    {
      Denial(q, Decide(q, StateOf(db, ctx.character), utf8).0, StateOf(db, ctx.character))
    }

    function AfterDenial(db: Db, q: MutationRequest, ctx: Context): Db
      requires ValidState(StateOf(db, ctx.character))
    {
      var state := StateOf(db, ctx.character);
      if Journaled(q) then AddRejection(db, RequestKey(q, ctx), RowOf(q, HashOf(q), Denial(q, Decide(q, state, utf8).0, state).result))
      else db
    }

    /** The part of execute after the journal lookup has found nothing. */
    method ExecuteNew(q: MutationRequest, ctx: Context) returns (r: Option<ExecuteOutcome>)
      requires database.Valid() && ctx.account > 0 && ctx.character > 0
      modifies database
      ensures database.Valid() && HonestlyGrew(sha, old(database.Viewed()), database.Viewed())
      ensures OneEffect(old(database.Viewed()), database.Viewed(), r.Some? && r.value.committed)
      ensures WritesOnly(old(database.Viewed()), database.Viewed(), q, ctx, HashOf(q), r)
      ensures r.Some? && r.value.committed ==> SettledAs(sha, database.Viewed(), q, ctx, r.value)
      ensures r.Some? && !r.value.committed ==>
                Explained(old(database.Viewed()), database.Viewed(), q, ctx, HashOf(q), utf8, r.value)
      ensures r.None? ==> Fails(database.db, q, ctx, HashOf(q))
      ensures old(database.Alone()) && Ready(old(database.db), q, ctx, HashOf(q), utf8) ==> r.Some? && r.value.committed
      ensures old(database.Alone()) && Deniable(old(database.db), q, ctx) ==> r == Some(Denied(old(database.db), q, ctx))
      ensures old(database.Alone()) && Deniable(old(database.db), q, ctx) ==> database.db == AfterDenial(old(database.db), q, ctx)
      ensures old(database.Alone()) ==> database.Alone()
      ensures old(database.Alone()) && r.Some? && r.value.committed ==> CommittedOn(sha, old(database.db), database.db, q, ctx)
    {
      hide Grew, HonestlyGrew, ValidDb, EncodeMutation, DecodeMutation, Later, OneEffect, Explained, SettledAs, AddRejection, View.Load;
      hide CommittedOn;
      ghost var v := database.Viewed();
      var loaded := database.LoadState(ctx.character);
      ghost var w := database.Viewed();
      QuietIsHonest(sha, v, w);
      SameNow(w, ctx.character);
      if loaded.None? {
        QuietWrites(v, w, q, ctx, HashOf(q), None);
        return None;
      }
      var state := loaded.value;
      var decision := MutationTarget(q, state);
      if decision.0 != MUTATION_NONE {
        var o := Reject(q, ctx, decision.0, state);
        HonestTransitive(sha, v, w, database.Viewed());
        DenialIsExplained(v, w, database.Viewed(), q, ctx, state);
        return Some(o);
      }
      r := CommitAdjustment(q, ctx, state, decision.1, w);
      WritesSince(v, w, database.Viewed(), q, ctx, HashOf(q), r);
      HonestTransitive(sha, v, w, database.Viewed());
      if r.Some? && !r.value.committed { ExplainedFromEarlier(v, w, database.Viewed(), q, ctx, HashOf(q), utf8, r.value); }
    }

    lemma DenialIsExplained(v: View, w: View, x: View, q: MutationRequest, ctx: Context, state: CrimeState)
      requires Grew(v, w) && v.own == w.own && HonestlyGrew(sha, w, x)
      requires state == w.Load(|w.history|, ctx.character) && ValidState(state)
      requires Decide(q, state, utf8).0 != MUTATION_NONE
      requires var o := Denial(q, Decide(q, state, utf8).0, state);
               if Journaled(q)
               then && x.history != [] && x.own == w.own + {x.Last()}
                    && JournaledLast(w, x, RequestKey(q, ctx), RowOf(q, HashOf(q), o.result))
               else x == w
      ensures var o := Denial(q, Decide(q, state, utf8).0, state);
              && Explained(v, x, q, ctx, HashOf(q), utf8, o) && WritesOnly(v, x, q, ctx, HashOf(q), Some(o))
    {
      hide Decide, View.Load, Later, EncodeRequest, EncodeMutation, AddRejection, RowAnswers;
      PastStays(w, x, |w.history|) by { hide View.Load; }
      LoadStays(w, x, |w.history|, ctx.character);
      assert HadState(v, x, ctx.character, state);
    }

    /** The next state of execute, and the commit of it. */
    method PrepareAdjustment(q: MutationRequest, ctx: Context, state: CrimeState, bounty: i32)
      returns (c: Commit, result: MutationResult)
      requires ValidState(state) && state.revision < MAX_REVISION && RequestedBounty(state, q) == Some(bounty)
      requires Admissible(q, state)
      ensures MadeFrom(sha, state, c, Adjustment(q))
      ensures c.key == RequestKey(q, ctx) && c.source == q.source && c.failAfterStateWrite == ctx.failAfterStateWrite
      ensures c.hash == HashOf(q) && c.expectedRevision == state.revision
      ensures result == MutationResult(PROTOCOL_VERSION, q.requestId, true, MUTATION_NONE, c.resulting)
    {
      hide EncodeMutation, EncodeRequest;
      var next := state.(bounty := bounty);
      if next.bounty == 0 { next := next.(paidCrimeId := next.currentCrimeId); }
      next := next.(revision := next.revision + 1);
      result := MutationResult(PROTOCOL_VERSION, q.requestId, true, MUTATION_NONE, next);
      var key := Key(MUTATION_SERVICE, ctx.account, ctx.character, q.requestId);
      c := Commit(key, sha(EncodeRequest(q)), EncodeMutation(result), q.source, next.revision - 1, next, ctx.failAfterStateWrite);
    }

    /** The commit of execute, for the state loaded at `loaded`. */
    method CommitAdjustment(q: MutationRequest, ctx: Context, state: CrimeState, bounty: i32, ghost loaded: View)
      returns (r: Option<ExecuteOutcome>)
      requires database.Valid() && database.Viewed() == loaded && ctx.account > 0 && ctx.character > 0
      requires ValidState(state) && state == loaded.Load(|loaded.history|, ctx.character)
      requires state.revision < MAX_REVISION && RequestedBounty(state, q) == Some(bounty)
      requires Admissible(q, state)
      modifies database
      ensures database.Valid() && HonestlyGrew(sha, loaded, database.Viewed())
      ensures OneEffect(loaded, database.Viewed(), r.Some? && r.value.committed)
      ensures WritesOnly(loaded, database.Viewed(), q, ctx, HashOf(q), r)
      ensures r.Some? && r.value.committed ==> SettledAs(sha, database.Viewed(), q, ctx, r.value)
      ensures r.Some? && !r.value.committed ==> Explained(loaded, database.Viewed(), q, ctx, HashOf(q), utf8, r.value)
      ensures r.None? ==> Fails(database.db, q, ctx, HashOf(q))
      ensures old(database.Alone()) ==> database.Alone()
      ensures old(database.Alone()) && RequestKey(q, ctx) !in loaded.db.journal && !Fails(loaded.db, q, ctx, HashOf(q)) ==>
                r.Some? && r.value.committed
      ensures old(database.Alone()) && r.Some? && r.value.committed ==> CommittedOn(sha, old(database.db), database.db, q, ctx)
    {
      hide Grew, View.Load, HonestlyGrew, ValidDb, EncodeMutation, DecodeMutation, Later, CommitMutation, OneEffect, SettledAs;
      hide MadeFrom, Run, Explained, Fails, WritesOnly;
      var c, result := PrepareAdjustment(q, ctx, state, bounty);
      var reply, before := database.Commit(c);
      ghost var x := database.Viewed();
      SameMoment(loaded);
      CommitIsHonest(sha, loaded, loaded, x, c, Adjustment(q));
      SameNow(loaded, ctx.character);
      CommitFails(sha, before, c, state, q, ctx);
      MetState(loaded, x, before, ctx.character);
      SameMoment(x);
      CommitWrites(loaded, x, x, c, q, ctx, HashOf(q));
      if reply.Thrown? {
        FailsForGood(before, x.db, q, ctx, HashOf(q));
        return None;
      }
      match reply.status
      case Committed =>
        r := Some(ExecuteOutcome(result, false, true));
        CommittedIsSettled(sha, loaded, x, before, q, ctx, state, c, r.value);
      case DuplicateRequest =>
        RowUnder(before, x.db, c, q, ctx);
        var stored := DecodeMutation(reply.storedPayload);
        if stored.None? {
          UnreadableFails(x.db, q, ctx, c.hash);
          return None;
        }
        r := Some(ExecuteOutcome(stored.value, true, false));
        RowExplains(loaded, x, q, ctx, r);
      case DuplicateConflict =>
        RowUnder(before, x.db, c, q, ctx);
        var now := database.LoadState(ctx.character);
        QuietIsHonest(sha, x, database.Viewed());
        HonestTransitive(sha, loaded, x, database.Viewed());
        OwnedStays(x.db, database.db, c.key) by { GrewIsLater(x, database.Viewed()); }
        CommitWrites(loaded, x, database.Viewed(), c, q, ctx, HashOf(q));
        if now.None? {
          RowExplains(loaded, database.Viewed(), q, ctx, None);
          return None;
        }
        r := Some(ExecuteOutcome(result.(accepted := false, error := MUTATION_DUPLICATE_CONFLICT, state := now.value),
                                 false, false));
        RowExplains(loaded, database.Viewed(), q, ctx, r);
      case StaleRevision =>
        r := Some(ExecuteOutcome(result.(accepted := false, error := MUTATION_STALE_REVISION, state := reply.current),
                                 false, false));
        MovedOnExplains(loaded, x, before, c, q, ctx, r.value);
    }

    /** The checks of execute on the loaded state, in order: the first failing one's error, or none
      and the bounty to set. */
    method MutationTarget(q: MutationRequest, state: CrimeState) returns (d: (u16, i32))
      requires ValidState(state)
      ensures d.0 == Decide(q, state, utf8).0
      ensures d.0 == MUTATION_NONE ==>
                && RequestedBounty(state, q) == Some(d.1) && state.revision < MAX_REVISION && Admissible(q, state)
    {
      var error := ValidateMutation(q, utf8);
      if error != MUTATION_NONE { return (error, 0); }
      if q.expectedRevision.Some? && q.expectedRevision.value != state.revision { return (MUTATION_STALE_REVISION, 0); }
      if state.revision >= MAX_REVISION { return (MUTATION_REVISION_OVERFLOW, 0); }
      var bounty := q.value;
      if q.kind != SET_BOUNTY {
        if q.value > MAX_I32 - state.bounty || q.value < -state.bounty { return (MUTATION_INVALID_BOUNTY, 0); }
        bounty := state.bounty + q.value;
      }
      if bounty < 0 || bounty > MAX_I32 { return (MUTATION_INVALID_BOUNTY, 0); }
      return (MUTATION_NONE, bounty);
    }
  }

  lemma LoadStays(v: View, w: View, n: nat, character: i64)
    requires Grew(v, w) && n <= |v.history|
    ensures n <= |w.history| && w.Load(n, character) == v.Load(n, character)
  {
    PastStays(v, w, n);
  }

  /** A duplicate row is still there after the commit. */
  lemma RowUnder(before: Db, after: Db, c: Commit, q: MutationRequest, ctx: Context)
    requires CommitMutation(before, c).1.Reply? && CommitMutation(before, c).1.status in {DuplicateRequest, DuplicateConflict}
    requires c.key == RequestKey(q, ctx) && NoNul(q.requestId) && Later(before, after)
    ensures c.key in before.journal && c.key in after.journal
    ensures CommitMutation(before, c).1.status == DuplicateRequest <==> after.journal[c.key].hash == c.hash
    ensures CommitMutation(before, c).1.storedPayload == after.journal[c.key].payload
  {
    RowStands(before, c);
    assert NoNul(MUTATION_SERVICE);
  }

  lemma UnreadableFails(db: Db, q: MutationRequest, ctx: Context, hash: Bytes)
    requires RequestKey(q, ctx) in db.journal && db.journal[RequestKey(q, ctx)].hash == hash
    requires DecodeMutation(db.journal[RequestKey(q, ctx)].payload).None?
    ensures Fails(db, q, ctx, hash)
  {
  }

  /** A row is filed under the request's own key exactly when the id has no NUL. */
  lemma FiledUnderItself(q: MutationRequest, ctx: Context)
    ensures Filed(RequestKey(q, ctx)) == RequestKey(q, ctx) <==> NoNul(q.requestId)
  {
    assert NoNul(MUTATION_SERVICE);
  }

  /** A request whose id holds a NUL is refused, but its rejection is filed under the part of the id before the
    NUL: the request that has this shorter id is never executed, although nothing stood in its way. */
  method NulTakesTheShorterKey(service: CrimeService, q: MutationRequest, short: MutationRequest, ctx: Context)
    returns (first: Option<ExecuteOutcome>, second: Option<ExecuteOutcome>)
    requires service.database.Valid() && service.database.Alone()
    requires !NoNul(q.requestId) && Cut(q.requestId) == short.requestId && Journaled(q)
    requires RequestKey(q, ctx) !in service.database.db.journal
    requires Ready(service.database.db, short, ctx, service.HashOf(short), service.utf8)
    requires service.HashOf(q) != service.HashOf(short)
    modifies service.database
    ensures service.database.Valid()
    ensures first.Some? && !first.value.committed && !first.value.result.accepted
    ensures second.Some? && !second.value.committed && second.value.result.error == MUTATION_DUPLICATE_CONFLICT
  {
    hide HonestlyGrew, OneEffect, EncodeRequest, DecodeMutation, EncodeMutation, Explained, View.Valid, Decide, Fails, Ready;
    ghost var db := service.database.db;
    NulIsDenied(service, db, q, short, ctx);
    first := service.Execute(q, ctx);
    DenialTakesKey(service, db, q, short, ctx);
    ghost var v := service.database.Viewed();
    second := service.Execute(short, ctx);
    RowDoesNotFail(service, db, v, service.database.Viewed(), short, ctx);
  }

  /** Undisturbed, a request for a character of this account under a fresh key, told by the request and the stored state
    alone: it commits exactly when it is well-formed, made for the stored revision or for any, the revision can grow
    and the bounty stays in range, and then the character and nobody else has the new state; for another revision it
    is refused as stale; and a refusal, whatever its error, changes nobody's state. */
  method ExecuteUndisturbed(service: CrimeService, q: MutationRequest, ctx: Context) returns (r: Option<ExecuteOutcome>)
    requires service.database.Valid() && service.database.Alone() && ctx.account > 0 && ctx.character > 0
    requires ctx.character in service.database.db.owners && service.database.db.owners[ctx.character] == ctx.account
    requires Key(MUTATION_SERVICE, ctx.account, ctx.character, q.requestId) !in service.database.db.journal
    requires !ctx.failAfterStateWrite && service.HashOf(q) != []
    modifies service.database
    ensures service.database.Valid() && r.Some? && !r.value.replayed
    ensures r.value.result.accepted <==> r.value.committed
    ensures var state := old(StateOf(service.database.db, ctx.character));
            r.value.committed <==>
              && WellFormedRequest(q, service.utf8) && MadeFor(q, state.revision)
              && state.revision < 0x7fff_ffff_ffff_ffff && 0 <= AskedFor(q, state.bounty) <= 0x7fff_ffff
    ensures var state := old(StateOf(service.database.db, ctx.character));
            r.value.committed ==> Settled(state, AskedFor(q, state.bounty), StateOf(service.database.db, ctx.character))
    ensures var state := old(StateOf(service.database.db, ctx.character));
            r.value.result.error == MUTATION_STALE_REVISION <==>
              WellFormedRequest(q, service.utf8) && !MadeFor(q, state.revision)
    ensures !r.value.committed ==> service.database.db.states == old(service.database.db.states)
    ensures r.value.result.state == StateOf(service.database.db, ctx.character)
    ensures forall other: i64 :: other != ctx.character ==>
              StateOf(service.database.db, other) == old(StateOf(service.database.db, other))
  {
    hide HonestlyGrew, OneEffect, EncodeRequest, DecodeMutation, EncodeMutation, Explained, View.Valid, Decide, Fails, Ready;
    hide SettledAs, WritesOnly, CommittedOn, Settled, WellFormedRequest, MadeFor, AskedFor;
    ghost var db := service.database.db;
    StoredIsValid(service.database.Viewed(), ctx.character);
    Undisturbed(service, db, q, ctx);
    DecisionMeaning(q, StateOf(db, ctx.character), service.utf8);
    r := service.Execute(q, ctx);
    if r.Some? && r.value.committed { CommittedOnMeaning(service.sha, db, service.database.Viewed(), q, ctx, r.value); }
  }

  lemma StoredIsValid(v: View, character: i64)
    requires v.Valid()
    ensures ValidState(StateOf(v.db, character))
  {
  }

  lemma Undisturbed(service: CrimeService, db: Db, q: MutationRequest, ctx: Context)
    requires ctx.account > 0 && ctx.character > 0 && ctx.character in db.owners && db.owners[ctx.character] == ctx.account
    requires RequestKey(q, ctx) !in db.journal && !ctx.failAfterStateWrite && service.HashOf(q) != []
    requires ValidState(StateOf(db, ctx.character))
    ensures if Decide(q, StateOf(db, ctx.character), service.utf8).0 == MUTATION_NONE
            then Ready(db, q, ctx, service.HashOf(q), service.utf8)
            else service.Deniable(db, q, ctx) && service.AfterDenial(db, q, ctx).states == db.states
  {
    hide Decide, EncodeRequest, DecodeMutation, EncodeMutation;
  }

  lemma CommittedOnMeaning(sha: Sha, db: Db, w: View, q: MutationRequest, ctx: Context, o: ExecuteOutcome)
    requires CommittedOn(sha, db, w.db, q, ctx) && SettledAs(sha, w, q, ctx, o)
    ensures var state, next := StateOf(db, ctx.character), StateOf(w.db, ctx.character);
            Settled(state, AskedFor(q, state.bounty), next) && MadeFor(q, state.revision)
            && o.result.state == next && o.result.accepted && o.result.error == MUTATION_NONE && !o.replayed
    ensures forall other: i64 :: other != ctx.character ==> StateOf(w.db, other) == StateOf(db, other)
  {
    hide EncodeRequest, EncodeMutation, DecodeMutation, WellFormed, Filed, Run;
  }

  lemma RowDoesNotFail(service: CrimeService, db: Db, v: View, w: View, q: MutationRequest, ctx: Context)
    requires HonestlyGrew(service.sha, v, w) && Ready(db, q, ctx, service.HashOf(q), service.utf8) && v.db.owners == db.owners
    requires RequestKey(q, ctx) in v.db.journal && v.db.journal[RequestKey(q, ctx)].hash != service.HashOf(q)
    ensures !Fails(w.db, q, ctx, service.HashOf(q)) && ctx.account > 0 && ctx.character > 0
  {
    hide EncodeRequest, DecodeMutation, Honest, Run, Decide;
  }

  lemma NulIsDenied(service: CrimeService, db: Db, q: MutationRequest, short: MutationRequest, ctx: Context)
    requires !NoNul(q.requestId) && RequestKey(q, ctx) !in db.journal
    requires Ready(db, short, ctx, service.HashOf(short), service.utf8)
    ensures service.Deniable(db, q, ctx)
  {
    hide EncodeRequest, DecodeMutation, RequestedBounty;
  }

  lemma DenialTakesKey(service: CrimeService, db: Db, q: MutationRequest, short: MutationRequest, ctx: Context)
    requires Cut(q.requestId) == short.requestId && Journaled(q)
    requires Ready(db, short, ctx, service.HashOf(short), service.utf8)
    ensures RequestKey(short, ctx) in service.AfterDenial(db, q, ctx).journal
    ensures service.AfterDenial(db, q, ctx).journal[RequestKey(short, ctx)].hash == service.HashOf(q)
    ensures service.AfterDenial(db, q, ctx).owners == db.owners
  {
    hide EncodeRequest, DecodeMutation, EncodeMutation, Decide;
    assert NoNul(MUTATION_SERVICE);
  }
}
