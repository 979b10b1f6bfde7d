/** CrimeSemanticService::evaluate: replay, judgement, and the compare-and-commit loop. */
module CrimeSemantics {
  import opened Wrappers
  import opened ByteBuffers
  import opened CrimeTypes
  import opened CrimeCodec
  import opened CrimeStore
  import opened CrimeTransitions
  import opened CrimeJudgement
  import CrimeCodecMethods
  import IntentCodec
  import CrimeService

  datatype Context = Context(
    account: i64, character: i64, playerGuid: u32, failAfterStateWrite: bool,
    deferCommit: bool, startingState: Option<CrimeState>)

  datatype Outcome = Outcome(result: CrimeResult, replayed: bool, committed: bool, pending: Option<Commit>)

  /** One round of the commit loop: an answer (None for an escaping exception), or a stale revision. */
  datatype Round = Answer(outcome: Option<Outcome>) | Stale

  function EventKey(n: Intent, ctx: Context): Key { Key(EVENT_SERVICE, ctx.account, ctx.character, n.eventId) }

  /** The reject lambda writes a journal row only for a well-formed id and source. */
  predicate Journaled(n: Intent) {
    && n.eventId != [] && |n.eventId| <= MAX_REQUEST_ID && NoNul(n.eventId)
    && n.source != [] && |n.source| <= MAX_SOURCE && NoNul(n.source)
  }

  function Rejection(r: CrimeResult, error: u16): CrimeResult { r.(accepted := false, error := error) }

  /** What makes an evaluation fail with an exception: an unknown or foreign character, or an
    injected database failure. */
  predicate StoreRefuses(db: Db, ctx: Context) {
    !Owned(db, Key(EVENT_SERVICE, ctx.account, ctx.character, [])) || ctx.failAfterStateWrite
  }

  /** An accepted judgement fits on a state when none of the overflow guards stops it. */
  predicate Fits(judged: CrimeResult, base: CrimeState) {
    ValidState(base) && judged.bountyDelta >= 0 && EventFits(base, judged.bountyDelta, judged.crimeIdAdvanced)
  }

  /** The accepted result on the state `base`. */
  function On(judged: CrimeResult, base: CrimeState): CrimeResult
    requires Fits(judged, base)
  {
    judged.(state := Advance(base, judged.bountyDelta, judged.crimeIdAdvanced))
  }

  /** The commit for an accepted judgement on the state `base`, deferred or not. */
  function IssueOn(n: Intent, ctx: Context, hash: Bytes, base: CrimeState, judged: CrimeResult): Commit
    requires Fits(judged, base)
  {
    var result := On(judged, base);
    Commit(EventKey(n, ctx), hash, Encode(result), n.source, base.revision, result.state, ctx.failAfterStateWrite)
  }

  /** The last write was the commit for the judgement, on the state which that commit met: the journal row
    holds the result, and the result holds what the character's stored state now is. */
  ghost predicate CommittedAs(v: View, n: Intent, ctx: Context, hash: Bytes, judged: CrimeResult, o: Outcome) {
    && v.history != []
    && var met := v.Load(v.Last(), ctx.character);
       && Fits(judged, met) && v.history[v.Last()] == CommitWork(IssueOn(n, ctx, hash, met, judged))
       && o == Outcome(On(judged, met), false, true, None)
       && EventKey(n, ctx) !in v.At(v.Last()).journal
       && EventKey(n, ctx) in v.db.journal
       && v.db.journal[EventKey(n, ctx)] == Entry(hash, true, 0, Encode(o.result), n.source)
       && o.result.state == StateOf(v.db, ctx.character)
  }

  /** A state that the evaluation starts from: the given one, or one that the character had meanwhile. */
  ghost predicate Started(v: View, w: View, ctx: Context, base: CrimeState) {
    if ctx.deferCommit && ctx.startingState.Some? then base == ctx.startingState.value
    else CrimeService.HadState(v, w, ctx.character, base)
  }

  ghost predicate PendingOn(n: Intent, ctx: Context, hash: Bytes, judged: CrimeResult, base: CrimeState, o: Outcome) {
    Fits(judged, base) && o == Outcome(On(judged, base), false, false, Some(IssueOn(n, ctx, hash, base, judged)))
  }

  /** A prepared commit is what an immediate evaluation would have issued on the state that the
    evaluation started from. */
  ghost predicate PendingFrom(v: View, w: View, n: Intent, ctx: Context, hash: Bytes, judged: CrimeResult, o: Outcome) {
    exists base :: Started(v, w, ctx, base) && PendingOn(n, ctx, hash, judged, base, o)
  }

  /** The answer that a journal row prescribes for a request with this hash. */
  ghost predicate AnsweredFrom(entry: Entry, hash: Bytes, o: Outcome) {
    && !o.committed && o.pending == None
    && if entry.hash != hash then o.result.error == DUPLICATE_CONFLICT && !o.replayed
       else if Decode(entry.payload).None? then o.result.error == CORRUPT_STORED_RESULT && !o.replayed
       else o.result == Decode(entry.payload).value && o.replayed
  }

  /** The row under the key gives this answer; a refusal reports the state as it is now. */
  ghost predicate RowAnswers(db: Db, n: Intent, ctx: Context, hash: Bytes, judged: CrimeResult, o: Outcome) {
    && EventKey(n, ctx) in db.journal && AnsweredFrom(db.journal[EventKey(n, ctx)], hash, o)
    && (!o.replayed ==>
          || o.result == Blank(n).(error := o.result.error, state := StateOf(db, ctx.character))
          || (judged.accepted
              && o.result == Rejection(judged, o.result.error).(state := StateOf(db, ctx.character))))
  }

  /** The answer to a judgement that does not go through on the state `base`. */
  function RefusedOn(judged: CrimeResult, base: CrimeState): CrimeResult {
    if judged.accepted then Rejection(judged, STATE_OVERFLOW).(state := base) else judged.(state := base)
  }

  /** The row of a rejected event. */
  function RowOf(n: Intent, hash: Bytes, rejected: CrimeResult): Entry {
    Entry(hash, false, rejected.error, Encode(rejected), n.source)
  }

  /** What an evaluation writes: commits of the event, or the rejection that it answers with. */
  ghost predicate WroteAs(work: Work, n: Intent, ctx: Context, hash: Bytes, r: Option<Outcome>) {
    match work
    case CommitWork(c) => c.key == EventKey(n, ctx) && c.hash == hash
    case RejectWork(key, entry) =>
      && r.Some? && !r.value.committed && !r.value.replayed && r.value.pending == None && !r.value.result.accepted
      && key == EventKey(n, ctx) && entry == RowOf(n, hash, r.value.result)
  }

  ghost predicate WritesOnly(v: View, w: View, n: Intent, ctx: Context, hash: Bytes, r: Option<Outcome>) {
    forall i <- w.own :: i in v.own || (i < |w.history| && WroteAs(w.history[i], n, ctx, hash, r))
  }

  /** Why an answer is neither a commit nor a pending one: the row under the key says so; or the judgement
    rejects, or does not fit on a state that the evaluation started from, and the answer was journaled; or the
    revision has moved on in each of the three rounds. */
  ghost predicate Explained(v: View, w: View, n: Intent, ctx: Context, hash: Bytes, judged: CrimeResult, o: Outcome) {
    || RowAnswers(w.db, n, ctx, hash, judged, o)
    || (&& Started(v, w, ctx, o.result.state) && !(judged.accepted && Fits(judged, o.result.state))
        && o == Outcome(RefusedOn(judged, o.result.state), false, false, None)
        && if Journaled(n) then JournaledLast(v, w, EventKey(n, ctx), RowOf(n, hash, o.result)) else w.own == v.own)
    || (&& judged.accepted && !ctx.deferCommit
        && o == Outcome(Rejection(judged, STALE_REVISION).(state := StateOf(w.db, ctx.character)), false, false, None)
        && o.result.state.revision >= StateOf(v.db, ctx.character).revision + 3)
  }

  /** The state that an undisturbed evaluation starts from. */
  function BaseOf(db: Db, ctx: Context): Option<CrimeState> {
    if ctx.deferCommit && ctx.startingState.Some? then ctx.startingState
    else if ctx.character in db.owners then Some(StateOf(db, ctx.character))
    else None
  }

  predicate Authorized(ctx: Context) { ctx.account > 0 && ctx.character > 0 && ctx.playerGuid != 0 }

  /** A first evaluation of an event that the store does not refuse. */
  ghost predicate Fresh(db: Db, n: Intent, ctx: Context) {
    && Authorized(ctx) && EventKey(n, ctx) !in db.journal
    && BaseOf(db, ctx).Some? && ValidState(BaseOf(db, ctx).value)
    && (ctx.deferCommit || !StoreRefuses(db, ctx))
  }

  function AfterRejection(db: Db, n: Intent, ctx: Context, hash: Bytes, rejected: CrimeResult): Db {
    if Journaled(n) then AddRejection(db, EventKey(n, ctx), RowOf(n, hash, rejected)) else db
  }

  /** What a first evaluation does when no other connection writes. */
  ghost function Undisturbed(db: Db, n: Intent, ctx: Context, hash: Bytes, judged: CrimeResult): (Db, Outcome)
    requires BaseOf(db, ctx).Some?
  {
    var base := BaseOf(db, ctx).value;
    if !judged.accepted || !Fits(judged, base) then
      var refused := RefusedOn(judged, base);
      (AfterRejection(db, n, ctx, hash, refused), Outcome(refused, false, false, None))
    else if ctx.deferCommit then
      (db, Outcome(On(judged, base), false, false, Some(IssueOn(n, ctx, hash, base, judged))))
    else
      (CommitMutation(db, IssueOn(n, ctx, hash, base, judged)).0, Outcome(On(judged, base), false, true, None))
  }

  ghost predicate WentUndisturbed(before: Db, after: Db, n: Intent, ctx: Context, hash: Bytes, judged: CrimeResult, r: Option<Outcome>) {
    Fresh(before, n, ctx) ==>
      && r == Some(Undisturbed(before, n, ctx, hash, judged).1)
      && after == Undisturbed(before, n, ctx, hash, judged).0
  }

  /** The round has committed. */
  predicate Done(round: Round) { round.Answer? && round.outcome.Some? && round.outcome.value.committed }

  /** The answer is a prepared commit. */
  predicate Pending(r: Option<Outcome>) { r.Some? && r.value.pending.Some? }

  function OutcomeOf(round: Round): Option<Outcome> { if round.Answer? then round.outcome else None }

  /** The shape of every answer of an authorized evaluation. */
  ghost predicate Answered(v: View, w: View, n: Intent, ctx: Context, hash: Bytes, judged: CrimeResult, o: Outcome) {
    if o.committed then !ctx.deferCommit && judged.accepted && CommittedAs(w, n, ctx, hash, judged, o)
    else if o.pending.Some? then ctx.deferCommit && judged.accepted && PendingFrom(v, w, n, ctx, hash, judged, o)
    else Explained(v, w, n, ctx, hash, judged, o)
  }

  lemma AnsweredFromEarlier(u: View, v: View, w: View, n: Intent, ctx: Context, hash: Bytes, judged: CrimeResult, o: Outcome)
    requires Grew(u, v) && (Journaled(n) || u.own == v.own) && Answered(v, w, n, ctx, hash, judged, o)
    ensures Answered(u, w, n, ctx, hash, judged, o)
  {
    hide RowOf, AddRejection, Journaled, RowAnswers, Fits, CommittedAs, PendingOn, IssueOn, On, RefusedOn, View.Load, Rejection;
    forall base | Started(v, w, ctx, base)
      ensures Started(u, w, ctx, base)
    {
      if !(ctx.deferCommit && ctx.startingState.Some?) {
        var j: nat :| |v.history| <= j <= |w.history| && base == w.Load(j, ctx.character);
        assert CrimeService.HadState(u, w, ctx.character, base);
      }
    }
  }

  /** A result made for this intent. */
  predicate OfIntent(n: Intent, r: CrimeResult) { r.version == CRIME_VERSION && r.eventId == n.eventId && r.crime == n.crime }

  /** The only write between `v` and `w` is this rejection, when it can be journaled at all. */
  ghost predicate RejectedAs(v: View, w: View, n: Intent, ctx: Context, hash: Bytes, rejected: CrimeResult) {
    if Journaled(n)
    then w.history != [] && w.own == v.own + {w.Last()} && JournaledLast(v, w, EventKey(n, ctx), RowOf(n, hash, rejected))
    else w == v
  }

  lemma RejectionIsRefused(sha: Sha, n: Intent, ctx: Context, rejected: CrimeResult)
    requires Journaled(n) && !rejected.accepted && OfIntent(n, rejected)
    ensures RefusedFrom(sha, EventKey(n, ctx), RowOf(n, sha(IntentCodec.EncodeIntent(n)), rejected), EventRefusal(n, rejected))
  {
    hide Encode, IntentCodec.EncodeIntent;
  }

  lemma QuietWrites(v: View, w: View, n: Intent, ctx: Context, hash: Bytes)
    requires v.own == w.own
    ensures forall r :: WritesOnly(v, w, n, ctx, hash, r)
  {
  }

  lemma WritesThen(u: View, v: View, w: View, n: Intent, ctx: Context, hash: Bytes, r: Option<Outcome>)
    requires WritesOnly(u, v, n, ctx, hash, None) && Grew(v, w) && WritesOnly(v, w, n, ctx, hash, r)
    ensures WritesOnly(u, w, n, ctx, hash, r)
  {
    hide Later, RowOf;
  }

  /** A commit of the event, or nothing. */
  lemma IssuedWrites(v: View, w: View, x: View, c: Option<Commit>, before: Db, n: Intent, ctx: Context, hash: Bytes)
    requires CrimeService.Issued(v, w, c, before) && (c.Some? ==> c.value.key == EventKey(n, ctx) && c.value.hash == hash)
    requires Grew(w, x) && w.own == x.own
    ensures forall r :: WritesOnly(v, x, n, ctx, hash, r)
  {
    hide Later, CommitMutation;
  }

  class CrimeSemanticService {
    const database: PlayerDatabase
    const policy: Policy
    /** SHA-256 in hexadecimal: always 64 characters. */
    const sha: Sha

    ghost predicate Valid()
      reads database
    {
      database.Valid() && ValidPolicy(policy) && forall b :: |sha(b)| == 64
    }

    constructor (database: PlayerDatabase, policy: Policy, sha: Sha)
      requires database.Valid() && ValidPolicy(policy) && forall b :: |sha(b)| == 64
      ensures Valid() && this.database == database && this.policy == policy && this.sha == sha
    {
      this.database := database;
      this.policy := policy;
      this.sha := sha;
    }

    function HashOf(n: Intent): Bytes { sha(IntentCodec.EncodeIntent(n)) }

    ghost function JudgedFor(n: Intent, witnesses: seq<Candidate>, ctx: Context): CrimeResult
      requires ValidPolicy(policy)
    {
      Judge(policy, n, ctx.playerGuid, witnesses)
    }

    method Reject(n: Intent, ctx: Context, rejected: CrimeResult) returns (o: Outcome)
      requires Valid() && !rejected.accepted && OfIntent(n, rejected)
      modifies database
      ensures Valid() && HonestlyGrew(sha, old(database.Viewed()), database.Viewed())
      ensures OneEffect(old(database.Viewed()), database.Viewed(), false)
      ensures o == Outcome(rejected, false, false, None)
      ensures RejectedAs(old(database.Viewed()), database.Viewed(), n, ctx, HashOf(n), rejected)
      ensures old(database.Alone()) ==> database.Alone() && database.db == AfterRejection(old(database.db), n, ctx, HashOf(n), rejected)
    {
      hide Grew, OneEffect, HonestlyGrew, Encode, AddRejection, View.Valid, IntentCodec.EncodeIntent, RefusedFrom;
      o := Outcome(rejected, false, false, None);
      if !Journaled(n) {
        CrimeService.SameMoment(database.Viewed());
        QuietIsHonest(sha, database.Viewed(), database.Viewed());
        return;
      }
      assert forall i <- database.own :: i < |database.history| by { CrimeService.OwnInHistory(database.Viewed()); }
      var payload := CrimeCodecMethods.EncodeResult(rejected);
      database.InsertRejected(EventKey(n, ctx), Entry(HashOf(n), false, rejected.error, payload, n.source));
      RejectionIsRefused(sha, n, ctx, rejected);
      RejectionIsHonest(sha, old(database.Viewed()), database.Viewed(), EventRefusal(n, rejected));
    }

    /** The answer to an event that is already journaled: nothing is written. */
    method Replay(n: Intent, ctx: Context, hash: Bytes, entry: Entry) returns (r: Option<Outcome>)
      requires Valid()
      modifies database
      ensures Valid() && Grew(old(database.Viewed()), database.Viewed()) && database.own == old(database.own)
      ensures r.None? ==> ctx.character !in database.db.owners
      ensures r.Some? ==>
                && AnsweredFrom(entry, hash, r.value)
                && (!r.value.replayed ==>
                      r.value.result == Blank(n).(error := r.value.result.error, state := StateOf(database.db, ctx.character)))
      ensures old(database.Alone()) ==> database.Alone()
    {
      hide Decode, View.Valid;
      var error := DUPLICATE_CONFLICT;
      if entry.hash == hash {
        var stored := CrimeCodecMethods.DecodeResult(entry.payload);
        if stored.Some? {
          CrimeService.SameMoment(database.Viewed());
          return Some(Outcome(stored.value, true, false, None));
        }
        error := CORRUPT_STORED_RESULT;
      }
      var now :- database.LoadState(ctx.character);
      r := Some(Outcome(Blank(n).(error := error, state := now), false, false, None));
    }

    /** The commit of one round, for the state loaded at `loaded`. None of the exceptions of
      commitAuthoritativeTransition can occur; only the store itself can refuse. */
    method CommitRound(n: Intent, ctx: Context, judged: CrimeResult, current: CrimeState, ghost loaded: View)
      returns (round: Round)
      requires Valid() && database.Viewed() == loaded
      requires ValidIntent(n, ctx.playerGuid) && ctx.account > 0 && ctx.character > 0
      requires judged.accepted && Consistent(judged) && OfIntent(n, judged) && Fits(judged, current)
      requires ctx.character in database.db.owners && current == StateOf(database.db, ctx.character) && !ctx.deferCommit
      modifies database
      ensures Valid() && HonestlyGrew(sha, loaded, database.Viewed())
      ensures round.Answer? && round.outcome.None? ==> StoreRefuses(loaded.db, ctx)
      ensures OneEffect(loaded, database.Viewed(), Done(round))
      ensures !Pending(OutcomeOf(round))
      ensures Done(round) ==> CommittedAs(database.Viewed(), n, ctx, HashOf(n), judged, round.outcome.value)
      ensures round.Answer? && round.outcome.Some? && !round.outcome.value.committed ==>
                RowAnswers(database.db, n, ctx, HashOf(n), judged, round.outcome.value)
      ensures round.Stale? ==> StateOf(database.db, ctx.character).revision > current.revision
      ensures old(database.Alone()) ==>
                database.Alone() && WentUndisturbed(loaded.db, database.db, n, ctx, HashOf(n), judged, OutcomeOf(round))
      ensures WritesOnly(loaded, database.Viewed(), n, ctx, HashOf(n), OutcomeOf(round))
    {
      hide Grew, OneEffect, HonestlyGrew, Encode, Decode, CommitMutation, Later, Run, ValidIntent, StoreRefuses, Fits, IssueOn;
      hide CrimeService.TransitionSpec, CrimeService.Issued, CommittedAs, RowAnswers, View.Valid, Consistent, ValidState, ValidPolicy;
      hide IntentCodec.EncodeIntent, Fresh, Undisturbed, ValidDb, Blank, MadeFrom, WritesOnly;
      var hash := HashOf(n);
      var result := On(judged, current);
      var payload := CrimeCodecMethods.EncodeResult(result);
      var t := CrimeService.Transition(n.eventId, hash, n.source, judged.bountyDelta, judged.crimeIdAdvanced,
                                       current.revision, payload);
      var tctx := CrimeService.Context(ctx.account, ctx.character, ctx.failAfterStateWrite);
      var committed, seen, before := CrimeService.CommitAuthoritativeTransition(database, t, tctx);
      ghost var w := database.Viewed();
      assert t == TransitionFor(n, hash, judged, current) && tctx == StoreContext(ctx);
      IssuedIsMade(sha, n, ctx, current, judged);
      RoundFacts(loaded, w, seen, before, n, ctx, hash, judged, current, committed);
      RoundIsHonest(sha, loaded, w, seen, before, n, ctx, hash, judged, current, committed.Some? && committed.value.status == Committed);
      if seen == before == loaded.db { RoundUndisturbed(loaded, w, n, ctx, hash, judged, current, committed); }
      RoundWrites(loaded, w, w, seen, before, n, ctx, hash, judged, current) by { CrimeService.SameMoment(w); }
      if committed.None? { return Answer(None); }
      match committed.value.status
      case Committed =>
        round := Answer(Some(Outcome(result, false, true, None)));
      case DuplicateRequest =>
        round := FromRow(n, ctx, judged, result, false, committed.value.storedPayload, loaded);
        RoundWrites(loaded, w, database.Viewed(), seen, before, n, ctx, hash, judged, current);
      case DuplicateConflict =>
        round := FromRow(n, ctx, judged, result, true, committed.value.storedPayload, loaded);
        RoundWrites(loaded, w, database.Viewed(), seen, before, n, ctx, hash, judged, current);
      case StaleRevision =>
        round := Stale;
    }

    /** The state to evaluate on: the given one, or the stored one. */
    method Current(ctx: Context) returns (current: Option<CrimeState>)
      requires Valid() && (ctx.startingState.Some? ==> ValidState(ctx.startingState.value))
      modifies database
      ensures Valid() && Grew(old(database.Viewed()), database.Viewed()) && database.own == old(database.own)
      ensures current == BaseOf(database.db, ctx)
      ensures current.Some? ==> ValidState(current.value) && Started(database.Viewed(), database.Viewed(), ctx, current.value)
      ensures old(database.Alone()) ==> database.Alone() && database.Viewed() == old(database.Viewed())
    {
      hide Grew, Run;
      if ctx.deferCommit && ctx.startingState.Some? {
        CrimeService.SameMoment(database.Viewed());
        return ctx.startingState;
      }
      current := database.LoadState(ctx.character);
      CrimeService.SameNow(database.Viewed(), ctx.character);
    }

    /** One iteration of the loop in evaluate. */
    method CommitLoopRound(n: Intent, ctx: Context, judged: CrimeResult) returns (round: Round)
      requires Valid()
      requires ValidIntent(n, ctx.playerGuid) && ctx.account > 0 && ctx.character > 0
      requires judged.accepted && judged.bountyDelta >= 0 && Consistent(judged) && OfIntent(n, judged)
      requires ctx.startingState.Some? ==> ValidState(ctx.startingState.value)
      modifies database
      ensures Valid() && HonestlyGrew(sha, old(database.Viewed()), database.Viewed())
      ensures round.Answer? && round.outcome.None? ==> StoreRefuses(old(database.db), ctx)
      ensures OneEffect(old(database.Viewed()), database.Viewed(), Done(round))
      ensures round.Answer? && round.outcome.Some? ==>
                Answered(old(database.Viewed()), database.Viewed(), n, ctx, HashOf(n), judged, round.outcome.value)
      ensures WritesOnly(old(database.Viewed()), database.Viewed(), n, ctx, HashOf(n), OutcomeOf(round))
      ensures Pending(OutcomeOf(round)) ==> ctx.deferCommit && database.own == old(database.own)
      // a round is repeated only because the stored revision has moved on
      ensures round.Stale? ==>
                !ctx.deferCommit && StateOf(database.db, ctx.character).revision > StateOf(old(database.db), ctx.character).revision
      ensures old(database.Alone()) ==>
                database.Alone() && WentUndisturbed(old(database.db), database.db, n, ctx, HashOf(n), judged, OutcomeOf(round))
    {
      hide Grew, OneEffect, HonestlyGrew, Encode, CommitMutation, Later, Run, ValidIntent, CommittedAs, RowAnswers, View.Valid;
      hide Answered, Started, StoreRefuses, AfterRejection, Consistent, ValidState, ValidPolicy, BaseOf, WentUndisturbed;
      hide IntentCodec.EncodeIntent, ValidDb, EventFits, Advance, Fits, WritesOnly, RejectedAs;
      var hash := HashOf(n);
      ghost var v := database.Viewed();
      var loaded := Current(ctx);
      ghost var w := database.Viewed();
      QuietIsHonest(sha, v, w);
      QuietWrites(v, w, n, ctx, hash);
      SameRevision(v.db, w.db, ctx.character) by { CrimeService.GrewIsLater(v, w); }
      RefusesForGood(v.db, w.db, ctx) by { CrimeService.GrewIsLater(v, w); }
      if loaded.None? {
        NotFresh(w.db, w.db, n, ctx, hash, judged, None);
        return Answer(None);
      }
      var current := loaded.value;
      GuardsAreFits(judged, current);
      if (judged.crimeIdAdvanced && current.currentCrimeId == MAX_I32)
         || judged.bountyDelta > MAX_I32 - current.bounty
         || ((judged.crimeIdAdvanced || judged.bountyDelta != 0) && current.revision >= MAX_REVISION) {
        var o := Reject(n, ctx, Rejection(judged, STATE_OVERFLOW).(state := current));
        HonestTransitive(sha, v, w, database.Viewed());
        RefusalIsAnswered(v, w, database.Viewed(), n, ctx, hash, judged, current) by { HonestIsGrowth(w, database.Viewed()); }
        RefusalIsUndisturbed(w.db, n, ctx, hash, judged, current);
        return Answer(Some(o));
      }
      if ctx.deferCommit {
        var next := Advance(current, judged.bountyDelta, judged.crimeIdAdvanced);
        var payload := CrimeCodecMethods.EncodeResult(judged.(state := next));
        var pending := Commit(EventKey(n, ctx), hash, payload, n.source, current.revision, next, ctx.failAfterStateWrite);
        round := Answer(Some(Outcome(judged.(state := next), false, false, Some(pending))));
        PendingIsAnswered(v, w, n, ctx, hash, judged, current, round.outcome.value);
        PendingIsUndisturbed(w.db, n, ctx, hash, judged, current, round.outcome.value);
        return;
      }
      BaseIsStored(w.db, ctx);
      round := CommitRound(n, ctx, judged, current, w);
      HonestTransitive(sha, v, w, database.Viewed());
      WritesThen(v, w, database.Viewed(), n, ctx, hash, OutcomeOf(round)) by { HonestIsGrowth(w, database.Viewed()); }
      if round.Answer? && round.outcome.Some? {
        RowOrCommitAnswers(v, database.Viewed(), n, ctx, hash, judged, round.outcome.value);
      }
    }

    /** evaluate. None when an exception escapes, which only the store itself can cause. */
    method Evaluate(n: Intent, witnesses: seq<Candidate>, ctx: Context) returns (r: Option<Outcome>)
      requires Valid()
      requires ctx.startingState.Some? ==> ValidState(ctx.startingState.value)
      modifies database
      ensures Valid()
      // every write is an honest commit of this event, or a rejection
      ensures HonestlyGrew(sha, old(database.Viewed()), database.Viewed())
      // exactly a committed outcome has had an effect, and then exactly one
      ensures OneEffect(old(database.Viewed()), database.Viewed(), r.Some? && r.value.committed)
      ensures r.None? ==> StoreRefuses(old(database.db), ctx)
      // without an account, a character or a player nothing is looked at
      ensures !Authorized(ctx) ==>
                && r == Some(Outcome(Blank(n).(error := UNAUTHORIZED), false, false, None))
                && database.Viewed() == old(database.Viewed())
      // a journaled event is answered from its row and writes nothing
      ensures EventKey(n, ctx) in old(database.db.journal) && Authorized(ctx) ==>
                && database.own == old(database.own)
                && (r.Some? ==> AnsweredFrom(old(database.db.journal)[EventKey(n, ctx)], HashOf(n), r.value))
      // a commit persists the judged result in agreement with its row, a pending commit starts from the right
      // state, and every other answer has one of three reasons
      ensures r.Some? && Authorized(ctx) ==>
                Answered(old(database.Viewed()), database.Viewed(), n, ctx, HashOf(n), JudgedFor(n, witnesses, ctx), r.value)
      ensures Pending(r) ==> database.own == old(database.own)
      // undisturbed, a first evaluation does what the judgement says
      ensures old(database.Alone()) ==>
                database.Alone() && WentUndisturbed(old(database.db), database.db, n, ctx, HashOf(n), JudgedFor(n, witnesses, ctx), r)
      // nothing is written but commits of this event and the rejection that is answered
      ensures WritesOnly(old(database.Viewed()), database.Viewed(), n, ctx, HashOf(n), r)
    {
      hide Grew, OneEffect, HonestlyGrew, Encode, Decode, CommitMutation, Later, Run, ValidIntent, Answered;
      hide ValidDb, IntentCodec.EncodeIntent, Judge, ValidPolicy, Undisturbed, Fresh, StoreRefuses, WritesOnly;
      ghost var v := database.Viewed();
      QuietWrites(v, v, n, ctx, HashOf(n));
      if ctx.account <= 0 || ctx.character <= 0 || ctx.playerGuid == 0 {
        CrimeService.SameMoment(v);
        QuietIsHonest(sha, v, v);
        NotFresh(v.db, v.db, n, ctx, HashOf(n), JudgedFor(n, witnesses, ctx), Some(Outcome(Blank(n).(error := UNAUTHORIZED), false, false, None)));
        return Some(Outcome(Blank(n).(error := UNAUTHORIZED), false, false, None));
      }
      var encoded := IntentCodec.Encode(n);
      var hash := sha(encoded);
      var existing := database.LoadRequest(EventKey(n, ctx));
      ghost var w := database.Viewed();
      CrimeService.OwnedStays(v.db, w.db, EventKey(n, ctx)) by { CrimeService.GrewIsLater(v, w); }
      QuietIsHonest(sha, v, w);
      QuietWrites(v, w, n, ctx, hash);
      if existing.Some? {
        r := Replay(n, ctx, hash, existing.value);
        GrewTransitive(v, w, database.Viewed());
        QuietIsHonest(sha, v, database.Viewed());
        QuietWrites(v, database.Viewed(), n, ctx, hash);
        RefusesForGood(v.db, database.db, ctx) by { CrimeService.GrewIsLater(v, database.Viewed()); }
        CrimeService.OwnedStays(w.db, database.db, EventKey(n, ctx)) by { CrimeService.GrewIsLater(w, database.Viewed()); }
        if r.Some? { RowIsAnswered(v, database.Viewed(), n, ctx, hash, JudgedFor(n, witnesses, ctx), r.value); }
        NotFresh(w.db, database.db, n, ctx, HashOf(n), JudgedFor(n, witnesses, ctx), r);
        return;
      }
      r := EvaluateNew(n, witnesses, ctx);
      HonestTransitive(sha, v, w, database.Viewed());
      WritesThen(v, w, database.Viewed(), n, ctx, hash, r) by { HonestIsGrowth(w, database.Viewed()); }
      RefusesForGood(v.db, w.db, ctx) by { CrimeService.GrewIsLater(v, w); }
      if r.Some? { AnsweredFromEarlier(v, w, database.Viewed(), n, ctx, hash, JudgedFor(n, witnesses, ctx), r.value); }
    }

    /** The part of evaluate after the journal lookup has found nothing. */
    method EvaluateNew(n: Intent, witnesses: seq<Candidate>, ctx: Context) returns (r: Option<Outcome>)
      requires Valid() && ctx.account > 0 && ctx.character > 0
      requires ctx.startingState.Some? ==> ValidState(ctx.startingState.value)
      modifies database
      ensures Valid() && HonestlyGrew(sha, old(database.Viewed()), database.Viewed())
      ensures OneEffect(old(database.Viewed()), database.Viewed(), r.Some? && r.value.committed)
      ensures r.None? ==> StoreRefuses(old(database.db), ctx)
      ensures r.Some? ==>
                Answered(old(database.Viewed()), database.Viewed(), n, ctx, HashOf(n), JudgedFor(n, witnesses, ctx), r.value)
      ensures WritesOnly(old(database.Viewed()), database.Viewed(), n, ctx, HashOf(n), r)
      ensures Pending(r) ==> database.own == old(database.own)
      ensures old(database.Alone()) ==>
                database.Alone() && WentUndisturbed(old(database.db), database.db, n, ctx, HashOf(n), JudgedFor(n, witnesses, ctx), r)
    {
      hide Grew, OneEffect, HonestlyGrew, Encode, CommitMutation, Later, Run, ValidIntent, CommittedAs, Answered, View.Valid;
      hide ValidDb, Judge, ValidPolicy, Consistent, StoreRefuses, AfterRejection, ValidState, Started, BaseOf, WentUndisturbed;
      hide IntentCodec.EncodeIntent, WritesOnly, RejectedAs;
      var hash := HashOf(n);
      ghost var v := database.Viewed();
      var loaded := Current(ctx);
      ghost var w := database.Viewed();
      QuietIsHonest(sha, v, w);
      QuietWrites(v, w, n, ctx, hash);
      SameRevision(v.db, w.db, ctx.character) by { CrimeService.GrewIsLater(v, w); }
      RefusesForGood(v.db, w.db, ctx) by { CrimeService.GrewIsLater(v, w); }
      if loaded.None? {
        NotFresh(w.db, w.db, n, ctx, hash, JudgedFor(n, witnesses, ctx), None);
        return None;
      }
      var state := loaded.value;
      var judged := Assess(policy, n, ctx.playerGuid, witnesses);
      JudgedShape(policy, n, ctx.playerGuid, witnesses);
      if !judged.accepted {
        var o := Reject(n, ctx, judged.(state := state));
        HonestTransitive(sha, v, w, database.Viewed());
        RefusalIsAnswered(v, w, database.Viewed(), n, ctx, hash, judged, state) by { HonestIsGrowth(w, database.Viewed()); }
        RefusalIsUndisturbed(w.db, n, ctx, hash, judged, state);
        return Some(o);
      }
      r := CommitLoop(n, ctx, judged);
      HonestTransitive(sha, v, w, database.Viewed());
      WritesThen(v, w, database.Viewed(), n, ctx, hash, r) by { HonestIsGrowth(w, database.Viewed()); }
      if r.Some? { AnsweredFromEarlier(v, w, database.Viewed(), n, ctx, hash, judged, r.value); }
    }

    /** The commit loop of evaluate, for an accepted judgement. */
    method CommitLoop(n: Intent, ctx: Context, judged: CrimeResult) returns (r: Option<Outcome>)
      requires Valid() && ctx.account > 0 && ctx.character > 0
      requires ctx.startingState.Some? ==> ValidState(ctx.startingState.value)
      requires judged.accepted && judged.bountyDelta >= 0 && OfIntent(n, judged)
      requires Consistent(judged) && Journaled(n) && ValidIntent(n, ctx.playerGuid)
      modifies database
      ensures Valid() && HonestlyGrew(sha, old(database.Viewed()), database.Viewed())
      ensures OneEffect(old(database.Viewed()), database.Viewed(), r.Some? && r.value.committed)
      ensures r.None? ==> StoreRefuses(old(database.db), ctx)
      ensures r.Some? ==> Answered(old(database.Viewed()), database.Viewed(), n, ctx, HashOf(n), judged, r.value)
      ensures Pending(r) ==> database.own == old(database.own)
      ensures old(database.Alone()) ==>
                database.Alone() && WentUndisturbed(old(database.db), database.db, n, ctx, HashOf(n), judged, r)
      ensures WritesOnly(old(database.Viewed()), database.Viewed(), n, ctx, HashOf(n), r)
    {
      hide Grew, OneEffect, HonestlyGrew, Encode, CommitMutation, Later, Run, ValidIntent, CommittedAs, Answered, View.Valid;
      hide ValidDb, ValidPolicy, Consistent, StoreRefuses, WentUndisturbed, Journaled, Fresh, WritesOnly;
      hide IntentCodec.EncodeIntent, PlayerDatabase.Alone, StateOf, ValidState, OfIntent;
      ghost var v := database.Viewed();
      CrimeService.SameMoment(v);
      QuietIsHonest(sha, v, v);
      QuietWrites(v, v, n, ctx, HashOf(n));
      if !Fresh(v.db, n, ctx) { NotFreshAtAll(v.db, n, ctx, HashOf(n), judged); }
      for attempt := 0 to 3
        invariant Valid() && NothingYet(v, database.Viewed(), n, ctx)
        invariant if ctx.deferCommit then attempt == 0 && database.own == v.own else true
        invariant StateOf(database.db, ctx.character).revision >= StateOf(v.db, ctx.character).revision + attempt
        invariant old(database.Alone()) ==> database.Alone()
        invariant old(database.Alone()) && Fresh(v.db, n, ctx) ==> attempt == 0 && database.db == v.db
      {
        ghost var x := database.Viewed();
        var round := CommitLoopRound(n, ctx, judged);
        RoundCounts(v, x, database.Viewed(), n, ctx, judged, round);
        if round.Answer? { return round.outcome; }
      }
      ghost var y := database.Viewed();
      r := StaleAfterAll(n, ctx, judged, v);
      QuietWrites(y, database.Viewed(), n, ctx, HashOf(n));
      WritesThen(v, y, database.Viewed(), n, ctx, HashOf(n), r);
    }

    /** Up to `w` the call has had no effect, and has written only commits. */
    ghost predicate NothingYet(v: View, w: View, n: Intent, ctx: Context) {
      HonestlyGrew(sha, v, w) && OneEffect(v, w, false) && WritesOnly(v, w, n, ctx, HashOf(n), None)
    }

    /** What one round says about the whole loop. */
    lemma RoundCounts(v: View, x: View, y: View, n: Intent, ctx: Context, judged: CrimeResult, round: Round)
      requires NothingYet(v, x, n, ctx) && x.Valid() && Journaled(n)
      requires HonestlyGrew(sha, x, y) && OneEffect(x, y, Done(round)) && WritesOnly(x, y, n, ctx, HashOf(n), OutcomeOf(round))
      ensures HonestlyGrew(sha, v, y) && OneEffect(v, y, Done(round)) && WritesOnly(v, y, n, ctx, HashOf(n), OutcomeOf(round))
      ensures StoreRefuses(v.db, ctx) == StoreRefuses(x.db, ctx)
      ensures round.Answer? && round.outcome.Some? && Answered(x, y, n, ctx, HashOf(n), judged, round.outcome.value) ==>
                Answered(v, y, n, ctx, HashOf(n), judged, round.outcome.value)
      ensures WentUndisturbed(x.db, y.db, n, ctx, HashOf(n), judged, OutcomeOf(round)) && (Fresh(v.db, n, ctx) ==> x.db == v.db) ==>
                && WentUndisturbed(v.db, y.db, n, ctx, HashOf(n), judged, OutcomeOf(round))
                && (Fresh(v.db, n, ctx) ==> OutcomeOf(round) != None)
    {
      hide Grew, OneEffect, HonestlyGrew, StoreRefuses, Answered, View.Valid, WentUndisturbed, Journaled, Fresh, WritesOnly;
      hide IntentCodec.EncodeIntent;
      HonestIsGrowth(v, x);
      HonestIsGrowth(x, y);
      RefusesForGood(v.db, x.db, ctx) by { HonestIsLater(v, x); }
      HonestTransitive(sha, v, x, y);
      WritesThen(v, x, y, n, ctx, HashOf(n), OutcomeOf(round));
      if round.Answer? && round.outcome.Some? && Answered(x, y, n, ctx, HashOf(n), judged, round.outcome.value) {
        AnsweredFromEarlier(v, x, y, n, ctx, HashOf(n), judged, round.outcome.value);
      }
      if !Fresh(v.db, n, ctx) { NotFresh(v.db, y.db, n, ctx, HashOf(n), judged, OutcomeOf(round)); }
      if WentUndisturbed(x.db, y.db, n, ctx, HashOf(n), judged, None) { SilentIsNotFresh(x.db, y.db, n, ctx, HashOf(n), judged); }
    }

    /** The answer after three stale rounds. */
    method StaleAfterAll(n: Intent, ctx: Context, judged: CrimeResult, ghost v: View) returns (r: Option<Outcome>)
      requires judged.accepted && !ctx.deferCommit && StateOf(database.db, ctx.character).revision >= StateOf(v.db, ctx.character).revision + 3
      requires Valid() && HonestlyGrew(sha, v, database.Viewed()) && OneEffect(v, database.Viewed(), false)
      modifies database
      ensures Valid() && HonestlyGrew(sha, v, database.Viewed())
      ensures Grew(old(database.Viewed()), database.Viewed()) && database.own == old(database.own)
      ensures OneEffect(v, database.Viewed(), r.Some? && r.value.committed) && !Pending(r)
      ensures r.None? ==> StoreRefuses(v.db, ctx)
      ensures r.Some? ==> Answered(v, database.Viewed(), n, ctx, HashOf(n), judged, r.value)
      ensures old(database.Alone()) ==> database.Alone()
    {
      hide Grew, OneEffect, HonestlyGrew, Later, Run, Answered, View.Valid, ValidPolicy, StoreRefuses, IntentCodec.EncodeIntent;
      ghost var y := database.Viewed();
      var now := database.LoadState(ctx.character);
      HonestNext(sha, v, y, database.Viewed());
      SameRevision(y.db, database.db, ctx.character) by { CrimeService.GrewIsLater(y, database.Viewed()); }
      RefusesForGood(v.db, database.db, ctx) by { HonestIsLater(v, database.Viewed()); }
      r := None;
      if now.Some? {
        r := Some(Outcome(Rejection(judged, STALE_REVISION).(state := now.value), false, false, None));
        StaleIsAnswered(v, database.Viewed(), n, ctx, HashOf(n), judged, r.value);
      }
    }

    /** The answer when another row stands under the key of a commit: the stored result, or an error with
      the state as it is now. */
    method FromRow(n: Intent, ctx: Context, judged: CrimeResult, result: CrimeResult, conflict: bool, payload: Bytes, ghost start: View)
      returns (round: Round)
      requires Valid() && HonestlyGrew(sha, start, database.Viewed()) && OneEffect(start, database.Viewed(), false)
      requires ctx.character in database.db.owners && judged.accepted && result == judged.(state := result.state)
      requires EventKey(n, ctx) in database.db.journal && payload == database.db.journal[EventKey(n, ctx)].payload
      requires conflict == (database.db.journal[EventKey(n, ctx)].hash != HashOf(n))
      modifies database
      ensures Valid() && HonestlyGrew(sha, start, database.Viewed()) && OneEffect(start, database.Viewed(), false)
      ensures round.Answer? && round.outcome.Some? && !round.outcome.value.committed && !Pending(round.outcome)
      ensures RowAnswers(database.db, n, ctx, HashOf(n), judged, round.outcome.value)
      ensures Grew(old(database.Viewed()), database.Viewed()) && database.own == old(database.own)
      ensures old(database.Alone()) ==> database.Alone()
    {
      hide Later, OneEffect, HonestlyGrew, Run, Decode, View.Valid, ValidPolicy, Grew, IntentCodec.EncodeIntent;
      var error := DUPLICATE_CONFLICT;
      if !conflict {
        var stored := CrimeCodecMethods.DecodeResult(payload);
        if stored.Some? {
          CrimeService.SameMoment(database.Viewed());
          return Answer(Some(Outcome(stored.value, true, false, None)));
        }
        error := CORRUPT_STORED_RESULT;
      }
      ghost var v := database.Viewed();
      var now := database.LoadState(ctx.character);
      HonestNext(sha, start, v, database.Viewed());
      SameRevision(v.db, database.db, ctx.character) by { CrimeService.GrewIsLater(v, database.Viewed()); }
      round := Answer(Some(Outcome(Rejection(result, error).(state := now.value), false, false, None)));
    }

    lemma HonestIsGrowth(v: View, w: View)
      requires HonestlyGrew(sha, v, w)
      ensures Grew(v, w)
    {
    }

    lemma HonestIsLater(v: View, w: View)
      requires HonestlyGrew(sha, v, w)
      ensures Later(v.db, w.db)
    {
    }
  }

  lemma JudgedShape(p: Policy, n: Intent, guid: u32, cs: seq<Candidate>)
    requires ValidPolicy(p)
    ensures var r := Judge(p, n, guid, cs);
            && OfIntent(n, r) && r.bountyDelta >= 0
            && (r.accepted ==> ValidIntent(n, guid) && Consistent(r) && Journaled(n))
  {
    hide Seen, Sort, Witnesses, AnyReported;
  }

  lemma HonestNext(sha: Sha, u: View, v: View, w: View)
    requires HonestlyGrew(sha, u, v) && v.Valid() && OneEffect(u, v, false)
    requires Grew(v, w) && v.own == w.own
    ensures HonestlyGrew(sha, u, w) && OneEffect(u, w, false)
  {
    hide Grew, OneEffect, HonestlyGrew, View.Valid;
    QuietIsHonest(sha, v, w);
    HonestTransitive(sha, u, v, w);
  }

  /** The guards of the loop, written as the loop has them. */
  lemma GuardsAreFits(judged: CrimeResult, current: CrimeState)
    requires ValidState(current) && judged.bountyDelta >= 0
    ensures Fits(judged, current)
            <==> !((judged.crimeIdAdvanced && current.currentCrimeId == MAX_I32)
                   || judged.bountyDelta > MAX_I32 - current.bounty
                   || ((judged.crimeIdAdvanced || judged.bountyDelta != 0) && current.revision >= MAX_REVISION))
    ensures Fits(judged, current) <==> EventFits(current, judged.bountyDelta, judged.crimeIdAdvanced)
  {
  }

  lemma NotFresh(db: Db, after: Db, n: Intent, ctx: Context, hash: Bytes, judged: CrimeResult, r: Option<Outcome>)
    requires !Authorized(ctx) || EventKey(n, ctx) in db.journal || BaseOf(db, ctx).None? || !Fresh(db, n, ctx)
    ensures WentUndisturbed(db, after, n, ctx, hash, judged, r)
    ensures BaseOf(db, ctx).None? ==> StoreRefuses(db, ctx)
  {
    hide Undisturbed;
  }

  lemma NotFreshAtAll(db: Db, n: Intent, ctx: Context, hash: Bytes, judged: CrimeResult)
    requires !Fresh(db, n, ctx)
    ensures forall after, r :: WentUndisturbed(db, after, n, ctx, hash, judged, r)
  {
    hide Undisturbed, Fresh;
  }

  lemma SilentIsNotFresh(db: Db, after: Db, n: Intent, ctx: Context, hash: Bytes, judged: CrimeResult)
    requires WentUndisturbed(db, after, n, ctx, hash, judged, None)
    ensures !Fresh(db, n, ctx)
  {
    hide Undisturbed, Fresh;
  }

  lemma BaseIsStored(db: Db, ctx: Context)
    requires !ctx.deferCommit && BaseOf(db, ctx).Some?
    ensures ctx.character in db.owners && BaseOf(db, ctx) == Some(StateOf(db, ctx.character))
  {
  }

  lemma RefusalIsUndisturbed(db: Db, n: Intent, ctx: Context, hash: Bytes, judged: CrimeResult, base: CrimeState)
    requires BaseOf(db, ctx) == Some(base) && !(judged.accepted && Fits(judged, base))
    ensures WentUndisturbed(db, AfterRejection(db, n, ctx, hash, RefusedOn(judged, base)), n, ctx, hash, judged,
                            Some(Outcome(RefusedOn(judged, base), false, false, None)))
  {
    hide Fits, Encode, AfterRejection;
  }

  lemma PendingIsUndisturbed(db: Db, n: Intent, ctx: Context, hash: Bytes, judged: CrimeResult, base: CrimeState, o: Outcome)
    requires BaseOf(db, ctx) == Some(base) && judged.accepted && ctx.deferCommit && PendingOn(n, ctx, hash, judged, base, o)
    ensures WentUndisturbed(db, db, n, ctx, hash, judged, Some(o))
  {
    hide Fits, On, IssueOn;
  }

  /** A character stays refused, and one that is not in the table is. */
  lemma RefusesForGood(a: Db, b: Db, ctx: Context)
    requires Later(a, b)
    ensures StoreRefuses(a, ctx) == StoreRefuses(b, ctx)
    ensures ctx.character !in b.owners ==> StoreRefuses(a, ctx)
  {
  }

  /** Later, the character has the same state or a greater revision. */
  lemma SameRevision(a: Db, b: Db, character: i64)
    requires Later(a, b)
    ensures a.owners == b.owners && forall key <- a.journal :: key in b.journal && b.journal[key] == a.journal[key]
    ensures StateOf(b, character) == StateOf(a, character) || StateOf(b, character).revision > StateOf(a, character).revision
  {
  }

  lemma StaleMeansMoved(before: Db, c: Commit)
    ensures CommitMutation(before, c).1.Reply? && CommitMutation(before, c).1.status == StaleRevision ==>
              StateOf(before, c.key.character).revision != c.expectedRevision
    ensures CommitMutation(before, c).1.IsCommitted() ==> StateOf(before, c.key.character).revision == c.expectedRevision
  {
    hide WellFormed, Filed;
  }

  function TransitionFor(n: Intent, hash: Bytes, judged: CrimeResult, current: CrimeState): CrimeService.Transition
    requires Fits(judged, current)
  {
    CrimeService.Transition(n.eventId, hash, n.source, judged.bountyDelta, judged.crimeIdAdvanced, current.revision,
                            Encode(On(judged, current)))
  }

  function StoreContext(ctx: Context): CrimeService.Context {
    CrimeService.Context(ctx.account, ctx.character, ctx.failAfterStateWrite)
  }

  /** The transition of a round passes every check; what is left is a stale revision at its load, or the
    reply to its commit. */
  lemma TransitionCases(seen: Db, before: Db, n: Intent, ctx: Context, hash: Bytes, judged: CrimeResult, current: CrimeState)
    requires ValidIntent(n, ctx.playerGuid) && |hash| == 64 && ctx.account > 0 && ctx.character > 0 && Fits(judged, current)
    requires ctx.character in seen.owners && ValidState(StateOf(seen, ctx.character))
    requires StateOf(seen, ctx.character) == current || StateOf(seen, ctx.character).revision > current.revision
    ensures var spec := CrimeService.TransitionSpec(TransitionFor(n, hash, judged, current), StoreContext(ctx), seen, before);
            var c := IssueOn(n, ctx, hash, current, judged);
            if StateOf(seen, ctx.character) == current
            then && spec.1 == Some(c) && spec.0.Some? == CommitMutation(before, c).1.Reply?
                 && (spec.0.Some? ==> spec.0.value.status == CommitMutation(before, c).1.status
                                      && spec.0.value.storedPayload == CommitMutation(before, c).1.storedPayload)
            else spec.1 == None && spec.0.Some? && spec.0.value.status == StaleRevision
  {
    hide Encode, CommitMutation, CrimeService.TransitionNext, EventFits, ValidState, Advance;
    EncodeNonempty(On(judged, current));
    CrimeService.TransitionAdvances(TransitionFor(n, hash, judged, current), current);
  }

  /** What is known after the transition of a round. */
  lemma RoundFacts(loaded: View, w: View, seen: Db, before: Db, n: Intent, ctx: Context, hash: Bytes,
                   judged: CrimeResult, current: CrimeState, r: Option<CrimeService.TransitionOutcome>)
    requires ValidDb(seen) && Later(loaded.db, seen) && Later(seen, before) && Later(before, w.db)
    requires ctx.account > 0 && ctx.character > 0 && |hash| == 64 && Fits(judged, current)
    requires ctx.character in loaded.db.owners && current == StateOf(loaded.db, ctx.character)
    requires ValidIntent(n, ctx.playerGuid)
    requires var spec := CrimeService.TransitionSpec(TransitionFor(n, hash, judged, current), StoreContext(ctx), seen, before);
             r == spec.0 && CrimeService.Issued(loaded, w, spec.1, before)
    ensures r.None? ==> StoreRefuses(loaded.db, ctx)
    ensures r.Some? && r.value.status == Committed ==>
              CommittedAs(w, n, ctx, hash, judged, Outcome(On(judged, current), false, true, None))
    ensures r.Some? && r.value.status in {DuplicateRequest, DuplicateConflict} ==>
              && EventKey(n, ctx) in w.db.journal && r.value.storedPayload == w.db.journal[EventKey(n, ctx)].payload
              && (r.value.status == DuplicateRequest <==> w.db.journal[EventKey(n, ctx)].hash == hash)
    ensures r.Some? && r.value.status == StaleRevision ==> StateOf(w.db, ctx.character).revision > current.revision
    ensures ctx.character in w.db.owners
  {
    hide Encode, CommitMutation, Later, WellFormed, Run, ValidIntent, StoreRefuses, Fits, On;
    hide CommittedAs, ValidState, ValidDb, CrimeService.TransitionSpec, TransitionFor, Owned;
    var c := IssueOn(n, ctx, hash, current, judged);
    SameRevision(loaded.db, seen, ctx.character);
    SameRevision(seen, before, ctx.character);
    SameRevision(before, w.db, ctx.character);
    LaterTransitive(loaded.db, seen, before);
    StateIsValid(seen, ctx.character);
    TransitionCases(seen, before, n, ctx, hash, judged, current);
    if StateOf(seen, ctx.character) == current {
      OnlyTheStoreRefuses(loaded.db, before, n, ctx, hash, current, judged);
      StaleMeansMoved(before, c);
      if r.Some? && r.value.status == Committed {
        CommittedIsCommittedAs(w, before, n, ctx, hash, current, judged);
      } else if r.Some? && r.value.status in {DuplicateRequest, DuplicateConflict} {
        EventRowUnder(before, w.db, c, n, ctx);
      }
    }
  }

  lemma RoundIsHonest(sha: Sha, loaded: View, w: View, seen: Db, before: Db, n: Intent, ctx: Context, hash: Bytes,
                      judged: CrimeResult, current: CrimeState, done: bool)
    requires loaded.Valid() && Grew(loaded, w) && ValidDb(seen) && Later(loaded.db, seen)
    requires ctx.account > 0 && ctx.character > 0 && |hash| == 64 && Fits(judged, current)
    requires ctx.character in loaded.db.owners && current == StateOf(loaded.db, ctx.character)
    requires ValidIntent(n, ctx.playerGuid)
    requires var spec := CrimeService.TransitionSpec(TransitionFor(n, hash, judged, current), StoreContext(ctx), seen, before);
             done == (spec.0.Some? && spec.0.value.status == Committed) && CrimeService.Issued(loaded, w, spec.1, before)
    requires MadeFrom(sha, current, IssueOn(n, ctx, hash, current, judged), Event(n, On(judged, current)))
    ensures HonestlyGrew(sha, loaded, w) && OneEffect(loaded, w, done)
  {
    hide Grew, OneEffect, HonestlyGrew, Encode, CommitMutation, Later, Run, ValidIntent, Fits, On;
    hide MadeFrom, View.Valid, ValidState, ValidDb, CrimeService.TransitionSpec, TransitionFor;
    SameRevision(loaded.db, seen, ctx.character);
    StateIsValid(seen, ctx.character);
    TransitionCases(seen, before, n, ctx, hash, judged, current);
    if StateOf(seen, ctx.character) == current {
      CommitIsMade(sha, loaded, w, IssueOn(n, ctx, hash, current, judged), n, ctx, current, judged);
    } else {
      QuietIsHonest(sha, loaded, w);
    }
  }

  lemma RoundWrites(loaded: View, w: View, x: View, seen: Db, before: Db, n: Intent, ctx: Context, hash: Bytes,
                    judged: CrimeResult, current: CrimeState)
    requires ValidDb(seen) && Later(loaded.db, seen)
    requires ctx.account > 0 && ctx.character > 0 && |hash| == 64 && Fits(judged, current)
    requires ctx.character in loaded.db.owners && current == StateOf(loaded.db, ctx.character)
    requires ValidIntent(n, ctx.playerGuid)
    requires CrimeService.Issued(loaded, w,
               CrimeService.TransitionSpec(TransitionFor(n, hash, judged, current), StoreContext(ctx), seen, before).1, before)
    requires Grew(w, x) && w.own == x.own
    ensures forall r :: WritesOnly(loaded, x, n, ctx, hash, r)
  {
    hide Encode, CommitMutation, Later, ValidIntent, Fits, On, ValidState, ValidDb, CrimeService.TransitionSpec, TransitionFor, Grew, WritesOnly;
    hide CrimeService.Issued;
    SameRevision(loaded.db, seen, ctx.character);
    StateIsValid(seen, ctx.character);
    TransitionCases(seen, before, n, ctx, hash, judged, current);
    IssuedWrites(loaded, w, x, CrimeService.TransitionSpec(TransitionFor(n, hash, judged, current), StoreContext(ctx), seen, before).1,
                 before, n, ctx, hash);
  }

  lemma StateIsValid(db: Db, character: i64)
    requires ValidDb(db)
    ensures ValidState(StateOf(db, character))
  {
  }

  lemma RoundUndisturbed(loaded: View, w: View, n: Intent, ctx: Context, hash: Bytes, judged: CrimeResult,
                         current: CrimeState, r: Option<CrimeService.TransitionOutcome>)
    requires ctx.account > 0 && ctx.character > 0 && |hash| == 64
    requires judged.accepted && Fits(judged, current) && !ctx.deferCommit && Later(loaded.db, loaded.db)
    requires ctx.character in loaded.db.owners && current == StateOf(loaded.db, ctx.character)
    requires ValidIntent(n, ctx.playerGuid)
    requires ValidDb(loaded.db)
    requires var spec := CrimeService.TransitionSpec(TransitionFor(n, hash, judged, current), StoreContext(ctx), loaded.db, loaded.db);
             r == spec.0 && CrimeService.Issued(loaded, w, spec.1, loaded.db)
    ensures Fresh(loaded.db, n, ctx) ==> r.Some? && r.value.status == Committed
    ensures WentUndisturbed(loaded.db, w.db, n, ctx, hash, judged, Some(Outcome(On(judged, current), false, true, None)))
  {
    hide Encode, CommitMutation, Fits, ValidState, On, IssueOn, ValidIntent, CrimeService.TransitionSpec, TransitionFor, Later;
    StateIsValid(loaded.db, ctx.character);
    TransitionCases(loaded.db, loaded.db, n, ctx, hash, judged, current);
    OnlyTheStoreRefuses(loaded.db, loaded.db, n, ctx, hash, current, judged);
  }

  lemma CommitIsMade(sha: Sha, loaded: View, w: View, c: Commit, n: Intent, ctx: Context, current: CrimeState, judged: CrimeResult)
    requires loaded.Valid() && Grew(loaded, w) && |loaded.history| < |w.history| && w.own == loaded.own + {w.Last()}
    requires w.history[w.Last()] == CommitWork(c) && c.key == EventKey(n, ctx)
    requires current == StateOf(loaded.db, ctx.character) && Fits(judged, current)
    requires MadeFrom(sha, current, c, Event(n, On(judged, current)))
    ensures HonestlyGrew(sha, loaded, w)
    ensures OneEffect(loaded, w, CommitMutation(w.At(w.Last()), c).1.IsCommitted())
  {
    hide MadeFrom, CommitMutation, Grew, HonestlyGrew, OneEffect, Run, On, Fits;
    CrimeService.SameNow(loaded, ctx.character);
    CrimeService.SameMoment(loaded);
    CommitIsHonest(sha, loaded, loaded, w, c, Event(n, On(judged, current)));
  }

  lemma IssuedIsMade(sha: Sha, n: Intent, ctx: Context, base: CrimeState, judged: CrimeResult)
    requires ValidIntent(n, ctx.playerGuid) && Fits(judged, base)
    requires judged.accepted && Consistent(judged) && judged.crime == n.crime
    ensures MadeFrom(sha, base, IssueOn(n, ctx, sha(IntentCodec.EncodeIntent(n)), base, judged), Event(n, On(judged, base)))
  {
    hide Encode, IntentCodec.EncodeIntent;
  }

  lemma IssuedIsWellFormed(n: Intent, ctx: Context, hash: Bytes, base: CrimeState, judged: CrimeResult)
    requires ValidIntent(n, ctx.playerGuid) && |hash| == 64 && ctx.account > 0 && ctx.character > 0 && Fits(judged, base)
    ensures var c := IssueOn(n, ctx, hash, base, judged);
            WellFormed(c) && Filed(c.key) == c.key && (c.resulting == base || c.resulting.revision == base.revision + 1)
  {
    hide Encode;
    EncodeNonempty(On(judged, base));
    assert NoNul(EVENT_SERVICE);
  }

  /** The commit that evaluate issues is well-formed and changes nothing behind the store's back, so
    an exception means that the character is not the account's, or an injected failure. */
  lemma OnlyTheStoreRefuses(start: Db, before: Db, n: Intent, ctx: Context, hash: Bytes, current: CrimeState, judged: CrimeResult)
    requires Later(start, before) && current == StateOf(start, ctx.character)
    requires ValidIntent(n, ctx.playerGuid) && |hash| == 64 && ctx.account > 0 && ctx.character > 0 && Fits(judged, current)
    ensures CommitMutation(before, IssueOn(n, ctx, hash, current, judged)).1.Thrown? ==> StoreRefuses(start, ctx)
    ensures StateOf(before, ctx.character) == current && !StoreRefuses(start, ctx) && EventKey(n, ctx) !in before.journal ==>
              CommitMutation(before, IssueOn(n, ctx, hash, current, judged)).1.IsCommitted()
  {
    hide Encode, WellFormed, Filed, ValidIntent, Fits;
    IssuedIsWellFormed(n, ctx, hash, current, judged);
  }

  lemma CommittedIsCommittedAs(w: View, before: Db, n: Intent, ctx: Context, hash: Bytes, current: CrimeState, judged: CrimeResult)
    requires ValidIntent(n, ctx.playerGuid) && |hash| == 64 && ctx.account > 0 && ctx.character > 0 && Fits(judged, current)
    requires w.history != [] && w.history[w.Last()] == CommitWork(IssueOn(n, ctx, hash, current, judged))
    requires before == w.At(w.Last()) && StateOf(before, ctx.character) == current
    requires CommitMutation(before, IssueOn(n, ctx, hash, current, judged)).1.IsCommitted()
    requires w.db == CommitMutation(before, IssueOn(n, ctx, hash, current, judged)).0
    ensures CommittedAs(w, n, ctx, hash, judged, Outcome(On(judged, current), false, true, None))
  {
    hide CommitMutation, Encode, WellFormed, Filed, ValidIntent, Fits, Run;
    IssuedIsWellFormed(n, ctx, hash, current, judged);
    CommittedState(before, IssueOn(n, ctx, hash, current, judged));
  }

  /** A duplicate row is still there after the commit. */
  lemma EventRowUnder(before: Db, after: Db, c: Commit, n: Intent, ctx: Context)
    requires CommitMutation(before, c).1.Reply? && CommitMutation(before, c).1.status in {DuplicateRequest, DuplicateConflict}
    requires c.key == EventKey(n, ctx) && ValidIntent(n, ctx.playerGuid) && Later(before, after)
    ensures c.key in before.journal && c.key in after.journal
    ensures CommitMutation(before, c).1.status == DuplicateRequest <==> after.journal[c.key].hash == c.hash
    ensures CommitMutation(before, c).1.storedPayload == after.journal[c.key].payload
  {
    RowStands(before, c);
    assert NoNul(EVENT_SERVICE);
  }

  lemma RowIsAnswered(v: View, w: View, n: Intent, ctx: Context, hash: Bytes, judged: CrimeResult, o: Outcome)
    requires EventKey(n, ctx) in w.db.journal && AnsweredFrom(w.db.journal[EventKey(n, ctx)], hash, o)
    requires o.replayed || o.result == Blank(n).(error := o.result.error, state := StateOf(w.db, ctx.character))
    ensures Answered(v, w, n, ctx, hash, judged, o)
  {
    hide Decode;
  }

  lemma RowOrCommitAnswers(v: View, w: View, n: Intent, ctx: Context, hash: Bytes, judged: CrimeResult, o: Outcome)
    requires if o.committed then !ctx.deferCommit && judged.accepted && CommittedAs(w, n, ctx, hash, judged, o)
             else RowAnswers(w.db, n, ctx, hash, judged, o)
    ensures Answered(v, w, n, ctx, hash, judged, o)
  {
    hide Decode, CommittedAs;
  }

  lemma RefusalIsAnswered(v: View, w: View, x: View, n: Intent, ctx: Context, hash: Bytes, judged: CrimeResult, base: CrimeState)
    requires Grew(v, w) && v.own == w.own && Grew(w, x) && Started(w, w, ctx, base) && !(judged.accepted && Fits(judged, base))
    requires RejectedAs(w, x, n, ctx, hash, RefusedOn(judged, base))
    ensures Answered(v, x, n, ctx, hash, judged, Outcome(RefusedOn(judged, base), false, false, None))
    ensures WritesOnly(v, x, n, ctx, hash, Some(Outcome(RefusedOn(judged, base), false, false, None)))
  {
    hide Fits, RowAnswers, RowOf, AddRejection, Later;
    StartedStays(v, w, x, ctx, base);
  }

  lemma PendingIsAnswered(v: View, w: View, n: Intent, ctx: Context, hash: Bytes, judged: CrimeResult, base: CrimeState, o: Outcome)
    requires Grew(v, w) && Started(w, w, ctx, base) && judged.accepted && ctx.deferCommit && PendingOn(n, ctx, hash, judged, base, o)
    ensures Answered(v, w, n, ctx, hash, judged, o)
  {
    hide Fits, On, IssueOn;
    CrimeService.SameMoment(w);
    StartedStays(v, w, w, ctx, base);
  }

  lemma StaleIsAnswered(v: View, w: View, n: Intent, ctx: Context, hash: Bytes, judged: CrimeResult, o: Outcome)
    requires judged.accepted && !ctx.deferCommit
    requires o == Outcome(Rejection(judged, STALE_REVISION).(state := StateOf(w.db, ctx.character)), false, false, None)
    requires StateOf(w.db, ctx.character).revision >= StateOf(v.db, ctx.character).revision + 3
    ensures Answered(v, w, n, ctx, hash, judged, o)
  {
    hide RowAnswers, Fits;
  }

  lemma StartedStays(v: View, w: View, x: View, ctx: Context, base: CrimeState)
    requires Grew(v, w) && Grew(w, x) && Started(w, w, ctx, base)
    ensures Started(v, x, ctx, base)
  {
    hide Run, Later;
    if !(ctx.deferCommit && ctx.startingState.Some?) {
      var j: nat :| |w.history| <= j <= |w.history| && base == w.Load(j, ctx.character);
      CrimeService.LoadStays(w, x, j, ctx.character);
      assert CrimeService.HadState(v, x, ctx.character, base);
    }
  }

  // ----- an undisturbed evaluation --------------------------------------------------------------

  /** `next` is `base` with `owed` more to pay and, for a crime that counts, one more crime; the revision moves exactly
    when something did. What is paid stays. */
  predicate Charged(base: CrimeState, owed: int, counts: bool, next: CrimeState) {
    && next.bounty == base.bounty + owed && next.currentCrimeId == base.currentCrimeId + (if counts then 1 else 0)
    && next.revision == base.revision + (if counts || owed != 0 then 1 else 0)
    && next.paidCrimeId == base.paidCrimeId && next.schemaVersion == base.schemaVersion
  }

  /** There is room for that. */
  predicate Room(base: CrimeState, owed: int, counts: bool) {
    && base.bounty + owed <= 0x7fff_ffff && (counts ==> base.currentCrimeId < 0x7fff_ffff)
    && (counts || owed != 0 ==> base.revision < 0x7fff_ffff_ffff_ffff)
  }

  /** The bounty, when somebody saw the crime and somebody reports it. */
  ghost predicate Owes(p: Policy, n: Intent, cs: seq<Candidate>, owed: int)
    requires ValidPolicy(p) && ValidType(n.crime) && (n.crime == THEFT ==> n.value >= 0)
  {
    owed == if (exists c <- cs :: Saw(p, n, c)) && (exists c <- cs :: CanWitness(p, n, c) && c.alarm == 100)
               && BountyFor(n, p).Some?
            then BountyFor(n, p).value else 0
  }

  lemma JudgedOwes(p: Policy, n: Intent, guid: u32, cs: seq<Candidate>)
    requires ValidPolicy(p) && ValidIntent(n, guid) && ValidWitnessList(cs)
    ensures ValidType(n.crime) && (n.crime == THEFT ==> n.value >= 0)
    ensures var r := Judge(p, n, guid, cs);
            && (r.crimeSeen <==> exists c <- cs :: Saw(p, n, c)) && Owes(p, n, cs, r.bountyDelta)
            && (r.crimeIdAdvanced <==> r.accepted && r.crimeSeen && n.crime != WEREWOLF)
            && (r.accepted <==> BountyFor(n, p).Some?) && (!r.accepted ==> r.error == STATE_OVERFLOW) && r.bountyDelta >= 0
  {
    hide Judge, ValidIntent, ValidWitnessList, BountyFor, Saw, CanWitness, SpeaksOf, ValidPolicy;
    BountyMeaning(p, n, guid, cs);
    ValidIntentValue(n, guid);
  }

  /** Undisturbed, the first evaluation of a valid event of this account, told by the event, its witnesses and the stored
    state alone. `v` and `w` are the connection before and after, as evaluate promises them. A crime counts when somebody saw
    it, but for the exposure of a werewolf; its bounty is owed when moreover somebody reports it. The event commits exactly
    when its bounty is an int32 and the state has room, and then the character and nobody else is charged; otherwise it is
    refused as an overflow and nobody's state changes. */
  lemma UndisturbedMeaning(p: Policy, v: View, w: View, n: Intent, cs: seq<Candidate>, ctx: Context, hash: Bytes, r: Option<Outcome>,
                           seen: bool, owed: int)
    requires ValidPolicy(p) && v.Valid() && ValidIntent(n, ctx.playerGuid) && ValidWitnessList(cs)
    requires ctx.account > 0 && ctx.character > 0 && ctx.playerGuid != 0 && !ctx.failAfterStateWrite && !ctx.deferCommit
    requires ctx.character in v.db.owners && v.db.owners[ctx.character] == ctx.account
    requires Key(EVENT_SERVICE, ctx.account, ctx.character, n.eventId) !in v.db.journal
    requires WentUndisturbed(v.db, w.db, n, ctx, hash, Judge(p, n, ctx.playerGuid, cs), r)
    requires r.Some? ==> Answered(v, w, n, ctx, hash, Judge(p, n, ctx.playerGuid, cs), r.value)
    requires seen <==> exists c <- cs :: Saw(p, n, c)
    requires ValidType(n.crime) && (n.crime == THEFT ==> n.value >= 0) && Owes(p, n, cs, owed)
    ensures r.Some? && !r.value.replayed && r.value.pending == None && r.value.result.accepted == r.value.committed
    ensures var base, next, counts := StateOf(v.db, ctx.character), StateOf(w.db, ctx.character), seen && n.crime != WEREWOLF;
            && (r.value.committed <==> BountyFor(n, p).Some? && Room(base, owed, counts))
            && (r.value.committed ==> Charged(base, owed, counts, next))
            && (!r.value.committed ==> r.value.result.error == STATE_OVERFLOW && w.db.states == v.db.states)
            && r.value.result.state == next
    ensures forall other: i64 :: other != ctx.character ==> StateOf(w.db, other) == StateOf(v.db, other)
  {
    hide *;
    var judged := Judge(p, n, ctx.playerGuid, cs);
    JudgedOwes(p, n, ctx.playerGuid, cs);
    OneAmount(p, n, cs, owed, judged.bountyDelta);
    CrimeService.StoredIsValid(v, ctx.character);
    FirstIsFresh(v.db, n, ctx);
    FirstIsAnswered(v.db, n, ctx, hash, judged, w.db, r);
    WentAsJudged(v.db, v, w, n, ctx, hash, judged, r);
  }

  lemma OneAmount(p: Policy, n: Intent, cs: seq<Candidate>, owed: int, other: int)
    requires ValidPolicy(p) && ValidType(n.crime) && (n.crime == THEFT ==> n.value >= 0)
    requires Owes(p, n, cs, owed) && Owes(p, n, cs, other)
    ensures owed == other
  {
    hide Saw, CanWitness, BountyFor;
  }

  lemma FirstIsFresh(db: Db, n: Intent, ctx: Context)
    requires ctx.account > 0 && ctx.character > 0 && ctx.playerGuid != 0 && !ctx.deferCommit && !ctx.failAfterStateWrite
    requires ctx.character in db.owners && db.owners[ctx.character] == ctx.account
    requires Key(EVENT_SERVICE, ctx.account, ctx.character, n.eventId) !in db.journal && ValidState(StateOf(db, ctx.character))
    ensures Fresh(db, n, ctx)
  {
  }

  lemma FirstIsAnswered(db: Db, n: Intent, ctx: Context, hash: Bytes, judged: CrimeResult, after: Db, r: Option<Outcome>)
    requires Fresh(db, n, ctx) && WentUndisturbed(db, after, n, ctx, hash, judged, r)
    ensures r.Some?
  {
    hide Undisturbed, Fits;
  }

  lemma WentAsJudged(db: Db, v: View, w: View, n: Intent, ctx: Context, hash: Bytes, judged: CrimeResult, r: Option<Outcome>)
    requires Fresh(db, n, ctx) && !ctx.deferCommit && WentUndisturbed(db, w.db, n, ctx, hash, judged, r)
    requires judged.bountyDelta >= 0 && (!judged.accepted ==> judged.error == STATE_OVERFLOW)
    requires r.Some? ==> Answered(v, w, n, ctx, hash, judged, r.value)
    ensures r.Some? && !r.value.replayed && r.value.pending == None
    ensures r.value.committed <==>
              judged.accepted && Room(StateOf(db, ctx.character), judged.bountyDelta, judged.crimeIdAdvanced)
    ensures r.value.committed ==>
              Charged(StateOf(db, ctx.character), judged.bountyDelta, judged.crimeIdAdvanced, StateOf(w.db, ctx.character))
    ensures r.value.result.state == StateOf(w.db, ctx.character) && r.value.result.accepted == r.value.committed
    ensures !r.value.committed ==> r.value.result.error == STATE_OVERFLOW && w.db.states == db.states
    ensures forall other: i64 :: other != ctx.character ==> StateOf(w.db, other) == StateOf(db, other)
  {
    hide *;
    var base := StateOf(db, ctx.character);
    FirstCases(db, w, n, ctx, hash, judged, r);
    FitsIsRoom(judged, base);
    if judged.accepted && Fits(judged, base) {
      CommittedIsStored(v, w, n, ctx, hash, judged, r.value);
      OnIsCharged(judged, base);
      CommitsExactly(db, IssueOn(n, ctx, hash, base, judged));
      KeyIsCharacter(n, ctx, hash, base, judged);
    } else {
      RefusedChangesNothing(db, n, ctx, hash, judged, base);
    }
  }

  lemma FirstCases(db: Db, w: View, n: Intent, ctx: Context, hash: Bytes, judged: CrimeResult, r: Option<Outcome>)
    requires Fresh(db, n, ctx) && !ctx.deferCommit && WentUndisturbed(db, w.db, n, ctx, hash, judged, r)
    ensures ValidState(StateOf(db, ctx.character))
    ensures var base := StateOf(db, ctx.character);
            if judged.accepted && Fits(judged, base) then
              && r == Some(Outcome(On(judged, base), false, true, None))
              && w.db == CommitMutation(db, IssueOn(n, ctx, hash, base, judged)).0
            else
              && r == Some(Outcome(RefusedOn(judged, base), false, false, None))
              && w.db == AfterRejection(db, n, ctx, hash, RefusedOn(judged, base))
  {
    hide Fits, On, IssueOn, CommitMutation, AfterRejection, RefusedOn;
  }

  lemma FitsIsRoom(judged: CrimeResult, base: CrimeState)
    requires ValidState(base) && judged.bountyDelta >= 0
    ensures Fits(judged, base) <==> Room(base, judged.bountyDelta, judged.crimeIdAdvanced)
  {
  }

  lemma OnIsCharged(judged: CrimeResult, base: CrimeState)
    requires Fits(judged, base)
    ensures Charged(base, judged.bountyDelta, judged.crimeIdAdvanced, On(judged, base).state)
    ensures On(judged, base).accepted == judged.accepted
  {
  }

  lemma CommittedIsStored(v: View, w: View, n: Intent, ctx: Context, hash: Bytes, judged: CrimeResult, o: Outcome)
    requires Answered(v, w, n, ctx, hash, judged, o) && o.committed
    ensures o.result.state == StateOf(w.db, ctx.character)
  {
    hide Explained, PendingFrom, Fits, Run, Encode;
  }

  lemma KeyIsCharacter(n: Intent, ctx: Context, hash: Bytes, base: CrimeState, judged: CrimeResult)
    requires Fits(judged, base)
    ensures IssueOn(n, ctx, hash, base, judged).key.character == ctx.character
  {
    hide Fits, Encode, On;
  }

  lemma RefusedChangesNothing(db: Db, n: Intent, ctx: Context, hash: Bytes, judged: CrimeResult, base: CrimeState)
    ensures AfterRejection(db, n, ctx, hash, RefusedOn(judged, base)).states == db.states
    ensures forall c: i64 :: StateOf(AfterRejection(db, n, ctx, hash, RefusedOn(judged, base)), c) == StateOf(db, c)
    ensures var o := RefusedOn(judged, base);
            o.state == base && !o.accepted && (judged.accepted || judged.error == STATE_OVERFLOW ==> o.error == STATE_OVERFLOW)
  {
    hide Encode, Filed;
  }
}
