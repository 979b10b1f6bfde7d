/** Deferred commits: several events evaluated on top of each other before any of them is committed, as for
  an assault that ends in a murder, against the same events evaluated and committed one by one. */
module CrimeDeferral {
  import opened Wrappers
  import opened ByteBuffers
  import opened CrimeTypes
  import opened CrimeCodec
  import opened CrimeStore
  import opened CrimeTransitions
  import opened CrimeJudgement
  import opened CrimeSemantics
  import CrimeService
  import IntentCodec

  /** An event and what its witnesses observed. */
  datatype Observed = Observed(n: Intent, witnesses: seq<Candidate>)

  /** A judged event that waits for its state. */
  datatype Prepared = Prepared(n: Intent, hash: Bytes, judged: CrimeResult)

  ghost function Prepare(policy: Policy, sha: Sha, guid: u32, es: seq<Observed>): seq<Prepared>
    requires ValidPolicy(policy)
  {
    seq(|es|, i requires 0 <= i < |es| =>
          Prepared(es[i].n, sha(IntentCodec.EncodeIntent(es[i].n)), Judge(policy, es[i].n, guid, es[i].witnesses)))
  }

  function Init<T>(s: seq<T>): seq<T>
    requires s != []
  {
    s[..|s| - 1]
  }

  function Last<T>(s: seq<T>): T
    requires s != []
  {
    s[|s| - 1]
  }

  /** The state after the events, each on the state that its predecessor leaves; None when one of them is
    rejected or does not fit. */
  function EndState(base: CrimeState, ps: seq<Prepared>): Option<CrimeState> {
    if ps == [] then Some(base)
    else
      match EndState(base, Init(ps))
      case None => None
      case Some(s) => if Last(ps).judged.accepted && Fits(Last(ps).judged, s) then Some(On(Last(ps).judged, s).state) else None
  }

  /** The pending commits, each result state being the next event's startingState. */
  function Chain(base: CrimeState, ctx: Context, ps: seq<Prepared>): (cs: seq<Commit>)
    requires EndState(base, ps).Some?
    ensures |cs| == |ps|
  {
    if ps == [] then []
    else
      Chain(base, ctx, Init(ps)) + [IssueOn(Last(ps).n, ctx, Last(ps).hash, EndState(base, Init(ps)).value, Last(ps).judged)]
  }

  /** The commits applied in order. */
  function CommitAll(db: Db, cs: seq<Commit>): Db {
    if cs == [] then db else CommitMutation(CommitAll(db, Init(cs)), Last(cs)).0
  }

  ghost predicate AllCommitted(db: Db, cs: seq<Commit>) {
    cs != [] ==> AllCommitted(db, Init(cs)) && CommitMutation(CommitAll(db, Init(cs)), Last(cs)).1.IsCommitted()
  }

  /** Distinct events of an authorized character that are not journaled yet. */
  ghost predicate FreshEvents(db: Db, ctx: Context, ps: seq<Prepared>) {
    && Authorized(ctx) && !StoreRefuses(db, ctx)
    && (forall i :: 0 <= i < |ps| ==> |ps[i].hash| == 64 && EventKey(ps[i].n, ctx) !in db.journal)
    && (forall i :: 0 <= i < |ps| && ps[i].judged.accepted ==> ValidIntent(ps[i].n, ctx.playerGuid))
    && forall i, j :: 0 <= i < j < |ps| ==> ps[i].n.eventId != ps[j].n.eventId
  }

  /** The events can be chained on what is stored. */
  ghost predicate Chainable(db: Db, ctx: Context, ps: seq<Prepared>) {
    ValidDb(db) && FreshEvents(db, ctx, ps) && EndState(StateOf(db, ctx.character), ps).Some?
  }

  /** There is a row for each event, with the result of its commit. */
  ghost predicate RowsFor(after: Db, ctx: Context, ps: seq<Prepared>, cs: seq<Commit>)
    requires |cs| == |ps|
  {
    forall i :: 0 <= i < |ps| ==>
      EventKey(ps[i].n, ctx) in after.journal
      && after.journal[EventKey(ps[i].n, ctx)] == Entry(ps[i].hash, true, 0, cs[i].payload, ps[i].n.source)
  }

  /** Every other row was there before. */
  ghost predicate OnlyRowsFor(db: Db, after: Db, ctx: Context, ps: seq<Prepared>) {
    forall key <- after.journal :: key in db.journal || exists i :: 0 <= i < |ps| && EventKey(ps[i].n, ctx) == key
  }

  /** What committing a chain in order leaves: the end of the chain and one row for each event. */
  ghost predicate Booked(db: Db, after: Db, ctx: Context, ps: seq<Prepared>, cs: seq<Commit>)
    requires |cs| == |ps|
  {
    && ValidDb(after) && after.owners == db.owners
    && Some(StateOf(after, ctx.character)) == EndState(StateOf(db, ctx.character), ps)
    && RowsFor(after, ctx, ps, cs) && OnlyRowsFor(db, after, ctx, ps)
  }

  lemma PrefixChainable(db: Db, ctx: Context, ps: seq<Prepared>)
    requires Chainable(db, ctx, ps) && ps != []
    ensures Chainable(db, ctx, Init(ps))
  {
    hide ValidIntent, Fits, On, StoreRefuses;
  }

  /** The pending commits of distinct fresh events all succeed when they are applied in order, their expected
    revisions line up, and they leave the end of the chain and every result. */
  lemma {:induction false} ChainCommits(db: Db, ctx: Context, ps: seq<Prepared>)
    requires Chainable(db, ctx, ps)
    ensures var cs := Chain(StateOf(db, ctx.character), ctx, ps);
            && AllCommitted(db, cs) && Booked(db, CommitAll(db, cs), ctx, ps, cs)
            && forall i :: 0 < i < |cs| ==> cs[i].expectedRevision == cs[i - 1].resulting.revision
    decreases |ps|
  {
    hide CommitMutation, FreshEvents, IssueOn, On, Fits, ValidDb, Booked;
    var base := StateOf(db, ctx.character);
    if ps == [] {
      NothingBooked(db, ctx);
    } else {
      PrefixChainable(db, ctx, ps);
      ChainCommits(db, ctx, Init(ps));
      var init := Chain(base, ctx, Init(ps));
      var cs := Chain(base, ctx, ps);
      assert Init(cs) == init;
      OneMore(db, CommitAll(db, init), ctx, ps, init);
      RevisionsLineUp(base, ctx, ps);
    }
  }

  lemma NothingBooked(db: Db, ctx: Context)
    requires ValidDb(db)
    ensures Booked(db, db, ctx, [], [])
  {
  }

  lemma {:induction false} RevisionsLineUp(base: CrimeState, ctx: Context, ps: seq<Prepared>)
    requires EndState(base, ps).Some?
    ensures var cs := Chain(base, ctx, ps);
            && (ps != [] ==> EndState(base, ps) == Some(Last(cs).resulting))
            && forall i :: 0 < i < |cs| ==> cs[i].expectedRevision == cs[i - 1].resulting.revision
    decreases |ps|
  {
    hide Encode, Fits;
    if ps != [] {
      RevisionsLineUp(base, ctx, Init(ps));
      assert Init(ps) == [] ==> |ps| == 1;
    }
  }

  lemma OneMore(db: Db, met: Db, ctx: Context, ps: seq<Prepared>, cs: seq<Commit>)
    requires Chainable(db, ctx, ps) && ps != [] && |cs| == |ps| - 1
    requires Booked(db, met, ctx, Init(ps), cs)
    ensures var base := EndState(StateOf(db, ctx.character), Init(ps)).value;
            var c := IssueOn(Last(ps).n, ctx, Last(ps).hash, base, Last(ps).judged);
            && CommitMutation(met, c).1.IsCommitted()
            && Booked(db, CommitMutation(met, c).0, ctx, ps, cs + [c])
  {
    hide WellFormed, Filed, ValidIntent, Fits, On, Encode, CommitMutation, Booked, ValidDb;
    var base := EndState(StateOf(db, ctx.character), Init(ps)).value;
    var p := Last(ps);
    var c := IssueOn(p.n, ctx, p.hash, base, p.judged);
    NextIsFresh(db, met, ctx, ps, cs);
    assert StateOf(met, ctx.character) == base by { BookedState(db, met, ctx, Init(ps), cs); }
    CrimeService.SameMoment(View(met, met, [], {}));
    OnlyTheStoreRefuses(met, met, p.n, ctx, p.hash, base, p.judged);
    IssuedIsWellFormed(p.n, ctx, p.hash, base, p.judged);
    CommittedState(met, c);
    assert ValidDb(met) by { BookedState(db, met, ctx, Init(ps), cs); }
    WorkMovesForward(met, CommitWork(c));
    BookNext(db, met, CommitMutation(met, c).0, ctx, ps, cs, c);
  }

  lemma BookedState(db: Db, met: Db, ctx: Context, ps: seq<Prepared>, cs: seq<Commit>)
    requires |cs| == |ps| && Booked(db, met, ctx, ps, cs)
    ensures ValidDb(met) && Some(StateOf(met, ctx.character)) == EndState(StateOf(db, ctx.character), ps)
    ensures met.owners == db.owners
  {
  }

  lemma NextIsFresh(db: Db, met: Db, ctx: Context, ps: seq<Prepared>, cs: seq<Commit>)
    requires Chainable(db, ctx, ps) && ps != [] && |cs| == |ps| - 1
    requires Booked(db, met, ctx, Init(ps), cs)
    ensures EventKey(Last(ps).n, ctx) !in met.journal && !StoreRefuses(met, ctx)
    ensures ValidIntent(Last(ps).n, ctx.playerGuid) && |Last(ps).hash| == 64
  {
    hide ValidIntent, Fits, On, EndState, ValidDb;
    assert Last(ps).judged.accepted by { LastAccepted(StateOf(db, ctx.character), ps); }
  }

  lemma LastAccepted(base: CrimeState, ps: seq<Prepared>)
    requires EndState(base, ps).Some? && ps != []
    ensures Last(ps).judged.accepted
  {
  }

  lemma BookNext(db: Db, met: Db, after: Db, ctx: Context, ps: seq<Prepared>, cs: seq<Commit>, c: Commit)
    requires ps != [] && |cs| == |ps| - 1 && Booked(db, met, ctx, Init(ps), cs)
    requires forall i :: 0 <= i < |ps| - 1 ==> ps[i].n.eventId != Last(ps).n.eventId
    requires ValidDb(after) && after.owners == met.owners
    requires Some(StateOf(after, ctx.character)) == EndState(StateOf(db, ctx.character), ps)
    requires after.journal == met.journal[EventKey(Last(ps).n, ctx) := Entry(Last(ps).hash, true, 0, c.payload, Last(ps).n.source)]
    ensures Booked(db, after, ctx, ps, cs + [c])
  {
    hide EndState, ValidDb, RowsFor, OnlyRowsFor, StateOf;
    NextRow(met, after, ctx, ps, cs, c);
    NoOtherRow(db, met, after, ctx, ps);
  }

  lemma NextRow(met: Db, after: Db, ctx: Context, ps: seq<Prepared>, cs: seq<Commit>, c: Commit)
    requires ps != [] && |cs| == |ps| - 1 && RowsFor(met, ctx, Init(ps), cs)
    requires forall i :: 0 <= i < |ps| - 1 ==> ps[i].n.eventId != Last(ps).n.eventId
    requires after.journal == met.journal[EventKey(Last(ps).n, ctx) := Entry(Last(ps).hash, true, 0, c.payload, Last(ps).n.source)]
    ensures RowsFor(after, ctx, ps, cs + [c])
  {
    forall i | 0 <= i < |ps| - 1
      ensures EventKey(ps[i].n, ctx) in after.journal
      ensures after.journal[EventKey(ps[i].n, ctx)] == Entry(ps[i].hash, true, 0, cs[i].payload, ps[i].n.source)
    {
      assert Init(ps)[i] == ps[i];
    }
  }

  lemma NoOtherRow(db: Db, met: Db, after: Db, ctx: Context, ps: seq<Prepared>)
    requires ps != [] && OnlyRowsFor(db, met, ctx, Init(ps))
    requires after.journal.Keys == met.journal.Keys + {EventKey(Last(ps).n, ctx)}
    ensures OnlyRowsFor(db, after, ctx, ps)
  {
    forall key <- after.journal
      ensures key in db.journal || exists i :: 0 <= i < |ps| && EventKey(ps[i].n, ctx) == key
    {
      if key == EventKey(Last(ps).n, ctx) {
        assert EventKey(ps[|ps| - 1].n, ctx) == key;
      } else if key !in db.journal {
        assert key in met.journal;
        var i :| 0 <= i < |Init(ps)| && EventKey(Init(ps)[i].n, ctx) == key;
        assert ps[i] == Init(ps)[i];
      }
    }
  }

  lemma {:induction false} EveryPrefixChainable(db: Db, ctx: Context, ps: seq<Prepared>, n: nat)
    requires Chainable(db, ctx, ps) && n <= |ps|
    ensures Chainable(db, ctx, ps[..n])
    decreases |ps| - n
  {
    hide Chainable;
    if n == |ps| {
      assert ps[..n] == ps;
    } else {
      EveryPrefixChainable(db, ctx, ps, n + 1);
      PrefixChainable(db, ctx, ps[..n + 1]);
      assert Init(ps[..n + 1]) == ps[..n];
    }
  }

  // ----- evaluating the events ------------------------------------------------------------------

  /** The contexts of the two ways to evaluate. */
  function Deferred(ctx: Context, state: Option<CrimeState>): Context { ctx.(deferCommit := true, startingState := state) }

  function Immediate(ctx: Context): Context { ctx.(deferCommit := false, startingState := None) }

  /** What an undisturbed immediate evaluation of the last event does after the others. */
  lemma ImmediateStep(db: Db, ctx: Context, ps: seq<Prepared>)
    requires Chainable(db, ctx, ps) && ps != []
    ensures var base := StateOf(db, ctx.character);
            var met := CommitAll(db, Chain(base, ctx, Init(ps)));
            && EndState(base, Init(ps)).Some? && Fits(Last(ps).judged, EndState(base, Init(ps)).value)
            && Fresh(met, Last(ps).n, Immediate(ctx))
            && Undisturbed(met, Last(ps).n, Immediate(ctx), Last(ps).hash, Last(ps).judged)
               == (CommitAll(db, Chain(base, ctx, ps)), Outcome(On(Last(ps).judged, EndState(base, Init(ps)).value), false, true, None))
  {
    hide CommitMutation, Encode, On, Fits, ValidIntent, FreshEvents, Booked, ValidDb;
    var base := StateOf(db, ctx.character);
    var cs := Chain(base, ctx, Init(ps));
    var met := CommitAll(db, cs);
    PrefixChainable(db, ctx, ps);
    ChainCommits(db, ctx, Init(ps));
    NextIsFresh(db, met, ctx, ps, cs);
    BookedState(db, met, ctx, Init(ps), cs);
    StateIsValid(met, ctx.character);
    assert Authorized(ctx) by { FreshIsAuthorized(db, ctx, ps); }
    assert Init(Chain(base, ctx, ps)) == cs;
  }

  lemma FreshIsAuthorized(db: Db, ctx: Context, ps: seq<Prepared>)
    requires FreshEvents(db, ctx, ps)
    ensures Authorized(ctx) && !StoreRefuses(db, ctx)
    ensures forall i :: 0 <= i < |ps| ==> EventKey(ps[i].n, ctx) !in db.journal
  {
  }

  /** What an undisturbed deferred evaluation of the last event does after the others have been prepared. */
  lemma DeferredStep(db: Db, ctx: Context, ps: seq<Prepared>, state: Option<CrimeState>)
    requires Chainable(db, ctx, ps) && ps != []
    requires state == if |ps| == 1 then None else EndState(StateOf(db, ctx.character), Init(ps))
    ensures var base := StateOf(db, ctx.character);
            && EndState(base, Init(ps)).Some? && Fits(Last(ps).judged, EndState(base, Init(ps)).value)
            && Fresh(db, Last(ps).n, Deferred(ctx, state))
            && Undisturbed(db, Last(ps).n, Deferred(ctx, state), Last(ps).hash, Last(ps).judged)
               == (db, Outcome(On(Last(ps).judged, EndState(base, Init(ps)).value), false, false, Some(Last(Chain(base, ctx, ps)))))
  {
    hide CommitMutation, Encode, On, ValidIntent, FreshEvents, ValidDb;
    var base := StateOf(db, ctx.character);
    assert |ps| == 1 ==> Init(ps) == [];
    FreshIsAuthorized(db, ctx, ps);
    assert ps[|ps| - 1] == Last(ps);
    StateIsValid(db, ctx.character);
  }

  /** Each event is evaluated and committed before the next one. */
  method EvaluateEach(service: CrimeSemanticService, es: seq<Observed>, ctx: Context) returns (results: seq<CrimeResult>)
    requires service.Valid()
    modifies service.database
    ensures service.Valid() && HonestlyGrew(service.sha, old(service.database.Viewed()), service.database.Viewed())
    ensures var ps := Prepare(service.policy, service.sha, ctx.playerGuid, es);
            var db := old(service.database.db);
            old(service.database.Alone()) && Chainable(db, ctx, ps) ==>
              && service.database.db == CommitAll(db, Chain(StateOf(db, ctx.character), ctx, ps))
              && Results(StateOf(db, ctx.character), ps, results)
  {
    hide Chainable, CommitAll, Chain, EndState, Undisturbed, Fresh, HonestlyGrew, OneEffect, Answered, AnsweredFrom, Judge;
    hide IntentCodec.EncodeIntent, Grew, ValidPolicy, View.Valid, Fits, On;
    results := [];
    ghost var v := service.database.Viewed();
    ghost var ps := Prepare(service.policy, service.sha, ctx.playerGuid, es);
    ghost var base := StateOf(v.db, ctx.character);
    CrimeService.SameMoment(v);
    QuietIsHonest(service.sha, v, v);
    assert ps[..0] == [];
    NothingYet(v.db, ctx, base);
    for i := 0 to |es|
      invariant service.Valid() && HonestlyGrew(service.sha, v, service.database.Viewed())
      invariant old(service.database.Alone()) ==> service.database.Alone()
      invariant old(service.database.Alone()) && Chainable(v.db, ctx, ps) ==>
                  && EndState(base, ps[..i]).Some? && Results(base, ps[..i], results)
                  && service.database.db == CommitAll(v.db, Chain(base, ctx, ps[..i]))
    {
      ghost var w := service.database.Viewed();
      var o := service.Evaluate(es[i].n, es[i].witnesses, Immediate(ctx));
      HonestTransitive(service.sha, v, w, service.database.Viewed());
      if old(service.database.Alone()) && Chainable(v.db, ctx, ps) {
        EveryPrefixChainable(v.db, ctx, ps, i + 1);
        assert Init(ps[..i + 1]) == ps[..i] && Last(ps[..i + 1]) == ps[i];
        ImmediateStep(v.db, ctx, ps[..i + 1]);
        ResultsGrow(base, ps[..i + 1], results);
        ChainableEnds(v.db, ctx, ps[..i + 1]);
      }
      if o.None? { return; }
      results := results + [o.value.result];
    }
    assert ps[..|es|] == ps;
  }

  lemma ChainableEnds(db: Db, ctx: Context, ps: seq<Prepared>)
    requires Chainable(db, ctx, ps)
    ensures EndState(StateOf(db, ctx.character), ps).Some?
  {
  }

  lemma NothingYet(db: Db, ctx: Context, base: CrimeState)
    ensures EndState(base, []) == Some(base) && Chain(base, ctx, []) == [] && CommitAll(db, []) == db
  {
  }

  /** The accepted results of the events, each on the state that its predecessor leaves. */
  ghost predicate Results(base: CrimeState, ps: seq<Prepared>, results: seq<CrimeResult>) {
    |results| == |ps| && forall i :: 0 <= i < |ps| ==> ResultAt(base, ps, i, results[i])
  }

  ghost predicate ResultAt(base: CrimeState, ps: seq<Prepared>, i: nat, r: CrimeResult)
    requires i < |ps|
  {
    && EndState(base, ps[..i]).Some? && Fits(ps[i].judged, EndState(base, ps[..i]).value)
    && r == On(ps[i].judged, EndState(base, ps[..i]).value)
  }

  lemma ResultsGrow(base: CrimeState, ps: seq<Prepared>, results: seq<CrimeResult>)
    requires ps != [] && Results(base, Init(ps), results)
    requires EndState(base, Init(ps)).Some? && Fits(Last(ps).judged, EndState(base, Init(ps)).value)
    ensures Results(base, ps, results + [On(Last(ps).judged, EndState(base, Init(ps)).value)])
  {
    hide EndState, Fits, On;
    forall i | 0 <= i < |ps|
      ensures ResultAt(base, ps, i, (results + [On(Last(ps).judged, EndState(base, Init(ps)).value)])[i])
    {
      if i < |ps| - 1 {
        assert ResultAt(base, Init(ps), i, results[i]);
        assert Init(ps)[..i] == ps[..i] && Init(ps)[i] == ps[i];
      }
    }
  }

  /** Each event is evaluated on the result of the one before and none is committed. The first is evaluated on
    the stored state, which is `base`; None when an event has no pending commit. Other connections may do
    what they like meanwhile. */
  method DeferEach(service: CrimeSemanticService, es: seq<Observed>, ctx: Context)
    returns (r: Option<seq<Commit>>, ghost base: CrimeState)
    requires service.Valid()
    modifies service.database
    ensures service.Valid() && HonestlyGrew(service.sha, old(service.database.Viewed()), service.database.Viewed())
    ensures var ps := Prepare(service.policy, service.sha, ctx.playerGuid, es);
            r.Some? ==>
              && service.database.own == old(service.database.own)
              && EndState(base, ps).Some? && r.value == Chain(base, ctx, ps)
              && (es != [] ==> CrimeService.HadState(old(service.database.Viewed()), service.database.Viewed(), ctx.character, base))
    ensures var ps := Prepare(service.policy, service.sha, ctx.playerGuid, es);
            var db := old(service.database.db);
            old(service.database.Alone()) && Chainable(db, ctx, ps) ==>
              && service.database.Alone() && service.database.db == db
              && r == Some(Chain(StateOf(db, ctx.character), ctx, ps))
  {
    hide Chainable, Chain, EndState, Undisturbed, Fresh, HonestlyGrew, OneEffect, Answered, AnsweredFrom, Judge;
    hide IntentCodec.EncodeIntent, Grew, ValidPolicy, View.Valid, Fits, On, IssueOn, CrimeService.HadState;
    var commits, state := [], None;
    ghost var v := service.database.Viewed();
    ghost var ps := Prepare(service.policy, service.sha, ctx.playerGuid, es);
    base := StateOf(v.db, ctx.character);
    CrimeService.SameMoment(v);
    QuietIsHonest(service.sha, v, v);
    assert ps[..0] == [];
    NothingYet(v.db, ctx, base);
    for i := 0 to |es|
      invariant service.Valid() && HonestlyGrew(service.sha, v, service.database.Viewed())
      invariant service.database.own == v.own
      invariant EndState(base, ps[..i]).Some? && commits == Chain(base, ctx, ps[..i])
      invariant state == if i == 0 then None else EndState(base, ps[..i])
      invariant state.Some? ==> ValidState(state.value)
      invariant i > 0 ==> CrimeService.HadState(v, service.database.Viewed(), ctx.character, base)
      invariant old(service.database.Alone()) ==> service.database.Alone()
      invariant old(service.database.Alone()) && Chainable(v.db, ctx, ps) ==>
                  base == StateOf(v.db, ctx.character) && service.database.db == v.db
    {
      ghost var w := service.database.Viewed();
      var o := service.Evaluate(es[i].n, es[i].witnesses, Deferred(ctx, state));
      ghost var x := service.database.Viewed();
      HonestTransitive(service.sha, v, w, x);
      assert ps[..i + 1] != [] && Init(ps[..i + 1]) == ps[..i] && Last(ps[..i + 1]) == ps[i];
      if old(service.database.Alone()) && Chainable(v.db, ctx, ps) {
        EveryPrefixChainable(v.db, ctx, ps, i + 1);
        DeferredStep(v.db, ctx, ps[..i + 1], state);
      }
      if o.None? || o.value.pending.None? { return None, base; }
      service.HonestIsGrowth(v, w);
      service.HonestIsGrowth(w, x);
      base := PendingExtends(v, w, x, base, ctx, ps[..i + 1], state, o.value);
      if i == 0 && old(service.database.Alone()) && Chainable(v.db, ctx, ps) {
        ChainableEnds(v.db, ctx, ps[..1]);
        OneBase(base, StateOf(v.db, ctx.character), ctx, ps[..1]);
      }
      commits, state := commits + [o.value.pending.value], Some(o.value.result.state);
    }
    assert ps[..|es|] == ps;
    r := Some(commits);
  }

  /** A pending commit of an authorized context extends the chain; the first one starts it on a loaded state. */
  lemma PendingExtends(v: View, w: View, x: View, start: CrimeState, ctx: Context, ps: seq<Prepared>, state: Option<CrimeState>,
                       o: Outcome) returns (base: CrimeState)
    requires ps != [] && o.pending.Some? && Grew(v, w) && Grew(w, x)
    requires Answered(w, x, Last(ps).n, Deferred(ctx, state), Last(ps).hash, Last(ps).judged, o)
    requires state == if |ps| == 1 then None else EndState(start, Init(ps))
    requires |ps| > 1 ==> EndState(start, Init(ps)).Some? && CrimeService.HadState(v, w, ctx.character, start)
    ensures |ps| > 1 ==> base == start
    ensures EndState(base, ps) == Some(o.result.state) && ValidState(o.result.state)
    ensures Chain(base, ctx, ps) == Chain(base, ctx, Init(ps)) + [o.pending.value]
    ensures CrimeService.HadState(v, x, ctx.character, base)
  {
    hide Encode, Explained, CommittedAs, View.Load, Fits, Later;
    var s :| Started(w, x, Deferred(ctx, state), s) && PendingOn(Last(ps).n, Deferred(ctx, state), Last(ps).hash, Last(ps).judged, s, o);
    base := if |ps| == 1 then s else start;
    assert |ps| == 1 ==> Init(ps) == [];
    assert ValidState(o.result.state) by { FitsStaysValid(Last(ps).judged, s); }
    if |ps| == 1 {
      var j: nat :| |w.history| <= j <= |x.history| && base == x.Load(j, ctx.character);
      assert CrimeService.HadState(v, x, ctx.character, base);
    } else {
      var j: nat :| |v.history| <= j <= |w.history| && base == w.Load(j, ctx.character);
      CrimeService.LoadStays(w, x, j, ctx.character);
      assert CrimeService.HadState(v, x, ctx.character, base);
    }
  }

  lemma FitsStaysValid(judged: CrimeResult, base: CrimeState)
    requires Fits(judged, base)
    ensures ValidState(On(judged, base).state)
  {
  }

  /** A commit shows the state that it was prepared on. */
  lemma OneBase(a: CrimeState, b: CrimeState, ctx: Context, ps: seq<Prepared>)
    requires |ps| == 1 && EndState(a, ps).Some? && EndState(b, ps).Some?
    requires Last(Chain(a, ctx, ps)) == Last(Chain(b, ctx, ps))
    ensures a == b
  {
    hide Encode;
    assert Init(ps) == [];
  }

  /** Each commit of a chain is made from the end of the events before it. */
  lemma {:induction false} ChainIsMade(policy: Policy, sha: Sha, es: seq<Observed>, ctx: Context, base: CrimeState, k: nat, i: nat)
    requires ValidPolicy(policy) && i < k <= |es| && EndState(base, Prepare(policy, sha, ctx.playerGuid, es)[..k]).Some?
    ensures var ps := Prepare(policy, sha, ctx.playerGuid, es)[..k];
            var c := Chain(base, ctx, ps)[i];
            && EndState(base, ps[..i]).Some? && Fits(ps[i].judged, EndState(base, ps[..i]).value)
            && MadeFrom(sha, EndState(base, ps[..i]).value, c, Event(ps[i].n, On(ps[i].judged, EndState(base, ps[..i]).value)))
            && EndState(base, ps[..i + 1]) == Some(c.resulting) && c.key.character == ctx.character
    decreases k
  {
    hide MadeFrom, On, Fits, Judge, IntentCodec.EncodeIntent, Encode, ValidPolicy, IssueOn;
    var all := Prepare(policy, sha, ctx.playerGuid, es);
    var ps := all[..k];
    assert Init(ps) == all[..k - 1];
    if i == k - 1 {
      assert ps[..i] == Init(ps) && ps[..i + 1] == ps;
      LastIsMade(policy, sha, es[i], ctx, EndState(base, Init(ps)).value);
    } else {
      ChainIsMade(policy, sha, es, ctx, base, k - 1, i);
      assert Init(ps)[..i] == ps[..i] && Init(ps)[..i + 1] == ps[..i + 1] && Init(ps)[i] == ps[i];
    }
  }

  lemma LastIsMade(policy: Policy, sha: Sha, e: Observed, ctx: Context, base: CrimeState)
    requires ValidPolicy(policy)
    requires var judged := Judge(policy, e.n, ctx.playerGuid, e.witnesses); judged.accepted && Fits(judged, base)
    ensures var judged := Judge(policy, e.n, ctx.playerGuid, e.witnesses);
            var c := IssueOn(e.n, ctx, sha(IntentCodec.EncodeIntent(e.n)), base, judged);
            MadeFrom(sha, base, c, Event(e.n, On(judged, base))) && c.resulting == On(judged, base).state && c.key.character == ctx.character
  {
    hide MadeFrom, On, Fits, Judge, IntentCodec.EncodeIntent, Encode, ValidPolicy, ValidIntent, Consistent;
    JudgedShape(policy, e.n, ctx.playerGuid, e.witnesses);
    IssuedIsMade(sha, e.n, ctx, base, Judge(policy, e.n, ctx.playerGuid, e.witnesses));
  }

  // ----- accepting the chain in one transaction -------------------------------------------------

  lemma {:induction false} CommitAllIsRun(db: Db, cs: seq<Commit>)
    ensures CommitAll(db, cs) == Run(db, Works(cs))
  {
    hide CommitMutation;
    if cs != [] {
      CommitAllIsRun(db, Init(cs));
      assert Works(cs)[..|cs| - 1] == Works(Init(cs));
    }
  }

  lemma {:induction false} CommittedTogether(db: Db, cs: seq<Commit>)
    requires AllCommitted(db, cs)
    ensures CommitTogether(db, cs) == Attempt(db, cs) == (CommitAll(db, cs), BatchCommitted)
  {
    hide CommitMutation;
    if cs != [] { CommittedTogether(db, Init(cs)); }
  }

  /** A batch without duplicates that goes through has committed every one of its commits. */
  lemma {:induction false} NewMeansCommitted(db: Db, cs: seq<Commit>)
    requires CommitTogether(db, cs).1 == BatchCommitted
    requires forall c <- cs :: Filed(c.key) !in db.journal
    requires forall i, j :: 0 <= i < j < |cs| ==> Filed(cs[i].key) != Filed(cs[j].key)
    ensures AllCommitted(db, cs) && CommitTogether(db, cs).0 == CommitAll(db, cs)
    ensures forall key <- CommitAll(db, cs).journal :: key in db.journal || exists c :: c in cs && Filed(c.key) == key
  {
    hide CommitMutation, Filed;
    if cs != [] {
      NewMeansCommitted(db, Init(cs));
      CommittedTogether(db, Init(cs));
      NewIsCommitted(CommitAll(db, Init(cs)), Last(cs));
      forall c | c in Init(cs)
        ensures c in cs && Filed(c.key) != Filed(Last(cs).key)
      {
        var i :| 0 <= i < |Init(cs)| && Init(cs)[i] == c;
        assert cs[i] == c;
      }
      assert Last(cs) in cs;
    }
  }

  lemma NewIsCommitted(db: Db, c: Commit)
    requires Filed(c.key) !in db.journal
    ensures CommitMutation(db, c).1.Reply? && CommitMutation(db, c).1.status in {Committed, DuplicateRequest} ==>
              CommitMutation(db, c).1.IsCommitted()
    ensures forall key <- CommitMutation(db, c).0.journal :: key in db.journal || key == Filed(c.key)
  {
    hide Filed, WellFormed;
  }

  /** The pending commits of a chain are accepted in one transaction after the last evaluation: all of them, or
    nothing is written. Unless a duplicate is passed over, each of them counts in the ledger like any other commit;
    and undisturbed the store ends as it does under EvaluateEach: the same state, the same rows, the same payloads. */
  method AcceptDeferred(service: CrimeSemanticService, es: seq<Observed>, ctx: Context)
    returns (batch: Option<Batch>, ghost met: View, ghost base: CrimeState, ghost cs: seq<Commit>)
    requires service.Valid()
    modifies service.database
    ensures service.Valid()
    ensures batch.Some? ==>
              && Grew(old(service.database.Viewed()), met) && met.own == old(service.database.own)
              && batch.value == CommitTogether(met.db, cs).1 && service.database.Viewed() == AfterBatch(met, cs)
    ensures var ps := Prepare(service.policy, service.sha, ctx.playerGuid, es);
            batch.Some? ==>
              && EndState(base, ps).Some? && cs == Chain(base, ctx, ps)
              && (es != [] ==> CrimeService.HadState(old(service.database.Viewed()), met, ctx.character, base))
    ensures batch == Some(BatchCommitted) && AllCommitted(met.db, cs) ==>
              HonestlyGrew(service.sha, old(service.database.Viewed()), service.database.Viewed())
    ensures batch != Some(BatchCommitted) ==> HonestlyGrew(service.sha, old(service.database.Viewed()), service.database.Viewed())
    ensures batch.Some? && batch.value != BatchCommitted ==> service.database.own == old(service.database.own)
    ensures var ps := Prepare(service.policy, service.sha, ctx.playerGuid, es);
            var db := old(service.database.db);
            old(service.database.Alone()) && Chainable(db, ctx, ps) ==>
              batch == Some(BatchCommitted) && service.database.db == CommitAll(db, Chain(StateOf(db, ctx.character), ctx, ps))
  {
    hide Chainable, CommitAll, Chain, EndState, CommitMutation, Judge, HonestlyGrew, Grew, IntentCodec.EncodeIntent, ValidPolicy;
    hide View.Valid, CrimeService.HadState, AllCommitted, Booked, MadeFrom, Fits, On, OneEffect, CommitTogether, AfterBatch;
    ghost var v := service.database.Viewed();
    ghost var ps := Prepare(service.policy, service.sha, ctx.playerGuid, es);
    var r;
    r, base := DeferEach(service, es, ctx);
    ghost var w := service.database.Viewed();
    if r.None? { return None, w, base, []; }
    cs := r.value;
    var status;
    status, met := service.database.CommitBatch(r.value);
    batch := Some(status);
    ghost var x := service.database.Viewed();
    service.HonestIsGrowth(v, w);
    GrewTransitive(v, w, met);
    NothingElse(met, cs);
    if es != [] { HadStateStays(v, w, met, ctx.character, base); }
    if AllCommitted(met.db, cs) {
      CommittedTogether(met.db, cs);
      if es == [] {
        assert cs == [];
        EmptyBatch(met);
        QuietIsHonest(service.sha, v, x);
      } else {
        BatchIsHonest(service.policy, service.sha, es, ctx, base, v, met, x, cs);
      }
    } else if status != BatchCommitted {
      QuietIsHonest(service.sha, v, x);
    }
    if old(service.database.Alone()) && Chainable(v.db, ctx, ps) {
      ChainCommits(v.db, ctx, ps);
      CommittedTogether(v.db, cs);
    }
  }

  lemma NothingElse(met: View, cs: seq<Commit>)
    ensures CommitTogether(met.db, cs).1 != BatchCommitted ==> AfterBatch(met, cs) == met
    ensures CommitTogether(met.db, cs).1 == BatchCommitted ==> AfterBatch(met, cs).db == CommitTogether(met.db, cs).0
  {
  }

  lemma EmptyBatch(met: View)
    ensures AfterBatch(met, []) == met
  {
    assert Works([]) == [];
    assert met.history + [] == met.history;
  }

  lemma HadStateStays(v: View, w: View, x: View, character: i64, state: CrimeState)
    requires Grew(w, x) && CrimeService.HadState(v, w, character, state)
    ensures CrimeService.HadState(v, x, character, state)
  {
    hide View.Load, Later;
    var j: nat :| |v.history| <= j <= |w.history| && state == w.Load(j, character);
    CrimeService.LoadStays(w, x, j, character);
    assert state == x.Load(j, character);
  }

  /** The store between two commits of a batch. */
  lemma InsideBatch(met: View, cs: seq<Commit>, i: nat)
    requires met.Valid() && AllCommitted(met.db, cs) && i <= |cs|
    ensures var x := AfterBatch(met, cs);
            |x.history| == |met.history| + |cs| && x.At(|met.history| + i) == CommitAll(met.db, cs[..i])
  {
    hide CommitMutation, Attempt;
    CommittedTogether(met.db, cs);
    var x := AfterBatch(met, cs);
    assert x.history[..|met.history| + i] == met.history + Works(cs[..i]);
    RunConcat(met.origin, met.history, Works(cs[..i]));
    CommitAllIsRun(met.db, cs[..i]);
  }

  lemma BatchIsHonest(policy: Policy, sha: Sha, es: seq<Observed>, ctx: Context, base: CrimeState, v: View, met: View, x: View, cs: seq<Commit>)
    requires ValidPolicy(policy) && Grew(v, met) && met.own == v.own && met.Valid()
    requires EndState(base, Prepare(policy, sha, ctx.playerGuid, es)).Some? && cs == Chain(base, ctx, Prepare(policy, sha, ctx.playerGuid, es))
    requires es != [] && CrimeService.HadState(v, met, ctx.character, base)
    requires AllCommitted(met.db, cs) && x == AfterBatch(met, cs) && Grew(met, x)
    ensures HonestlyGrew(sha, v, x)
  {
    hide Judge, IntentCodec.EncodeIntent, ValidPolicy, Chain, EndState, CommitAll, CommitTogether, AllCommitted, CommitMutation, Honest;
    hide View.Valid, CrimeService.HadState, Later, Run;
    GrewTransitive(v, met, x);
    CommittedTogether(met.db, cs);
    BatchShape(met, cs);
    forall k | k in x.own && k !in v.own
      ensures k < |x.history| && Honest(sha, x, k)
    {
      assert k in Between(|met.history|, |met.history| + |cs|);
      EntryIsHonest(policy, sha, es, ctx, base, v, met, x, cs, k - |met.history|);
    }
  }

  lemma BatchShape(met: View, cs: seq<Commit>)
    requires CommitTogether(met.db, cs).1 == BatchCommitted
    ensures var x := AfterBatch(met, cs);
            && x.history == met.history + Works(cs) && x.own == met.own + Between(|met.history|, |met.history| + |cs|)
  {
    hide CommitTogether;
  }

  lemma EntryIsHonest(policy: Policy, sha: Sha, es: seq<Observed>, ctx: Context, base: CrimeState, v: View, met: View, x: View,
                      cs: seq<Commit>, i: nat)
    requires ValidPolicy(policy) && met.Valid() && i < |es|
    requires EndState(base, Prepare(policy, sha, ctx.playerGuid, es)).Some? && cs == Chain(base, ctx, Prepare(policy, sha, ctx.playerGuid, es))
    requires CrimeService.HadState(v, met, ctx.character, base)
    requires AllCommitted(met.db, cs) && x == AfterBatch(met, cs) && Grew(met, x) && x.history == met.history + Works(cs)
    ensures Honest(sha, x, |met.history| + i)
  {
    hide Judge, IntentCodec.EncodeIntent, ValidPolicy, Chain, EndState, CommitAll, CommitTogether, AllCommitted, CommitMutation, MadeFrom;
    hide View.Valid, Later, Run, AfterBatch, On, Fits, Grew;
    var ps := Prepare(policy, sha, ctx.playerGuid, es);
    assert ps[..|es|] == ps;
    ChainIsMade(policy, sha, es, ctx, base, |es|, i);
    var state := EndState(base, ps[..i]).value;
    var cause := Event(ps[i].n, On(ps[i].judged, state));
    assert x.history[|met.history| + i] == CommitWork(cs[i]);
    if i == 0 {
      assert ps[..0] == [];
      NothingYet(met.db, ctx, base);
      var j: nat :| |v.history| <= j <= |met.history| && base == met.Load(j, ctx.character);
      CrimeService.LoadStays(met, x, j, ctx.character);
      assert MadeFrom(sha, x.Load(j, ctx.character), cs[i], cause);
    } else {
      ChainIsMade(policy, sha, es, ctx, base, |es|, i - 1);
      CommittedAt(met.db, cs, i - 1);
      CommittedState(CommitAll(met.db, cs[..i - 1]), cs[i - 1]);
      InsideBatch(met, cs, i);
      assert MadeFrom(sha, x.Load(|met.history| + i, ctx.character), cs[i], cause);
    }
  }

  /** When another connection commits the first of two events in between, its duplicate is passed over and the second
    commit overwrites the state. The bounty then counts what was committed exactly when that was what the deferred
    evaluation had expected; the hash does not see the difference, for it covers the intent and not the witnesses. */
  lemma PassedOver(db: Db, base: CrimeState, ctx: Context, ps: seq<Prepared>)
    requires |ps| == 2 && EndState(base, ps).Some?
    requires var cs := Chain(base, ctx, ps);
             && CommitMutation(db, cs[0]).1.Reply? && CommitMutation(db, cs[0]).1.status == DuplicateRequest
             && CommitMutation(db, cs[1]).1.IsCommitted()
    ensures var cs := Chain(base, ctx, ps);
            var (after, batch) := CommitTogether(db, cs);
            && batch == BatchCommitted && after == CommitMutation(db, cs[1]).0 && !AllCommitted(db, cs)
            && (StateOf(after, ctx.character).bounty == StateOf(db, ctx.character).bounty + ps[1].judged.bountyDelta
                <==> StateOf(db, ctx.character).bounty == base.bounty + ps[0].judged.bountyDelta)
  {
    hide CommitMutation, Fits, Encode;
    var cs := Chain(base, ctx, ps);
    TwoEvents(base, ctx, ps);
    RowStands(db, cs[0]);
    CommittedState(db, cs[1]);
    assert cs[..1] == [cs[0]] && cs[..1][..0] == [];
    assert Attempt(db, cs[..1]) == (db, BatchCommitted);
    assert Init(cs) == [cs[0]];
  }

  lemma TwoEvents(base: CrimeState, ctx: Context, ps: seq<Prepared>)
    requires |ps| == 2 && EndState(base, ps).Some?
    ensures var cs := Chain(base, ctx, ps);
            && cs[1].resulting.bounty == base.bounty + ps[0].judged.bountyDelta + ps[1].judged.bountyDelta
            && cs[0].key.character == cs[1].key.character == ctx.character
  {
    hide Encode;
    assert Init(ps) == [ps[0]] && Init([ps[0]]) == [];
  }

  /** Such a store and such a chain: the assault had been committed with 5, and was expected to be worth 10. */
  lemma LostBounty() returns (db: Db, base: CrimeState, ctx: Context, ps: seq<Prepared>)
    ensures |ps| == 2 && EndState(base, ps).Some? && ValidDb(db)
    ensures var (after, batch) := CommitTogether(db, Chain(base, ctx, ps));
            && batch == BatchCommitted
            && StateOf(after, ctx.character).bounty != StateOf(db, ctx.character).bounty + ps[1].judged.bountyDelta
  {
    hide Encode, CommitMutation, CommitTogether;
    var zero := Vector(0, 0, 0);
    var actor := Snapshot(Identity(PLAYER, 1, 0), zero, zero, true, true, true, true, true, true, false, true,
                          0, 0, 0, 0, 0, 0, 0, 0, 0, 1, 1, 1, 1, SERVER_AUTHORITATIVE);
    var n := Intent(CRIME_VERSION, [0x61], [0x73], ASSAULT, [0x63], actor, None, false, 0, 1, 1, []);
    var m := n.(eventId := [0x6d], crime := MURDER);
    var judged := Blank(n).(accepted := true, crimeSeen := true, reportingStageRun := true, bountyApplied := true,
                            bountyDelta := 10, crimeIdAdvanced := true);
    ctx := Context(1, 1, 1, false, true, None);
    base := INITIAL_STATE;
    ps := [Prepared(n, [1], judged), Prepared(m, [2], judged.(eventId := m.eventId, crime := MURDER, bountyDelta := 40))];
    db := Db(map[1 := 1], map[1 := INITIAL_STATE.(bounty := 5, currentCrimeId := 0, revision := 1)],
             map[EventKey(n, ctx) := Entry([1], true, 0, [1], n.source)]);
    assert Init(ps) == [ps[0]] && Init([ps[0]]) == [];
    assert EndState(base, [ps[0]]) == Some(INITIAL_STATE.(bounty := 10, currentCrimeId := 0, revision := 1));
    var cs := Chain(base, ctx, ps);
    assert Chain(base, ctx, [ps[0]]) == [cs[0]];
    SimpleReplies(db, cs[0]) by { EncodeNonempty(On(ps[0].judged, base)); }
    SimpleReplies(db, cs[1]) by { EncodeNonempty(On(ps[1].judged, EndState(base, [ps[0]]).value)); }
    PassedOver(db, base, ctx, ps);
  }

  /** The replies to an advancing commit of a character's owner. */
  lemma SimpleReplies(db: Db, c: Commit)
    requires c.key.service == EVENT_SERVICE && NoNul(c.key.requestId) && c.key.account > 0 && c.key.character > 0
    requires c.key.requestId != [] && c.hash != [] && c.payload != [] && c.source != [] && ValidState(c.resulting)
    requires c.expectedRevision < MAX_REVISION && c.resulting.revision == c.expectedRevision + 1 && !c.failAfterStateWrite
    requires c.key in db.journal || (Owned(db, c.key) && StateOf(db, c.key.character).revision == c.expectedRevision)
    ensures if c.key in db.journal
            then CommitMutation(db, c).1.Reply?
                 && CommitMutation(db, c).1.status == if db.journal[c.key].hash == c.hash then DuplicateRequest else DuplicateConflict
            else CommitMutation(db, c).1.IsCommitted()
  {
    assert NoNul(EVENT_SERVICE);
  }

  lemma {:induction false} CommittedAt(db: Db, cs: seq<Commit>, i: nat)
    requires AllCommitted(db, cs) && i < |cs|
    ensures CommitMutation(CommitAll(db, cs[..i]), cs[i]).1.IsCommitted()
    ensures CommitMutation(CommitAll(db, cs[..i]), cs[i]).0 == CommitAll(db, cs[..i + 1])
    decreases |cs|
  {
    hide CommitMutation;
    assert Init(cs[..i + 1]) == cs[..i];
    if i == |cs| - 1 {
      assert cs[..i + 1] == cs;
    } else {
      CommittedAt(db, Init(cs), i);
      assert Init(cs)[..i] == cs[..i] && Init(cs)[..i + 1] == cs[..i + 1];
    }
  }
}
