/** AdminMutationQueue as a protocol: every critical section is one atomic step, and the batches that
  drainers and cancellers hold privately are part of the state. */
module AdminQueue {
  import opened Wrappers

  datatype RequestState = Queued | Running | Completed | Cancelled

  datatype Response = Response(status: int, body: string)

  /** A shared Request object; its identity is its position in `requests`. */
  datatype Request = Request(kind: nat, cellId: string, state: RequestState, response: Response) {
    predicate Terminal() { state.Completed? || state.Cancelled? }
  }

  const EMPTY := Response(200, "")
  const CANCELLED := Response(503, "{\"ok\":false,\"error\":\"server_shutting_down\"}")
  const TIMED_OUT := Response(504, "{\"ok\":false,\"error\":\"admin_reset_timeout\"}")
  const FAILED := Response(500, "{\"ok\":false,\"error\":\"admin_mutation_failed\"}")

  /** What a thread is in the middle of. */
  datatype Local =
    | Idle
    | Draining(batch: seq<nat>)                            // about to look at batch[0]
    | Executing(id: nat, rest: seq<nat>)                   // marked Running, the executor has not run
    | Publishing(id: nat, response: Response, rest: seq<nat>) // the executor has returned
    | Cancelling(batch: seq<nat>)
    | Waiting(id: nat)                                     // inside wait_for
    | WaitingOn(id: nat)                                   // timed out on a running request
  {
    /** The requests this thread alone is responsible for. */
    function Held(): seq<nat> {
      match this
      case Draining(batch) => batch
      case Executing(id, rest) => [id] + rest
      case Publishing(id, _, rest) => [id] + rest
      case Cancelling(batch) => batch
      case _ => []
    }

    predicate Runs(i: nat) { (Executing? || Publishing?) && id == i }
  }

  /** `executions` counts executor calls per request and `produced` records what the calls yielded;
    `answers` records what wait returned. The queue itself never reads these three. */
  datatype Queue = Queue(
    accepting: bool, pending: seq<nat>, requests: seq<Request>, locals: map<nat, Local>,
    executions: seq<nat>, produced: map<nat, Response>, answers: set<(nat, Response)>)
  {
    function LocalOf(t: nat): Local { if t in locals then locals[t] else Idle }
  }

  datatype Step =
    | Enqueue(kind: nat, cellId: string)
    | BeginWait(t: nat, id: nat)
    | WaitReturns(t: nat)
    | WaitTimesOut(t: nat)
    | DrainSwap(t: nat)
    | DrainTake(t: nat)
    | Execute(t: nat, outcome: Option<Response>)           // None: the executor threw
    | Publish(t: nat)
    | CancelSwap(t: nat)
    | CancelTake(t: nat)

  const INITIAL := Queue(true, [], [], map[], [], map[], {})

  /** May this step happen now? */
  predicate Enabled(q: Queue, s: Step) {
    match s
    case Enqueue(_, _) => q.accepting
    case BeginWait(t, id) => q.LocalOf(t).Idle? && id < |q.requests|
    case WaitReturns(t) =>
      (q.LocalOf(t).Waiting? || q.LocalOf(t).WaitingOn?) && q.LocalOf(t).id < |q.requests|
      && q.requests[q.LocalOf(t).id].Terminal()
    case WaitTimesOut(t) =>
      q.LocalOf(t).Waiting? && q.LocalOf(t).id < |q.requests| && !q.requests[q.LocalOf(t).id].Terminal()
    case DrainSwap(t) => q.LocalOf(t).Idle?
    case DrainTake(t) =>
      q.LocalOf(t).Draining? && (q.LocalOf(t).batch != [] ==> q.LocalOf(t).batch[0] < |q.requests|)
    case Execute(t, _) => q.LocalOf(t).Executing? && q.LocalOf(t).id < |q.executions|
    case Publish(t) => q.LocalOf(t).Publishing? && q.LocalOf(t).id < |q.requests|
    case CancelSwap(t) => q.LocalOf(t).Idle?
    case CancelTake(t) =>
      q.LocalOf(t).Cancelling? && (q.LocalOf(t).batch != [] ==> q.LocalOf(t).batch[0] < |q.requests|)
  }

  function SetRequest(q: Queue, id: nat, state: RequestState, response: Response): seq<Request>
    requires id < |q.requests|
  {
    q.requests[id := q.requests[id].(state := state, response := response)]
  }

  function Next(q: Queue, s: Step): Queue
    requires Enabled(q, s)
  {
    match s
    case Enqueue(kind, cellId) =>
      q.(pending := q.pending + [|q.requests|], requests := q.requests + [Request(kind, cellId, Queued, EMPTY)],
         executions := q.executions + [0])
    case BeginWait(t, id) => q.(locals := q.locals[t := Waiting(id)])
    case WaitReturns(t) =>
      var id := q.LocalOf(t).id;
      q.(locals := q.locals[t := Idle], answers := q.answers + {(id, q.requests[id].response)})
    case WaitTimesOut(t) =>
      var id := q.LocalOf(t).id;
      if q.requests[id].state.Queued? then
        q.(requests := SetRequest(q, id, Cancelled, TIMED_OUT), locals := q.locals[t := Idle],
           answers := q.answers + {(id, TIMED_OUT)})
      else q.(locals := q.locals[t := WaitingOn(id)])
    case DrainSwap(t) => q.(pending := [], locals := q.locals[t := Draining(q.pending)])
    case DrainTake(t) =>
      var batch := q.LocalOf(t).batch;
      if batch == [] then q.(locals := q.locals[t := Idle])
      else if !q.requests[batch[0]].state.Queued? then q.(locals := q.locals[t := Draining(batch[1..])])
      else q.(requests := SetRequest(q, batch[0], Running, q.requests[batch[0]].response),
              locals := q.locals[t := Executing(batch[0], batch[1..])])
    case Execute(t, outcome) =>
      var Executing(id, rest) := q.LocalOf(t);
      var response := if outcome.Some? then outcome.value else FAILED;
      q.(locals := q.locals[t := Publishing(id, response, rest)],
         executions := q.executions[id := q.executions[id] + 1], produced := q.produced[id := response])
    case Publish(t) =>
      var Publishing(id, response, rest) := q.LocalOf(t);
      q.(requests := SetRequest(q, id, Completed, response), locals := q.locals[t := Draining(rest)])
    case CancelSwap(t) => q.(accepting := false, pending := [], locals := q.locals[t := Cancelling(q.pending)])
    case CancelTake(t) =>
      var batch := q.LocalOf(t).batch;
      if batch == [] then q.(locals := q.locals[t := Idle])
      else if !q.requests[batch[0]].state.Queued? then q.(locals := q.locals[t := Cancelling(batch[1..])])
      else q.(requests := SetRequest(q, batch[0], Cancelled, CANCELLED),
              locals := q.locals[t := Cancelling(batch[1..])])
  }

  // ----- the invariant --------------------------------------------------------------------------

  ghost predicate NoDuplicates(ids: seq<nat>) {
    forall i, j :: 0 <= i < j < |ids| ==> ids[i] != ids[j]
  }

  /** A request is in at most one place, once: the pending list or one thread's hands. */
  ghost predicate OnePlace(q: Queue) {
    && NoDuplicates(q.pending)
    && (forall t: nat :: NoDuplicates(q.LocalOf(t).Held()))
    && (forall t: nat, id :: id in q.LocalOf(t).Held() ==> id !in q.pending)
    && (forall t: nat, u: nat, id :: id in q.LocalOf(t).Held() && id in q.LocalOf(u).Held() ==> t == u)
  }

  ghost predicate Known(q: Queue) {
    && |q.executions| == |q.requests|
    && (forall id <- q.pending :: id < |q.requests|)
    && (forall t: nat, id :: id in q.LocalOf(t).Held() ==> id < |q.requests|)
    && (forall t: nat :: q.LocalOf(t).Waiting? || q.LocalOf(t).WaitingOn? ==> q.LocalOf(t).id < |q.requests|)
  }

  /** Somebody still has to look at the request. */
  ghost predicate Located(q: Queue, id: nat) {
    id in q.pending || exists t: nat :: id in q.LocalOf(t).Held() && !q.LocalOf(t).Runs(id)
  }

  /** What the state of a request says about where it is and whether it has been executed. */
  ghost predicate RequestAgrees(q: Queue, id: nat)
    requires id < |q.requests| == |q.executions|
  {
    match q.requests[id].state
    case Queued => q.executions[id] == 0 && Located(q, id)
    case Running => exists t: nat :: q.LocalOf(t).Runs(id)
    case Completed =>
      && q.executions[id] == 1 && id in q.produced && q.requests[id].response == q.produced[id]
      && id !in q.pending && forall t: nat :: id !in q.LocalOf(t).Held()
    case Cancelled => q.executions[id] == 0 && q.requests[id].response in {CANCELLED, TIMED_OUT}
  }

  /** What a thread in the middle of a request knows about it. */
  ghost predicate ThreadAgrees(q: Queue, t: nat)
    requires |q.requests| == |q.executions|
  {
    match q.LocalOf(t)
    case Executing(id, _) => id < |q.requests| && q.requests[id].state.Running? && q.executions[id] == 0
    case Publishing(id, response, _) =>
      && id < |q.requests| && q.requests[id].state.Running? && q.executions[id] == 1
      && id in q.produced && q.produced[id] == response
    case _ => true
  }

  ghost predicate StateAgrees(q: Queue)
    requires Known(q)
  {
    && (forall id: nat :: id < |q.requests| ==> RequestAgrees(q, id))
    && (forall t: nat :: ThreadAgrees(q, t))
  }

  ghost predicate AnswersAgree(q: Queue)
    requires Known(q)
  {
    forall id: nat, r :: (id, r) in q.answers ==>
      id < |q.requests| && q.requests[id].Terminal() && r == q.requests[id].response
  }

  ghost predicate Invariant(q: Queue) {
    Known(q) && OnePlace(q) && StateAgrees(q) && AnswersAgree(q)
  }

  lemma InitialInvariant()
    ensures Invariant(INITIAL)
  {
  }

  /** What a step does to the hands of its thread: nothing, let go of the first request, or take the
    whole pending list. Other threads are not touched. */
  ghost predicate Moves(q: Queue, n: Queue, t: nat) {
    && (forall u: nat :: u != t ==> n.LocalOf(u) == q.LocalOf(u))
    && var before, after := q.LocalOf(t).Held(), n.LocalOf(t).Held();
       || (after == before && n.pending == q.pending)
       || (before != [] && after == before[1..] && n.pending == q.pending)
       || (before == [] && after == q.pending && n.pending == [])
  }

  lemma StepMoves(q: Queue, s: Step)
    requires Enabled(q, s) && !s.Enqueue?
    ensures Moves(q, Next(q, s), s.t)
  {
    var before := q.LocalOf(s.t);
    match s
    case DrainTake(t) => if before.batch != [] { assert [before.batch[0]] + before.batch[1..] == before.batch; }
    case Publish(t) => assert ([before.id] + before.rest)[1..] == before.rest;
    case _ =>
  }

  lemma EnqueueMoves(q: Queue, s: Step)
    requires Enabled(q, s) && s.Enqueue?
    ensures var n := Next(q, s);
            n.pending == q.pending + [|q.requests|] && forall u: nat :: n.LocalOf(u) == q.LocalOf(u)
  {
  }

  lemma KnownPreserved(q: Queue, s: Step)
    requires Invariant(q) && Enabled(q, s)
    ensures Known(Next(q, s))
  {
    if s.Enqueue? { EnqueueMoves(q, s); } else { StepMoves(q, s); }
  }

  lemma OnePlacePreserved(q: Queue, s: Step)
    requires Invariant(q) && Enabled(q, s)
    ensures OnePlace(Next(q, s))
  {
    hide Next, StateAgrees, AnswersAgree, Enabled, Local.Held;
    if s.Enqueue? {
      EnqueueMoves(q, s);
      assert forall i :: 0 <= i < |q.pending| ==> q.pending[i] in q.pending;
    } else {
      StepMoves(q, s);
    }
  }

  /** The thread that runs a request is the only one that has it. */
  lemma RunnerHolds(q: Queue, t: nat, id: nat)
    requires OnePlace(q) && q.LocalOf(t).Runs(id)
    ensures id !in q.pending && forall u: nat :: u != t ==> id !in q.LocalOf(u).Held()
    ensures q.LocalOf(t).Held()[0] == id && id !in q.LocalOf(t).Held()[1..]
  {
    assert q.LocalOf(t).Held()[0] == id;
  }

  lemma ThreadAgreesPreserved(q: Queue, s: Step, u: nat)
    requires Invariant(q) && Enabled(q, s) && Known(Next(q, s))
    ensures ThreadAgrees(Next(q, s), u)
  {
    hide OnePlace, AnswersAgree, Located;
    assert ThreadAgrees(q, u);
    if s.DrainTake? && q.LocalOf(s.t).batch != [] { assert RequestAgrees(q, q.LocalOf(s.t).batch[0]); }
    if s.Enqueue? {
      EnqueueMoves(q, s);
    } else {
      StepMoves(q, s);
      assert ThreadAgrees(q, s.t);
      if u != s.t && (q.LocalOf(u).Executing? || q.LocalOf(u).Publishing?) && (s.Execute? || s.Publish?) {
        assert q.LocalOf(s.t).id != q.LocalOf(u).id by {
          if q.LocalOf(s.t).id == q.LocalOf(u).id { TwoRunners(q, s.t, u, q.LocalOf(u).id); }
        }
      }
    }
  }

  lemma TwoRunners(q: Queue, t: nat, u: nat, id: nat)
    requires OnePlace(q) && q.LocalOf(t).Runs(id) && q.LocalOf(u).Runs(id)
    ensures t == u
  {
    RunnerHolds(q, t, id);
    RunnerHolds(q, u, id);
  }

  /** A request that is waiting stays findable until somebody takes it. */
  lemma LocatedPreserved(q: Queue, s: Step, id: nat)
    requires Invariant(q) && Enabled(q, s) && id < |q.requests| && Located(q, id)
    requires q.requests[id].state.Queued? && Next(q, s).requests[id].state.Queued?
    ensures Located(Next(q, s), id)
  {
    hide AnswersAgree, OnePlace, StateAgrees;
    var n := Next(q, s);
    if s.Enqueue? {
      EnqueueMoves(q, s);
      if id in q.pending { assert id in n.pending; }
    } else {
      StepMoves(q, s);
      if id in q.pending {
        StillPending(q, s, id);
      } else {
        var t: nat :| id in q.LocalOf(t).Held() && !q.LocalOf(t).Runs(id);
        if t == s.t { StillHeld(q, s, id); }
        assert id in n.LocalOf(t).Held() && !n.LocalOf(t).Runs(id);
      }
    }
  }

  lemma StillPending(q: Queue, s: Step, id: nat)
    requires Enabled(q, s) && !s.Enqueue? && id in q.pending
    ensures Located(Next(q, s), id)
  {
    var n := Next(q, s);
    if s.DrainSwap? || s.CancelSwap? {
      assert id in n.LocalOf(s.t).Held() && !n.LocalOf(s.t).Runs(id);
    }
  }

  lemma StillHeld(q: Queue, s: Step, id: nat)
    requires Enabled(q, s) && !s.Enqueue? && id < |q.requests|
    requires id in q.LocalOf(s.t).Held() && !q.LocalOf(s.t).Runs(id)
    requires q.requests[id].state.Queued? && Next(q, s).requests[id].state.Queued?
    ensures id in Next(q, s).LocalOf(s.t).Held() && !Next(q, s).LocalOf(s.t).Runs(id)
  {
  }

  lemma RequestAgreesPreserved(q: Queue, s: Step, id: nat)
    requires Invariant(q) && Enabled(q, s) && Known(Next(q, s)) && id < |Next(q, s).requests|
    ensures RequestAgrees(Next(q, s), id)
  {
    hide AnswersAgree, OnePlace, Located;
    var n := Next(q, s);
    if id == |q.requests| {
      assert n.pending[|q.pending|] == id;
      PendingIsLocated(n, id);
    } else {
      assert RequestAgrees(q, id);
      OldRequestAgrees(q, s, id);
    }
  }

  lemma OldRequestAgrees(q: Queue, s: Step, id: nat)
    requires Invariant(q) && Enabled(q, s) && Known(Next(q, s)) && id < |q.requests| && RequestAgrees(q, id)
    requires id < |Next(q, s).requests|
    ensures RequestAgrees(Next(q, s), id)
  {
    hide AnswersAgree, OnePlace, Located, StateAgrees;
    var n := Next(q, s);
    if s.Enqueue? { EnqueueMoves(q, s); } else { StepMoves(q, s); AgreesNow(q, s.t); }
    match n.requests[id].state
    case Queued =>
      LocatedPreserved(q, s, id);
    case Running =>
      RunningPreserved(q, s, id);
    case Completed =>
      if s.Publish? && q.LocalOf(s.t).id == id { RunnerHolds(q, s.t, id); }
    case Cancelled =>
  }

  lemma AgreesNow(q: Queue, t: nat)
    requires Invariant(q)
    ensures |q.requests| == |q.executions| && ThreadAgrees(q, t)
  {
    hide OnePlace, AnswersAgree, RequestAgrees;
  }

  lemma PendingIsLocated(q: Queue, id: nat)
    requires id in q.pending
    ensures Located(q, id)
  {
  }

  lemma RunningPreserved(q: Queue, s: Step, id: nat)
    requires Invariant(q) && Enabled(q, s) && id < |q.requests| && Next(q, s).requests[id].state.Running?
    ensures exists t: nat :: Next(q, s).LocalOf(t).Runs(id)
  {
    hide AnswersAgree, OnePlace, Located;
    var n := Next(q, s);
    assert RequestAgrees(q, id);
    if q.requests[id].state.Running? {
      var t: nat :| q.LocalOf(t).Runs(id);
      assert n.LocalOf(t).Runs(id);
    } else {
      assert n.LocalOf(s.t).Runs(id);
    }
  }

  lemma StateAgreesPreserved(q: Queue, s: Step)
    requires Invariant(q) && Enabled(q, s) && Known(Next(q, s))
    ensures StateAgrees(Next(q, s))
  {
    hide RequestAgrees, ThreadAgrees, Next, Invariant;
    forall id: nat | id < |Next(q, s).requests|
      ensures RequestAgrees(Next(q, s), id)
    {
      RequestAgreesPreserved(q, s, id);
    }
    forall t: nat
      ensures ThreadAgrees(Next(q, s), t)
    {
      ThreadAgreesPreserved(q, s, t);
    }
  }

  /** Terminal states are final: neither the state nor the response changes again, and a request that
    was cancelled is not executed later. */
  lemma TerminalStays(q: Queue, s: Step, id: nat)
    requires Invariant(q) && Enabled(q, s) && id < |q.requests| && q.requests[id].Terminal()
    ensures id < |Next(q, s).requests| && Next(q, s).requests[id] == q.requests[id]
    ensures id < |Next(q, s).executions| && Next(q, s).executions[id] == q.executions[id]
  {
    hide OnePlace, AnswersAgree, RequestAgrees;
    if !s.Enqueue? { assert ThreadAgrees(q, s.t); }
  }

  lemma AnswersAgreePreserved(q: Queue, s: Step)
    requires Invariant(q) && Enabled(q, s) && Known(Next(q, s))
    ensures AnswersAgree(Next(q, s))
  {
    hide OnePlace, StateAgrees;
    forall id: nat, r | (id, r) in Next(q, s).answers
      ensures id < |Next(q, s).requests| && Next(q, s).requests[id].Terminal() && r == Next(q, s).requests[id].response
    {
      if (id, r) in q.answers { TerminalStays(q, s, id); }
    }
  }

  lemma InvariantPreserved(q: Queue, s: Step)
    requires Invariant(q) && Enabled(q, s)
    ensures Invariant(Next(q, s))
  {
    hide Known, OnePlace, StateAgrees, AnswersAgree, Next, Enabled;
    KnownPreserved(q, s);
    OnePlacePreserved(q, s);
    StateAgreesPreserved(q, s);
    AnswersAgreePreserved(q, s);
  }

  // ----- whole runs -----------------------------------------------------------------------------

  /** `steps` is a possible interleaving from `q`. */
  ghost predicate IsRun(q: Queue, steps: seq<Step>)
    decreases |steps|
  {
    steps != [] ==> Enabled(q, steps[0]) && IsRun(Next(q, steps[0]), steps[1..])
  }

  ghost function RunAll(q: Queue, steps: seq<Step>): Queue
    requires IsRun(q, steps)
    decreases |steps|
  {
    if steps == [] then q else RunAll(Next(q, steps[0]), steps[1..])
  }

  lemma {:induction false} RunInvariant(q: Queue, steps: seq<Step>)
    requires Invariant(q) && IsRun(q, steps)
    ensures Invariant(RunAll(q, steps))
    decreases |steps|
  {
    hide Invariant, Next, Enabled;
    if steps != [] {
      InvariantPreserved(q, steps[0]);
      RunInvariant(Next(q, steps[0]), steps[1..]);
    }
  }

  lemma {:induction false} RunTerminalStays(q: Queue, steps: seq<Step>, id: nat)
    requires Invariant(q) && IsRun(q, steps) && id < |q.requests| == |q.executions| && q.requests[id].Terminal()
    ensures var n := RunAll(q, steps);
            && id < |n.requests| && n.requests[id] == q.requests[id]
            && id < |n.executions| && n.executions[id] == q.executions[id]
    decreases |steps|
  {
    hide Invariant, Next, Enabled;
    if steps != [] {
      InvariantPreserved(q, steps[0]);
      TerminalStays(q, steps[0], id);
      assert |Next(q, steps[0]).requests| == |Next(q, steps[0]).executions| by {
        SameLengths(Next(q, steps[0]));
      }
      RunTerminalStays(Next(q, steps[0]), steps[1..], id);
    }
  }

  lemma SameLengths(q: Queue)
    requires Invariant(q)
    ensures |q.executions| == |q.requests|
  {
  }

  /** In every interleaving the executor runs at most once per request. */
  lemma AtMostOnce(steps: seq<Step>, id: nat)
    requires IsRun(INITIAL, steps) && id < |RunAll(INITIAL, steps).executions|
    ensures RunAll(INITIAL, steps).executions[id] <= 1
  {
    hide Next, Enabled;
    InitialInvariant();
    RunInvariant(INITIAL, steps);
    var q := RunAll(INITIAL, steps);
    assert RequestAgrees(q, id);
    if q.requests[id].state.Running? {
      var t: nat :| q.LocalOf(t).Runs(id);
      assert ThreadAgrees(q, t);
    }
  }

  /** In every interleaving of waiters, drainers and shutdowns, what wait has answered is the truth
    now and after any continuation: either the request was cancelled with 503 or 504, has never been
    executed and never will be; or it was executed exactly once and the answer is what the executor
    produced. */
  lemma AnswersAreTruthful(steps: seq<Step>, more: seq<Step>, id: nat, r: Response)
    requires IsRun(INITIAL, steps) && (id, r) in RunAll(INITIAL, steps).answers
    requires IsRun(RunAll(INITIAL, steps), more)
    ensures var q := RunAll(INITIAL, steps);
            var later := RunAll(q, more);
            && id < |q.requests| && id < |later.requests| && id < |q.executions| && id < |later.executions|
            && later.requests[id] == q.requests[id] && r == q.requests[id].response
            && (if q.requests[id].state.Cancelled? then
                  r in {CANCELLED, TIMED_OUT} && q.executions[id] == 0 && later.executions[id] == 0
                else
                  q.requests[id].state.Completed? && id in q.produced && r == q.produced[id]
                  && q.executions[id] == 1 && later.executions[id] == 1)
  {
    hide Next, Enabled;
    InitialInvariant();
    RunInvariant(INITIAL, steps);
    var q := RunAll(INITIAL, steps);
    assert AnswersAgree(q) && RequestAgrees(q, id);
    RunTerminalStays(q, more, id);
  }

  // ----- what a run itself says -----------------------------------------------------------------

  lemma {:induction false} PrefixIsRun(q: Queue, steps: seq<Step>, k: nat)
    requires IsRun(q, steps) && k <= |steps|
    ensures IsRun(q, steps[..k])
    decreases k
  {
    hide Next, Enabled;
    if k > 0 {
      PrefixIsRun(Next(q, steps[0]), steps[1..], k - 1);
      assert steps[..k][1..] == steps[1..][..k - 1];
    }
  }

  /** The queue just before step `k` of a run. */
  ghost function Before(steps: seq<Step>, k: nat): Queue
    requires IsRun(INITIAL, steps) && k <= |steps|
  {
    PrefixIsRun(INITIAL, steps, k);
    RunAll(INITIAL, steps[..k])
  }

  lemma {:induction false} LastOfRun(q: Queue, steps: seq<Step>)
    requires IsRun(q, steps) && steps != []
    ensures var front, last := steps[..|steps| - 1], steps[|steps| - 1];
            IsRun(q, front) && Enabled(RunAll(q, front), last) && RunAll(q, steps) == Next(RunAll(q, front), last)
    decreases |steps|
  {
    hide Next, Enabled;
    PrefixIsRun(q, steps, |steps| - 1);
    if |steps| > 1 {
      LastOfRun(Next(q, steps[0]), steps[1..]);
      assert steps[..|steps| - 1][1..] == steps[1..][..|steps| - 2];
    }
  }

  /** One step at the end of a run. */
  lemma Unfold(steps: seq<Step>)
    requires IsRun(INITIAL, steps) && steps != []
    ensures var front, last := steps[..|steps| - 1], steps[|steps| - 1];
            var q := Before(steps, |steps| - 1);
            && IsRun(INITIAL, front) && q == RunAll(INITIAL, front) && Invariant(q)
            && Enabled(q, last) && RunAll(INITIAL, steps) == Next(q, last)
    ensures forall k: nat :: k < |steps| ==> Before(steps, k) == Before(steps[..|steps| - 1], k)
  {
    hide Next, Enabled;
    InitialInvariant();
    LastOfRun(INITIAL, steps);
    var front := steps[..|steps| - 1];
    RunInvariant(INITIAL, front);
    forall k: nat | k < |steps|
      ensures Before(steps, k) == Before(front, k)
    {
      assert steps[..k] == front[..k];
    }
  }

  /** At step `k` a drainer that had taken request `id` called the executor. */
  ghost predicate ExecutesAt(steps: seq<Step>, k: nat, id: nat)
    requires IsRun(INITIAL, steps)
  {
    && k < |steps| && steps[k].Execute?
    && var hand := Before(steps, k).LocalOf(steps[k].t); hand.Executing? && hand.id == id
  }

  /** The answer to a request whose executor call had this outcome. */
  ghost predicate AnswersOutcome(r: Response, outcome: Option<Response>) {
    match outcome
    case Some(value) => r == value
    case None => r == Response(500, "{\"ok\":false,\"error\":\"admin_mutation_failed\"}")
  }

  /** Step `s` calls the waiting request `id` off with `r`. */
  ghost predicate CallsOff(q: Queue, s: Step, id: nat, r: Response) {
    && id < |q.requests| && q.requests[id].state.Queued?
    && match s
       case WaitTimesOut(t) => q.LocalOf(t) == Waiting(id) && r == Response(504, "{\"ok\":false,\"error\":\"admin_reset_timeout\"}")
       case CancelTake(t) =>
         && q.LocalOf(t).Cancelling? && q.LocalOf(t).batch != [] && q.LocalOf(t).batch[0] == id
         && r == Response(503, "{\"ok\":false,\"error\":\"server_shutting_down\"}")
       case _ => false
  }

  /** At step `k` the waiting request `id` was called off: its own waiter ran out of time, or a shutdown
    came to it. */
  ghost predicate CallsOffAt(steps: seq<Step>, k: nat, id: nat, r: Response)
    requires IsRun(INITIAL, steps)
  {
    k < |steps| && CallsOff(Before(steps, k), steps[k], id, r)
  }

  /** The request that thread `t` last began to wait for. */
  ghost function LastAwaited(steps: seq<Step>, t: nat): Option<nat> {
    if steps == [] then None
    else if steps[|steps| - 1].BeginWait? && steps[|steps| - 1].t == t then Some(steps[|steps| - 1].id)
    else LastAwaited(steps[..|steps| - 1], t)
  }

  /** What has been enqueued, in order. */
  ghost function Enqueued(steps: seq<Step>): seq<(nat, string)> {
    if steps == [] then []
    else
      var front, last := steps[..|steps| - 1], steps[|steps| - 1];
      if last.Enqueue? then Enqueued(front) + [(last.kind, last.cellId)] else Enqueued(front)
  }

  ghost predicate Remembers(q: Queue, steps: seq<Step>) {
    && (q.accepting <==> forall s <- steps :: !s.CancelSwap?)
    && |q.requests| == |Enqueued(steps)|
    && (forall i: nat :: i < |q.requests| ==> (q.requests[i].kind, q.requests[i].cellId) == Enqueued(steps)[i])
    && (forall t: nat :: q.LocalOf(t).Waiting? || q.LocalOf(t).WaitingOn? ==>
          LastAwaited(steps, t) == Some(q.LocalOf(t).id))
  }

  lemma StepRemembers(q: Queue, front: seq<Step>, s: Step)
    requires Enabled(q, s) && Remembers(q, front)
    ensures Remembers(Next(q, s), front + [s])
  {
    assert (front + [s])[..|front|] == front;
    assert (front + [s])[|front|] == s;
    var n := Next(q, s);
    assert n.accepting <==> q.accepting && !s.CancelSwap?;
    assert forall e <- front :: e in front + [s];
    forall t: nat | n.LocalOf(t).Waiting? || n.LocalOf(t).WaitingOn?
      ensures LastAwaited(front + [s], t) == Some(n.LocalOf(t).id)
    {
    }
  }

  /** The queue accepts exactly as long as no shutdown has begun, request `i` is the `i`-th one that was
    enqueued, and a thread that waits waits for the request it began to wait for. */
  lemma {:induction false} RunIsRemembered(steps: seq<Step>)
    requires IsRun(INITIAL, steps)
    ensures Remembers(RunAll(INITIAL, steps), steps)
    decreases |steps|
  {
    hide Invariant, Next, Enabled;
    if steps != [] {
      hide Remembers, IsRun, RunAll;
      Unfold(steps);
      var front, last := steps[..|steps| - 1], steps[|steps| - 1];
      RunIsRemembered(front);
      StepRemembers(RunAll(INITIAL, front), front, last);
      assert steps == front + [last];
    }
  }

  /** Once a shutdown has begun nothing is enqueued any more. */
  lemma ClosedForGood(steps: seq<Step>, j: nat, k: nat)
    requires IsRun(INITIAL, steps) && j < k < |steps| && steps[j].CancelSwap?
    ensures !steps[k].Enqueue?
  {
    hide Next, Invariant, IsRun, RunAll;
    PrefixIsRun(INITIAL, steps, k + 1);
    Unfold(steps[..k + 1]);
    assert steps[..k + 1][..k] == steps[..k];
    RunIsRemembered(steps[..k]);
    assert steps[..k][j] in steps[..k];
  }

  ghost predicate Counted(q: Queue, id: nat) { id < |q.executions| && q.executions[id] > 0 }

  /** The counters of the model are what the run says: nothing has been executed, or one step executed
    the request and what was produced is the outcome of that step. */
  ghost predicate ExecutedAsCounted(steps: seq<Step>, id: nat)
    requires IsRun(INITIAL, steps)
  {
    var q := RunAll(INITIAL, steps);
    if Counted(q, id) then
      id in q.produced && exists k: nat :: OnlyExecution(steps, k, id, q.produced[id])
    else forall k: nat :: !ExecutesAt(steps, k, id)
  }

  ghost predicate OnlyExecution(steps: seq<Step>, k: nat, id: nat, r: Response)
    requires IsRun(INITIAL, steps)
  {
    ExecutesAt(steps, k, id) && AnswersOutcome(r, steps[k].outcome) && forall j: nat :: ExecutesAt(steps, j, id) ==> j == k
  }

  lemma {:induction false} RunIsCounted(steps: seq<Step>, id: nat)
    requires IsRun(INITIAL, steps)
    ensures ExecutedAsCounted(steps, id)
    decreases |steps|
  {
    if steps != [] {
      Unfold(steps);
      RunIsCounted(steps[..|steps| - 1], id);
      StepIsCounted(steps, id);
    }
  }

  /** A step executes a request that was not executed before, or leaves its counters alone. */
  lemma StepCounts(q: Queue, s: Step, id: nat)
    requires Invariant(q) && Enabled(q, s)
    ensures var n := Next(q, s);
            if s.Execute? && q.LocalOf(s.t).Executing? && q.LocalOf(s.t).id == id then
              !Counted(q, id) && Counted(n, id) && id in n.produced && AnswersOutcome(n.produced[id], s.outcome)
            else
              (Counted(n, id) <==> Counted(q, id))
              && (id in q.produced ==> id in n.produced && n.produced[id] == q.produced[id])
  {
    hide OnePlace, AnswersAgree, RequestAgrees;
    if !s.Enqueue? { assert ThreadAgrees(q, s.t); }
  }

  /** The step case: only the last step can be new. */
  lemma StepIsCounted(steps: seq<Step>, id: nat)
    requires IsRun(INITIAL, steps) && steps != [] && IsRun(INITIAL, steps[..|steps| - 1])
    requires ExecutedAsCounted(steps[..|steps| - 1], id)
    ensures ExecutedAsCounted(steps, id)
  {
    hide Invariant, RunAll, IsRun, Next, Enabled, AnswersOutcome;
    Unfold(steps);
    var front, last := steps[..|steps| - 1], steps[|steps| - 1];
    var q := Before(steps, |front|);
    StepCounts(q, last, id);
    assert forall k: nat :: k < |front| ==> (ExecutesAt(steps, k, id) <==> ExecutesAt(front, k, id));
    if ExecutesAt(steps, |front|, id) {
      assert OnlyExecution(steps, |front|, id, Next(q, last).produced[id]);
    } else if Counted(q, id) {
      var k: nat :| OnlyExecution(front, k, id, q.produced[id]);
      assert OnlyExecution(steps, k, id, q.produced[id]);
    }
  }

  ghost predicate OnlyCallOff(steps: seq<Step>, k: nat, id: nat, r: Response)
    requires IsRun(INITIAL, steps)
  {
    CallsOffAt(steps, k, id, r) && forall j: nat, r' :: CallsOffAt(steps, j, id, r') ==> j == k
  }

  ghost predicate IsCancelled(q: Queue, id: nat) { id < |q.requests| && q.requests[id].state.Cancelled? }

  /** A request is cancelled exactly when one step called it off, with the response of that step. */
  ghost predicate CalledOffAsStored(steps: seq<Step>, id: nat)
    requires IsRun(INITIAL, steps)
  {
    var q := RunAll(INITIAL, steps);
    if IsCancelled(q, id) then
      exists k: nat :: OnlyCallOff(steps, k, id, q.requests[id].response)
    else forall k: nat, r :: !CallsOffAt(steps, k, id, r)
  }

  lemma {:induction false} RunIsCalledOff(steps: seq<Step>, id: nat)
    requires IsRun(INITIAL, steps)
    ensures CalledOffAsStored(steps, id)
    decreases |steps|
  {
    if steps != [] {
      Unfold(steps);
      RunIsCalledOff(steps[..|steps| - 1], id);
      StepIsCalledOff(steps, id);
    }
  }

  lemma StepCallsOff(q: Queue, s: Step, id: nat)
    requires Invariant(q) && Enabled(q, s)
    ensures IsCancelled(q, id) ==> IsCancelled(Next(q, s), id) && Next(q, s).requests[id] == q.requests[id]
    ensures !IsCancelled(q, id) && IsCancelled(Next(q, s), id) ==> CallsOff(q, s, id, Next(q, s).requests[id].response)
    ensures forall r :: CallsOff(q, s, id, r) ==> !IsCancelled(q, id) && IsCancelled(Next(q, s), id)
  {
    hide OnePlace, AnswersAgree, RequestAgrees;
    if !s.Enqueue? { assert ThreadAgrees(q, s.t); }
    if IsCancelled(q, id) { TerminalStays(q, s, id); }
  }

  lemma StepIsCalledOff(steps: seq<Step>, id: nat)
    requires IsRun(INITIAL, steps) && steps != [] && IsRun(INITIAL, steps[..|steps| - 1])
    requires CalledOffAsStored(steps[..|steps| - 1], id)
    ensures CalledOffAsStored(steps, id)
  {
    hide Invariant, RunAll, IsRun, Next, Enabled, CallsOff;
    Unfold(steps);
    var front, last := steps[..|steps| - 1], steps[|steps| - 1];
    var q := Before(steps, |front|);
    StepCallsOff(q, last, id);
    assert forall k: nat, r :: k < |front| ==> (CallsOffAt(steps, k, id, r) <==> CallsOffAt(front, k, id, r));
    if IsCancelled(q, id) {
      var k: nat :| OnlyCallOff(front, k, id, q.requests[id].response);
      assert OnlyCallOff(steps, k, id, q.requests[id].response);
    } else if IsCancelled(Next(q, last), id) {
      assert OnlyCallOff(steps, |front|, id, Next(q, last).requests[id].response);
    }
  }

  /** Every answer belongs to a step at which a thread stopped waiting for that very request. */
  lemma {:induction false} AnsweredToItsWaiter(steps: seq<Step>, id: nat, r: Response)
    requires IsRun(INITIAL, steps) && (id, r) in RunAll(INITIAL, steps).answers
    ensures exists k: nat :: k < |steps| && (steps[k].WaitReturns? || steps[k].WaitTimesOut?)
                             && LastAwaited(steps[..k], steps[k].t) == Some(id)
    decreases |steps|
  {
    hide Invariant;
    if steps != [] {
      hide IsRun, RunAll, Remembers;
      Unfold(steps);
      var front, last := steps[..|steps| - 1], steps[|steps| - 1];
      var q := Before(steps, |front|);
      if (id, r) in q.answers {
        AnsweredToItsWaiter(front, id, r);
        var k: nat :| k < |front| && (front[k].WaitReturns? || front[k].WaitTimesOut?)
                      && LastAwaited(front[..k], front[k].t) == Some(id);
        assert steps[..k] == front[..k];
      } else {
        RunIsRemembered(front);
        assert steps[..|front|] == front;
      }
    }
  }

  /** A wait that ended, by returning or by calling its request off, has been answered. */
  ghost predicate EndsWaitAt(steps: seq<Step>, k: nat, id: nat)
    requires IsRun(INITIAL, steps) && k < |steps| && !steps[k].Enqueue?
  {
    && LastAwaited(steps[..k], steps[k].t) == Some(id)
    && (steps[k].WaitReturns? || (steps[k].WaitTimesOut? && exists r :: CallsOffAt(steps, k, id, r)))
  }

  lemma {:induction false} EveryWaitIsAnswered(steps: seq<Step>, k: nat, id: nat)
    requires IsRun(INITIAL, steps) && k < |steps| && !steps[k].Enqueue? && EndsWaitAt(steps, k, id)
    ensures exists r :: (id, r) in RunAll(INITIAL, steps).answers
    decreases |steps|
  {
    hide Invariant, RunAll, IsRun;
    Unfold(steps);
    var front, last := steps[..|steps| - 1], steps[|steps| - 1];
    var q := Before(steps, |front|);
    assert steps[..k] == front[..k];
    if k < |front| {
      assert forall r :: CallsOffAt(steps, k, id, r) <==> CallsOffAt(front, k, id, r);
      EveryWaitIsAnswered(front, k, id);
      var r :| (id, r) in q.answers;
      assert (id, r) in Next(q, last).answers;
    } else {
      RunIsRemembered(front);
      assert steps[..k] == front;
      var r := if last.WaitReturns? then q.requests[id].response else TIMED_OUT;
      assert (id, r) in Next(q, last).answers;
    }
  }

  /** Every answer that wait has given, told by the steps alone: either exactly one step executed the
    request, and the answer is what the executor returned there, or 500 when it threw; or no step did,
    and exactly one called the request off, with 504 for its own timeout and 503 for a shutdown. */
  lemma AnswersComeFromTheRun(steps: seq<Step>, id: nat, r: Response)
    requires IsRun(INITIAL, steps) && (id, r) in RunAll(INITIAL, steps).answers
    ensures (exists k: nat :: OnlyExecution(steps, k, id, r)) || (exists k: nat :: OnlyCallOff(steps, k, id, r))
    ensures (exists k: nat :: ExecutesAt(steps, k, id)) <==> forall k: nat, r' :: !CallsOffAt(steps, k, id, r')
  {
    hide Next, Enabled, RunAll, IsRun, OnePlace;
    InitialInvariant();
    RunInvariant(INITIAL, steps);
    var q := RunAll(INITIAL, steps);
    assert AnswersAgree(q) && RequestAgrees(q, id);
    RunIsCounted(steps, id);
    RunIsCalledOff(steps, id);
  }

  /** In every interleaving an unfinished request is in exactly one place, the pending list or one
    thread's hands, and a completed one is in none. */
  lemma ExactlyOnePlace(steps: seq<Step>, id: nat)
    requires IsRun(INITIAL, steps) && id < |RunAll(INITIAL, steps).requests|
    ensures var q := RunAll(INITIAL, steps);
            && (!q.requests[id].Terminal() ==>
                  if id in q.pending then forall t: nat :: id !in q.LocalOf(t).Held()
                  else exists t: nat :: id in q.LocalOf(t).Held() && forall u: nat :: id in q.LocalOf(u).Held() ==> u == t)
            && (q.requests[id].state.Completed? ==> id !in q.pending && forall t: nat :: id !in q.LocalOf(t).Held())
  {
    hide Next, Enabled;
    InitialInvariant();
    RunInvariant(INITIAL, steps);
    var q := RunAll(INITIAL, steps);
    assert RequestAgrees(q, id);
    if !q.requests[id].Terminal() && id !in q.pending {
      var t: nat :| id in q.LocalOf(t).Held();
      assert forall u: nat :: id in q.LocalOf(u).Held() ==> u == t;
    }
  }

  // ----- the queue object -----------------------------------------------------------------------

  /** The shared object; each method is one critical section, run by thread `t`. */
  class AdminMutationQueue {
    var accepting: bool
    var pending: seq<nat>
    var requests: seq<Request>
    var locals: map<nat, Local>
    ghost var executions: seq<nat>
    ghost var produced: map<nat, Response>
    ghost var answers: set<(nat, Response)>

    ghost function Snapshot(): Queue
      reads this
    {
      Queue(accepting, pending, requests, locals, executions, produced, answers)
    }

    function LocalOf(t: nat): Local
      reads this
    {
      if t in locals then locals[t] else Idle
    }

    constructor ()
      ensures Snapshot() == INITIAL
    {
      accepting, pending, requests, locals := true, [], [], map[];
      executions, produced, answers := [], map[], {};
    }

    /** enqueue: None when the queue no longer accepts. */
    method Enqueue(kind: nat, cellId: string) returns (r: Option<nat>)
      modifies this
      ensures r == if old(accepting) then Some(|old(requests)|) else None
      ensures Snapshot() == if old(accepting) then Next(old(Snapshot()), Step.Enqueue(kind, cellId)) else old(Snapshot())
    {
      if !accepting { return None; }
      var id := |requests|;
      requests := requests + [Request(kind, cellId, Queued, EMPTY)];
      executions := executions + [0];
      pending := pending + [id];
      r := Some(id);
    }

    /** wait, up to the point where it blocks; a null request is answered at once. */
    method BeginWait(t: nat, request: Option<nat>) returns (answer: Option<Response>)
      requires request.Some? ==> Enabled(Snapshot(), Step.BeginWait(t, request.value))
      modifies this
      ensures request.None? ==> answer == Some(CANCELLED) && Snapshot() == old(Snapshot())
      ensures request.Some? ==> answer == None && Snapshot() == Next(old(Snapshot()), Step.BeginWait(t, request.value))
    {
      if request.None? { return Some(CANCELLED); }
      locals := locals[t := Waiting(request.value)];
      answer := None;
    }

    /** The wait ends because the request is finished. */
    method WaitReturns(t: nat) returns (answer: Response)
      requires Enabled(Snapshot(), Step.WaitReturns(t))
      modifies this
      ensures Snapshot() == Next(old(Snapshot()), Step.WaitReturns(t)) && answer == requests[old(LocalOf(t)).id].response
    {
      var id := LocalOf(t).id;
      answer := requests[id].response;
      locals := locals[t := Idle];
      answers := answers + {(id, answer)};
    }

    /** The timeout expires first: a queued request is cancelled, a running one is waited for. */
    method WaitTimesOut(t: nat) returns (answer: Option<Response>)
      requires Enabled(Snapshot(), Step.WaitTimesOut(t))
      modifies this
      ensures Snapshot() == Next(old(Snapshot()), Step.WaitTimesOut(t))
      ensures answer == if old(requests[LocalOf(t).id]).state.Queued? then Some(TIMED_OUT) else None
    {
      var id := LocalOf(t).id;
      if requests[id].state.Queued? {
        requests := requests[id := requests[id].(state := Cancelled, response := TIMED_OUT)];
        locals := locals[t := Idle];
        answers := answers + {(id, TIMED_OUT)};
        return Some(TIMED_OUT);
      }
      locals := locals[t := WaitingOn(id)];
      answer := None;
    }

    /** drain takes the pending list. */
    method DrainSwap(t: nat)
      requires Enabled(Snapshot(), Step.DrainSwap(t))
      modifies this
      ensures Snapshot() == Next(old(Snapshot()), Step.DrainSwap(t))
    {
      locals := locals[t := Draining(pending)];
      pending := [];
    }

    /** drain looks at its next request. */
    method DrainTake(t: nat)
      requires Enabled(Snapshot(), Step.DrainTake(t))
      modifies this
      ensures Snapshot() == Next(old(Snapshot()), Step.DrainTake(t))
    {
      var batch := LocalOf(t).batch;
      if batch == [] {
        locals := locals[t := Idle];
        return;
      }
      var id := batch[0];
      if !requests[id].state.Queued? {
        locals := locals[t := Draining(batch[1..])];
        return;
      }
      requests := requests[id := requests[id].(state := Running)];
      locals := locals[t := Executing(id, batch[1..])];
    }

    /** drain calls the executor, which returns a response or throws. */
    method Execute(t: nat, outcome: Option<Response>)
      requires Enabled(Snapshot(), Step.Execute(t, outcome))
      modifies this
      ensures Snapshot() == Next(old(Snapshot()), Step.Execute(t, outcome))
    {
      var Executing(id, rest) := LocalOf(t);
      var response := if outcome.Some? then outcome.value else FAILED;
      executions := executions[id := executions[id] + 1];
      produced := produced[id := response];
      locals := locals[t := Publishing(id, response, rest)];
    }

    /** drain stores the response. */
    method Publish(t: nat)
      requires Enabled(Snapshot(), Step.Publish(t))
      modifies this
      ensures Snapshot() == Next(old(Snapshot()), Step.Publish(t))
    {
      var Publishing(id, response, rest) := LocalOf(t);
      requests := requests[id := requests[id].(state := Completed, response := response)];
      locals := locals[t := Draining(rest)];
    }

    /** cancelAll closes the queue and takes the pending list. */
    method CancelSwap(t: nat)
      requires Enabled(Snapshot(), Step.CancelSwap(t))
      modifies this
      ensures Snapshot() == Next(old(Snapshot()), Step.CancelSwap(t))
    {
      accepting := false;
      locals := locals[t := Cancelling(pending)];
      pending := [];
    }

    /** cancelAll looks at its next request. */
    method CancelTake(t: nat)
      requires Enabled(Snapshot(), Step.CancelTake(t))
      modifies this
      ensures Snapshot() == Next(old(Snapshot()), Step.CancelTake(t))
    {
      var batch := LocalOf(t).batch;
      if batch == [] {
        locals := locals[t := Idle];
        return;
      }
      var id := batch[0];
      if requests[id].state.Queued? {
        requests := requests[id := requests[id].(state := Cancelled, response := CANCELLED)];
      }
      locals := locals[t := Cancelling(batch[1..])];
    }
  }
}
