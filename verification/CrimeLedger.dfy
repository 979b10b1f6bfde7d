/** Properties of whole runs: any interleaving of evaluations, explicit requests and retries, on any
  number of connections, is a history of honest writes. */
module CrimeLedger {
  import opened Wrappers
  import opened ByteBuffers
  import opened CrimeTypes
  import opened CrimeCodec
  import opened CrimeStore
  import opened CrimeTransitions
  import opened CrimeJudgement
  import opened MutationCodec
  import opened CrimeSemantics
  import IntentCodec
  import Service = CrimeService

  // ----- honest runs --------------------------------------------------------------------------

  /** Every write of the run, by whatever connection, came from one of the two services. */
  ghost predicate HonestRun(sha: Sha, v: View) {
    v.Valid() && forall i: nat :: i < |v.history| ==> Honest(sha, v, i)
  }

  /** What one connection did: it was opened when the shared history had `offset` entries, and its calls of the
    two services took it from the view `start` to the view `end`. */
  datatype Session = Session(offset: nat, start: View, end: View)

  ghost predicate Took(sha: Sha, w: View, s: Session) {
    && s.offset <= |w.history| && s.end.Valid() && s.end.origin == w.At(s.offset)
    && s.end.history <= w.history[s.offset..]
    && s.start.own == {} && HonestlyGrew(sha, s.start, s.end)
  }

  /** Entry `i` of the shared history is one of this connection's writes. */
  ghost predicate Wrote(s: Session, i: nat) { s.offset <= i && i - s.offset in s.end.own }

  ghost predicate Claimed(sessions: seq<Session>, i: nat) { exists s :: s in sessions && Wrote(s, i) }

  /** A connection sees the same stores as the shared history, from its opening on. */
  lemma SameStores(sha: Sha, w: View, s: Session, j: nat)
    requires Took(sha, w, s) && j <= |s.end.history|
    ensures s.offset + j <= |w.history| && w.At(s.offset + j) == s.end.At(j)
  {
    hide HonestlyGrew, View.Valid, Run;
    assert w.history[..s.offset + j] == w.history[..s.offset] + s.end.history[..j];
    RunConcat(w.origin, w.history[..s.offset], s.end.history[..j]);
  }

  /** When every write of a shared history belongs to a connection that only makes calls of the two services,
    the run is honest: any interleaving of evaluations, explicit requests and retries is. */
  lemma SessionsAreHonest(sha: Sha, w: View, sessions: seq<Session>)
    requires w.Valid() && forall s <- sessions :: Took(sha, w, s)
    requires forall i: nat :: i < |w.history| ==> Claimed(sessions, i)
    ensures HonestRun(sha, w)
  {
    hide Took, Wrote, Run, MadeFrom, Honest;
    forall i: nat | i < |w.history|
      ensures Honest(sha, w, i)
    {
      assert Claimed(sessions, i);
      var s :| s in sessions && Wrote(s, i);
      OwnIsHonest(sha, w, s, i);
    }
  }

  lemma OwnIsHonest(sha: Sha, w: View, s: Session, i: nat)
    requires w.Valid() && i < |w.history| && Took(sha, w, s) && Wrote(s, i)
    ensures Honest(sha, w, i)
  {
    hide MadeFrom, RefusedFrom, Run, Later;
    var k := i - s.offset;
    assert Honest(sha, s.end, k) && s.end.history[k] == w.history[s.offset..][k] == w.history[i];
    if w.history[i].CommitWork? {
      var c := w.history[i].commit;
      var j: nat, cause :| j <= k && MadeFrom(sha, s.end.Load(j, c.key.character), c, cause);
      SameStores(sha, w, s, j);
      assert MadeFrom(sha, w.Load(s.offset + j, c.key.character), c, cause);
    }
  }

  // ----- the ledger ---------------------------------------------------------------------------

  /** Entry `i` is a commit for this character that took effect. */
  ghost predicate Booked(v: View, character: i64, i: nat)
    requires i < |v.history|
  {
    Succeeded(v, i) && v.history[i].commit.key.character == character
  }

  /** `cause` is a request that entry `i` can have come from. */
  ghost predicate CausedBy(sha: Sha, v: View, i: nat, cause: Cause)
    requires i < |v.history|
  {
    v.history[i].CommitWork? ==>
      exists j: nat :: j <= i && MadeFrom(sha, v.Load(j, v.history[i].commit.key.character), v.history[i].commit, cause)
  }

  /** A request for every commit of the run. */
  ghost predicate Causes(sha: Sha, v: View, causes: seq<Cause>) {
    |causes| == |v.history| && forall i: nat :: i < |causes| ==> CausedBy(sha, v, i, causes[i])
  }

  lemma {:induction false} HonestRunHasCauses(sha: Sha, v: View, n: nat) returns (causes: seq<Cause>)
    requires HonestRun(sha, v) && n <= |v.history|
    ensures |causes| == n && forall i: nat :: i < n ==> CausedBy(sha, v, i, causes[i])
  {
    hide MadeFrom, RefusedFrom, Run, View.Load;
    causes := [];
    if n > 0 {
      causes := HonestRunHasCauses(sha, v, n - 1);
      assert Honest(sha, v, n - 1);
      if v.history[n - 1].CommitWork? {
        var c := v.history[n - 1].commit;
        var j: nat, cause :| j <= n - 1 && MadeFrom(sha, v.Load(j, c.key.character), c, cause);
        causes := causes + [cause];
      } else {
        causes := causes + [Adjustment(MutationRequest(0, [], 0, 0, None, []))];
      }
    }
  }

  ghost predicate ChangesState(cause: Cause) {
    match cause
    case Event(_, r) => r.crimeIdAdvanced || r.bountyDelta != 0
    case Adjustment(_) => true
  }

  /** A perceived crime other than a werewolf's exposure. */
  ghost predicate SeenCrime(cause: Cause) {
    cause.Event? && cause.result.crimeSeen && cause.intent.crime != WEREWOLF
  }

  /** The bounty after a booked request. */
  ghost function BountyAfter(bounty: int, cause: Cause): int {
    match cause
    case Event(_, r) => bounty + r.bountyDelta
    case Adjustment(q) => if q.kind == SET_BOUNTY then q.value else bounty + q.value
  }

  // The ledger of the first `n` writes: four folds over the booked requests, in commit order.

  ghost function LedgerBounty(v: View, causes: seq<Cause>, character: i64, n: nat): int
    requires n <= |v.history| == |causes|
  {
    if n == 0 then StateOf(v.origin, character).bounty
    else
      var before := LedgerBounty(v, causes, character, n - 1);
      if Booked(v, character, n - 1) then BountyAfter(before, causes[n - 1]) else before
  }

  ghost function LedgerRevision(v: View, causes: seq<Cause>, character: i64, n: nat): int
    requires n <= |v.history| == |causes|
  {
    if n == 0 then StateOf(v.origin, character).revision
    else
      var before := LedgerRevision(v, causes, character, n - 1);
      if Booked(v, character, n - 1) && ChangesState(causes[n - 1]) then before + 1 else before
  }

  ghost function LedgerCrimeId(v: View, causes: seq<Cause>, character: i64, n: nat): int
    requires n <= |v.history| == |causes|
  {
    if n == 0 then StateOf(v.origin, character).currentCrimeId
    else
      var before := LedgerCrimeId(v, causes, character, n - 1);
      if Booked(v, character, n - 1) && SeenCrime(causes[n - 1]) then before + 1 else before
  }

  /** A booked bounty request that leaves nothing owed pays for every crime up to then; nothing else touches what is
    paid. */
  ghost predicate PaysOff(bounty: int, cause: Cause) { cause.Adjustment? && BountyAfter(bounty, cause) == 0 }

  ghost function LedgerPaid(v: View, causes: seq<Cause>, character: i64, n: nat): int
    requires n <= |v.history| == |causes|
  {
    if n == 0 then StateOf(v.origin, character).paidCrimeId
    else if Booked(v, character, n - 1) && PaysOff(LedgerBounty(v, causes, character, n - 1), causes[n - 1])
    then LedgerCrimeId(v, causes, character, n - 1)
    else LedgerPaid(v, causes, character, n - 1)
  }

  /** Between two moments with the same revision nothing has changed. */
  lemma SameRevisionSameState(v: View, j: nat, i: nat, character: i64)
    requires v.Valid() && j <= i <= |v.history|
    ensures v.Load(j, character).revision == v.Load(i, character).revision ==> v.Load(j, character) == v.Load(i, character)
    ensures forall key <- v.At(j).journal :: key in v.At(i).journal
  {
    RunMovesForward(v.origin, v.history[..j]);
    assert v.history[..j] + v.history[j..i] == v.history[..i];
    RunConcat(v.origin, v.history[..j], v.history[j..i]);
    RunMovesForward(v.At(j), v.history[j..i]);
  }

  /** The store after entry `i`. */
  lemma AtNext(v: View, i: nat)
    requires i < |v.history|
    ensures v.At(i + 1) == Apply(v.At(i), v.history[i])
  {
    assert v.history[..i + 1][..i] == v.history[..i];
  }

  /** The state that entry `i` met is the one its request was prepared on, and it left what it was to leave. */
  ghost predicate MetItsBase(sha: Sha, v: View, character: i64, i: nat, cause: Cause)
    requires i < |v.history|
  {
    && v.history[i].CommitWork? && MadeFrom(sha, v.Load(i, character), v.history[i].commit, cause)
    && v.Load(i + 1, character) == v.history[i].commit.resulting
  }

  /** A booked commit met exactly the state it had been prepared from, however long before. */
  lemma BookedMetItsBase(sha: Sha, v: View, character: i64, i: nat, cause: Cause)
    requires v.Valid() && i < |v.history| && Booked(v, character, i) && CausedBy(sha, v, i, cause)
    ensures MetItsBase(sha, v, character, i, cause)
  {
    hide MadeFrom, CommitMutation, Later, Run, Filed, View.Valid, View.Load;
    var c := v.history[i].commit;
    var j: nat :| j <= i && MadeFrom(sha, v.Load(j, character), c, cause);
    BaseRevision(sha, v.Load(j, character), c, cause);
    CommitMetItsBase(v, character, i, j);
  }

  lemma CommitMetItsBase(v: View, character: i64, i: nat, j: nat)
    requires v.Valid() && j <= i < |v.history| && Booked(v, character, i)
    requires v.history[i].commit.expectedRevision == v.Load(j, character).revision
    ensures v.Load(i, character) == v.Load(j, character) && v.Load(i + 1, character) == v.history[i].commit.resulting
  {
    hide CommitMutation, Later, Run, Filed, View.Valid;
    SameRevisionSameState(v, j, i, character);
    CommittedState(v.At(i), v.history[i].commit);
    AtNext(v, i);
  }

  lemma BaseRevision(sha: Sha, base: CrimeState, c: Commit, cause: Cause)
    requires MadeFrom(sha, base, c, cause)
    ensures c.expectedRevision == base.revision
  {
    hide Preimage, Encode, EncodeMutation;
  }

  /** Two requests that count the same in every ledger: the same explicit request, or the same intent with
    the same bounty, crime count and state. */
  ghost predicate SameRequest(a: Cause, b: Cause) {
    match (a, b)
    case (Adjustment(q), Adjustment(p)) => q == p
    case (Event(n, r), Event(m, s)) =>
      n == m && r.bountyDelta == s.bountyDelta && r.crimeIdAdvanced == s.crimeIdAdvanced && r.state == s.state
      && SeenCrime(a) == SeenCrime(b)
    case _ => false
  }

  predicate NoCollision(sha: Sha, a: Bytes, b: Bytes) { sha(a) == sha(b) ==> a == b }

  /** A booked commit has one cause, as long as the hash does not confuse the two candidates: the ledger
    cannot be read in another way. */
  lemma OneCause(sha: Sha, v: View, character: i64, i: nat, a: Cause, b: Cause)
    requires v.Valid() && i < |v.history| && Booked(v, character, i)
    requires CausedBy(sha, v, i, a) && CausedBy(sha, v, i, b) && NoCollision(sha, Preimage(a), Preimage(b))
    ensures SameRequest(a, b)
  {
    hide MadeFrom, Preimage, CausedBy;
    BookedMetItsBase(sha, v, character, i, a);
    BookedMetItsBase(sha, v, character, i, b);
    SameBaseSameRequest(sha, v.Load(i, character), v.history[i].commit, a, b);
  }

  lemma SameBaseSameRequest(sha: Sha, base: CrimeState, c: Commit, a: Cause, b: Cause)
    requires MadeFrom(sha, base, c, a) && MadeFrom(sha, base, c, b) && NoCollision(sha, Preimage(a), Preimage(b))
    ensures SameRequest(a, b)
  {
    hide Encode, EncodeMutation, IntentCodec.EncodeIntent, EncodeRequest;
    match (a, b)
    case (Adjustment(q), Adjustment(p)) => EncodeRequestInjective(q, p);
    case (Event(n, _), Event(m, _)) => IntentCodec.EncodeIntentInjective(n, m);
    case _ =>
  }

  /** A write that is not booked for a character leaves its state alone. */
  lemma NotBookedNotChanged(v: View, character: i64, i: nat)
    requires v.Valid() && i < |v.history| && !Booked(v, character, i)
    ensures v.Load(i + 1, character) == v.Load(i, character)
  {
    assert v.history[..i + 1][..i] == v.history[..i];
  }

  /** What one booked request does to the state it met. */
  lemma BookedStep(sha: Sha, base: CrimeState, c: Commit, cause: Cause)
    requires MadeFrom(sha, base, c, cause)
    ensures c.resulting.bounty == BountyAfter(base.bounty, cause)
    ensures c.resulting.revision == if ChangesState(cause) then base.revision + 1 else base.revision
    ensures c.resulting.currentCrimeId == if SeenCrime(cause) then base.currentCrimeId + 1 else base.currentCrimeId
    ensures c.resulting.paidCrimeId == if PaysOff(base.bounty, cause) then base.currentCrimeId else base.paidCrimeId
  {
    hide Encode, EncodeMutation, Preimage;
  }

  lemma StateInRange(v: View, character: i64, n: nat)
    requires v.Valid() && n <= |v.history|
    ensures ValidState(v.Load(n, character))
  {
    RunMovesForward(v.origin, v.history[..n]);
  }

  lemma AtStart(v: View)
    ensures v.At(0) == v.origin
  {
  }

  /** The ledger theorem. After any run, the stored bounty is the fold of the journaled deltas and
    the explicit set and adjust requests, the revision has counted the state-changing commits, the
    crime id has counted the perceived crimes, what is paid is the crime id of the last time a request left no bounty, and
    the state is in range. */
  lemma {:induction false} LedgerHolds(sha: Sha, v: View, causes: seq<Cause>, character: i64, n: nat)
    requires v.Valid() && Causes(sha, v, causes) && n <= |v.history|
    ensures var s := v.Load(n, character);
            && s.bounty == LedgerBounty(v, causes, character, n)
            && s.revision == LedgerRevision(v, causes, character, n)
            && s.currentCrimeId == LedgerCrimeId(v, causes, character, n)
            && s.paidCrimeId == LedgerPaid(v, causes, character, n)
            && ValidState(s) && 0 <= s.bounty <= MAX_I32 && s.paidCrimeId <= s.currentCrimeId
  {
    hide MadeFrom, BountyAfter, ChangesState, SeenCrime, PaysOff, CausedBy, Run, CommitMutation;
    StateInRange(v, character, n);
    if n == 0 {
      AtStart(v);
    } else {
      LedgerHolds(sha, v, causes, character, n - 1);
      if Booked(v, character, n - 1) {
        BookedMetItsBase(sha, v, character, n - 1, causes[n - 1]);
        BookedStep(sha, v.Load(n - 1, character), v.history[n - 1].commit, causes[n - 1]);
      } else {
        NotBookedNotChanged(v, character, n - 1);
      }
    }
  }

  /** The ledger of a shared history: whatever the connections did through the two services, in whatever
    order, the commits have causes, and the character's state is what these add up to. */
  lemma LedgerOfSessions(sha: Sha, w: View, sessions: seq<Session>, character: i64) returns (causes: seq<Cause>)
    requires w.Valid() && forall s <- sessions :: Took(sha, w, s)
    requires forall i: nat :: i < |w.history| ==> Claimed(sessions, i)
    ensures Causes(sha, w, causes)
    ensures StateOf(w.db, character).bounty == LedgerBounty(w, causes, character, |w.history|)
    ensures StateOf(w.db, character).revision == LedgerRevision(w, causes, character, |w.history|)
    ensures StateOf(w.db, character).currentCrimeId == LedgerCrimeId(w, causes, character, |w.history|)
    ensures StateOf(w.db, character).paidCrimeId == LedgerPaid(w, causes, character, |w.history|)
  {
    hide Took, Claimed, CausedBy, Run, LedgerBounty, LedgerRevision, LedgerCrimeId, LedgerPaid;
    SessionsAreHonest(sha, w, sessions);
    causes := HonestRunHasCauses(sha, w, |w.history|);
    LedgerHolds(sha, w, causes, character, |w.history|);
    assert w.history[..|w.history|] == w.history;
  }

  ghost predicate AsksAt(cause: Cause, revision: u64) {
    cause.Adjustment? && cause.request.expectedRevision == Some(revision)
  }

  /** A bounty request made for one revision is booked only at that revision, and of all requests made for it, under
    whatever keys, at most one is booked in any run. */
  lemma OneRequestPerRevision(sha: Sha, v: View, causes: seq<Cause>, character: i64, revision: u64, i: nat, k: nat)
    requires v.Valid() && Causes(sha, v, causes) && i < |v.history| && k < |v.history|
    requires Booked(v, character, i) && AsksAt(causes[i], revision)
    ensures v.Load(i, character).revision == revision && v.Load(i + 1, character).revision == revision + 1
    ensures Booked(v, character, k) && AsksAt(causes[k], revision) ==> i == k
  {
    hide CommitMutation, Run, MadeFrom, CausedBy, View.Load;
    BookedAtItsRevision(sha, v, causes, character, revision, i);
    if Booked(v, character, k) && AsksAt(causes[k], revision) && i != k {
      BookedAtItsRevision(sha, v, causes, character, revision, k);
      RevisionsGrow(v, if i < k then i + 1 else k + 1, if i < k then k else i, character);
    }
  }

  lemma BookedAtItsRevision(sha: Sha, v: View, causes: seq<Cause>, character: i64, revision: u64, i: nat)
    requires v.Valid() && Causes(sha, v, causes) && i < |v.history|
    requires Booked(v, character, i) && AsksAt(causes[i], revision)
    ensures v.Load(i, character).revision == revision && v.Load(i + 1, character).revision == revision + 1
  {
    hide CommitMutation, Run, View.Load;
    BookedMetItsBase(sha, v, character, i, causes[i]);
    BookedStep(sha, v.Load(i, character), v.history[i].commit, causes[i]);
    AskedOfItsBase(sha, v.Load(i, character), v.history[i].commit, causes[i], revision);
  }

  lemma AskedOfItsBase(sha: Sha, base: CrimeState, c: Commit, cause: Cause, revision: u64)
    requires MadeFrom(sha, base, c, cause) && AsksAt(cause, revision)
    ensures base.revision == revision
  {
    hide Encode, EncodeMutation, Preimage;
  }

  lemma RevisionsGrow(v: View, j: nat, i: nat, character: i64)
    requires v.Valid() && j <= i <= |v.history|
    ensures v.Load(j, character).revision <= v.Load(i, character).revision
  {
    RunMovesForward(v.origin, v.history[..j]);
    assert v.history[..j] + v.history[j..i] == v.history[..i];
    RunConcat(v.origin, v.history[..j], v.history[j..i]);
    RunMovesForward(v.At(j), v.history[j..i]);
  }

  /** The same told by the answer: a committed request that was made for a revision reports the next one. */
  lemma SettledAtItsRevision(sha: Sha, w: View, q: MutationRequest, ctx: Service.Context, o: Service.ExecuteOutcome, revision: u64)
    requires Service.SettledAs(sha, w, q, ctx, o) && q.expectedRevision == Some(revision)
    ensures o.result.state.revision == revision + 1
  {
    hide Encode, EncodeMutation, Preimage, Run;
  }

  /** Exactly once: a key takes effect at most once in a run, and never if a row was filed under it before. */
  lemma OncePerKey(v: View, i: nat, k: nat)
    requires v.Valid() && i < |v.history| && k < |v.history| && Succeeded(v, i)
    ensures Filed(v.history[i].commit.key) !in v.origin.journal
    ensures Succeeded(v, k) && Filed(v.history[i].commit.key) == Filed(v.history[k].commit.key) ==> i == k
  {
    hide CommitMutation, Later, Run, Filed;
    JournaledMeansDone(v, 0, i);
    AtStart(v);
    if Succeeded(v, k) && i != k {
      var first, second := if i < k then i else k, if i < k then k else i;
      CommittedState(v.At(first), v.history[first].commit);
      AtNext(v, first);
      JournaledMeansDone(v, first + 1, second);
    }
  }

  lemma JournaledMeansDone(v: View, j: nat, i: nat)
    requires v.Valid() && j <= i < |v.history| && Succeeded(v, i)
    ensures Filed(v.history[i].commit.key) !in v.At(j).journal
  {
    hide Filed;
    CommittedState(v.At(i), v.history[i].commit);
    SameRevisionSameState(v, j, i, 0);
  }

  // ----- what a row stands for ------------------------------------------------------------------

  /** Entry `i` put the row under the key. */
  ghost predicate WroteRow(w: View, i: nat, key: Key, row: Entry)
    requires i < |w.history|
  {
    match w.history[i]
    case CommitWork(c) => Succeeded(w, i) && Filed(c.key) == key && row == Entry(c.hash, true, 0, c.payload, c.source)
    case RejectWork(k, entry) => Filed(k) == key && row == entry
  }

  lemma {:induction false} RowHasWriter(w: View, key: Key, n: nat) returns (i: nat)
    requires w.Valid() && n <= |w.history| && key !in w.origin.journal && key in w.At(n).journal
    ensures i < n && WroteRow(w, i, key, w.At(n).journal[key])
  {
    hide CommitMutation, Filed, WellFormed, Run;
    AtStart(w);
    AtNext(w, n - 1);
    RowsStay(w, n - 1);
    if key in w.At(n - 1).journal {
      i := RowHasWriter(w, key, n - 1);
    } else {
      i := n - 1;
      OneWrite(w.At(i), w.history[i], key);
    }
  }

  lemma RowsStay(w: View, i: nat)
    requires w.Valid() && i < |w.history|
    ensures forall key <- w.At(i).journal :: key in w.At(i + 1).journal && w.At(i + 1).journal[key] == w.At(i).journal[key]
  {
    hide CommitMutation;
    RunMovesForward(w.origin, w.history[..i]);
    AtNext(w, i);
    WorkMovesForward(w.At(i), w.history[i]);
  }

  lemma OneWrite(db: Db, work: Work, key: Key)
    requires key !in db.journal && key in Apply(db, work).journal
    ensures match work
            case CommitWork(c) =>
              CommitMutation(db, c).1.IsCommitted() && Filed(c.key) == key
              && Apply(db, work).journal[key] == Entry(c.hash, true, 0, c.payload, c.source)
            case RejectWork(k, entry) => Filed(k) == key && Apply(db, work).journal[key] == entry
  {
    hide Filed, WellFormed;
  }

  /** A rejection row never reads as accepted. */
  lemma RefusalReadsAsRefusal(sha: Sha, key: Key, row: Entry, refusal: Refusal)
    requires RefusedFrom(sha, key, row, refusal)
    ensures !row.accepted
    ensures key.service == EVENT_SERVICE && Decode(row.payload).Some? ==> !Decode(row.payload).value.accepted
    ensures key.service == MUTATION_SERVICE && DecodeMutation(row.payload).Some? ==> !DecodeMutation(row.payload).value.accepted
  {
    hide Encode, Decode, EncodeMutation, DecodeMutation, StorableMutation, IntentCodec.EncodeIntent, EncodeRequest;
    match refusal
    case EventRefusal(_, r) => if Decode(row.payload).Some? { VerdictSurvives(r); }
    case AdjustmentRefusal(_, m) => DecodeEncodeMutation(m);
  }

  /** The row is marked as accepted, or reads as an accepted result of its service. */
  ghost predicate SaysAccepted(key: Key, row: Entry) {
    || row.accepted
    || (key.service == EVENT_SERVICE && Decode(row.payload).Some? && Decode(row.payload).value.accepted)
    || (key.service == MUTATION_SERVICE && DecodeMutation(row.payload).Some? && DecodeMutation(row.payload).value.accepted)
  }

  /** In an honest run a row that says accepted was put there by exactly one commit, which took effect and came from
    a request with this hash. */
  lemma AcceptedRowIsBooked(sha: Sha, w: View, key: Key) returns (i: nat)
    requires HonestRun(sha, w) && key !in w.origin.journal && key in w.db.journal && SaysAccepted(key, w.db.journal[key])
    requires key.service == EVENT_SERVICE || key.service == MUTATION_SERVICE
    ensures i < |w.history| && Booked(w, key.character, i) && w.history[i].commit.key == key
    ensures w.history[i].commit.payload == w.db.journal[key].payload && w.history[i].commit.hash == w.db.journal[key].hash
    ensures forall k: nat :: k < |w.history| && Succeeded(w, k) && Filed(w.history[k].commit.key) == key ==> k == i
  {
    hide CommitMutation, Run, RefusedFrom, MadeFrom, Decode, DecodeMutation, Filed;
    assert w.history[..|w.history|] == w.history;
    i := RowHasWriter(w, key, |w.history|);
    assert Honest(sha, w, i);
    if w.history[i].RejectWork? {
      var refusal :| RefusedFrom(sha, w.history[i].key, w.history[i].entry, refusal);
      FiledService(sha, w.history[i].key, w.history[i].entry, refusal);
      RefusalReadsAsRefusal(sha, w.history[i].key, w.history[i].entry, refusal);
    }
    MadeIsFiled(sha, w, i);
    forall k: nat | k < |w.history| && Succeeded(w, k) && Filed(w.history[k].commit.key) == key
      ensures k == i
    {
      OncePerKey(w, i, k);
    }
  }

  lemma FiledService(sha: Sha, key: Key, row: Entry, refusal: Refusal)
    requires RefusedFrom(sha, key, row, refusal)
    ensures Filed(key).service == key.service
  {
    hide Encode, EncodeMutation, StorableMutation, IntentCodec.EncodeIntent, EncodeRequest;
    assert NoNul(EVENT_SERVICE) && NoNul(MUTATION_SERVICE);
  }

  lemma MadeIsFiled(sha: Sha, w: View, i: nat)
    requires i < |w.history| && Honest(sha, w, i)
    ensures w.history[i].CommitWork? ==> Filed(w.history[i].commit.key) == w.history[i].commit.key
  {
    hide MadeFrom, RefusedFrom, Run, View.Load, Filed;
    if w.history[i].CommitWork? {
      var c := w.history[i].commit;
      var j: nat, cause :| j <= i && MadeFrom(sha, w.Load(j, c.key.character), c, cause);
      MadeHasNoNul(sha, w.Load(j, c.key.character), c, cause);
    }
  }

  lemma MadeHasNoNul(sha: Sha, base: CrimeState, c: Commit, cause: Cause)
    requires MadeFrom(sha, base, c, cause)
    ensures Filed(c.key) == c.key
  {
    hide Encode, EncodeMutation, Preimage, Consistent, EventFits, Advance, Settle, RequestedBounty, ValidState;
    assert NoNul(EVENT_SERVICE) && NoNul(MUTATION_SERVICE);
  }

  /** An evaluation that says accepted, with the first answer or a replayed one, belongs to exactly one booked commit
    of that event, which holds the answered result. No caller is told of a crime that the ledger has not counted. */
  lemma AcceptedAnswerIsBooked(sha: Sha, v: View, u: View, w: View, n: Intent, ctx: Context, hash: Bytes, judged: CrimeResult, o: Outcome)
    returns (i: nat)
    requires HonestRun(sha, w) && Grew(u, w) && EventKey(n, ctx) !in w.origin.journal
    requires Answered(v, u, n, ctx, hash, judged, o) && o.pending.None? && o.result.accepted
    ensures i < |w.history| && Booked(w, ctx.character, i) && w.history[i].commit.key == EventKey(n, ctx)
    ensures w.history[i].commit.payload == Encode(o.result) && w.history[i].commit.hash == hash
    ensures forall k: nat :: k < |w.history| && Succeeded(w, k) && Filed(w.history[k].commit.key) == EventKey(n, ctx) ==> k == i
  {
    hide CommitMutation, Run, Decode, Encode, Filed, HonestRun, Answered, Later;
    var key := EventKey(n, ctx);
    RowOfAccepted(v, u, n, ctx, hash, judged, o);
    Service.OwnedStays(u.db, w.db, key);
    i := AcceptedRowIsBooked(sha, w, key);
  }

  lemma RowOfAccepted(v: View, u: View, n: Intent, ctx: Context, hash: Bytes, judged: CrimeResult, o: Outcome)
    requires Answered(v, u, n, ctx, hash, judged, o) && o.pending.None? && o.result.accepted
    ensures var key := EventKey(n, ctx);
            && key in u.db.journal && SaysAccepted(key, u.db.journal[key])
            && u.db.journal[key].payload == Encode(o.result) && u.db.journal[key].hash == hash
  {
    hide Run, Decode, Encode, Fits, On, IssueOn, Started, JournaledLast, CommittedAs, View.Load, PendingFrom;
    if o.committed {
      CommittedRow(u, n, ctx, hash, judged, o);
    } else {
      EncodeDecode(u.db.journal[EventKey(n, ctx)].payload);
    }
  }

  /** The same for an explicit request. */
  lemma AcceptedReplyIsBooked(sha: Sha, v: View, u: View, w: View, q: MutationRequest, ctx: Service.Context, hash: Bytes, utf8: Text -> bool,
                              o: Service.ExecuteOutcome) returns (i: nat)
    requires HonestRun(sha, w) && Grew(u, w) && Service.RequestKey(q, ctx) !in w.origin.journal
    requires if o.committed then Service.SettledAs(sha, u, q, ctx, o) && u.own <= w.own && Succeeded(u, u.Last())
             else Service.Explained(v, u, q, ctx, hash, utf8, o)
    requires o.result.accepted
    ensures i < |w.history| && Booked(w, ctx.character, i) && w.history[i].commit.key == Service.RequestKey(q, ctx)
    ensures w.history[i].commit.payload == EncodeMutation(o.result)
    ensures forall k: nat :: k < |w.history| && Succeeded(w, k) && Filed(w.history[k].commit.key) == Service.RequestKey(q, ctx) ==> k == i
  {
    hide CommitMutation, Run, DecodeMutation, EncodeMutation, Filed, MadeFrom, Service.Decide, JournaledLast;
    var key := Service.RequestKey(q, ctx);
    if o.committed {
      i := u.Last();
      StillHonest(sha, u, w, i);
      SettledPayload(sha, u, q, ctx, o);
      forall k: nat | k < |w.history| && Succeeded(w, k) && Filed(w.history[k].commit.key) == key
        ensures k == i
      {
        OncePerKey(w, i, k);
      }
    } else {
      EncodeDecodeMutation(u.db.journal[key].payload);
      i := AcceptedRowIsBooked(sha, w, key);
    }
  }

  lemma SettledPayload(sha: Sha, u: View, q: MutationRequest, ctx: Service.Context, o: Service.ExecuteOutcome)
    requires Service.SettledAs(sha, u, q, ctx, o)
    ensures u.history != [] && u.history[u.Last()].CommitWork? && u.history[u.Last()].commit.payload == EncodeMutation(o.result)
    ensures Filed(u.history[u.Last()].commit.key) == u.history[u.Last()].commit.key == Service.RequestKey(q, ctx)
  {
    hide EncodeMutation, Preimage, Run;
    assert NoNul(MUTATION_SERVICE);
  }

  // ----- what the journal gives back ------------------------------------------------------------

  /** With storable observations and finite aggression terms, every witness of a judgement is
    storable. */
  lemma WitnessesStorable(p: Policy, n: Intent, cs: seq<Candidate>)
    requires forall c <- cs :: ValidCandidate(c) && c.actor.identity.kind <= CREATURE
    requires forall q :: StorableObservation(p.observe(q))
    requires forall a :: StorableAggression(p.aggression(a))
    ensures forall w <- Witnesses(p, n, cs) :: StorableWitness(w)
  {
    hide StorableObservation, QueryFor, Seen;
    forall i | 0 <= i < |cs|
      ensures StorableWitness(Witnesses(p, n, cs)[i])
    {
      assert StorableAggression(NO_AGGRESSION);
      assert ValidCandidate(cs[i]);
    }
  }

  /** An accepted event reads back from the journal exactly when its witnesses are storable. */
  lemma AcceptedReadsBack(p: Policy, n: Intent, guid: u32, cs: seq<Candidate>, state: CrimeState)
    requires ValidPolicy(p) && Judge(p, n, guid, cs).accepted && ValidState(state)
    ensures var r := Judge(p, n, guid, cs).(state := state);
            Decode(Encode(r)) == Some(r) <==> forall w <- r.witnesses :: StorableWitness(w)
  {
    hide Encode, Decode, Seen, AnyReported, Witnesses, Sort, StorableWitness;
    JudgedShape(p, n, guid, cs);
    SortSorts(cs);
    SurvivesJournal(Judge(p, n, guid, cs).(state := state));
  }

  /** A rejected intent reads back exactly when its crime type is inside the enumeration, and otherwise
    every retry finds a corrupt row. */
  lemma InvalidIntentReadsBack(p: Policy, n: Intent, guid: u32, cs: seq<Candidate>, state: CrimeState)
    requires ValidPolicy(p) && Judge(p, n, guid, cs).error == INVALID_INTENT && Journaled(n) && ValidState(state)
    ensures var r := Judge(p, n, guid, cs).(state := state);
            Decode(Encode(r)) == if ValidType(n.crime) then Some(r) else None
  {
    hide Encode, Decode, Seen, AnyReported, Witnesses, Sort, StorableWitness, ValidIntent, ValidWitnessList, BountyFor;
    var r := Judge(p, n, guid, cs).(state := state);
    assert r == Blank(n).(error := INVALID_INTENT, state := state);
    if ValidType(n.crime) { DecodeEncode(r); } else { InvalidTypeIsRefused(r); }
  }

  /** A theft whose bounty overflows is rejected before the crime-id flag is set. The row reads back
    exactly when nobody perceived the theft; otherwise every retry finds a corrupt row. */
  lemma OverflowReadsBack(p: Policy, n: Intent, guid: u32, cs: seq<Candidate>, state: CrimeState)
    requires ValidPolicy(p) && Judge(p, n, guid, cs).error == STATE_OVERFLOW && ValidState(state)
    requires forall w <- Judge(p, n, guid, cs).witnesses :: StorableWitness(w)
    ensures var r := Judge(p, n, guid, cs).(state := state);
            Decode(Encode(r)) == if r.crimeSeen then None else Some(r)
  {
    hide Encode, Decode, Seen, AnyReported, Witnesses, Sort, StorableWitness;
    SortSorts(cs);
    DecodeEncode(Judge(p, n, guid, cs).(state := state));
  }

  /** The overflow found inside the commit loop is rejected with the judgement's flags in place, so its row
    reads back exactly when the witnesses are storable. */
  lemma LoopOverflowReadsBack(p: Policy, n: Intent, guid: u32, cs: seq<Candidate>, current: CrimeState)
    requires ValidPolicy(p) && Judge(p, n, guid, cs).accepted && ValidState(current)
    ensures var r := RefusedOn(Judge(p, n, guid, cs), current);
            r.error == STATE_OVERFLOW && (Decode(Encode(r)) == Some(r) <==> forall w <- r.witnesses :: StorableWitness(w))
  {
    hide Encode, Decode, Seen, AnyReported, Witnesses, Sort, StorableWitness;
    JudgedShape(p, n, guid, cs);
    SortSorts(cs);
    SurvivesJournal(RefusedOn(Judge(p, n, guid, cs), current));
  }

  /** When the row of a rejection reads back: the crime type is inside the enumeration, and it is not a seen theft whose
    bounty overflows. Otherwise the row is corrupt. */
  lemma RejectionReadsBack(p: Policy, n: Intent, guid: u32, cs: seq<Candidate>, base: CrimeState)
    requires ValidPolicy(p) && Journaled(n) && ValidState(base)
    requires forall w <- Judge(p, n, guid, cs).witnesses :: StorableWitness(w)
    ensures var judged := Judge(p, n, guid, cs);
            var r := RefusedOn(judged, base);
            Decode(Encode(r)) == if ValidType(n.crime) && !(judged.error == STATE_OVERFLOW && judged.crimeSeen) then Some(r) else None
  {
    hide Encode, Decode, Seen, AnyReported, Witnesses, Sort, StorableWitness;
    var judged := Judge(p, n, guid, cs);
    if judged.accepted {
      LoopOverflowReadsBack(p, n, guid, cs, base);
    } else if judged.error == STATE_OVERFLOW {
      OverflowReadsBack(p, n, guid, cs, base);
    } else {
      InvalidIntentReadsBack(p, n, guid, cs, base);
    }
  }

  /** Such a row exists: a guard sees the theft of something worth 2^31-1 under a multiplier of two. */
  lemma SeenOverflowIsCorrupt() returns (p: Policy, n: Intent, guid: u32, cs: seq<Candidate>)
    ensures ValidPolicy(p) && ValidIntent(n, guid) && Journaled(n)
    ensures var r := Judge(p, n, guid, cs);
            r.error == STATE_OVERFLOW && r.crimeSeen && Decode(Encode(r)) == None
  {
    hide Encode, Decode;
    var zero := Vector(0, 0, 0);
    guid := 1;
    var thief := Snapshot(Identity(PLAYER, 1, 0), zero, zero, true, true, true, true, true, true, false, true,
                          0, 0, 0, 0, 0, 0, 0, 0, 0, 1, 1, 1, 1, SERVER_AUTHORITATIVE);
    n := Intent(CRIME_VERSION, [0x65], [0x73], THEFT, [0x63], thief, None, false, MAX_I32, 1, 1, []);
    var actor := thief.(identity := Identity(NPC, 0, 1));
    cs := [Candidate(actor, 100, 30, true, REL_ELIGIBLE, SERVER_AUTHORITATIVE)];
    var seen := Observation(true, None, None, None, None, LINE_OF_SIGHT, 0, SERVER_AUTHORITATIVE, 0, 0, 0, 0, []);
    p := Policy(2.0, 0, 0, 0, 0, 0, (q: Query) => seen, (a: Vector, b: Vector) => true, (f: Float) => f,
                (a: AggressionInput) => NO_AGGRESSION);
    assert Finite(0);
    assert Sort(cs) == cs by { assert Sort(cs[1..]) == []; }
    assert ValidCandidate(cs[0]);
    assert Eligibility(p, n, cs[0]) == ELIGIBLE;
    assert Perceive(p, n, cs[0]).perceived;
    assert Seen(p, n, cs);
    assert BountyFor(n, p) == None;
    var r := Judge(p, n, guid, cs);
    assert r.witnesses == Witnesses(p, n, cs);
    WitnessesStorable(p, n, cs) by {
      forall q ensures StorableObservation(p.observe(q)) { assert p.observe(q) == seen; }
      assert StorableAggression(NO_AGGRESSION);
    }
    assert r.(state := INITIAL_STATE) == r;
    OverflowReadsBack(p, n, guid, cs, INITIAL_STATE);
  }

  // ----- retries --------------------------------------------------------------------------------

  /** An event is committed and its id is sent again, perhaps with another intent, after other connections have
    written what they like. The second call writes nothing. The same intent gets the first result back, when
    that is storable; another intent is refused, unless the hash confuses the two. */
  method EvaluateTwice(service: CrimeSemanticService, n: Intent, witnesses: seq<Candidate>, ctx: Context,
                       m: Intent, observed: seq<Candidate>, again: Context)
    returns (first: Option<Outcome>, retry: Option<Outcome>, ghost middle: View)
    requires service.Valid()
    requires ctx.startingState.Some? ==> ValidState(ctx.startingState.value)
    requires again.startingState.Some? ==> ValidState(again.startingState.value)
    requires m.eventId == n.eventId && again.account == ctx.account && again.character == ctx.character && Authorized(again)
    modifies service.database
    ensures service.Valid() && HonestlyGrew(service.sha, old(service.database.Viewed()), middle)
    ensures OneEffect(old(service.database.Viewed()), middle, first.Some? && first.value.committed)
    ensures first.Some? && first.value.committed ==> Grew(middle, service.database.Viewed()) && service.database.own == middle.own
    ensures first.Some? && first.value.committed && retry.Some? ==>
              && (m == n && Storable(first.value.result) ==> retry.value == Outcome(first.value.result, true, false, None))
              && (m != n && NoCollision(service.sha, IntentCodec.EncodeIntent(n), IntentCodec.EncodeIntent(m)) ==>
                    !retry.value.replayed && !retry.value.committed && retry.value.result.error == DUPLICATE_CONFLICT)
  {
    hide IntentCodec.EncodeIntent, HonestlyGrew, OneEffect, Grew, Judge, Encode, Decode, ValidPolicy, Storable, View.Valid;
    hide Explained, PendingFrom, Fresh, Undisturbed, Fits, On, IssueOn, CommittedAs;
    first := service.Evaluate(n, witnesses, ctx);
    middle := service.database.Viewed();
    if first.Some? && first.value.committed {
      CommittedRow(middle, n, ctx, service.HashOf(n), service.JudgedFor(n, witnesses, ctx), first.value);
      assert EventKey(m, again) == EventKey(n, ctx);
      if Storable(first.value.result) { DecodeEncode(first.value.result); }
      if IntentCodec.EncodeIntent(n) == IntentCodec.EncodeIntent(m) { IntentCodec.EncodeIntentInjective(n, m); }
    }
    retry := service.Evaluate(m, observed, again);
    service.HonestIsGrowth(middle, service.database.Viewed());
  }

  lemma CommittedRow(v: View, n: Intent, ctx: Context, hash: Bytes, judged: CrimeResult, o: Outcome)
    requires CommittedAs(v, n, ctx, hash, judged, o)
    ensures EventKey(n, ctx) in v.db.journal
    ensures v.db.journal[EventKey(n, ctx)] == Entry(hash, true, 0, Encode(o.result), n.source)
  {
    hide Encode, Fits, On, IssueOn, View.Load;
  }

  /** The judgement has rejected the event, or does not fit on the character's state. */
  predicate JudgedAway(r: Option<Outcome>) {
    && r.Some? && !r.value.committed && !r.value.replayed && r.value.pending == None
    && r.value.result.error in {INVALID_INTENT, STATE_OVERFLOW}
  }

  /** The last write met no row under the key. */
  ghost predicate WasFree(w: View, key: Key) { w.history != [] && key !in w.At(w.Last()).journal }

  /** The answer from the row of a rejection: what the row reads as, with the same verdict, or that it is corrupt. */
  ghost predicate GivesBack(rejected: CrimeResult, o: Outcome) {
    match Decode(Encode(rejected))
    case Some(read) => o == Outcome(read, true, false, None) && !read.accepted && read.error == rejected.error
    case None => !o.replayed && !o.committed && o.result.error == CORRUPT_STORED_RESULT
  }

  /** A rejected event is sent again, after other connections have written what they like. The first call has journaled
    a well-formed event. Where its row stands, the second call writes nothing and gives back what the row reads as: the
    same verdict, or CORRUPT_STORED_RESULT when it does not read back. */
  method RejectedTwice(service: CrimeSemanticService, n: Intent, witnesses: seq<Candidate>, ctx: Context,
                       observed: seq<Candidate>, again: Context)
    returns (first: Option<Outcome>, retry: Option<Outcome>, ghost middle: View)
    requires service.Valid()
    requires ctx.startingState.Some? ==> ValidState(ctx.startingState.value)
    requires again.startingState.Some? ==> ValidState(again.startingState.value)
    requires again.account == ctx.account && again.character == ctx.character && Authorized(ctx) && Authorized(again)
    modifies service.database
    ensures service.Valid()
    ensures JudgedAway(first) && Journaled(n) && WasFree(middle, EventKey(n, ctx)) ==>
              && service.database.own == middle.own
              && (retry.Some? ==> GivesBack(first.value.result, retry.value))
    ensures JudgedAway(first) && Journaled(n) ==>
              JournaledLast(old(service.database.Viewed()), middle, EventKey(n, ctx), RowOf(n, service.HashOf(n), first.value.result))
    ensures HonestlyGrew(service.sha, old(service.database.Viewed()), middle)
  {
    hide IntentCodec.EncodeIntent, HonestlyGrew, OneEffect, Grew, Judge, Encode, Decode, ValidPolicy, View.Valid, CommittedAs;
    hide PendingFrom, Fresh, Undisturbed, Fits, On, IssueOn, AddRejection, RowAnswers, WritesOnly, Started, Explained, JournaledLast;
    ghost var start := service.database.Viewed();
    first := service.Evaluate(n, witnesses, ctx);
    middle := service.database.Viewed();
    if JudgedAway(first) && Journaled(n) {
      AwayIsJournaled(start, middle, n, ctx, service.HashOf(n), service.policy, witnesses, first.value);
    }
    retry := service.Evaluate(n, observed, again);
  }

  lemma AwayIsJournaled(v: View, w: View, n: Intent, ctx: Context, hash: Bytes, p: Policy, cs: seq<Candidate>, o: Outcome)
    requires ValidPolicy(p) && Answered(v, w, n, ctx, hash, Judge(p, n, ctx.playerGuid, cs), o)
    requires JudgedAway(Some(o)) && Journaled(n)
    ensures JournaledLast(v, w, EventKey(n, ctx), RowOf(n, hash, o.result))
    ensures EventKey(n, ctx) !in w.At(w.Last()).journal ==>
              EventKey(n, ctx) in w.db.journal && w.db.journal[EventKey(n, ctx)] == RowOf(n, hash, o.result)
    ensures Decode(Encode(o.result)).Some? ==>
              !Decode(Encode(o.result)).value.accepted && Decode(Encode(o.result)).value.error == o.result.error
  {
    hide Encode, Decode, Judge, Fits, CommittedAs, PendingFrom, Started, View.Load, RowOf, Run, OfIntent, AddRejection;
    JudgedShape(p, n, ctx.playerGuid, cs);
    RowStandsAlone(w.At(w.Last()), n, ctx, RowOf(n, hash, o.result));
    AwayKeepsVerdict(n, Judge(p, n, ctx.playerGuid, cs), o.result.state);
  }

  lemma RowStandsAlone(db: Db, n: Intent, ctx: Context, row: Entry)
    requires Journaled(n)
    ensures EventKey(n, ctx) !in db.journal ==>
              var next := AddRejection(db, EventKey(n, ctx), row);
              EventKey(n, ctx) in next.journal && next.journal[EventKey(n, ctx)] == row
  {
    hide Filed, NoNul;
    FiledAsItIs(n, ctx);
  }

  lemma FiledAsItIs(n: Intent, ctx: Context)
    requires Journaled(n)
    ensures Filed(EventKey(n, ctx)) == EventKey(n, ctx)
  {
    hide Cut;
    assert NoNul(EVENT_SERVICE);
  }

  lemma AwayKeepsVerdict(n: Intent, judged: CrimeResult, base: CrimeState)
    requires OfIntent(n, judged) && Journaled(n)
    ensures var r := RefusedOn(judged, base);
            !r.accepted && (Decode(Encode(r)).Some? ==> !Decode(Encode(r)).value.accepted && Decode(Encode(r)).value.error == r.error)
  {
    hide Encode, Decode;
    if Decode(Encode(RefusedOn(judged, base))).Some? { VerdictSurvives(RefusedOn(judged, base)); }
  }

  /** An explicit request that was committed, or whose rejection stands in the journal, is sent again: it gets the first
    result back and nothing is written. */
  method RequestTwice(service: Service.CrimeService, q: MutationRequest, ctx: Service.Context, again: Service.Context)
    returns (first: Option<Service.ExecuteOutcome>, retry: Option<Service.ExecuteOutcome>, ghost middle: View)
    requires service.database.Valid() && again.account == ctx.account > 0 && again.character == ctx.character > 0
    requires NoNul(q.requestId) && |q.requestId| <= MAX_REQUEST_ID
    modifies service.database
    ensures service.database.Valid() && HonestlyGrew(service.sha, old(service.database.Viewed()), middle)
    ensures var key := Service.RequestKey(q, ctx);
            first.Some?
            && (first.value.committed
                || (&& JournaledLast(old(service.database.Viewed()), middle, key, Service.RowOf(q, service.HashOf(q), first.value.result))
                    && WasFree(middle, key))) ==>
              && service.database.own == middle.own
              && (retry.Some? ==> retry.value == Service.ExecuteOutcome(first.value.result, true, false))
  {
    hide EncodeRequest, EncodeMutation, DecodeMutation, HonestlyGrew, OneEffect, Grew, View.Valid, Service.Explained, Service.Decide, JournaledLast;
    hide Service.SettledAs, AddRejection, Service.Fails, Service.Ready, Service.WritesOnly;
    ghost var start := service.database.Viewed();
    first := service.Execute(q, ctx);
    middle := service.database.Viewed();
    if first.Some? && first.value.committed {
      SettledReadsBack(service.sha, start, middle, q, ctx, first.value);
    } else if first.Some? && JournaledLast(start, middle, Service.RequestKey(q, ctx), Service.RowOf(q, service.HashOf(q), first.value.result)) {
      DenialReadsBack(start, middle, q, ctx, service.HashOf(q), service.utf8, first.value);
    }
    retry := service.Execute(q, again);
  }

  lemma SettledReadsBack(sha: Sha, v: View, w: View, q: MutationRequest, ctx: Service.Context, o: Service.ExecuteOutcome)
    requires w.Valid() && Service.SettledAs(sha, w, q, ctx, o) && OneEffect(v, w, true)
    requires NoNul(q.requestId) && |q.requestId| <= MAX_REQUEST_ID
    ensures var key := Service.RequestKey(q, ctx);
            && key in w.db.journal && w.db.journal[key].hash == sha(EncodeRequest(q))
            && DecodeMutation(w.db.journal[key].payload) == Some(o.result)
  {
    hide EncodeMutation, DecodeMutation, EncodeRequest, CommitMutation, Run, Later;
    var c := w.history[w.Last()].commit;
    assert w.Last() in Effects(v, w);
    SettledPayload(sha, w, q, ctx, o);
    CommittedState(w.At(w.Last()), c);
    AtNext(w, w.Last());
    assert w.history[..|w.history|] == w.history;
    DecodeEncodeMutation(o.result);
    SettledIsStorable(sha, w, q, ctx, o);
  }

  lemma SettledIsStorable(sha: Sha, w: View, q: MutationRequest, ctx: Service.Context, o: Service.ExecuteOutcome)
    requires Service.SettledAs(sha, w, q, ctx, o) && |q.requestId| <= MAX_REQUEST_ID
    ensures StorableMutation(o.result) && w.history[w.Last()].commit.hash == sha(EncodeRequest(q))
  {
    hide EncodeMutation, EncodeRequest, Run;
  }

  lemma DenialReadsBack(v: View, w: View, q: MutationRequest, ctx: Service.Context, hash: Bytes, utf8: Text -> bool, o: Service.ExecuteOutcome)
    requires w.Valid() && Service.Explained(v, w, q, ctx, hash, utf8, o) && Service.WritesOnly(v, w, q, ctx, hash, Some(o))
    requires NoNul(q.requestId) && |q.requestId| <= MAX_REQUEST_ID
    requires JournaledLast(v, w, Service.RequestKey(q, ctx), Service.RowOf(q, hash, o.result))
    ensures var key := Service.RequestKey(q, ctx);
            key !in w.At(w.Last()).journal ==>
              && key in w.db.journal && w.db.journal[key].hash == hash && DecodeMutation(w.db.journal[key].payload) == Some(o.result)
  {
    hide EncodeMutation, DecodeMutation, Run, Service.Decide, View.Load;
    assert Service.WroteAs(w.history[w.Last()], q, ctx, hash, Some(o));
    if Service.HadState(v, w, ctx.character, o.result.state) {
      var j: nat :| |v.history| <= j <= |w.history| && o.result.state == w.Load(j, ctx.character);
      StateInRange(w, ctx.character, j);
    }
    assert StorableMutation(o.result);
    DecodeEncodeMutation(o.result);
    assert NoNul(MUTATION_SERVICE);
  }
}
