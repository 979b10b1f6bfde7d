/** The two tables behind the crime services: the crime state of each character and the
  journal of finished requests. One commit checks the request key, then the revision, and then
  writes both tables or neither. */
module CrimeStore {
  import opened Wrappers
  import opened ByteBuffers
  import opened CrimeTypes

  datatype Key = Key(service: Text, account: i64, character: i64, requestId: Text)

  datatype Entry = Entry(hash: Bytes, accepted: bool, error: u16, payload: Bytes, source: Text)

  /** `owners` is the characters table: the account of each known character. */
  datatype Db = Db(owners: map<i64, i64>, states: map<i64, CrimeState>, journal: map<Key, Entry>)

  datatype Commit = Commit(
    key: Key, hash: Bytes, payload: Bytes, source: Text,
    expectedRevision: u64, resulting: CrimeState, failAfterStateWrite: bool)

  datatype Status = Committed | DuplicateRequest | DuplicateConflict | StaleRevision

  /** What the caller of a commit learns; Thrown stands for any exception. */
  datatype Reply = Thrown | Reply(status: Status, current: CrimeState, storedPayload: Bytes) {
    predicate IsCommitted() { Reply? && status == Committed }
  }

  /** One write statement of some connection. */
  datatype Work = CommitWork(commit: Commit) | RejectWork(key: Key, entry: Entry)

  ghost predicate ValidDb(db: Db) {
    forall c <- db.states :: ValidState(db.states[c])
  }

  /** The crime state a character has; a character without a row has the initial one. */
  function StateOf(db: Db, character: i64): CrimeState {
    if character in db.states then db.states[character] else INITIAL_STATE
  }

  /** The argument check at the top of the commit. */
  predicate WellFormed(c: Commit) {
    && c.key.service != [] && |c.key.service| <= 64 && NoNul(c.key.service)
    && c.key.account > 0 && c.key.character > 0 && c.key.requestId != []
    && c.hash != [] && c.payload != [] && c.source != []
    && ValidState(c.resulting)
    && c.expectedRevision <= MAX_REVISION
    && (c.resulting.revision != c.expectedRevision
        ==> c.expectedRevision < MAX_REVISION && c.resulting.revision == c.expectedRevision + 1)
  }

  predicate Owned(db: Db, key: Key) { key.character in db.owners && db.owners[key.character] == key.account }

  /** The key under which a row is written. Rows are looked up by the whole id, so a lookup of an id with a
    NUL never finds one. */
  function Filed(key: Key): (r: Key)
    ensures NoNul(key.service) && NoNul(key.requestId) ==> r == key
  {
    key.(service := Cut(key.service), requestId := Cut(key.requestId))
  }

  /** commitPlayerCrimeMutation; a thrown commit is rolled back. */
  function CommitMutation(db: Db, c: Commit): (Db, Reply)
  {
    if !WellFormed(c) then (db, Thrown)
    else if Filed(c.key) in db.journal then
      var entry := db.journal[Filed(c.key)];
      (db, Reply(if entry.hash == c.hash then DuplicateRequest else DuplicateConflict, INITIAL_STATE, entry.payload))
    else if !Owned(db, c.key) then (db, Thrown)
    else
      var current := StateOf(db, c.key.character);
      if current.revision != c.expectedRevision then (db, Reply(StaleRevision, current, []))
      else
        var advances := c.resulting.revision == c.expectedRevision + 1;
        if !advances && c.resulting != current then (db, Thrown)
        else if advances && c.failAfterStateWrite then (db, Thrown)
        else
          var states := if advances then db.states[c.key.character := c.resulting] else db.states;
          var entry := Entry(c.hash, true, 0, c.payload, c.source);
          (Db(db.owners, states, db.journal[Filed(c.key) := entry]), Reply(Committed, c.resulting, []))
  }

  /** What a successful commit leaves behind. */
  lemma CommittedState(db: Db, c: Commit)
    requires CommitMutation(db, c).1.IsCommitted()
    ensures Filed(c.key) !in db.journal
    ensures StateOf(db, c.key.character).revision == c.expectedRevision
    ensures var next := CommitMutation(db, c).0;
            && StateOf(next, c.key.character) == c.resulting
            && next.journal == db.journal[Filed(c.key) := Entry(c.hash, true, 0, c.payload, c.source)]
  {
  }

  /** Exactly which commits take effect: well-formed, under a key without a row, for a character of the account at the
    expected revision; one that keeps the revision must keep the whole state, and one that moves it must not be made to fail. */
  lemma CommitsExactly(db: Db, c: Commit)
    ensures CommitMutation(db, c).1.IsCommitted() <==>
              && WellFormed(c) && Filed(c.key) !in db.journal
              && c.key.character in db.owners && db.owners[c.key.character] == c.key.account
              && StateOf(db, c.key.character).revision == c.expectedRevision
              && (c.resulting == StateOf(db, c.key.character)
                  || (c.resulting.revision != c.expectedRevision && !c.failAfterStateWrite))
    ensures CommitMutation(db, c).0.owners == db.owners
    ensures forall other: i64 :: other != c.key.character ==> StateOf(CommitMutation(db, c).0, other) == StateOf(db, other)
    ensures !CommitMutation(db, c).1.IsCommitted() ==> CommitMutation(db, c).0 == db
  {
    hide Filed;
  }

  /** A duplicate is reported for the row that stands under the key, with what it holds. */
  lemma RowStands(db: Db, c: Commit)
    requires CommitMutation(db, c).1.Reply? && CommitMutation(db, c).1.status in {DuplicateRequest, DuplicateConflict}
    ensures Filed(c.key) in db.journal && CommitMutation(db, c).0 == db
    ensures CommitMutation(db, c).1.status == DuplicateRequest <==> db.journal[Filed(c.key)].hash == c.hash
    ensures CommitMutation(db, c).1.storedPayload == db.journal[Filed(c.key)].payload
  {
  }

  /** insertRejectedSemanticRequest: an existing row is left alone. */
  function AddRejection(db: Db, key: Key, entry: Entry): Db {
    if Filed(key) in db.journal then db else db.(journal := db.journal[Filed(key) := entry])
  }

  function Apply(db: Db, work: Work): Db {
    match work
    case CommitWork(c) => CommitMutation(db, c).0
    case RejectWork(key, entry) => AddRejection(db, key, entry)
  }

  function Run(db: Db, works: seq<Work>): Db {
    if works == [] then db else Apply(Run(db, works[..|works| - 1]), works[|works| - 1])
  }

  // ----- what time preserves ----------------------------------------------------------------

  /** `b` can follow `a`: journal rows are permanent, revisions never decrease, and a character
    whose revision is unchanged has an unchanged state. */
  ghost predicate Later(a: Db, b: Db) {
    && a.owners == b.owners
    && (forall key <- a.journal :: key in b.journal && b.journal[key] == a.journal[key])
    && (forall c: i64 :: StateOf(a, c).revision <= StateOf(b, c).revision)
    && (forall c: i64 :: StateOf(a, c).revision == StateOf(b, c).revision ==> StateOf(a, c) == StateOf(b, c))
  }

  lemma LaterTransitive(a: Db, b: Db, c: Db)
    requires Later(a, b) && Later(b, c)
    ensures Later(a, c)
  {
    forall ch: i64
      ensures StateOf(a, ch).revision <= StateOf(c, ch).revision
      ensures StateOf(a, ch).revision == StateOf(c, ch).revision ==> StateOf(a, ch) == StateOf(c, ch)
    {
      assert StateOf(a, ch).revision <= StateOf(b, ch).revision <= StateOf(c, ch).revision;
    }
  }

  /** A commit of any service whatever moves the store forward in time. */
  lemma WorkMovesForward(db: Db, work: Work)
    requires ValidDb(db)
    ensures ValidDb(Apply(db, work)) && Later(db, Apply(db, work))
  {
  }

  /** Equal revision implies equal state, across every sequence of writes. */
  lemma {:induction false} RunMovesForward(db: Db, works: seq<Work>)
    requires ValidDb(db)
    ensures ValidDb(Run(db, works)) && Later(db, Run(db, works))
  {
    if works != [] {
      var init := works[..|works| - 1];
      RunMovesForward(db, init);
      WorkMovesForward(Run(db, init), works[|works| - 1]);
      LaterTransitive(db, Run(db, init), Run(db, works));
    }
  }

  lemma {:induction false} RunConcat(db: Db, first: seq<Work>, second: seq<Work>)
    ensures Run(db, first + second) == Run(Run(db, first), second)
    decreases |second|
  {
    if second == [] {
      assert first + second == first;
    } else {
      var init := second[..|second| - 1];
      RunConcat(db, first, init);
      assert (first + second)[..|first + second| - 1] == first + init;
    }
  }

  // ----- several commits in one transaction ----------------------------------------------------

  datatype Batch = BatchCommitted | BatchStale | BatchConflict | BatchThrown

  /** The commits one after the other, up to the first that is stale, in conflict or thrown; duplicates are passed over. */
  function Attempt(db: Db, cs: seq<Commit>): (Db, Batch) {
    if cs == [] then (db, BatchCommitted)
    else
      var (met, batch) := Attempt(db, cs[..|cs| - 1]);
      if batch != BatchCommitted then (met, batch)
      else
        var (next, reply) := CommitMutation(met, cs[|cs| - 1]);
        match reply
        case Thrown => (met, BatchThrown)
        case Reply(StaleRevision, _, _) => (met, BatchStale)
        case Reply(DuplicateConflict, _, _) => (met, BatchConflict)
        case Reply(_, _, _) => (next, BatchCommitted)
  }

  /** The transaction of acceptCombatEvent: whatever goes wrong takes everything back. */
  function CommitTogether(db: Db, cs: seq<Commit>): (Db, Batch) {
    var (next, batch) := Attempt(db, cs);
    (if batch == BatchCommitted then next else db, batch)
  }

  function Works(cs: seq<Commit>): seq<Work> { seq(|cs|, i requires 0 <= i < |cs| => CommitWork(cs[i])) }

  /** A batch that goes through is its commits in a row. */
  lemma {:induction false} BatchIsRun(db: Db, cs: seq<Commit>)
    requires Attempt(db, cs).1 == BatchCommitted
    ensures Attempt(db, cs).0 == Run(db, Works(cs))
  {
    hide CommitMutation;
    if cs != [] {
      BatchIsRun(db, cs[..|cs| - 1]);
      assert Works(cs)[..|cs| - 1] == Works(cs[..|cs| - 1]);
      NotChanged(Attempt(db, cs[..|cs| - 1]).0, cs[|cs| - 1]);
    }
  }

  lemma NotChanged(db: Db, c: Commit)
    ensures !CommitMutation(db, c).1.IsCommitted() ==> CommitMutation(db, c).0 == db
  {
    hide Filed, WellFormed;
  }

  /** A request of the batch has its row, with its own hash. */
  ghost predicate HasRow(db: Db, c: Commit) {
    WellFormed(c) && Filed(c.key) in db.journal && db.journal[Filed(c.key)].hash == c.hash
  }

  lemma {:induction false} BatchLeavesRows(db: Db, cs: seq<Commit>)
    requires Attempt(db, cs).1 == BatchCommitted
    ensures forall c <- cs :: HasRow(Attempt(db, cs).0, c)
  {
    hide HasRow;
    if cs != [] {
      var most := cs[..|cs| - 1];
      BatchLeavesRows(db, most);
      forall c <- cs
        ensures HasRow(Attempt(db, cs).0, c)
      {
        RowsRemain(Attempt(db, most).0, cs[|cs| - 1], c);
        assert c in most || c == cs[|cs| - 1];
      }
    }
  }

  lemma RowsRemain(db: Db, c: Commit, d: Commit)
    ensures HasRow(db, d) ==> HasRow(CommitMutation(db, c).0, d)
    ensures CommitMutation(db, c).1.Reply? && CommitMutation(db, c).1.status in {Committed, DuplicateRequest} ==>
              HasRow(CommitMutation(db, c).0, c)
  {
    hide Filed, WellFormed;
  }

  lemma {:induction false} BatchPassesOver(db: Db, cs: seq<Commit>)
    requires forall c <- cs :: HasRow(db, c)
    ensures Attempt(db, cs) == (db, BatchCommitted)
  {
    if cs != [] {
      assert cs[|cs| - 1] in cs;
      BatchPassesOver(db, cs[..|cs| - 1]);
    }
  }

  /** Accepting the same batch again changes nothing, even after later writes. */
  lemma BatchOnce(db: Db, cs: seq<Commit>, works: seq<Work>)
    requires ValidDb(db) && CommitTogether(db, cs).1 == BatchCommitted
    ensures var after := Run(CommitTogether(db, cs).0, works);
            CommitTogether(after, cs) == (after, BatchCommitted)
  {
    hide Attempt, CommitMutation;
    BatchLeavesRows(db, cs);
    BatchIsRun(db, cs);
    RunMovesForward(db, Works(cs));
    RunMovesForward(Attempt(db, cs).0, works);
    BatchPassesOver(Run(Attempt(db, cs).0, works), cs);
  }

  // ----- the database object ----------------------------------------------------------------

  /** What a connection has been part of: the store, every write since `origin`, and the positions
    of its own writes in that history. */
  datatype View = View(origin: Db, db: Db, history: seq<Work>, own: set<nat>) {
    ghost predicate Valid() {
      && ValidDb(origin) && ValidDb(db) && db == Run(origin, history)
      && forall i <- own :: i < |history|
    }

    /** The store as it was when the history had `n` entries. */
    ghost function At(n: nat): Db
      requires n <= |history|
    {
      Run(origin, history[..n])
    }

    ghost function Load(n: nat, character: i64): CrimeState
      requires n <= |history|
    {
      StateOf(At(n), character)
    }

    ghost function Last(): nat
      requires history != []
    {
      |history| - 1
    }
  }

  /** `v` can become `w` by writes of any connection. */
  ghost predicate Grew(v: View, w: View) {
    && w.origin == v.origin && v.history <= w.history && v.own <= w.own
    && (forall i <- w.own :: i in v.own || i >= |v.history|)
    && Later(v.db, w.db)
  }

  lemma GrewTransitive(v: View, w: View, x: View)
    requires Grew(v, w) && Grew(w, x)
    ensures Grew(v, x)
  {
    LaterTransitive(v.db, w.db, x.db);
  }

  /** The past does not change. */
  lemma PastStays(v: View, w: View, n: nat)
    requires Grew(v, w) && n <= |v.history|
    ensures n <= |w.history| && w.At(n) == v.At(n)
  {
    assert w.history[..n] == v.history[..n];
  }

  lemma RunsForward(v: View, works: seq<Work>)
    requires v.Valid()
    ensures var w := View(v.origin, Run(v.db, works), v.history + works, v.own);
            w.Valid() && Grew(v, w)
  {
    RunMovesForward(v.db, works);
    RunConcat(v.origin, v.history, works);
  }

  lemma WritesForward(v: View, work: Work)
    requires v.Valid()
    ensures var w := View(v.origin, Apply(v.db, work), v.history + [work], v.own + {|v.history|});
            w.Valid() && Grew(v, w) && w.At(|v.history|) == v.db
  {
    WorkMovesForward(v.db, work);
    assert (v.history + [work])[..|v.history|] == v.history;
  }

  function Between(lo: nat, hi: nat): (r: set<nat>)
    ensures forall i: nat :: i in r <==> lo <= i < hi
  {
    if lo >= hi then {} else Between(lo, hi - 1) + {hi - 1}
  }

  lemma BatchKeepsStore(db: Db, cs: seq<Commit>)
    ensures CommitTogether(db, cs).1 != BatchCommitted ==> CommitTogether(db, cs).0 == db
  {
  }

  /** The view after a batch. */
  ghost function AfterBatch(v: View, cs: seq<Commit>): View {
    if CommitTogether(v.db, cs).1 == BatchCommitted
    then View(v.origin, CommitTogether(v.db, cs).0, v.history + Works(cs), v.own + Between(|v.history|, |v.history| + |cs|))
    else v
  }

  lemma BatchForward(v: View, cs: seq<Commit>)
    requires v.Valid()
    ensures AfterBatch(v, cs).Valid() && Grew(v, AfterBatch(v, cs))
    ensures AfterBatch(v, cs).At(|v.history|) == v.db
  {
    hide Attempt, CommitMutation;
    assert v.history[..|v.history|] == v.history;
    if CommitTogether(v.db, cs).1 == BatchCommitted {
      BatchIsRun(v.db, cs);
      RunsForward(v, Works(cs));
      assert AfterBatch(v, cs).history[..|v.history|] == v.history;
    } else {
      RunsForward(v, []);
      assert v.history + [] == v.history;
    }
  }

  /** A connection to the shared database. Before each statement of this connection, other
    connections may finish writes of their own: `others` holds what they do at each such point
    and is arbitrary. */
  class PlayerDatabase {
    var db: Db
    var others: seq<seq<Work>>
    ghost var origin: Db
    ghost var history: seq<Work>
    ghost var own: set<nat>

    ghost function Viewed(): View
      reads this
    {
      View(origin, db, history, own)
    }

    ghost predicate Valid()
      reads this
    {
      Viewed().Valid()
    }

    /** No other connection writes any more. */
    predicate Alone()
      reads this
    {
      forall works <- others :: works == []
    }

    constructor (db: Db, others: seq<seq<Work>>)
      requires ValidDb(db)
      ensures Valid() && this.db == db && this.others == others && history == [] && own == {}
    {
      this.db := db;
      this.others := others;
      origin := db;
      history := [];
      own := {};
    }

    /** The other connections take their turn. */
    method Yield()
      requires Valid()
      modifies this
      ensures Valid() && Grew(old(Viewed()), Viewed()) && own == old(own)
      ensures old(Alone()) ==> Alone() && Viewed() == old(Viewed())
    {
      if others == [] { return; }
      var works := others[0];
      assert works in others;
      assert Alone() ==> works == [] && history + works == history;
      others := others[1..];
      ghost var left := others;
      assert forall w <- left :: w in old(others);
      RunsForward(Viewed(), works);
      history := history + works;
      for i := 0 to |works|
        invariant db == Run(old(db), works[..i])
        invariant unchanged(this`origin) && history == old(history) + works && own == old(own) && others == left
      {
        assert works[..i + 1][..i] == works[..i];
        db := Apply(db, works[i]);
      }
      assert works[..|works|] == works;
    }

    /** loadPlayerCrimeState; None when the character is unknown. */
    method LoadState(character: i64) returns (r: Option<CrimeState>)
      requires Valid()
      modifies this
      ensures Valid() && Grew(old(Viewed()), Viewed()) && own == old(own)
      ensures r == if character in db.owners then Some(StateOf(db, character)) else None
      ensures r.Some? ==> ValidState(r.value) && r.value == Viewed().Load(|history|, character)
      ensures old(Alone()) ==> Alone() && Viewed() == old(Viewed())
    {
      Yield();
      r := if character in db.owners then Some(StateOf(db, character)) else None;
      assert history[..|history|] == history;
    }

    /** loadSemanticRequest. */
    method LoadRequest(key: Key) returns (r: Option<Entry>)
      requires Valid()
      modifies this
      ensures Valid() && Grew(old(Viewed()), Viewed()) && own == old(own)
      ensures r == if key in db.journal then Some(db.journal[key]) else None
      ensures old(Alone()) ==> Alone() && Viewed() == old(Viewed())
    {
      Yield();
      r := if key in db.journal then Some(db.journal[key]) else None;
    }

    /** One write of this connection, in a transaction of its own; `before` is the store it met. */
    method Commit(c: Commit) returns (reply: Reply, ghost before: Db)
      requires Valid()
      modifies this
      ensures Valid() && Grew(old(Viewed()), Viewed())
      ensures ValidDb(before) && Later(old(db), before) && (db, reply) == CommitMutation(before, c) && Later(before, db)
      ensures old(Alone()) ==> Alone() && before == old(db) && history == old(history) + [CommitWork(c)]
      ensures |old(history)| < |history| && own == old(own) + {Viewed().Last()}
      ensures history[|history| - 1] == CommitWork(c) && before == Viewed().At(|history| - 1)
    {
      Yield();
      before := db;
      ghost var v := Viewed();
      WritesForward(v, CommitWork(c));
      own := own + {|history|};
      history := history + [CommitWork(c)];
      var result := CommitMutation(db, c);
      db := result.0;
      reply := result.1;
      GrewTransitive(old(Viewed()), v, Viewed());
    }

    /** Several commits of this connection in one transaction: all of them stand in the history, or none. `met` is what
      the transaction has met. */
    method CommitBatch(cs: seq<Commit>) returns (batch: Batch, ghost met: View)
      requires Valid()
      modifies this
      ensures Valid() && Grew(old(Viewed()), met) && met.Valid() && met.own == old(own) && Grew(met, Viewed())
      ensures batch == CommitTogether(met.db, cs).1 && Viewed() == AfterBatch(met, cs)
      ensures old(Alone()) ==> Alone() && met == old(Viewed())
    {
      hide CommitTogether, Grew, View.Valid, Works, Between;
      Yield();
      met := Viewed();
      BatchForward(met, cs);
      var result := CommitTogether(db, cs);
      batch := result.1;
      if batch == BatchCommitted {
        own := own + Between(|history|, |history| + |cs|);
        history := history + Works(cs);
      }
      db := result.0;
      BatchKeepsStore(met.db, cs);
    }

    method InsertRejected(key: Key, entry: Entry)
      requires Valid()
      modifies this
      ensures Valid() && Grew(old(Viewed()), Viewed())
      ensures |old(history)| < |history| && own == old(own) + {Viewed().Last()}
      ensures history[|history| - 1] == RejectWork(key, entry)
      ensures db == AddRejection(Viewed().At(|history| - 1), key, entry)
      ensures old(Alone()) ==> Alone() && db == AddRejection(old(db), key, entry)
    {
      Yield();
      ghost var v := Viewed();
      WritesForward(v, RejectWork(key, entry));
      own := own + {|history|};
      history := history + [RejectWork(key, entry)];
      db := AddRejection(db, key, entry);
      GrewTransitive(old(Viewed()), v, Viewed());
    }
  }
}
