/** The part of the player database that crafting uses: characters, dynamic records and the journal of
  craft requests. One commit writes all of them or nothing. */
module CraftStore {
  import opened Wrappers
  import opened ByteBuffers
  import opened AlchemyInventory
  import AlchemyRecords

  datatype Key = Key(account: i64, character: i64, requestId: Bytes)

  datatype Progress = Pending | Accepted | Rejected

  datatype Entry = Entry(hash: Bytes, progress: Progress, payload: Bytes)

  /** The statistics that alchemy can change; `other` stands for everything else that is saved with them. */
  datatype Stats = Stats(base: real, progress: real, mod: real, damage: real, level: int, levelProgress: real, other: Bytes)

  datatype Character = Character(account: i64, revision: u64, inventory: seq<Item>, stats: Stats)

  datatype Db = Db(characters: map<i64, Character>, records: map<Bytes, AlchemyRecords.NewRecord>, journal: map<Key, Entry>)

  datatype Commit = Commit(
    key: Key, hash: Bytes, payload: Bytes, expectedRevision: u64, resultingRevision: u64,
    records: seq<AlchemyRecords.NewRecord>, inventory: seq<Item>, stats: Option<Stats>)

  datatype Status = Committed | DuplicateRequest | DuplicateRequestConflict | StaleInventoryRevision

  /** Thrown stands for any exception; its transaction is rolled back. */
  datatype Reply = Thrown | Reply(status: Status)

  /** One write of some connection. SaveWork is any other write to a character, such as an inventory save. */
  datatype Work = CommitWork(commit: Commit)
                | RejectWork(key: Key, hash: Bytes, payload: Bytes)
                | PendingWork(key: Key, hash: Bytes)
                | CompleteWork(key: Key, hash: Bytes, accepted: bool, payload: Bytes)
                | SaveWork(character: i64, saved: Character)

  function WithRecords(records: map<Bytes, AlchemyRecords.NewRecord>, added: seq<AlchemyRecords.NewRecord>)
    : map<Bytes, AlchemyRecords.NewRecord>
  {
    if added == [] then records
    else WithRecords(records, added[..|added| - 1])[added[|added| - 1].recordId := added[|added| - 1]]
  }

  /** The key under which a commit looks for a row and files its own: the id is bound as a C string there, and only
      there. Every other statement binds the whole id. */
  function Filed(key: Key): Key { key.(requestId := Cut(key.requestId)) }

  /** commitDynamicRecordRequest for a player's request. */
  function CommitRequest(db: Db, c: Commit): (Db, Reply) {
    if c.key.account <= 0 || c.key.character <= 0 || c.key.requestId == [] || c.hash == [] || c.payload == [] then (db, Thrown)
    else if Filed(c.key) in db.journal then
      (db, Reply(if db.journal[Filed(c.key)].hash == c.hash then DuplicateRequest else DuplicateRequestConflict))
    else if !(c.key.character in db.characters && db.characters[c.key.character].account == c.key.account) then (db, Thrown)
    else if db.characters[c.key.character].revision != c.expectedRevision then (db, Reply(StaleInventoryRevision))
    else if exists r <- c.records :: r.recordId == [] then (db, Thrown)
    else
      var was := db.characters[c.key.character];
      var now := Character(was.account, c.resultingRevision, c.inventory, if c.stats.Some? then c.stats.value else was.stats);
      (Db(db.characters[c.key.character := now], WithRecords(db.records, c.records),
          db.journal[Filed(c.key) := Entry(c.hash, Accepted, c.payload)]), Reply(Committed))
  }

  /** Inserts leave an existing row alone; completion needs a pending row with the same hash. */
  function Apply(db: Db, w: Work): Db {
    match w
    case CommitWork(c) => CommitRequest(db, c).0
    case RejectWork(key, hash, payload) =>
      if key in db.journal then db else db.(journal := db.journal[key := Entry(hash, Rejected, payload)])
    case PendingWork(key, hash) =>
      if key in db.journal then db else db.(journal := db.journal[key := Entry(hash, Pending, [])])
    case CompleteWork(key, hash, accepted, payload) =>
      if key in db.journal && db.journal[key] == Entry(hash, Pending, db.journal[key].payload)
      then db.(journal := db.journal[key := Entry(hash, if accepted then Accepted else Rejected, payload)])
      else db
    case SaveWork(character, saved) => db.(characters := db.characters[character := saved])
  }

  function Run(db: Db, works: seq<Work>): Db {
    if works == [] then db else Apply(Run(db, works[..|works| - 1]), works[|works| - 1])
  }

  // ----- what time preserves ------------------------------------------------------------------------

  /** Rows stay, keep their hash, and never change again once they are terminal. */
  ghost predicate Later(a: Db, b: Db) {
    forall key <- a.journal ::
      && key in b.journal
      && b.journal[key].hash == a.journal[key].hash
      && (a.journal[key].progress != Pending ==> b.journal[key] == a.journal[key])
  }

  lemma LaterTransitive(a: Db, b: Db, c: Db)
    requires Later(a, b) && Later(b, c)
    ensures Later(a, c)
  {
  }

  lemma {:induction false} RunIsLater(db: Db, works: seq<Work>)
    ensures Later(db, Run(db, works))
  {
    if works != [] {
      RunIsLater(db, works[..|works| - 1]);
      OneLater(Run(db, works[..|works| - 1]), works[|works| - 1]);
    }
  }

  predicate Commits(db: Db, w: Work) {
    w.CommitWork? && CommitRequest(db, w.commit).1 == Reply(Committed)
  }

  lemma {:induction false} RunConcat(db: Db, a: seq<Work>, b: seq<Work>)
    ensures Run(db, a + b) == Run(Run(db, a), b)
    decreases |b|
  {
    if b == [] {
      assert a + b == a;
    } else {
      RunConcat(db, a, b[..|b| - 1]);
      assert (a + b)[..|a + b| - 1] == a + b[..|b| - 1];
    }
  }

  /** Exactly once: whatever the interleaving, at most one commit is filed under a key. */
  lemma CommitsOnce(db: Db, works: seq<Work>, i: nat, j: nat)
    requires i < j < |works| && Commits(Run(db, works[..i]), works[i]) && Commits(Run(db, works[..j]), works[j])
    ensures Filed(works[i].commit.key) != Filed(works[j].commit.key)
  {
    var first, between := works[..i + 1], works[i + 1..j];
    assert first[..i] == works[..i] && first + between == works[..j];
    RunConcat(db, first, between);
    RunIsLater(Run(db, first), between);
    assert Filed(works[i].commit.key) in Run(db, first).journal;
  }

  /** The write that first put a row under a key. */
  lemma {:induction false} RowHasWriter(db: Db, works: seq<Work>, key: Key) returns (i: nat)
    requires key !in db.journal && key in Run(db, works).journal
    ensures i < |works| && key !in Run(db, works[..i]).journal && key in Apply(Run(db, works[..i]), works[i]).journal
    ensures Later(Apply(Run(db, works[..i]), works[i]), Run(db, works))
  {
    var most := works[..|works| - 1];
    if key in Run(db, most).journal {
      i := RowHasWriter(db, most, key);
      assert most[..i] == works[..i];
      OneLater(Run(db, most), works[|works| - 1]);
      LaterTransitive(Apply(Run(db, most[..i]), most[i]), Run(db, most), Run(db, works));
    } else {
      i := |works| - 1;
    }
  }

  lemma OneLater(db: Db, w: Work)
    ensures Later(db, Apply(db, w))
  {
  }

  function RevisionOf(db: Db, character: i64): Option<u64> {
    if character in db.characters then Some(db.characters[character].revision) else None
  }

  /** A write that touches no inventory, no statistics, no record and no revision. */
  predicate OnlyJournal(db: Db, w: Work) {
    Apply(db, w).characters == db.characters && Apply(db, w).records == db.records
  }

  /** Exactly which commits are carried out: complete ones under a free key, for a character of the account at the expected
    inventory revision. */
  lemma CommitsExactly(db: Db, c: Commit)
    ensures CommitRequest(db, c).1 == Reply(Committed) <==>
              && c.key.account > 0 && c.key.character > 0 && c.key.requestId != [] && c.hash != [] && c.payload != []
              && Filed(c.key) !in db.journal && (forall r <- c.records :: r.recordId != [])
              && c.key.character in db.characters && db.characters[c.key.character].account == c.key.account
              && db.characters[c.key.character].revision == c.expectedRevision
    ensures CommitRequest(db, c).1 == Reply(Committed) ==>
              forall r <- c.records :: r.recordId in CommitRequest(db, c).0.records
    ensures forall id <- db.records :: id in CommitRequest(db, c).0.records
  {
    RecordsAdded(db.records, c.records);
  }

  lemma {:induction false} RecordsAdded(records: map<Bytes, AlchemyRecords.NewRecord>, added: seq<AlchemyRecords.NewRecord>)
    ensures forall r <- added :: r.recordId in WithRecords(records, added)
    ensures forall id <- records :: id in WithRecords(records, added)
    ensures forall id <- WithRecords(records, added) ::
              (id in records && WithRecords(records, added)[id] == records[id]) || WithRecords(records, added)[id] in added
  {
    if added != [] {
      var most := added[..|added| - 1];
      RecordsAdded(records, most);
      assert added == most + [added[|added| - 1]];
    }
  }

  /** A commit that is not carried out leaves everything as it was. */
  lemma AllOrNothing(db: Db, c: Commit)
    ensures CommitRequest(db, c).1 != Reply(Committed) ==> CommitRequest(db, c).0 == db
    ensures CommitRequest(db, c).1 == Reply(Committed) ==>
              var next := CommitRequest(db, c).0;
              && Filed(c.key) !in db.journal && next.journal == db.journal[Filed(c.key) := Entry(c.hash, Accepted, c.payload)]
              && c.key.character in db.characters && db.characters[c.key.character].account == c.key.account
              && db.characters[c.key.character].revision == c.expectedRevision
              && next.characters == db.characters[c.key.character :=
                   Character(c.key.account, c.resultingRevision, c.inventory,
                             if c.stats.Some? then c.stats.value else db.characters[c.key.character].stats)]
  {}

  // ----- the inventory revision over a run ------------------------------------------------------------

  /** The write leaves the character's revision or moves it on by one, around after the largest: nothing sets it back. */
  predicate Steady(db: Db, w: Work, character: i64) {
    character in db.characters ==>
      && character in Apply(db, w).characters
      && var was, now := db.characters[character].revision, Apply(db, w).characters[character].revision;
         now == was || now == (was + 1) % 0x1_0000_0000_0000_0000
  }

  ghost predicate SteadyRun(db: Db, works: seq<Work>, character: i64) {
    forall k :: 0 <= k < |works| ==> Steady(Run(db, works[..k]), works[k], character)
  }

  /** How often the revision has moved on. */
  lemma {:induction false} RevisionMoves(db: Db, works: seq<Work>, character: i64) returns (n: nat)
    requires character in db.characters && SteadyRun(db, works, character)
    ensures n <= |works| && character in Run(db, works).characters
    ensures Run(db, works).characters[character].revision == (db.characters[character].revision + n) % 0x1_0000_0000_0000_0000
  {
    n := 0;
    if works == [] {
      assert Run(db, works) == db;
    } else {
      hide Apply, Steady, SteadyRun, Run;
      var most := works[..|works| - 1];
      SteadyMost(db, works, character);
      n := RevisionMoves(db, most, character);
      var more := StepMoves(Run(db, most), works[|works| - 1], character, db.characters[character].revision + n);
      n := n + more;
    }
  }

  lemma SteadyMost(db: Db, works: seq<Work>, character: i64)
    requires works != [] && SteadyRun(db, works, character)
    ensures var most, last := works[..|works| - 1], works[|works| - 1];
            && SteadyRun(db, most, character) && Steady(Run(db, most), last, character)
            && Run(db, works) == Apply(Run(db, most), last)
  {
    hide Apply, Steady;
    var most := works[..|works| - 1];
    assert SteadyRun(db, most, character) by {
      hide Run;
      forall k | 0 <= k < |most|
        ensures Steady(Run(db, most[..k]), most[k], character)
      {
        assert most[..k] == works[..k];
      }
    }
  }

  lemma StepMoves(db: Db, w: Work, character: i64, moved: nat) returns (n: nat)
    requires Steady(db, w, character) && character in db.characters
    requires db.characters[character].revision == moved % 0x1_0000_0000_0000_0000
    ensures n <= 1 && character in Apply(db, w).characters
    ensures Apply(db, w).characters[character].revision == (moved + n) % 0x1_0000_0000_0000_0000
  {
    hide Apply;
    n := if Apply(db, w).characters[character].revision == db.characters[character].revision then 0 else 1;
    Wraps(moved);
  }

  lemma Wraps(x: nat)
    ensures (x % 0x1_0000_0000_0000_0000 + 1) % 0x1_0000_0000_0000_0000 == (x + 1) % 0x1_0000_0000_0000_0000
  {
  }

  /** Entry `i` is a commit for the character that took effect at this revision and moved it on. */
  predicate AdvancedAt(db: Db, works: seq<Work>, i: nat, character: i64, revision: u64) {
    && i < |works| && Commits(Run(db, works[..i]), works[i]) && works[i].commit.key.character == character
    && works[i].commit.expectedRevision == revision
    && works[i].commit.resultingRevision == (revision + 1) % 0x1_0000_0000_0000_0000
  }

  /** Of the commits prepared at one revision at most one takes effect, as long as nothing sets the revision back; it
    would take 2^64 writes to come round to it again. */
  lemma OneAdvancePerRevision(db: Db, works: seq<Work>, i: nat, j: nat, character: i64, revision: u64)
    requires i <= j < |works| && j - i < 0x1_0000_0000_0000_0000
    requires AdvancedAt(db, works, i, character, revision) && AdvancedAt(db, works, j, character, revision)
    requires forall k :: i < k < j ==> Steady(Run(db, works[..k]), works[k], character)
    ensures i == j
  {
    hide CommitRequest, Steady, Apply;
    if i < j {
      SteadyAfter(db, works, i, j, character);
      var first, between := works[..i + 1], works[i + 1..][..j - i - 1];
      AdvancedTo(db, works, i, character, revision);
      AllOrNothing(Run(db, works[..j]), works[j].commit);
      var n := RevisionMoves(Run(db, first), between, character);
      NotBack(revision, n);
    }
  }

  lemma AdvancedTo(db: Db, works: seq<Work>, i: nat, character: i64, revision: u64)
    requires AdvancedAt(db, works, i, character, revision)
    ensures character in Run(db, works[..i + 1]).characters
    ensures Run(db, works[..i + 1]).characters[character].revision == (revision + 1) % 0x1_0000_0000_0000_0000
  {
    hide CommitRequest;
    AllOrNothing(Run(db, works[..i]), works[i].commit);
    assert works[..i + 1][..i] == works[..i];
  }

  /** The writes between two entries, as a run of its own. */
  lemma SteadyAfter(db: Db, works: seq<Work>, i: nat, j: nat, character: i64)
    requires i < j < |works| && forall k :: i < k < j ==> Steady(Run(db, works[..k]), works[k], character)
    ensures var first, between := works[..i + 1], works[i + 1..][..j - i - 1];
            SteadyRun(Run(db, first), between, character) && Run(Run(db, first), between) == Run(db, works[..j])
  {
    hide Apply, Run, Steady;
    var first, between := works[..i + 1], works[i + 1..][..j - i - 1];
    assert first + between == works[..j];
    RunConcat(db, first, between);
    forall k | 0 <= k < |between|
      ensures Steady(Run(Run(db, first), between[..k]), between[k], character)
    {
      RunConcat(db, first, between[..k]);
      assert first + between[..k] == works[..i + 1 + k];
    }
  }

  lemma NotBack(revision: u64, n: nat)
    requires n + 1 < 0x1_0000_0000_0000_0000
    ensures ((revision + 1) % 0x1_0000_0000_0000_0000 + n) % 0x1_0000_0000_0000_0000 != revision
  {
  }

  /** A commit under a free key is found again by a lookup of its id exactly when the id holds no NUL. */
  lemma FoundAgain(db: Db, c: Commit)
    requires CommitRequest(db, c).1 == Reply(Committed) && c.key !in db.journal
    ensures c.key in CommitRequest(db, c).0.journal <==> NoNul(c.key.requestId)
    ensures NoNul(c.key.requestId) ==> CommitRequest(db, c).0.journal[c.key] == Entry(c.hash, Accepted, c.payload)
  {
    AllOrNothing(db, c);
  }

  // ----- the database object ------------------------------------------------------------------------

  /** One connection. Before each of its statements other connections may finish writes of their own:
      `others` holds what they do at each such point and is arbitrary. `met` lists the stores that this
      connection's statements have met, and `own` its writes, each with the store it met. */
  class CraftDatabase {
    var db: Db
    var others: seq<seq<Work>>
    ghost var met: seq<Db>
    ghost var own: seq<(Db, Work)>

    constructor (db: Db, others: seq<seq<Work>>)
      ensures this.db == db && this.others == others && own == [] && met == []
    {
      this.db, this.others, own, met := db, others, [], [];
    }

    /** No other connection writes any more. */
    predicate Alone()
      reads this
    {
      forall works <- others :: works == []
    }

    method Yield()
      modifies this
      ensures Later(old(db), db) && own == old(own) && met == old(met) + [db]
      ensures old(Alone()) ==> Alone() && db == old(db)
    {
      if others == [] {
        met := met + [db];
        return;
      }
      var works := others[0];
      assert works in others;
      others := others[1..];
      ghost var left := others;
      assert forall w <- left :: w in old(others);
      for i := 0 to |works|
        invariant db == Run(old(db), works[..i]) && own == old(own) && met == old(met) && others == left
      {
        assert works[..i + 1][..i] == works[..i];
        db := Apply(db, works[i]);
      }
      assert works[..|works|] == works;
      RunIsLater(old(db), works);
      met := met + [db];
    }

    method LoadRequest(key: Key) returns (r: Option<Entry>)
      modifies this
      ensures Later(old(db), db) && own == old(own) && met == old(met) + [db]
      ensures r == if key in db.journal then Some(db.journal[key]) else None
      ensures old(Alone()) ==> Alone() && db == old(db)
    {
      Yield();
      r := if key in db.journal then Some(db.journal[key]) else None;
    }

    /** loadInventoryRevision; None when there is no such character. */
    method LoadRevision(character: i64) returns (r: Option<u64>)
      modifies this
      ensures Later(old(db), db) && own == old(own) && met == old(met) + [db]
      ensures r == RevisionOf(db, character)
      ensures old(Alone()) ==> Alone() && db == old(db)
    {
      Yield();
      r := RevisionOf(db, character);
    }

    method Write(w: Work) returns (reply: Reply, ghost before: Db)
      modifies this
      ensures Later(old(db), before) && Later(before, db) && db == Apply(before, w)
      ensures own == old(own) + [(before, w)] && met == old(met) + [before]
      ensures w.CommitWork? ==> reply == CommitRequest(before, w.commit).1
      ensures old(Alone()) ==> Alone() && before == old(db)
    {
      Yield();
      before := db;
      own := own + [(db, w)];
      reply := if w.CommitWork? then CommitRequest(db, w.commit).1 else Thrown;
      db := Apply(db, w);
    }
  }
}
