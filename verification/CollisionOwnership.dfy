/** CollisionCellOwnership, the lifecycle counter it drives, and the server's update of one owner. */
module CollisionOwnership {
  import opened Wrappers
  import opened ByteBuffers
  import opened Sorting

  type Owners = map<Bytes, set<Bytes>>

  datatype Transition = Transition(acquire: seq<Bytes>, release: seq<Bytes>)

  const NO_TRANSITION := Transition([], [])

  function Held(owners: Owners, owner: Bytes): set<Bytes> {
    if owner in owners then owners[owner] else {}
  }

  function With(owners: Owners, owner: Bytes, cells: set<Bytes>): Owners {
    if cells == {} then owners - {owner} else owners[owner := cells]
  }

  /** The two set differences, each listed in order. */
  predicate Differences(t: Transition, before: set<Bytes>, after: set<Bytes>) {
    && Ascending(t.acquire) && Members(t.acquire) == after - before
    && Ascending(t.release) && Members(t.release) == before - after
  }

  /** Empty owner names, owners without cells and empty cell names are never stored. */
  predicate ValidOwners(owners: Owners) {
    forall o <- owners :: o != [] && owners[o] != {} && [] !in owners[o]
  }

  function NonEmpty(cells: seq<Bytes>): (r: seq<Bytes>)
    ensures Members(r) == Members(cells) - {[]}
  {
    if cells == [] then []
    else
      assert cells == cells[..|cells| - 1] + [cells[|cells| - 1]];
      OneMoreMember(cells[..|cells| - 1], cells[|cells| - 1]);
      var r := NonEmpty(cells[..|cells| - 1]);
      OneMoreMember(r, cells[|cells| - 1]);
      r + if cells[|cells| - 1] == [] then [] else [cells[|cells| - 1]]
  }

  /** Walk a hash set in whatever order, keep what is not in `except`, then sort. */
  method SortedListing(cells: set<Bytes>, except: set<Bytes>) returns (r: seq<Bytes>)
    ensures Ascending(r) && Members(r) == cells - except
  {
    hide Ascending, Before, AtMost, Sorted;
    var rest := cells;
    var listed: seq<Bytes> := [];
    while rest != {}
      invariant rest <= cells && Members(listed) == cells - except - rest
      invariant forall x :: multiset(listed)[x] <= 1
    {
      var c :| c in rest;
      assert c !in Members(listed) && c !in listed;
      OneMoreMember(listed, c);
      if c !in except { listed := listed + [c]; }
      rest := rest - {c};
    }
    AtMostIsOrder();
    SortSorts(listed, AtMost);
    r := Sort(listed, AtMost);
    SortedOnceIsAscending(r);
    SameMembers(r, listed);
  }

  class CollisionCellOwnership {
    var owners: Owners

    predicate Valid()
      reads this
    {
      ValidOwners(owners)
    }

    constructor ()
      ensures Valid() && owners == map[]
    {
      owners := map[];
    }

    /** None when the owner name is empty, which throws. */
    method Update(ownerId: Bytes, desiredCells: seq<Bytes>) returns (t: Option<Transition>)
      requires Valid()
      modifies this
      ensures Valid()
      ensures ownerId == [] ==> t == None && owners == old(owners)
      ensures ownerId != [] ==>
                && t.Some?
                && Differences(t.value, Held(old(owners), ownerId), Members(desiredCells) - {[]})
                && owners == With(old(owners), ownerId, Members(desiredCells) - {[]})
    {
      hide Ascending, Before, Members;
      if ownerId == [] { return None; }
      var listed := SortUnique(NonEmpty(desiredCells));
      var desired := Members(listed);
      if ownerId !in owners { owners := owners[ownerId := {}]; }
      var current := owners[ownerId];
      var acquire := Missing(listed, current);
      var release := SortedListing(current, desired);
      owners := if desired == {} then owners - {ownerId} else owners[ownerId := desired];
      return Some(Transition(acquire, release));
    }

    method Remove(ownerId: Bytes) returns (t: Transition)
      requires Valid()
      modifies this
      ensures Valid() && owners == With(old(owners), ownerId, {})
      ensures Differences(t, Held(old(owners), ownerId), {})
    {
      hide Before;
      if ownerId !in owners { return NO_TRANSITION; }
      var release := SortedListing(owners[ownerId], {});
      owners := owners - {ownerId};
      return Transition([], release);
    }

    method Cells(ownerId: Bytes) returns (r: seq<Bytes>)
      ensures Ascending(r) && Members(r) == Held(owners, ownerId)
    {
      if ownerId !in owners { return []; }
      r := SortedListing(owners[ownerId], {});
    }
  }

  /** The cells of an ordered list that are not held yet. */
  method Missing(listed: seq<Bytes>, current: set<Bytes>) returns (r: seq<Bytes>)
    requires Ascending(listed)
    ensures Ascending(r) && Members(r) == Members(listed) - current
  {
    hide Before;
    r := [];
    for i := 0 to |listed|
      invariant Ascending(r) && Members(r) == Members(listed[..i]) - current
      invariant forall k, l :: 0 <= k < |r| && i <= l < |listed| ==> Before(r[k], listed[l])
    {
      assert listed[..i + 1] == listed[..i] + [listed[i]];
      OneMoreMember(listed[..i], listed[i]);
      OneMoreMember(r, listed[i]);
      if listed[i] !in current { r := r + [listed[i]]; }
    }
    assert listed[..|listed|] == listed;
  }

  // ----- the counter ------------------------------------------------------------------------------

  type Counts = map<Bytes, nat>

  function RefCount(counts: Counts, cell: Bytes): nat {
    if cell in counts then counts[cell] else 0
  }

  /** Releasing a cell that nobody holds is not accepted and changes nothing. */
  function Released(counts: Counts, cell: Bytes): Counts {
    if RefCount(counts, cell) == 0 then counts else counts[cell := RefCount(counts, cell) - 1]
  }

  function AfterAcquires(counts: Counts, cells: seq<Bytes>): Counts {
    if cells == [] then counts
    else
      var before := AfterAcquires(counts, cells[..|cells| - 1]);
      before[cells[|cells| - 1] := RefCount(before, cells[|cells| - 1]) + 1]
  }

  function AfterReleases(counts: Counts, cells: seq<Bytes>): Counts {
    if cells == [] then counts
    else Released(AfterReleases(counts, cells[..|cells| - 1]), cells[|cells| - 1])
  }

  /** Acquires first, so that a cell is never dropped on the way. */
  function Applied(counts: Counts, t: Transition): Counts {
    AfterReleases(AfterAcquires(counts, t.acquire), t.release)
  }

  /** Each release will find a count to take down. */
  predicate AllHeld(counts: Counts, release: seq<Bytes>) {
    NoRepeats(release) && forall c <- release :: RefCount(counts, c) > 0
  }

  lemma {:induction false} AcquiresCount(counts: Counts, cells: seq<Bytes>, c: Bytes)
    requires NoRepeats(cells)
    ensures RefCount(AfterAcquires(counts, cells), c) == RefCount(counts, c) + if c in cells then 1 else 0
  {
    if cells != [] {
      var most := cells[..|cells| - 1];
      AcquiresCount(counts, most, c);
      assert cells == most + [cells[|cells| - 1]];
    }
  }

  lemma {:induction false} ReleasesCount(counts: Counts, cells: seq<Bytes>, c: Bytes)
    requires NoRepeats(cells)
    ensures RefCount(AfterReleases(counts, cells), c)
            == if c in cells && RefCount(counts, c) > 0 then RefCount(counts, c) - 1 else RefCount(counts, c)
  {
    if cells != [] {
      var most := cells[..|cells| - 1];
      ReleasesCount(counts, most, c);
      assert cells == most + [cells[|cells| - 1]];
    }
  }

  class ServerCollisionLifecycle {
    var counts: Counts

    constructor ()
      ensures counts == map[]
    {
      counts := map[];
    }

    method Acquire(cell: Bytes) returns (load: bool)
      requires cell != []
      modifies this
      ensures counts == old(counts)[cell := RefCount(old(counts), cell) + 1]
      ensures load <==> RefCount(old(counts), cell) == 0
    {
      load := RefCount(counts, cell) == 0;
      counts := counts[cell := RefCount(counts, cell) + 1];
    }

    method Release(cell: Bytes) returns (accepted: bool, unload: bool)
      modifies this
      ensures counts == Released(old(counts), cell)
      ensures accepted <==> RefCount(old(counts), cell) > 0
      ensures unload <==> RefCount(old(counts), cell) == 1
    {
      if RefCount(counts, cell) == 0 { return false, false; }
      counts := counts[cell := counts[cell] - 1];
      return true, counts[cell] == 0;
    }

    /** applyCollisionOwnershipTransition, for the first `n` acquires and all or none of the releases. */
    method Apply(t: Transition, n: nat) returns (rejected: nat)
      requires n <= |t.acquire| && [] !in t.acquire
      modifies this
      ensures n == |t.acquire| ==> counts == Applied(old(counts), t)
      ensures n < |t.acquire| ==> counts == AfterAcquires(old(counts), t.acquire[..n])
      ensures n == |t.acquire| && AllHeld(AfterAcquires(old(counts), t.acquire), t.release) ==> rejected == 0
    {
      rejected := 0;
      for i := 0 to n
        invariant counts == AfterAcquires(old(counts), t.acquire[..i])
      {
        assert t.acquire[..i + 1][..i] == t.acquire[..i];
        var load := Acquire(t.acquire[i]);
      }
      assert t.acquire[..|t.acquire|] == t.acquire;
      if n < |t.acquire| { return; }
      ghost var acquired := counts;
      for i := 0 to |t.release|
        invariant counts == AfterReleases(acquired, t.release[..i])
        invariant AllHeld(acquired, t.release) ==> rejected == 0
      {
        assert t.release[..i + 1][..i] == t.release[..i];
        if AllHeld(acquired, t.release) { ReleasesCount(acquired, t.release[..i], t.release[i]); }
        var accepted, unload := Release(t.release[i]);
        if !accepted { rejected := rejected + 1; }
      }
      assert t.release[..|t.release|] == t.release;
    }
  }

  // ----- ownership agrees with the counter ----------------------------------------------------------

  function Holders(owners: Owners, cell: Bytes): set<Bytes> {
    set o <- owners | cell in owners[o]
  }

  /** Each cell is counted once for every owner that holds it. */
  ghost predicate Agrees(owners: Owners, counts: Counts) {
    forall c :: RefCount(counts, c) == |Holders(owners, c)|
  }

  lemma HoldersWith(owners: Owners, owner: Bytes, cells: set<Bytes>, c: Bytes)
    ensures |Holders(With(owners, owner, cells), c)|
            == |Holders(owners, c)| + (if c in cells then 1 else 0) - (if c in Held(owners, owner) then 1 else 0)
  {
    HolderCount(owners, owner, c);
    HolderCount(With(owners, owner, cells), owner, c);
    assert Holders(owners, c) - {owner} == Holders(With(owners, owner, cells), c) - {owner};
    assert c in Held(With(owners, owner, cells), owner) <==> c in cells;
  }

  lemma HolderCount(owners: Owners, owner: Bytes, c: Bytes)
    ensures |Holders(owners, c)| == |Holders(owners, c) - {owner}| + if c in Held(owners, owner) then 1 else 0
  {
    if c in Held(owners, owner) {
      assert Holders(owners, c) == (Holders(owners, c) - {owner}) + {owner};
    } else {
      assert Holders(owners, c) == Holders(owners, c) - {owner};
    }
  }

  lemma AscendingHasNoRepeats(s: seq<Bytes>)
    requires Ascending(s)
    ensures NoRepeats(s)
  {
    AscendingIsSorted(s);
  }

  /** One transition: the counter follows the owner, and every release finds a count to take down. */
  lemma TransitionKeepsAgreement(owners: Owners, counts: Counts, owner: Bytes, cells: set<Bytes>, t: Transition)
    requires Agrees(owners, counts) && Differences(t, Held(owners, owner), cells)
    ensures Agrees(With(owners, owner, cells), Applied(counts, t))
    ensures NoRepeats(t.acquire) && AllHeld(AfterAcquires(counts, t.acquire), t.release)
  {
    hide AfterAcquires, AfterReleases, With, Ascending, Holders;
    AscendingHasNoRepeats(t.acquire);
    AscendingHasNoRepeats(t.release);
    forall c
      ensures RefCount(Applied(counts, t), c) == |Holders(With(owners, owner, cells), c)|
      ensures c in t.release ==> RefCount(AfterAcquires(counts, t.acquire), c) > 0
    {
      AcquiresCount(counts, t.acquire, c);
      ReleasesCount(AfterAcquires(counts, t.acquire), t.release, c);
      HoldersWith(owners, owner, cells, c);
      assert c in t.acquire <==> c in Members(t.acquire);
      assert c in t.release <==> c in Members(t.release);
      if c in Held(owners, owner) { HeldIsCounted(owners, owner, c); }
    }
  }

  lemma HeldIsCounted(owners: Owners, owner: Bytes, c: Bytes)
    requires c in Held(owners, owner)
    ensures |Holders(owners, c)| > 0
  {
    assert owner in Holders(owners, c);
  }

  // ----- whole runs ---------------------------------------------------------------------------------

  datatype Change = Change(owner: Bytes, cells: set<Bytes>, transition: Transition)

  function OwnersAfter(run: seq<Change>): Owners {
    if run == [] then map[]
    else var last := run[|run| - 1]; With(OwnersAfter(run[..|run| - 1]), last.owner, last.cells)
  }

  function CountsAfter(run: seq<Change>): Counts {
    if run == [] then map[] else Applied(CountsAfter(run[..|run| - 1]), run[|run| - 1].transition)
  }

  /** Every change carries the transition that update or remove returned for it. */
  ghost predicate IsRun(run: seq<Change>) {
    forall i :: 0 <= i < |run| ==>
                  Differences(run[i].transition, Held(OwnersAfter(run[..i]), run[i].owner), run[i].cells)
  }

  /** After any run each count is the number of holders, so a cell is loaded exactly while it is held. */
  lemma {:induction false} CountsFollowOwners(run: seq<Change>)
    requires IsRun(run)
    ensures Agrees(OwnersAfter(run), CountsAfter(run))
  {
    if run == [] {
      forall c
        ensures Holders(map[], c) == {}
      {}
    } else {
      var before, last := run[..|run| - 1], run[|run| - 1];
      assert forall i :: 0 <= i <= |before| ==> run[..i] == before[..i];
      assert before[..|before|] == before;
      CountsFollowOwners(before);
      TransitionKeepsAgreement(OwnersAfter(before), CountsAfter(before), last.owner, last.cells, last.transition);
    }
  }

  /** Between two calls of the same run nothing is dropped on the way: while a transition is applied no
      count falls below what it was or will be. */
  lemma NoGapWhileApplying(counts: Counts, t: Transition, n: nat, m: nat, c: Bytes)
    requires NoRepeats(t.acquire) && NoRepeats(t.release) && n <= |t.acquire| && m <= |t.release|
    requires c in t.acquire ==> c !in t.release
    ensures RefCount(counts, c) <= RefCount(AfterAcquires(counts, t.acquire[..n]), c)
    ensures var later := RefCount(AfterReleases(AfterAcquires(counts, t.acquire), t.release[..m]), c);
            RefCount(Applied(counts, t), c) <= later && (c !in t.release ==> RefCount(counts, c) <= later)
  {
    AcquiresCount(counts, t.acquire[..n], c);
    AcquiresCount(counts, t.acquire, c);
    ReleasesCount(AfterAcquires(counts, t.acquire), t.release[..m], c);
    ReleasesCount(AfterAcquires(counts, t.acquire), t.release, c);
  }

  // ----- one update on the server, with its rollback --------------------------------------------------

  /** Where applying the transition throws, if it does: the cell cannot be loaded, or its name is not
      canonical and cannot even be turned into a cell. */
  datatype Failure = NoFailure | LoadFails(at: nat) | BadName(at: nat)

  predicate FailureFits(f: Failure, counts: Counts, t: Transition) {
    match f
    case NoFailure => true
    case LoadFails(k) => k < |t.acquire| && RefCount(counts, t.acquire[k]) == 0
    case BadName(k) => k < |t.acquire|
  }

  /** The rollback releases the acquires again, but stops at a name that is not canonical. */
  function RolledBack(f: Failure, counts: Counts, t: Transition): Counts
    requires FailureFits(f, counts, t) && !f.NoFailure?
  {
    var reached := AfterAcquires(counts, t.acquire[..f.at]);
    AfterReleases(reached, if f.LoadFails? then t.acquire else t.acquire[..f.at])
  }

  /** After a load failure the rollback also releases cells it never acquired: the counts are restored
      exactly when no other owner holds one of those. A bad name always leaves the counts as they were. */
  lemma RollbackRestoresCounts(f: Failure, owners: Owners, counts: Counts, t: Transition)
    requires !f.NoFailure? && FailureFits(f, counts, t) && Agrees(owners, counts) && NoRepeats(t.acquire)
    ensures Agrees(owners, RolledBack(f, counts, t))
            <==> f.BadName? || forall k :: f.at <= k < |t.acquire| ==> RefCount(counts, t.acquire[k]) == 0
  {
    hide AfterAcquires, AfterReleases, Holders;
    var done, released := t.acquire[..f.at], if f.LoadFails? then t.acquire else t.acquire[..f.at];
    var reached := AfterAcquires(counts, done);
    forall c
      ensures RefCount(RolledBack(f, counts, t), c)
              == if c in done || c !in released || RefCount(counts, c) == 0 then RefCount(counts, c)
                 else RefCount(counts, c) - 1
    {
      AcquiresCount(counts, done, c);
      ReleasesCount(reached, released, c);
    }
    if f.LoadFails? {
      if forall k :: f.at <= k < |t.acquire| ==> RefCount(counts, t.acquire[k]) == 0 {
        assert forall c :: c in t.acquire && c !in done ==> RefCount(counts, c) == 0;
      }
      if k :| f.at <= k < |t.acquire| && RefCount(counts, t.acquire[k]) != 0 {
        assert t.acquire[k] !in done && t.acquire[k] in released;
        assert RefCount(RolledBack(f, counts, t), t.acquire[k]) != |Holders(owners, t.acquire[k])|;
      }
    }
  }

  /** Such a failure: one owner holds a cell, another comes to two cells of which the first cannot be loaded, and
    the rollback takes the shared cell away from the owner that still holds it. */
  lemma RollbackDropsAHeldCell() returns (owners: Owners, counts: Counts, t: Transition, f: Failure)
    ensures ValidOwners(owners) && Agrees(owners, counts)
    ensures Differences(t, Held(owners, [1]), {[8], [9]}) && FailureFits(f, counts, t) && f == LoadFails(0)
    ensures [9] in Held(owners, [2]) && RefCount(counts, [9]) == 1 && RefCount(RolledBack(f, counts, t), [9]) == 0
    ensures !Agrees(owners, RolledBack(f, counts, t))
  {
    owners, counts, t, f := map[[2] := {[9]}], map[[9] := 1], Transition([[8], [9]], []), LoadFails(0);
    forall c
      ensures RefCount(counts, c) == |Holders(owners, c)|
    {
      assert Holders(owners, c) == if c == [9] then {[2]} else {};
    }
    assert t.acquire[..0] == [];
    RollbackRestoresCounts(f, owners, counts, t);
    assert RefCount(counts, t.acquire[1]) != 0;
    ReleasesCount(counts, t.acquire, [9]);
  }

  /** updateCollisionInterest: on a failure the logical owner is put back and the acquires are released. */
  method UpdateCollisionInterest(ownership: CollisionCellOwnership, world: ServerCollisionLifecycle,
                                 ownerId: Bytes, desiredCells: seq<Bytes>, failure: Failure)
    returns (failed: bool, rejected: nat)
    requires ownership.Valid() && Agrees(ownership.owners, world.counts) && ownerId != []
    modifies ownership, world
    ensures ownership.Valid()
    ensures !failed ==> ownership.owners == With(old(ownership.owners), ownerId, Members(desiredCells) - {[]})
                        && Agrees(ownership.owners, world.counts) && rejected == 0
    ensures failed ==> ownership.owners == old(ownership.owners)
                       && exists t :: Differences(t, Held(old(ownership.owners), ownerId), Members(desiredCells) - {[]})
                                      && FailureFits(failure, old(world.counts), t) && !failure.NoFailure?
                                      && world.counts == RolledBack(failure, old(world.counts), t)
  {
    hide Agrees, Ascending, Members, Before;
    var previous := ownership.Cells(ownerId);
    var update := ownership.Update(ownerId, desiredCells);
    var t := update.value;
    TransitionKeepsAgreement(old(ownership.owners), world.counts, ownerId, Members(desiredCells) - {[]}, t);
    assert [] !in t.acquire by { assert [] !in Members(t.acquire); NotAMember(t.acquire); }
    if failure == NoFailure || !FailureFits(failure, world.counts, t) {
      rejected := world.Apply(t, |t.acquire|);
      return false, rejected;
    }
    rejected := world.Apply(t, failure.at);
    update := ownership.Update(ownerId, previous);
    var released := if failure.LoadFails? then t.acquire else t.acquire[..failure.at];
    rejected := world.Apply(Transition([], released), 0);
    RestoredOwner(old(ownership.owners), ownerId, Members(desiredCells) - {[]});
    return true, rejected;
  }

  lemma NotAMember(s: seq<Bytes>)
    ensures forall x :: x in s <==> x in Members(s)
  {}

  lemma RestoredOwner(owners: Owners, owner: Bytes, cells: set<Bytes>)
    requires ValidOwners(owners)
    ensures Held(owners, owner) - {[]} == Held(owners, owner)
    ensures With(With(owners, owner, cells), owner, Held(owners, owner)) == owners
  {}
}
