/** The inventory arithmetic of alchemy: every attempt takes one of each chosen ingredient, and a
  success adds one potion, merging it into an equal stack when there is one. */
module AlchemyInventory {
  import opened Wrappers
  import opened ByteBuffers
  import opened Sorting

  datatype Item = Item(instanceId: u32, refId: Bytes, count: int, charge: int, enchantmentCharge: real, soul: Bytes)

  function Potion(recordId: Bytes): Item { Item(0, recordId, 1, -1, -1.0, []) }

  predicate SameStack(a: Item, b: Item) {
    && a.refId == b.refId && a.charge == b.charge && a.soul == b.soul
    && -0.001 < a.enchantmentCharge - b.enchantmentCharge < 0.001
  }

  function Lookup(items: seq<Item>, id: u32): (r: Option<Item>)
    ensures r.Some? ==> r.value.instanceId == id
  {
    if items == [] then None else if items[0].instanceId == id then Some(items[0]) else Lookup(items[1..], id)
  }

  /** Take `k` from the first stack with this identity; a stack that runs out is erased. */
  function Consume(items: seq<Item>, id: u32, k: nat): seq<Item> {
    if items == [] then []
    else if items[0].instanceId != id then [items[0]] + Consume(items[1..], id, k)
    else if items[0].count - k <= 0 then items[1..]
    else [items[0].(count := items[0].count - k)] + items[1..]
  }

  function Grant(items: seq<Item>, recordId: Bytes): seq<Item> {
    if items == [] then [Potion(recordId)]
    else if SameStack(items[0], Potion(recordId)) then [items[0].(count := items[0].count + 1)] + items[1..]
    else [items[0]] + Grant(items[1..], recordId)
  }

  function ConsumeEach(items: seq<Item>, ids: seq<u32>, k: nat): seq<Item>
    decreases |ids|
  {
    if ids == [] then items else ConsumeEach(Consume(items, ids[0], k), ids[1..], k)
  }

  function GrantAll(items: seq<Item>, recordIds: seq<Bytes>): seq<Item> {
    if recordIds == [] then items
    else Grant(GrantAll(items, recordIds[..|recordIds| - 1]), recordIds[|recordIds| - 1])
  }

  // ----- the operations commute -------------------------------------------------------------------

  lemma {:induction false} ConsumeCommutes(items: seq<Item>, x: u32, a: nat, y: u32, b: nat)
    requires x != y
    ensures Consume(Consume(items, x, a), y, b) == Consume(Consume(items, y, b), x, a)
  {
    if items != [] {
      ConsumeCommutes(items[1..], x, a, y, b);
    }
  }

  lemma {:induction false} ConsumeAgain(items: seq<Item>, x: u32, a: nat, b: nat)
    requires Lookup(items, x).Some? && Lookup(items, x).value.count > a
    ensures Consume(Consume(items, x, a), x, b) == Consume(items, x, a + b)
  {
    if items[0].instanceId != x {
      ConsumeAgain(items[1..], x, a, b);
    }
  }

  lemma {:induction false} ConsumeAfterGrant(items: seq<Item>, recordId: Bytes, x: u32, k: nat)
    requires Lookup(items, x).Some? && Lookup(items, x).value.refId != recordId
    ensures Consume(Grant(items, recordId), x, k) == Grant(Consume(items, x, k), recordId)
  {
    if items[0].instanceId != x && !SameStack(items[0], Potion(recordId)) {
      ConsumeAfterGrant(items[1..], recordId, x, k);
    }
  }

  lemma {:induction false} LookupOther(items: seq<Item>, x: u32, y: u32, k: nat)
    requires x != y
    ensures Lookup(Consume(items, y, k), x) == Lookup(items, x)
  {
    if items != [] {
      LookupOther(items[1..], x, y, k);
    }
  }

  lemma {:induction false} LookupConsumed(items: seq<Item>, x: u32, k: nat)
    requires Lookup(items, x).Some? && Lookup(items, x).value.count > k
    ensures Lookup(Consume(items, x, k), x) == Some(Lookup(items, x).value.(count := Lookup(items, x).value.count - k))
  {
    if items[0].instanceId != x {
      LookupConsumed(items[1..], x, k);
    }
  }

  lemma {:induction false} LookupAfterGrant(items: seq<Item>, recordId: Bytes, x: u32)
    requires Lookup(items, x).Some?
    ensures var was, now := Lookup(items, x).value, Lookup(Grant(items, recordId), x);
            && now.Some? && now.value == was.(count := now.value.count)
            && was.count <= now.value.count && (was.refId != recordId ==> now.value == was)
  {
    if items[0].instanceId != x && !SameStack(items[0], Potion(recordId)) {
      LookupAfterGrant(items[1..], recordId, x);
    }
  }

  // ----- a whole batch of attempts ----------------------------------------------------------------

  /** Every chosen identity has a stack of at least `n`. */
  ghost predicate Stocked(items: seq<Item>, ids: seq<u32>, n: nat) {
    forall id <- ids :: Lookup(items, id).Some? && Lookup(items, id).value.count >= n
  }

  /** No potion that was made is of the kind of a chosen ingredient. */
  ghost predicate Apart(items: seq<Item>, ids: seq<u32>, recordIds: seq<Bytes>) {
    forall id <- ids, r <- recordIds :: Lookup(items, id).Some? ==> Lookup(items, id).value.refId != r
  }

  lemma {:induction false} ConsumeEachCommutes(items: seq<Item>, ids: seq<u32>, k: nat, x: u32, a: nat)
    requires x !in ids
    ensures Consume(ConsumeEach(items, ids, k), x, a) == ConsumeEach(Consume(items, x, a), ids, k)
    decreases |ids|
  {
    if ids != [] {
      ConsumeEachCommutes(Consume(items, ids[0], k), ids[1..], k, x, a);
      ConsumeCommutes(items, ids[0], k, x, a);
    }
  }

  lemma StockedAfterConsume(items: seq<Item>, ids: seq<u32>, n: nat, x: u32, k: nat)
    requires Stocked(items, ids, n) && x !in ids
    ensures Stocked(Consume(items, x, k), ids, n)
    ensures forall id <- ids :: Lookup(Consume(items, x, k), id) == Lookup(items, id)
  {
    forall id <- ids
      ensures Lookup(Consume(items, x, k), id) == Lookup(items, id)
    {
      LookupOther(items, id, x, k);
    }
  }

  /** Taking `a` of each and then one more of each is taking `a + 1` of each. */
  lemma {:induction false} ConsumeEachAgain(items: seq<Item>, ids: seq<u32>, a: nat)
    requires NoRepeats(ids) && Stocked(items, ids, a + 1)
    ensures ConsumeEach(ConsumeEach(items, ids, a), ids, 1) == ConsumeEach(items, ids, a + 1)
    decreases |ids|
  {
    if ids != [] {
      var x, rest := ids[0], ids[1..];
      var once := Consume(items, x, a);
      ConsumeEachCommutes(once, rest, a, x, 1);
      ConsumeAgain(items, x, a, 1);
      StockedAfterConsume(items, rest, a + 1, x, a + 1);
      ConsumeEachAgain(Consume(items, x, a + 1), rest, a);
    }
  }

  lemma {:induction false} ConsumeEachAfterGrant(items: seq<Item>, recordId: Bytes, ids: seq<u32>, k: nat)
    requires NoRepeats(ids) && Stocked(items, ids, 0) && Apart(items, ids, [recordId])
    ensures ConsumeEach(Grant(items, recordId), ids, k) == Grant(ConsumeEach(items, ids, k), recordId)
    decreases |ids|
  {
    if ids != [] {
      var x, rest := ids[0], ids[1..];
      assert recordId in [recordId];
      ConsumeAfterGrant(items, recordId, x, k);
      StockedAfterConsume(items, rest, 0, x, k);
      assert Apart(Consume(items, x, k), rest, [recordId]);
      ConsumeEachAfterGrant(Consume(items, x, k), recordId, rest, k);
    }
  }

  lemma {:induction false} LookupAfterGrants(items: seq<Item>, recordIds: seq<Bytes>, x: u32)
    requires Lookup(items, x).Some?
    ensures var was, now := Lookup(items, x).value, Lookup(GrantAll(items, recordIds), x);
            && now.Some? && now.value == was.(count := now.value.count)
            && was.count <= now.value.count && (was.refId !in recordIds ==> now.value == was)
  {
    if recordIds != [] {
      var most := recordIds[..|recordIds| - 1];
      LookupAfterGrants(items, most, x);
      LookupAfterGrant(GrantAll(items, most), recordIds[|recordIds| - 1], x);
      assert recordIds == most + [recordIds[|recordIds| - 1]];
    }
  }

  lemma {:induction false} ConsumeEachAfterGrants(items: seq<Item>, recordIds: seq<Bytes>, ids: seq<u32>, k: nat)
    requires NoRepeats(ids) && Stocked(items, ids, 0) && Apart(items, ids, recordIds)
    ensures ConsumeEach(GrantAll(items, recordIds), ids, k) == GrantAll(ConsumeEach(items, ids, k), recordIds)
  {
    if recordIds != [] {
      var most, last := recordIds[..|recordIds| - 1], recordIds[|recordIds| - 1];
      assert recordIds == most + [last] && forall r <- most :: r in recordIds;
      ConsumeEachAfterGrants(items, most, ids, k);
      forall id <- ids
        ensures Lookup(GrantAll(items, most), id) == Lookup(items, id) && Lookup(items, id).value.refId != last
      {
        LookupAfterGrants(items, most, id);
        assert last in recordIds;
      }
      ConsumeEachAfterGrant(GrantAll(items, most), last, ids, k);
    }
  }

  /** A batch in the order in which it happens: each attempt consumes one of each, then a success grants. */
  function Attempts(items: seq<Item>, ids: seq<u32>, outcomes: seq<Option<Bytes>>): seq<Item> {
    if outcomes == [] then items
    else
      var before := Attempts(items, ids, outcomes[..|outcomes| - 1]);
      var used := ConsumeEach(before, ids, 1);
      match outcomes[|outcomes| - 1]
      case None => used
      case Some(recordId) => Grant(used, recordId)
  }

  function Made(outcomes: seq<Option<Bytes>>): seq<Bytes> {
    if outcomes == [] then []
    else Made(outcomes[..|outcomes| - 1]) + match outcomes[|outcomes| - 1] case None => [] case Some(r) => [r]
  }

  lemma {:induction false} NothingTaken(items: seq<Item>, ids: seq<u32>)
    requires NoRepeats(ids) && Stocked(items, ids, 1)
    ensures ConsumeEach(items, ids, 0) == items
    decreases |ids|
  {
    if ids != [] {
      ConsumeNone(items, ids[0]);
      NothingTaken(items, ids[1..]);
    }
  }

  lemma {:induction false} ConsumeNone(items: seq<Item>, x: u32)
    requires Lookup(items, x).Some? && Lookup(items, x).value.count > 0
    ensures Consume(items, x, 0) == items
  {
    if items[0].instanceId != x { ConsumeNone(items[1..], x); }
  }

  /** The batch taken as a whole: all that is consumed, then all that is granted. */
  lemma {:induction false} AttemptsAtOnce(items: seq<Item>, ids: seq<u32>, outcomes: seq<Option<Bytes>>)
    requires NoRepeats(ids) && Stocked(items, ids, 1) && Stocked(items, ids, |outcomes|)
    requires Apart(items, ids, Made(outcomes))
    ensures Attempts(items, ids, outcomes) == GrantAll(ConsumeEach(items, ids, |outcomes|), Made(outcomes))
  {
    hide Consume, Grant, Lookup;
    if outcomes == [] {
      NothingTaken(items, ids);
    } else {
      var n, most, last := |outcomes| - 1, outcomes[..|outcomes| - 1], outcomes[|outcomes| - 1];
      assert forall r <- Made(most) :: r in Made(outcomes);
      AttemptsAtOnce(items, ids, most);
      StillStocked(items, ids, n, 1);
      assert Apart(ConsumeEach(items, ids, n), ids, Made(most));
      ConsumeEachAfterGrants(ConsumeEach(items, ids, n), Made(most), ids, 1);
      ConsumeEachAgain(items, ids, n);
      match last
      case None => assert Made(outcomes) == Made(most);
      case Some(r) =>
        assert Made(outcomes) == Made(most) + [r];
        assert Made(outcomes)[..|Made(outcomes)| - 1] == Made(most);
    }
  }

  /** After taking `a` of each chosen stack, `b` more are left and nothing else about it has changed. */
  lemma {:induction false} StillStocked(items: seq<Item>, ids: seq<u32>, a: nat, b: nat)
    requires NoRepeats(ids) && Stocked(items, ids, a + b) && b > 0
    ensures Stocked(ConsumeEach(items, ids, a), ids, b)
    ensures forall id <- ids :: Lookup(ConsumeEach(items, ids, a), id)
                                == Some(Lookup(items, id).value.(count := Lookup(items, id).value.count - a))
    decreases |ids|
  {
    hide Consume, Lookup;
    if ids != [] {
      var x, rest := ids[0], ids[1..];
      StockedAfterConsume(items, rest, a + b, x, a);
      StillStocked(Consume(items, x, a), rest, a, b);
      LookupConsumed(items, x, a);
      LookupOthers(Consume(items, x, a), rest, a, x);
    }
  }

  lemma {:induction false} LookupOthers(items: seq<Item>, ids: seq<u32>, k: nat, x: u32)
    requires x !in ids
    ensures Lookup(ConsumeEach(items, ids, k), x) == Lookup(items, x)
    decreases |ids|
  {
    if ids != [] {
      LookupOther(items, x, ids[0], k);
      LookupOthers(Consume(items, ids[0], k), ids[1..], k, x);
    }
  }

  // ----- conservation -----------------------------------------------------------------------------

  /** How many items of a kind there are in all stacks together. */
  function Total(items: seq<Item>, refId: Bytes): int {
    if items == [] then 0 else (if items[0].refId == refId then items[0].count else 0) + Total(items[1..], refId)
  }

  /** How many of the chosen stacks are of a kind. */
  function Uses(items: seq<Item>, ids: seq<u32>, refId: Bytes): nat
    decreases |ids|
  {
    if ids == [] then 0
    else Uses(items, ids[1..], refId)
         + if Lookup(items, ids[0]).Some? && Lookup(items, ids[0]).value.refId == refId then 1 else 0
  }

  lemma {:induction false} TotalAfterConsume(items: seq<Item>, x: u32, refId: Bytes)
    requires Lookup(items, x).Some? && Lookup(items, x).value.count >= 1
    ensures Total(Consume(items, x, 1), refId)
            == Total(items, refId) - if Lookup(items, x).value.refId == refId then 1 else 0
  {
    if items[0].instanceId != x { TotalAfterConsume(items[1..], x, refId); }
  }

  lemma {:induction false} TotalAfterGrant(items: seq<Item>, recordId: Bytes, refId: Bytes)
    ensures Total(Grant(items, recordId), refId) == Total(items, refId) + if recordId == refId then 1 else 0
  {
    if items != [] && !SameStack(items[0], Potion(recordId)) { TotalAfterGrant(items[1..], recordId, refId); }
  }

  lemma {:induction false} SameUses(before: seq<Item>, after: seq<Item>, ids: seq<u32>, refId: Bytes)
    requires forall id <- ids :: Lookup(before, id).Some? && Lookup(after, id).Some?
                                 && Lookup(before, id).value.refId == Lookup(after, id).value.refId
    ensures Uses(before, ids, refId) == Uses(after, ids, refId)
    decreases |ids|
  {
    hide Lookup;
    if ids != [] { SameUses(before, after, ids[1..], refId); }
  }

  lemma {:induction false} TotalAfterConsumeEach(items: seq<Item>, ids: seq<u32>, refId: Bytes)
    requires NoRepeats(ids) && Stocked(items, ids, 1)
    ensures Total(ConsumeEach(items, ids, 1), refId) == Total(items, refId) - Uses(items, ids, refId)
    decreases |ids|
  {
    hide Lookup, Consume, Total;
    if ids != [] {
      var next := Consume(items, ids[0], 1);
      TotalAfterConsume(items, ids[0], refId);
      StockedAfterConsume(items, ids[1..], 1, ids[0], 1);
      TotalAfterConsumeEach(next, ids[1..], refId);
      SameUses(items, next, ids[1..], refId);
    }
  }

  /** The chosen stacks as they are while the batch runs: only their counts differ from the start. */
  lemma {:induction false} StockedDuringAttempts(items: seq<Item>, ids: seq<u32>, outcomes: seq<Option<Bytes>>, left: nat)
    requires NoRepeats(ids) && Stocked(items, ids, |outcomes| + left) && left > 0
    ensures var now := Attempts(items, ids, outcomes);
            Stocked(now, ids, left) && forall id <- ids :: Lookup(now, id).value.refId == Lookup(items, id).value.refId
  {
    hide Lookup, Consume, Grant;
    if outcomes != [] {
      var most, last := outcomes[..|outcomes| - 1], outcomes[|outcomes| - 1];
      StockedDuringAttempts(items, ids, most, left + 1);
      var before := Attempts(items, ids, most);
      StillStocked(before, ids, 1, left);
      if last.Some? {
        forall id <- ids
          ensures Lookup(Attempts(items, ids, outcomes), id).Some?
          ensures Lookup(Attempts(items, ids, outcomes), id).value.count >= left
          ensures Lookup(Attempts(items, ids, outcomes), id).value.refId == Lookup(items, id).value.refId
        {
          LookupAfterGrant(ConsumeEach(before, ids, 1), last.value, id);
        }
      }
    }
  }

  /** Conservation for every kind of item: each attempt takes one for each chosen stack of the kind,
      each success adds one potion, whatever merges with whatever. */
  lemma {:induction false} AttemptsConserve(items: seq<Item>, ids: seq<u32>, outcomes: seq<Option<Bytes>>, refId: Bytes)
    requires NoRepeats(ids) && Stocked(items, ids, |outcomes|)
    ensures Total(Attempts(items, ids, outcomes), refId)
            == Total(items, refId) - |outcomes| * Uses(items, ids, refId) + multiset(Made(outcomes))[refId]
  {
    hide Lookup, Consume, Grant, Total, Uses;
    if outcomes != [] {
      var most, last := outcomes[..|outcomes| - 1], outcomes[|outcomes| - 1];
      var before := Attempts(items, ids, most);
      AttemptsConserve(items, ids, most, refId);
      StockedDuringAttempts(items, ids, most, 1);
      SameUses(items, before, ids, refId);
      TotalAfterAttempt(before, ids, last, refId);
      MadeOneMore(outcomes, refId);
      OneMoreTime(|most|, Uses(items, ids, refId));
    }
  }

  lemma OneMoreTime(n: nat, u: nat)
    ensures (n + 1) * u == n * u + u
  {}

  lemma MadeOneMore(outcomes: seq<Option<Bytes>>, refId: Bytes)
    requires outcomes != []
    ensures multiset(Made(outcomes))[refId]
            == multiset(Made(outcomes[..|outcomes| - 1]))[refId] + if outcomes[|outcomes| - 1] == Some(refId) then 1 else 0
  {}

  lemma TotalAfterAttempt(before: seq<Item>, ids: seq<u32>, outcome: Option<Bytes>, refId: Bytes)
    requires NoRepeats(ids) && Stocked(before, ids, 1)
    ensures var used := ConsumeEach(before, ids, 1);
            Total(if outcome.None? then used else Grant(used, outcome.value), refId)
            == Total(before, refId) - Uses(before, ids, refId) + if outcome == Some(refId) then 1 else 0
  {
    hide Lookup, Consume, Grant, Total, Uses;
    TotalAfterConsumeEach(before, ids, refId);
    if outcome.Some? { TotalAfterGrant(ConsumeEach(before, ids, 1), outcome.value, refId); }
  }

  // ----- the single stacks ------------------------------------------------------------------------

  /** Identities are unique and set, as the server assigns them. */
  predicate UniqueIdentities(items: seq<Item>) {
    && (forall item <- items :: item.instanceId != 0)
    && forall i, j :: 0 <= i < j < |items| ==> items[i].instanceId != items[j].instanceId
  }

  /** The stacks that are neither chosen nor of a kind that was made. */
  function Untouched(items: seq<Item>, ids: seq<u32>, recordIds: seq<Bytes>): seq<Item> {
    if items == [] then []
    else (if items[0].instanceId in ids || items[0].refId in recordIds then [] else [items[0]])
         + Untouched(items[1..], ids, recordIds)
  }

  lemma {:induction false} UntouchedByConsume(items: seq<Item>, ids: seq<u32>, recordIds: seq<Bytes>, x: u32, k: nat)
    requires x in ids
    ensures Untouched(Consume(items, x, k), ids, recordIds) == Untouched(items, ids, recordIds)
  {
    if items != [] { UntouchedByConsume(items[1..], ids, recordIds, x, k); }
  }

  lemma {:induction false} UntouchedByGrant(items: seq<Item>, ids: seq<u32>, recordIds: seq<Bytes>, r: Bytes)
    requires r in recordIds
    ensures Untouched(Grant(items, r), ids, recordIds) == Untouched(items, ids, recordIds)
  {
    if items != [] { UntouchedByGrant(items[1..], ids, recordIds, r); }
  }

  lemma {:induction false} UntouchedByConsumeEach(items: seq<Item>, ids: seq<u32>, all: seq<u32>, recordIds: seq<Bytes>, k: nat)
    requires forall id <- ids :: id in all
    ensures Untouched(ConsumeEach(items, ids, k), all, recordIds) == Untouched(items, all, recordIds)
    decreases |ids|
  {
    hide Untouched, Consume;
    if ids != [] {
      UntouchedByConsume(items, all, recordIds, ids[0], k);
      UntouchedByConsumeEach(Consume(items, ids[0], k), ids[1..], all, recordIds, k);
    }
  }

  /** Every other stack is left alone, in its place among the others. */
  lemma {:induction false} AttemptsLeaveOthers(items: seq<Item>, ids: seq<u32>, outcomes: seq<Option<Bytes>>, made: seq<Bytes>)
    requires forall r <- Made(outcomes) :: r in made
    ensures Untouched(Attempts(items, ids, outcomes), ids, made) == Untouched(items, ids, made)
  {
    hide Untouched, Consume, Grant;
    if outcomes != [] {
      var most, last := outcomes[..|outcomes| - 1], outcomes[|outcomes| - 1];
      assert forall r <- Made(most) :: r in Made(outcomes);
      AttemptsLeaveOthers(items, ids, most, made);
      var before := Attempts(items, ids, most);
      UntouchedByConsumeEach(before, ids, ids, made, 1);
      if last.Some? {
        assert last.value in Made(outcomes);
        UntouchedByGrant(ConsumeEach(before, ids, 1), ids, made, last.value);
      }
    }
  }

  lemma {:induction false} LookupAbsent(items: seq<Item>, x: u32)
    ensures Lookup(items, x).None? <==> forall item <- items :: item.instanceId != x
  {
    if items != [] { LookupAbsent(items[1..], x); }
  }

  lemma {:induction false} ConsumedAway(items: seq<Item>, x: u32, k: nat)
    requires UniqueIdentities(items)
    ensures UniqueIdentities(Consume(items, x, k))
    ensures forall item <- Consume(items, x, k) :: exists was <- items :: was.instanceId == item.instanceId
    ensures Lookup(items, x).Some? && Lookup(items, x).value.count <= k ==> Lookup(Consume(items, x, k), x).None?
  {
    if items != [] {
      ConsumedAway(items[1..], x, k);
      if items[0].instanceId == x { LookupAbsent(items[1..], x); }
    }
  }

  lemma {:induction false} ConsumedEach(items: seq<Item>, ids: seq<u32>, n: nat, x: u32)
    requires UniqueIdentities(items) && NoRepeats(ids) && Stocked(items, ids, n) && x in ids
    ensures Lookup(ConsumeEach(items, ids, n), x)
            == var was := Lookup(items, x).value; if was.count > n then Some(was.(count := was.count - n)) else None
    decreases |ids|
  {
    hide Lookup, Consume, UniqueIdentities;
    var y, rest := ids[0], ids[1..];
    ConsumedAway(items, y, n);
    if x == y {
      if Lookup(items, x).value.count > n { LookupConsumed(items, x, n); }
      LookupOthers(Consume(items, y, n), rest, n, x);
    } else {
      StockedAfterConsume(items, rest, n, y, n);
      ConsumedEach(Consume(items, y, n), rest, n, x);
    }
  }

  lemma {:induction false} StaysAbsent(items: seq<Item>, recordIds: seq<Bytes>, x: u32)
    requires x != 0 && Lookup(items, x).None?
    ensures Lookup(GrantAll(items, recordIds), x).None?
  {
    if recordIds != [] {
      var before := GrantAll(items, recordIds[..|recordIds| - 1]);
      StaysAbsent(items, recordIds[..|recordIds| - 1], x);
      AbsentAfterGrant(before, recordIds[|recordIds| - 1], x);
    }
  }

  lemma {:induction false} AbsentAfterGrant(items: seq<Item>, recordId: Bytes, x: u32)
    requires x != 0 && Lookup(items, x).None?
    ensures Lookup(Grant(items, recordId), x).None?
  {
    if items != [] && !SameStack(items[0], Potion(recordId)) { AbsentAfterGrant(items[1..], recordId, x); }
  }

  lemma {:induction false} FoundIsMember(items: seq<Item>, x: u32)
    requires Lookup(items, x).Some?
    ensures Lookup(items, x).value in items
  {
    if items[0].instanceId != x { FoundIsMember(items[1..], x); }
  }

  /** Each chosen stack is lower by exactly the number of attempts, and gone exactly when it reaches zero. */
  lemma AttemptsLowerChosen(items: seq<Item>, ids: seq<u32>, outcomes: seq<Option<Bytes>>, x: u32)
    requires UniqueIdentities(items) && NoRepeats(ids) && x in ids
    requires Stocked(items, ids, |outcomes|) && outcomes != [] && Apart(items, ids, Made(outcomes))
    ensures Lookup(Attempts(items, ids, outcomes), x)
            == var was, n := Lookup(items, x).value, |outcomes|;
               if was.count > n then Some(was.(count := was.count - n)) else None
  {
    hide Lookup, Consume, Grant, Made;
    AttemptsAtOnce(items, ids, outcomes);
    ConsumedEach(items, ids, |outcomes|, x);
    var used := ConsumeEach(items, ids, |outcomes|);
    FoundIsMember(items, x);
    if Lookup(used, x).Some? {
      LookupAfterGrants(used, Made(outcomes), x);
      assert Lookup(items, x).value.refId !in Made(outcomes);
    } else {
      StaysAbsent(used, Made(outcomes), x);
    }
  }
}
