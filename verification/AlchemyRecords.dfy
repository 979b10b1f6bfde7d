/** Which record a brewed potion gets: an earlier potion of the same request, an existing dynamic
  record, one with the same fingerprint, or a new one. */
module AlchemyRecords {
  import opened Wrappers
  import opened ByteBuffers
  import opened Sorting

  datatype Effect = Effect(
    effectId: Bytes, skillId: Bytes, attributeId: Bytes, range: int, area: int, duration: int,
    magnitudeMin: int, magnitudeMax: int)

  datatype Potion = Potion(
    recordFlags: int, name: Bytes, scriptId: Bytes, model: Bytes, icon: Bytes, weight: real, value: int,
    flags: int, effects: seq<Effect>)

  /** Everything but the model, the icon and the record flags. */
  predicate NativeEquivalent(a: Potion, b: Potion) {
    && a.name == b.name && a.scriptId == b.scriptId && a.weight == b.weight && a.value == b.value
    && a.flags == b.flags && a.effects == b.effects
  }

  /** A listed record: its id and its encoded definition. */
  type Listed = (Bytes, Bytes)

  /** The record world of one request. `decode` fails for a corrupt definition or another type. */
  datatype World = World(
    listed: seq<Listed>, decode: Bytes -> Option<Potion>, fingerprint: Potion -> Bytes,
    findEquivalent: Bytes -> Option<Bytes>, allocateId: nat -> Bytes)

  datatype NewRecord = NewRecord(recordId: Bytes, fingerprint: Bytes, definition: Potion)

  datatype Resolved = Resolved(recordId: Bytes, reused: bool)

  predicate ById(a: Listed, b: Listed) { AtMost(a.0, b.0) }

  predicate Matches(w: World, l: Listed, p: Potion) {
    w.decode(l.1).Some? && NativeEquivalent(w.decode(l.1).value, p)
  }

  lemma InIdOrderIsSorted(w: World)
    ensures Sorted(InIdOrder(w), ById) && multiset(InIdOrder(w)) == multiset(w.listed)
  {
    ByIdIsOrder();
    SortSorts(w.listed, ById);
  }

  /** The first listed record with an equivalent potion. */
  function FirstMatch(w: World, listed: seq<Listed>, p: Potion): (r: Option<Bytes>)
    ensures r.None? <==> forall l <- listed :: !Matches(w, l, p)
  {
    if listed == [] then None else if Matches(w, listed[0], p) then Some(listed[0].0) else FirstMatch(w, listed[1..], p)
  }

  lemma {:induction false} FirstMatchIsLeast(w: World, listed: seq<Listed>, p: Potion)
    requires Sorted(listed, ById) && FirstMatch(w, listed, p).Some?
    ensures exists l <- listed :: Matches(w, l, p) && l.0 == FirstMatch(w, listed, p).value
    ensures forall l <- listed :: Matches(w, l, p) ==> AtMost(FirstMatch(w, listed, p).value, l.0)
  {
    AtMostIsOrder();
    if !Matches(w, listed[0], p) { FirstMatchIsLeast(w, listed[1..], p); }
  }

  /** The reused id does not depend on the order in which the existing potions were listed, nor on how
      the sort arranges records with the same id. */
  lemma ReuseIgnoresListingOrder(w: World, a: seq<Listed>, b: seq<Listed>, p: Potion)
    requires Sorted(a, ById) && Sorted(b, ById) && multiset(a) == multiset(b)
    ensures FirstMatch(w, a, p) == FirstMatch(w, b, p)
  {
    hide Matches, FirstMatch, AtMost;
    assert forall l :: l in multiset(a) <==> l in multiset(b);
    assert forall l :: l in a <==> l in b by { assert forall l :: (l in a <==> l in multiset(a)) && (l in b <==> l in multiset(b)); }
    if FirstMatch(w, a, p).Some? && FirstMatch(w, b, p).Some? {
      FirstMatchIsLeast(w, a, p);
      FirstMatchIsLeast(w, b, p);
      AtMostIsOrder();
    }
  }

  /** What one request has resolved so far. */
  datatype Local = Local(potions: seq<(Bytes, Potion)>, byFingerprint: map<Bytes, Bytes>, entries: seq<NewRecord>)

  const NOTHING_YET := Local([], map[], [])

  /** The existing potions in the order of their ids. */
  function InIdOrder(w: World): seq<Listed> { Sort(w.listed, ById) }

  /** One successful attempt; None when the allocator gives no id, which throws. */
  function Resolution(w: World, s: Local, p: Potion): Option<(Local, Resolved)> {
    var fingerprint := w.fingerprint(p);
    var native := NativeId(s.potions, p, FirstMatch(w, InIdOrder(w), p));
    if native.Some? then
      Some((s.(potions := s.potions + [(native.value, p)]), Resolved(native.value, true)))
    else if fingerprint in s.byFingerprint then
      var id := s.byFingerprint[fingerprint];
      Some((s.(potions := s.potions + [(id, p)]), Resolved(id, true)))
    else
      var equivalent := w.findEquivalent(fingerprint);
      var known := equivalent.Some? && equivalent.value != [];
      var id := if known then equivalent.value else w.allocateId(|s.entries|);
      if id == [] then None
      else
        Some((Local(s.potions + [(id, p)], s.byFingerprint[fingerprint := id],
                    if known then s.entries else s.entries + [NewRecord(id, fingerprint, p)]),
              Resolved(id, equivalent.Some?)))
  }

  /** The same world with its potions listed in another order. */
  ghost predicate Relisted(w: World, v: World) {
    v == w.(listed := v.listed) && multiset(w.listed) == multiset(v.listed)
  }

  lemma {:induction false} FirstMatchDecodes(w: World, v: World, listed: seq<Listed>, p: Potion)
    requires v == w.(listed := v.listed)
    ensures FirstMatch(w, listed, p) == FirstMatch(v, listed, p)
  {
    if listed != [] { FirstMatchDecodes(w, v, listed[1..], p); }
  }

  /** An attempt gets the same record, however the existing potions were listed. */
  lemma ResolutionIgnoresListingOrder(w: World, v: World, s: Local, p: Potion)
    requires Relisted(w, v)
    ensures Resolution(w, s, p) == Resolution(v, s, p)
  {
    hide FirstMatch, InIdOrder;
    InIdOrderIsSorted(w);
    InIdOrderIsSorted(v);
    ReuseIgnoresListingOrder(w, InIdOrder(w), InIdOrder(v), p);
    FirstMatchDecodes(w, v, InIdOrder(v), p);
  }

  /** Equivalent potions have one record; the new entries are different ones, filed under their fingerprints,
      with the ids that the allocator gave in turn. */
  ghost predicate Sound(w: World, s: Local) {
    && OneIdEach(s.potions)
    && DistinctFingerprints(s.entries)
    && (forall e <- s.entries :: e.fingerprint in s.byFingerprint && s.byFingerprint[e.fingerprint] == e.recordId)
    && (forall i :: 0 <= i < |s.entries| ==> s.entries[i].recordId == w.allocateId(i) != []
                                             && s.entries[i].fingerprint == w.fingerprint(s.entries[i].definition))
  }

  lemma ResolutionIsSound(w: World, s: Local, p: Potion)
    requires Sound(w, s) && Resolution(w, s, p).Some?
    ensures var (next, resolved) := Resolution(w, s, p).value;
            && Sound(w, next)
            && next.potions == s.potions + [(resolved.recordId, p)]
            && s.entries <= next.entries && |next.entries| <= |s.entries| + 1
            && (|next.entries| > |s.entries| ==> next.entries[|s.entries|].definition == p
                                                 && next.entries[|s.entries|].recordId == resolved.recordId)
            && (!resolved.reused ==> |next.entries| > |s.entries|)
  {
    hide NativeEquivalent, FirstMatch, InIdOrder;
    var (next, resolved) := Resolution(w, s, p).value;
    LocalGrows(s.potions, resolved.recordId, p);
    assert forall e <- s.entries :: e.fingerprint in s.byFingerprint;
    assert forall i :: 0 <= i < |s.entries| ==> s.entries[i] in s.entries;
  }

  /** The request-local part of execute. */
  class Resolver {
    const world: World
    const dynamicPotions: seq<Listed>
    var localPotions: seq<(Bytes, Potion)>
    var localByFingerprint: map<Bytes, Bytes>
    var commitEntries: seq<NewRecord>

    function State(): Local
      reads this
    {
      Local(localPotions, localByFingerprint, commitEntries)
    }

    predicate Valid() {
      dynamicPotions == InIdOrder(world)
    }

    constructor (world: World)
      ensures Valid() && this.world == world && State() == NOTHING_YET
    {
      this.world := world;
      dynamicPotions := Sort(world.listed, ById);
      localPotions, localByFingerprint, commitEntries := [], map[], [];
    }

    /** findNativeEquivalent: request-local successes win over existing records. */
    method FindNativeEquivalent(potion: Potion) returns (r: Option<Bytes>)
      requires Valid()
      ensures r == NativeId(localPotions, potion, FirstMatch(world, dynamicPotions, potion))
    {
      for i := 0 to |localPotions|
        invariant LocalId(localPotions, potion) == LocalId(localPotions[i..], potion)
      {
        if NativeEquivalent(localPotions[i].1, potion) { return Some(localPotions[i].0); }
      }
      assert LocalId(localPotions, potion) == None;
      for i := 0 to |dynamicPotions|
        invariant FirstMatch(world, dynamicPotions, potion) == FirstMatch(world, dynamicPotions[i..], potion)
      {
        var decoded := world.decode(dynamicPotions[i].1);
        if decoded.Some? && NativeEquivalent(decoded.value, potion) { return Some(dynamicPotions[i].0); }
      }
      return None;
    }

    method Resolve(potion: Potion) returns (r: Option<Resolved>)
      requires Valid()
      modifies this
      ensures var resolution := Resolution(world, old(State()), potion);
              if resolution.None? then r == None else (State(), r) == (resolution.value.0, Some(resolution.value.1))
    {
      var native := FindNativeEquivalent(potion);
      if native.Some? {
        localPotions := localPotions + [(native.value, potion)];
        return Some(Resolved(native.value, true));
      }
      var fingerprint := world.fingerprint(potion);
      if fingerprint in localByFingerprint {
        var id := localByFingerprint[fingerprint];
        localPotions := localPotions + [(id, potion)];
        return Some(Resolved(id, true));
      }
      var recordId, reused := [], false;
      var equivalent := world.findEquivalent(fingerprint);
      if equivalent.Some? { recordId, reused := equivalent.value, true; }
      if recordId == [] {
        recordId := world.allocateId(|commitEntries|);
        if recordId == [] { return None; }
        commitEntries := commitEntries + [NewRecord(recordId, fingerprint, potion)];
      }
      localByFingerprint := localByFingerprint[fingerprint := recordId];
      localPotions := localPotions + [(recordId, potion)];
      return Some(Resolved(recordId, reused));
    }
  }

  function LocalId(local: seq<(Bytes, Potion)>, p: Potion): (r: Option<Bytes>)
    ensures r.None? <==> forall l <- local :: !NativeEquivalent(l.1, p)
  {
    if local == [] then None else if NativeEquivalent(local[0].1, p) then Some(local[0].0) else LocalId(local[1..], p)
  }

  function NativeId(local: seq<(Bytes, Potion)>, p: Potion, existing: Option<Bytes>): Option<Bytes> {
    if LocalId(local, p).Some? then LocalId(local, p) else existing
  }

  /** Within one request, equivalent potions have the same record. */
  ghost predicate OneIdEach(local: seq<(Bytes, Potion)>) {
    forall i, j :: 0 <= i < j < |local| && NativeEquivalent(local[i].1, local[j].1) ==> local[i].0 == local[j].0
  }

  ghost predicate DistinctFingerprints(entries: seq<NewRecord>) {
    forall i, j :: 0 <= i < j < |entries| ==> entries[i].fingerprint != entries[j].fingerprint
  }

  lemma ByIdIsOrder()
    ensures TotalPreorder(ById)
  {
    AtMostIsOrder();
  }

  lemma {:induction false} LocalIdIsOfMember(local: seq<(Bytes, Potion)>, p: Potion)
    requires LocalId(local, p).Some?
    ensures exists i :: 0 <= i < |local| && NativeEquivalent(local[i].1, p) && local[i].0 == LocalId(local, p).value
  {
    if !NativeEquivalent(local[0].1, p) {
      LocalIdIsOfMember(local[1..], p);
      var i :| 0 <= i < |local[1..]| && NativeEquivalent(local[1..][i].1, p) && local[1..][i].0 == LocalId(local[1..], p).value;
      assert local[i + 1] == local[1..][i];
    }
  }

  lemma LocalGrows(local: seq<(Bytes, Potion)>, id: Bytes, p: Potion)
    requires OneIdEach(local) && (LocalId(local, p).Some? ==> id == LocalId(local, p).value)
    ensures OneIdEach(local + [(id, p)])
  {
    var grown := local + [(id, p)];
    forall i, j | 0 <= i < j < |grown| && NativeEquivalent(grown[i].1, grown[j].1)
      ensures grown[i].0 == grown[j].0
    {
      if j == |local| {
        assert local[i] in local;
        LocalIdIsOfMember(local, p);
        var k :| 0 <= k < |local| && NativeEquivalent(local[k].1, p) && local[k].0 == LocalId(local, p).value;
        if k < i { assert NativeEquivalent(local[k].1, local[i].1); }
        if i < k { assert NativeEquivalent(local[i].1, local[k].1); }
      }
    }
  }
}
