/** std::sort, and the order of std::string. */
module Sorting {
  import opened ByteBuffers

  ghost predicate TotalPreorder<T(!new)>(le: (T, T) -> bool) {
    && (forall a, b :: le(a, b) || le(b, a))
    && forall a, b, c :: le(a, b) && le(b, c) ==> le(a, c)
  }

  predicate Sorted<T>(s: seq<T>, le: (T, T) -> bool) {
    forall i, j :: 0 <= i < j < |s| ==> le(s[i], s[j])
  }

  function Insert<T>(x: T, s: seq<T>, le: (T, T) -> bool): seq<T>
    decreases |s|
  {
    if s == [] || le(x, s[0]) then [x] + s else [s[0]] + Insert(x, s[1..], le)
  }

  function Sort<T>(s: seq<T>, le: (T, T) -> bool): seq<T> {
    if s == [] then [] else Insert(s[0], Sort(s[1..], le), le)
  }

  lemma {:induction false} InsertKeeps<T>(x: T, s: seq<T>, le: (T, T) -> bool)
    ensures multiset(Insert(x, s, le)) == multiset(s) + multiset{x}
    decreases |s|
  {
    if s != [] && !le(x, s[0]) {
      InsertKeeps(x, s[1..], le);
      assert s == [s[0]] + s[1..];
    }
  }

  lemma {:induction false} InsertSorts<T(!new)>(x: T, s: seq<T>, le: (T, T) -> bool)
    requires TotalPreorder(le) && Sorted(s, le)
    ensures Sorted(Insert(x, s, le), le) && multiset(Insert(x, s, le)) == multiset(s) + multiset{x}
    decreases |s|
  {
    InsertKeeps(x, s, le);
    if s != [] && !le(x, s[0]) {
      InsertSorts(x, s[1..], le);
      var rest := Insert(x, s[1..], le);
      forall k | 0 <= k < |rest|
        ensures le(s[0], rest[k])
      {
        assert rest[k] in multiset(rest);
        assert rest[k] in multiset(s[1..]) || rest[k] == x;
      }
    }
  }

  lemma {:induction false} SortSorts<T(!new)>(s: seq<T>, le: (T, T) -> bool)
    requires TotalPreorder(le)
    ensures Sorted(Sort(s, le), le) && multiset(Sort(s, le)) == multiset(s) && |Sort(s, le)| == |s|
  {
    hide Insert;
    if s != [] {
      SortSorts(s[1..], le);
      InsertSorts(s[0], Sort(s[1..], le), le);
      assert s == [s[0]] + s[1..];
    }
    assert |multiset(Sort(s, le))| == |Sort(s, le)|;
  }

  /** The order tells the members of `s` apart. */
  ghost predicate Discerning<T(!new)>(s: seq<T>, le: (T, T) -> bool) {
    forall x, y :: x in s && y in s && le(x, y) && le(y, x) ==> x == y
  }

  lemma SameHead<T(!new)>(a: seq<T>, b: seq<T>, le: (T, T) -> bool)
    requires Sorted(a, le) && Sorted(b, le) && multiset(a) == multiset(b) && a != [] && b != [] && Discerning(a, le)
    ensures a[0] == b[0]
  {
    assert a[0] in multiset(b) && b[0] in multiset(a);
    var i :| 0 <= i < |b| && b[i] == a[0];
    var j :| 0 <= j < |a| && a[j] == b[0];
  }

  /** Then there is only one sorted arrangement. */
  lemma {:induction false} SortedUnique<T(!new)>(a: seq<T>, b: seq<T>, le: (T, T) -> bool)
    requires Sorted(a, le) && Sorted(b, le) && multiset(a) == multiset(b) && Discerning(a, le)
    ensures a == b
  {
    assert |multiset(a)| == |a| && |multiset(b)| == |b|;
    if a != [] {
      SameHead(a, b, le);
      assert a == [a[0]] + a[1..] && b == [b[0]] + b[1..];
      assert multiset(a[1..]) == multiset(b[1..]) by {
        assert multiset(a[1..]) == multiset(a) - multiset{a[0]};
        assert multiset(b[1..]) == multiset(b) - multiset{b[0]};
      }
      assert Discerning(a[1..], le);
      SortedUnique(a[1..], b[1..], le);
    }
  }

  function Without<T>(s: seq<T>, i: nat): seq<T>
    requires i < |s|
  {
    s[..i] + s[i + 1..]
  }

  lemma TakenCount<T>(s: seq<T>, i: nat)
    requires i < |s|
    ensures multiset(s) == multiset(Without(s, i)) + multiset{s[i]}
  {
    assert s == s[..i] + [s[i]] + s[i + 1..];
  }

  predicate NoRepeats<T(==)>(s: seq<T>) {
    forall i, j :: 0 <= i < j < |s| ==> s[i] != s[j]
  }

  lemma OccursTwice<T>(s: seq<T>, i: nat, j: nat)
    requires i < j < |s| && s[i] == s[j]
    ensures multiset(s)[s[i]] >= 2
  {
    assert s == s[..j] + [s[j]] + s[j + 1..];
    assert s[i] in s[..j];
  }

  // ----- strings ----------------------------------------------------------------------------------

  /** operator< of std::string: by unsigned bytes, a proper prefix first. */
  predicate Before(a: Bytes, b: Bytes) {
    if b == [] then false
    else if a == [] then true
    else a[0] < b[0] || (a[0] == b[0] && Before(a[1..], b[1..]))
  }

  predicate AtMost(a: Bytes, b: Bytes) { !Before(b, a) }

  lemma {:induction false} BeforeIsTotal(a: Bytes, b: Bytes)
    ensures !(Before(a, b) && Before(b, a))
    ensures Before(a, b) || a == b || Before(b, a)
    ensures a == b ==> !Before(a, b)
  {
    if a != [] && b != [] && a[0] == b[0] {
      BeforeIsTotal(a[1..], b[1..]);
      assert a == [a[0]] + a[1..] && b == [b[0]] + b[1..];
    }
  }

  lemma {:induction false} BeforeIsTransitive(a: Bytes, b: Bytes, c: Bytes)
    requires Before(a, b) && Before(b, c)
    ensures Before(a, c)
  {
    if a != [] && a[0] == b[0] == c[0] {
      BeforeIsTransitive(a[1..], b[1..], c[1..]);
    }
  }

  lemma AtMostIsOrder()
    ensures TotalPreorder(AtMost)
    ensures forall a, b :: AtMost(a, b) && AtMost(b, a) ==> a == b
  {
    forall a, b
      ensures AtMost(a, b) || AtMost(b, a)
      ensures AtMost(a, b) && AtMost(b, a) ==> a == b
    {
      BeforeIsTotal(a, b);
    }
    forall a, b, c | AtMost(a, b) && AtMost(b, c)
      ensures AtMost(a, c)
    {
      BeforeIsTotal(a, b);
      BeforeIsTotal(b, c);
      BeforeIsTotal(a, c);
      if Before(c, a) && Before(a, b) { BeforeIsTransitive(c, a, b); }
    }
  }

  /** Sorted without duplicates. */
  predicate Ascending(s: seq<Bytes>) {
    forall i, j :: 0 <= i < j < |s| ==> Before(s[i], s[j])
  }

  function Members(s: seq<Bytes>): set<Bytes> {
    set x <- s
  }

  lemma OneMoreMember(s: seq<Bytes>, x: Bytes)
    ensures Members(s + [x]) == Members(s) + {x}
  {
    assert forall y :: y in s + [x] <==> y in s || y == x;
  }

  /** std::unique and erase on a sorted list. */
  method Unique(sorted: seq<Bytes>) returns (r: seq<Bytes>)
    requires Sorted(sorted, AtMost)
    ensures Ascending(r) && Members(r) == Members(sorted) && |r| <= |sorted|
  {
    hide Ascending, Members, Sorted, Before, AtMost;
    r := [];
    assert Ascending(r) by { OneAscending(); }
    for i := 0 to |sorted|
      invariant Ascending(r) && Members(r) == Members(sorted[..i])
      invariant (r == [] <==> i == 0) && |r| <= i
      invariant i > 0 ==> r[|r| - 1] == sorted[i - 1]
    {
      assert sorted[..i + 1] == sorted[..i] + [sorted[i]];
      OneMoreMember(sorted[..i], sorted[i]);
      if r == [] || sorted[i] != r[|r| - 1] {
        OneMoreMember(r, sorted[i]);
        NextDistinct(sorted, i, r);
        r := r + [sorted[i]];
      } else {
        AlreadyMember(r);
      }
    }
    assert sorted[..|sorted|] == sorted;
  }

  lemma OneAscending()
    ensures Ascending([])
  {}

  lemma AlreadyMember(r: seq<Bytes>)
    requires r != []
    ensures r[|r| - 1] in Members(r)
  {}

  lemma NextDistinct(sorted: seq<Bytes>, i: nat, r: seq<Bytes>)
    requires Sorted(sorted, AtMost) && i < |sorted| && Ascending(r)
    requires r != [] ==> i > 0 && r[|r| - 1] == sorted[i - 1] && sorted[i] != sorted[i - 1]
    ensures Ascending(r + [sorted[i]])
  {
    hide Before;
    if r != [] {
      var last := r[|r| - 1];
      assert AtMost(sorted[i - 1], sorted[i]);
      BeforeIsTotal(last, sorted[i]);
      forall k | 0 <= k < |r|
        ensures Before(r[k], sorted[i])
      {
        if k < |r| - 1 { BeforeIsTransitive(r[k], last, sorted[i]); }
      }
    }
  }

  lemma SameMembers(a: seq<Bytes>, b: seq<Bytes>)
    requires multiset(a) == multiset(b)
    ensures Members(a) == Members(b)
  {
    forall x
      ensures x in Members(a) <==> x in Members(b)
    {
      assert x in multiset(a) <==> x in multiset(b);
    }
  }

  /** std::sort followed by std::unique and erase. */
  method SortUnique(s: seq<Bytes>) returns (r: seq<Bytes>)
    ensures Ascending(r) && Members(r) == Members(s) && |r| <= |s|
  {
    hide Before, Ascending;
    var sorted := Sort(s, AtMost);
    AtMostIsOrder();
    SortSorts(s, AtMost);
    SameMembers(sorted, s);
    r := Unique(sorted);
  }

  lemma SortedOnceIsAscending(s: seq<Bytes>)
    requires Sorted(s, AtMost) && forall x :: multiset(s)[x] <= 1
    ensures Ascending(s)
  {
    hide Before;
    forall i, j | 0 <= i < j < |s|
      ensures Before(s[i], s[j])
    {
      BeforeIsTotal(s[i], s[j]);
      if s[i] == s[j] { OccursTwice(s, i, j); }
    }
  }

  lemma AscendingIsSorted(s: seq<Bytes>)
    requires Ascending(s)
    ensures Sorted(s, AtMost) && NoRepeats(s)
  {
    hide Before;
    forall i, j | 0 <= i < j < |s|
      ensures AtMost(s[i], s[j]) && s[i] != s[j]
    {
      BeforeIsTotal(s[i], s[j]);
    }
  }

  lemma {:induction false} OnceEach<T(!new)>(s: seq<T>)
    requires NoRepeats(s)
    ensures forall x :: multiset(s)[x] == if x in s then 1 else 0
  {
    if s != [] {
      OnceEach(s[1..]);
      assert s == [s[0]] + s[1..];
    }
  }
}
