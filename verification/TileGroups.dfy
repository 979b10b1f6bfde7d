/** detectDisconnectedTileGroups: labelling the changed tiles of a sparse grid by breadth-first
  search, and reporting the references outside the largest group. */
module TileGroups {
  import opened Wrappers

  datatype Tile = Tile(x: int, y: int)

  /** One of the eight neighbours. */
  predicate Near(a: Tile, b: Tile) {
    a != b && -1 <= a.x - b.x <= 1 && -1 <= a.y - b.y <= 1
  }

  // ----- connectivity, independently of any search ----------------------------------------------

  ghost predicate Path(tiles: set<Tile>, p: seq<Tile>) {
    && p != []
    && (forall i :: 0 <= i < |p| ==> p[i] in tiles)
    && forall i :: 0 < i < |p| ==> Near(p[i - 1], p[i])
  }

  ghost predicate Connected(tiles: set<Tile>, a: Tile, b: Tile) {
    exists p :: Path(tiles, p) && p[0] == a && p[|p| - 1] == b
  }

  lemma ConnectedToItself(tiles: set<Tile>, a: Tile)
    requires a in tiles
    ensures Connected(tiles, a, a)
  {
    assert Path(tiles, [a]);
  }

  lemma ConnectedToNeighbour(tiles: set<Tile>, a: Tile, b: Tile, c: Tile)
    requires Connected(tiles, a, b) && c in tiles && Near(b, c)
    ensures Connected(tiles, a, c)
  {
    var p :| Path(tiles, p) && p[0] == a && p[|p| - 1] == b;
    assert Path(tiles, p + [c]);
  }

  lemma ConnectedBothWays(tiles: set<Tile>, a: Tile, b: Tile)
    requires Connected(tiles, a, b)
    ensures Connected(tiles, b, a)
  {
    var p :| Path(tiles, p) && p[0] == a && p[|p| - 1] == b;
    var r := seq(|p|, i requires 0 <= i < |p| => p[|p| - 1 - i]);
    assert Path(tiles, r) by {
      forall i | 0 < i < |r|
        ensures Near(r[i - 1], r[i])
      {
        assert Near(p[|p| - 1 - i], p[|p| - i]);
      }
    }
    assert r[|r| - 1] == a;
  }

  lemma ConnectedThrough(tiles: set<Tile>, a: Tile, b: Tile, c: Tile)
    requires Connected(tiles, a, b) && Connected(tiles, b, c)
    ensures Connected(tiles, a, c)
  {
    var p :| Path(tiles, p) && p[0] == a && p[|p| - 1] == b;
    var q :| Path(tiles, q) && q[0] == b && q[|q| - 1] == c;
    var r := p + q[1..];
    assert Path(tiles, r) by {
      forall i | 0 < i < |r|
        ensures Near(r[i - 1], r[i])
      {
        if i >= |p| { assert Near(q[i - |p|], q[i - |p| + 1]); }
      }
    }
  }

  // ----- the invariants of the search -------------------------------------------------------------

  type Labels = map<Tile, nat>

  /** A tile is settled when its whole neighbourhood carries its label. */
  ghost predicate Settled(tiles: set<Tile>, labels: Labels, a: Tile)
    requires a in labels
  {
    forall b <- tiles :: Near(a, b) ==> b in labels && labels[b] == labels[a]
  }

  predicate Used(labels: Labels, k: nat) {
    exists a <- labels :: labels[a] == k
  }

  /** Tiles with the same label are connected, and the labels in use are those below `n`. */
  ghost predicate Sound(tiles: set<Tile>, labels: Labels, n: nat) {
    && labels.Keys <= tiles
    && (forall k: nat :: Used(labels, k) <==> k < n)
    && forall a, b :: a in labels && b in labels && labels[a] == labels[b] ==> Connected(tiles, a, b)
  }

  /** Along a path that starts settled, the label never changes. */
  lemma {:induction false} PathKeepsLabel(tiles: set<Tile>, labels: Labels, p: seq<Tile>, i: nat)
    requires Path(tiles, p) && i < |p| && p[0] in labels && forall a <- labels :: Settled(tiles, labels, a)
    ensures p[i] in labels && labels[p[i]] == labels[p[0]]
  {
    if i > 0 {
      PathKeepsLabel(tiles, labels, p, i - 1);
      assert Near(p[i - 1], p[i]);
    }
  }

  /** A sound labelling in which everything is settled is exactly connectivity. */
  lemma SettledMeansConnected(tiles: set<Tile>, labels: Labels, n: nat)
    requires Sound(tiles, labels, n) && labels.Keys == tiles && forall a <- labels :: Settled(tiles, labels, a)
    ensures forall a, b :: a in tiles && b in tiles ==> (labels[a] == labels[b] <==> Connected(tiles, a, b))
  {
    forall a, b | a in tiles && b in tiles && Connected(tiles, a, b)
      ensures labels[a] == labels[b]
    {
      var p :| Path(tiles, p) && p[0] == a && p[|p| - 1] == b;
      PathKeepsLabel(tiles, labels, p, |p| - 1);
    }
  }

  // ----- the search -------------------------------------------------------------------------------

  /** Neighbours of `position` in the scan order that precede (x, y) and had no label. */
  predicate Scanned(tiles: set<Tile>, labels: Labels, position: Tile, b: Tile, x: int, y: int) {
    b in tiles && b !in labels && Near(position, b) && (b.x < x || (b.x == x && b.y < y))
  }

  /** The two inner loops: label and enqueue every unlabelled neighbour. */
  method Visit(tiles: set<Tile>, labels: Labels, queue: seq<Tile>, position: Tile, component: nat)
    returns (labels': Labels, queue': seq<Tile>)
    ensures forall b :: b in labels' <==> b in labels || (b in tiles && Near(position, b))
    ensures forall b <- labels' :: labels'[b] == if b in labels then labels[b] else component
    ensures forall b :: b in queue' <==> b in queue || (b in labels' && b !in labels)
    ensures labels'.Keys == labels.Keys ==> queue' == queue
  {
    labels', queue' := labels, queue;
    for x := position.x - 1 to position.x + 2
      invariant forall b :: b in labels' <==> b in labels || Scanned(tiles, labels, position, b, x, position.y - 1)
      invariant forall b <- labels' :: labels'[b] == if b in labels then labels[b] else component
      invariant forall b :: b in queue' <==> b in queue || (b in labels' && b !in labels)
      invariant labels'.Keys == labels.Keys ==> queue' == queue
    {
      for y := position.y - 1 to position.y + 2
        invariant forall b :: b in labels' <==> b in labels || Scanned(tiles, labels, position, b, x, y)
        invariant forall b <- labels' :: labels'[b] == if b in labels then labels[b] else component
        invariant forall b :: b in queue' <==> b in queue || (b in labels' && b !in labels)
        invariant labels'.Keys == labels.Keys ==> queue' == queue
      {
        var candidate := Tile(x, y);
        if candidate == position { continue; }
        if candidate !in tiles { continue; }
        if candidate in labels' { continue; }
        queue' := queue' + [candidate];
        labels' := labels'[candidate := component];
      }
    }
  }

  lemma FewerRemain(tiles: set<Tile>, before: set<Tile>, after: set<Tile>)
    requires before < after <= tiles
    ensures |tiles - after| < |tiles - before|
  {
    var added :| added in after && added !in before;
    assert tiles - before == (tiles - after) + (after - before);
    assert |tiles - before| == |tiles - after| + |after - before|;
    assert added in after - before;
  }

  /** An older group never reaches the tile being expanded, so its whole neighbourhood is of its own group. */
  lemma NeighboursAreNew(tiles: set<Tile>, older: Labels, before: Labels, after: Labels,
                         initial: Tile, position: Tile, component: nat)
    requires forall a <- older :: Settled(tiles, older, a)
    requires position in before && position in tiles && position !in older && Connected(tiles, initial, position)
    requires forall b :: b in after <==> b in before || (b in tiles && Near(position, b))
    requires forall b <- after :: after[b] == if b in older then older[b] else component
    requires forall b <- before :: b !in older ==> Connected(tiles, initial, b)
    ensures Settled(tiles, after, position)
    ensures forall b <- after :: b !in older ==> Connected(tiles, initial, b)
  {
    hide Connected;
    forall b | b in after && b !in older
      ensures Connected(tiles, initial, b)
    {
      if b !in before { ConnectedToNeighbour(tiles, initial, position, b); }
    }
    forall c | c in tiles && Near(position, c)
      ensures c in after && after[c] == component
    {
      assert Near(c, position);
    }
  }

  lemma StillSettled(tiles: set<Tile>, before: Labels, after: Labels, position: Tile, waiting: seq<Tile>, queue: seq<Tile>)
    requires forall b <- before :: b in after && after[b] == before[b]
    requires forall b <- before :: b == position || b in waiting || Settled(tiles, before, b)
    requires position in after && Settled(tiles, after, position)
    requires forall b :: b in queue <==> b in waiting || (b in after && b !in before)
    ensures forall a <- after :: a in queue || Settled(tiles, after, a)
  {
    hide Near;
  }

  /** One round of the outer loop: label everything reachable from an unlabelled tile. */
  method Flood(tiles: set<Tile>, labels: Labels, initial: Tile, component: nat) returns (labels': Labels)
    requires labels.Keys <= tiles && initial in tiles && initial !in labels
    requires forall a <- labels :: labels[a] < component && Settled(tiles, labels, a)
    ensures initial in labels' && labels.Keys <= labels'.Keys <= tiles
    ensures forall a <- labels' :: labels'[a] == if a in labels then labels[a] else component
    ensures forall a <- labels' :: Settled(tiles, labels', a)
    ensures forall a <- labels' :: a !in labels ==> Connected(tiles, initial, a)
  {
    hide Connected, Near;
    var queue := [initial];
    labels' := labels[initial := component];
    ConnectedToItself(tiles, initial);
    while queue != []
      invariant initial in labels' && labels.Keys <= labels'.Keys <= tiles
      invariant forall a <- labels' :: labels'[a] == if a in labels then labels[a] else component
      invariant forall a <- queue :: a in labels' && a !in labels
      invariant forall a <- labels' :: a in queue || Settled(tiles, labels', a)
      invariant forall a <- labels' :: a !in labels ==> Connected(tiles, initial, a)
      decreases |tiles - labels'.Keys|, |queue|
    {
      var position := queue[0];
      queue := queue[1..];
      ghost var before := labels';
      ghost var waiting := queue;
      labels', queue := Visit(tiles, labels', queue, position, component);
      NeighboursAreNew(tiles, labels, before, labels', initial, position, component);
      StillSettled(tiles, before, labels', position, waiting, queue);
      if before.Keys != labels'.Keys {
        FewerRemain(tiles, before.Keys, labels'.Keys);
      }
    }
  }

  function Tiles(listed: seq<Tile>): set<Tile> {
    set a <- listed
  }

  predicate ListedBefore(listed: seq<Tile>, labels: Labels, i: int, k: nat) {
    exists j :: 0 <= j < i <= |listed| && listed[j] in labels && labels[listed[j]] == k
  }

  ghost predicate AllListedBefore(listed: seq<Tile>, labels: Labels, i: int, n: nat) {
    forall k: nat | k < n :: ListedBefore(listed, labels, i, k)
  }

  /** Groups are numbered in the order in which their first tile is listed. */
  ghost predicate NumberedInOrder(listed: seq<Tile>, labels: Labels) {
    forall i, k: nat | 0 <= i < |listed| && listed[i] in labels && k < labels[listed[i]]
      :: ListedBefore(listed, labels, i, k)
  }

  /** What the search establishes: the labels 0..n-1 are the connected groups in listing order. */
  ghost predicate Groups(listed: seq<Tile>, labels: Labels, n: nat) {
    && labels.Keys == Tiles(listed)
    && (forall a, b :: a in labels && b in labels ==> (labels[a] == labels[b] <==> Connected(Tiles(listed), a, b)))
    && (forall k: nat :: Used(labels, k) <==> k < n)
    && NumberedInOrder(listed, labels)
  }

  /** The outer loop; `listed` is the order in which the map of changed tiles is walked. */
  method LabelTiles(listed: seq<Tile>) returns (labels: Labels, componentIndex: nat)
    ensures Groups(listed, labels, componentIndex)
  {
    var tiles := Tiles(listed);
    labels, componentIndex := map[], 0;
    for i := 0 to |listed|
      invariant Sound(tiles, labels, componentIndex)
      invariant forall a <- labels :: Settled(tiles, labels, a)
      invariant forall j :: 0 <= j < i ==> listed[j] in labels
      invariant AllListedBefore(listed, labels, i, componentIndex)
      invariant NumberedInOrder(listed, labels)
    {
      var initial := listed[i];
      if initial in labels {
        LaterToo(listed, labels, i, componentIndex);
        continue;
      }
      ghost var before := labels;
      assert forall a <- labels :: Used(labels, labels[a]);
      labels := Flood(tiles, labels, initial, componentIndex);
      SoundAfterFlood(tiles, before, labels, initial, componentIndex);
      NumberedAfterFlood(listed, before, labels, i, componentIndex);
      componentIndex := componentIndex + 1;
    }
    SettledMeansConnected(tiles, labels, componentIndex);
  }

  lemma SoundAfterFlood(tiles: set<Tile>, before: Labels, after: Labels, initial: Tile, n: nat)
    requires Sound(tiles, before, n)
    requires initial in after && before.Keys <= after.Keys <= tiles && initial !in before
    requires forall a <- after :: after[a] == if a in before then before[a] else n
    requires forall a <- after :: a !in before ==> Connected(tiles, initial, a)
    ensures Sound(tiles, after, n + 1)
  {
    forall k: nat
      ensures Used(after, k) <==> k < n + 1
    {
      if Used(after, k) {
        var a :| a in after && after[a] == k;
        if a in before { assert Used(before, k); }
      }
      if k < n {
        assert Used(before, k);
        var a :| a in before && before[a] == k;
        assert after[a] == k;
      }
      if k == n { assert after[initial] == n; }
    }
    forall a, b | a in after && b in after && after[a] == after[b]
      ensures Connected(tiles, a, b)
    {
      if a in before {
        assert Used(before, before[a]);
      }
      if b in before {
        assert Used(before, before[b]);
      }
      if a !in before {
        ConnectedBothWays(tiles, initial, a);
        ConnectedThrough(tiles, a, initial, b);
      }
    }
  }

  // ----- reporting the references outside the largest group ---------------------------------------

  /** How many of the references lie in the group of `a`. */
  ghost function References(tiles: set<Tile>, refs: seq<Tile>, a: Tile): nat {
    if refs == [] then 0
    else References(tiles, refs[..|refs| - 1], a) + if Connected(tiles, a, refs[|refs| - 1]) then 1 else 0
  }

  /** Of the groups with most references, `a` lies in the one listed first. */
  ghost predicate FirstLargest(listed: seq<Tile>, refs: seq<Tile>, a: Tile) {
    var tiles := Tiles(listed);
    && a in tiles
    && (forall b <- tiles :: References(tiles, refs, b) <= References(tiles, refs, a))
    && exists i :: 0 <= i < |listed| && Connected(tiles, a, listed[i])
                && forall j :: 0 <= j < i ==> References(tiles, refs, listed[j]) < References(tiles, refs, a)
  }

  /** The positions, among the first `i` references, of those not connected to `a`. */
  ghost function Outside(tiles: set<Tile>, refs: seq<Tile>, a: Tile, i: nat): seq<nat>
    requires i <= |refs|
  {
    if i == 0 then []
    else Outside(tiles, refs, a, i - 1) + if Connected(tiles, a, refs[i - 1]) then [] else [i - 1]
  }

  lemma LaterToo(listed: seq<Tile>, labels: Labels, i: nat, n: nat)
    requires i < |listed| && AllListedBefore(listed, labels, i, n)
    ensures AllListedBefore(listed, labels, i + 1, n)
  {
    var later := i + 1;
    forall k: nat | k < n
      ensures ListedBefore(listed, labels, later, k)
    {
      assert ListedBefore(listed, labels, i, k);
      var m :| 0 <= m < i && listed[m] in labels && labels[listed[m]] == k;
    }
  }

  lemma NumberedAfterFlood(listed: seq<Tile>, before: Labels, after: Labels, i: nat, n: nat)
    requires i < |listed| && listed[i] !in before && listed[i] in after && NumberedInOrder(listed, before)
    requires before.Keys <= after.Keys && forall a <- after :: after[a] == if a in before then before[a] else n
    requires forall j :: 0 <= j < i ==> listed[j] in before
    requires AllListedBefore(listed, before, i, n)
    ensures NumberedInOrder(listed, after)
    ensures AllListedBefore(listed, after, i + 1, n + 1)
  {
    forall j, k: nat | 0 <= j <= |listed| && ListedBefore(listed, before, j, k)
      ensures ListedBefore(listed, after, j, k)
    {
      var m :| 0 <= m < j <= |listed| && listed[m] in before && before[listed[m]] == k;
      assert after[listed[m]] == k;
    }
    forall j, k: nat | 0 <= j < |listed| && listed[j] in after && k < after[listed[j]]
      ensures ListedBefore(listed, after, j, k)
    {
      if listed[j] !in before {
        assert j >= i && ListedBefore(listed, after, i, k);
        var m :| 0 <= m < i && listed[m] in after && after[listed[m]] == k;
      } else {
        assert ListedBefore(listed, before, j, k);
      }
    }
    assert after[listed[i]] == n;
    LaterToo(listed, after, i, n);
  }

  /** Which references are reported, by position; None when a looked-up tile did not change, which throws. */
  method DetectDisconnectedTileGroups(listed: seq<Tile>, refs: seq<Tile>) returns (reported: Option<seq<nat>>)
    ensures AllConnected(Tiles(listed)) ==> reported == Some([])
    ensures !AllConnected(Tiles(listed)) && (exists r <- refs :: r !in Tiles(listed)) ==> reported == None
    ensures !AllConnected(Tiles(listed)) && (forall r <- refs :: r in Tiles(listed)) ==>
              exists a :: FirstLargest(listed, refs, a) && reported == Some(Outside(Tiles(listed), refs, a, |refs|))
  {
    hide Connected, Near, ListedBefore, NumberedInOrder;
    if listed == [] { return Some([]); }
    var labels, componentIndex := LabelTiles(listed);
    FewGroupsMeanConnected(listed, labels, componentIndex);
    if componentIndex <= 1 { return Some([]); }

    var counts := CountReferences(listed, labels, componentIndex, refs);
    if counts == None { return None; }
    var largestComponent := FirstMaximum(counts.value);
    ghost var a := FirstOfGroup(listed, labels, componentIndex, refs, largestComponent, counts.value);

    var positions: seq<nat> := [];
    for i := 0 to |refs|
      invariant positions == Outside(Tiles(listed), refs, a, i)
    {
      if labels[refs[i]] == largestComponent { continue; }
      positions := positions + [i];
    }
    return Some(positions);
  }

  ghost predicate AllConnected(tiles: set<Tile>) {
    forall a, b :: a in tiles && b in tiles ==> Connected(tiles, a, b)
  }

  lemma FewGroupsMeanConnected(listed: seq<Tile>, labels: Labels, n: nat)
    requires Groups(listed, labels, n)
    ensures n <= 1 <==> AllConnected(Tiles(listed))
  {
    hide Connected;
    assert forall a <- labels :: Used(labels, labels[a]);
    if n > 1 {
      assert Used(labels, 0) && Used(labels, 1);
      var a, b :| a in labels && b in labels && labels[a] == 0 && labels[b] == 1;
      assert !Connected(Tiles(listed), a, b);
    }
  }

  /** References per component; None when the tile of some reference has no component. */
  method CountReferences(listed: seq<Tile>, labels: Labels, n: nat, refs: seq<Tile>) returns (counts: Option<seq<nat>>)
    requires Groups(listed, labels, n)
    ensures counts == None <==> exists r <- refs :: r !in labels
    ensures counts != None ==> Counted(listed, labels, n, refs, counts.value)
  {
    hide Connected, NumberedInOrder;
    var cellRefsPerComponent := new nat[n](_ => 0);
    assert forall a <- labels :: Used(labels, labels[a]);
    for i := 0 to |refs|
      invariant forall j :: 0 <= j < i ==> refs[j] in labels
      invariant Counted(listed, labels, n, refs[..i], cellRefsPerComponent[..])
    {
      if refs[i] !in labels { return None; }
      assert refs[..i + 1][..i] == refs[..i];
      var component := labels[refs[i]];
      cellRefsPerComponent[component] := cellRefsPerComponent[component] + 1;
    }
    assert refs[..|refs|] == refs;
    return Some(cellRefsPerComponent[..]);
  }

  ghost predicate Counted(listed: seq<Tile>, labels: Labels, n: nat, refs: seq<Tile>, counts: seq<nat>) {
    && |counts| == n
    && forall a <- labels :: labels[a] < n && counts[labels[a]] == References(Tiles(listed), refs, a)
  }

  /** std::max_element: the first of the largest. */
  method FirstMaximum(counts: seq<nat>) returns (k: nat)
    requires counts != []
    ensures k < |counts|
    ensures forall j :: 0 <= j < |counts| ==> counts[j] <= counts[k]
    ensures forall j :: 0 <= j < k ==> counts[j] < counts[k]
  {
    k := 0;
    for i := 1 to |counts|
      invariant k < i
      invariant forall j :: 0 <= j < i ==> counts[j] <= counts[k]
      invariant forall j :: 0 <= j < k ==> counts[j] < counts[k]
    {
      if counts[k] < counts[i] { k := i; }
    }
  }

  /** The first listed tile of the first group with most references. */
  lemma FirstOfGroup(listed: seq<Tile>, labels: Labels, n: nat, refs: seq<Tile>, largest: nat, counts: seq<nat>)
    returns (a: Tile)
    requires Groups(listed, labels, n) && Counted(listed, labels, n, refs, counts) && largest < n
    requires forall k :: 0 <= k < n ==> counts[k] <= counts[largest]
    requires forall k :: 0 <= k < largest ==> counts[k] < counts[largest]
    ensures FirstLargest(listed, refs, a) && a in labels && labels[a] == largest
  {
    hide Connected;
    assert Used(labels, largest);
    var i := FirstIndex(listed, labels, largest);
    a := listed[i];
    forall j | 0 <= j < i
      ensures References(Tiles(listed), refs, listed[j]) < References(Tiles(listed), refs, a)
    {
      assert !ListedBefore(listed, labels, j, largest);
    }
  }

  /** The first listed tile that carries the label `k`. */
  lemma FirstIndex(listed: seq<Tile>, labels: Labels, k: nat) returns (i: nat)
    requires labels.Keys == Tiles(listed) && Used(labels, k)
    ensures i < |listed| && listed[i] in labels && labels[listed[i]] == k
    ensures forall j :: 0 <= j < i ==> listed[j] in labels && labels[listed[j]] != k
  {
    i := 0;
    while i < |listed| && labels[listed[i]] != k
      invariant i <= |listed|
      invariant forall j :: 0 <= j < i ==> listed[j] in labels && labels[listed[j]] != k
    {
      i := i + 1;
    }
  }
}
