/** collisionCellsForPlayer: the cells whose collision geometry an observer can need. Coordinates and
  radii are exact numbers, or a value that is not finite. */
module CollisionCells {
  import opened ByteBuffers
  import opened Sorting

  datatype Number = Finite(value: real) | NotFinite

  datatype CellId = Exterior(gridX: int, gridY: int) | Interior(cellName: Bytes)

  const CELL_SIZE := 8192.0
  const MAXIMUM_CELLS := 25

  // ----- cell names ---------------------------------------------------------------------------------

  const COMMA: u8 := 44
  const MINUS: u8 := 45

  /** Decimal digits without leading zeros. */
  function Digits(n: nat): Bytes {
    if n < 10 then [48 + n] else Digits(n / 10) + [48 + n % 10]
  }

  /** std::to_string */
  function ToString(n: int): Bytes {
    if n < 0 then [MINUS] + Digits(-n) else Digits(n)
  }

  function ExteriorCellKey(x: int, y: int): Bytes {
    [69, 88, 84, 58] + ToString(x) + [COMMA] + ToString(y)
  }

  lemma {:induction false} DigitsAreDigits(n: nat)
    ensures Digits(n) != [] && forall d <- Digits(n) :: 48 <= d < 58
  {
    if n >= 10 { DigitsAreDigits(n / 10); }
  }

  lemma {:induction false} DigitsInjective(m: nat, n: nat)
    requires Digits(m) == Digits(n)
    ensures m == n
  {
    DigitsAreDigits(m / 10);
    DigitsAreDigits(n / 10);
    var last := |Digits(m)| - 1;
    assert Digits(m)[last] == 48 + m % 10 && Digits(n)[last] == 48 + n % 10;
    if m >= 10 && n >= 10 {
      assert Digits(m)[..last] == Digits(m / 10) && Digits(n)[..last] == Digits(n / 10);
      DigitsInjective(m / 10, n / 10);
    }
  }

  lemma ToStringInjective(m: int, n: int)
    requires ToString(m) == ToString(n)
    ensures m == n
  {
    var a, b := if m < 0 then -m else m, if n < 0 then -n else n;
    DigitsAreDigits(a);
    DigitsAreDigits(b);
    assert Digits(a)[0] in Digits(a) && Digits(b)[0] in Digits(b);
    if m < 0 { assert ToString(m)[1..] == Digits(a) && ToString(n)[1..] == Digits(b); }
    DigitsInjective(a, b);
  }

  lemma NoComma(n: int)
    ensures COMMA !in ToString(n)
  {
    DigitsAreDigits(if n < 0 then -n else n);
  }

  lemma SplitAtComma(a: Bytes, b: Bytes, c: Bytes, d: Bytes)
    requires a + [COMMA] + b == c + [COMMA] + d && COMMA !in a && COMMA !in c
    ensures a == c && b == d
  {
    var s := a + [COMMA] + b;
    assert s[|a|] == COMMA && s[|c|] == COMMA;
    assert (forall k :: 0 <= k < |a| ==> s[k] == a[k]) && forall k :: 0 <= k < |c| ==> s[k] == c[k];
    assert s[..|a|] == a && s[..|c|] == c && s[|a| + 1..] == b && s[|c| + 1..] == d;
  }

  /** The number that a text of decimal digits stands for. */
  function Value(text: Bytes): int {
    if text == [] then 0 else 10 * Value(text[..|text| - 1]) - 48 + text[|text| - 1]
  }

  lemma {:induction false} DigitsRead(n: nat)
    ensures Value(Digits(n)) == n
    ensures n > 0 ==> Digits(n)[0] != 48
  {
    if n >= 10 {
      DigitsRead(n / 10);
      DigitsAreDigits(n / 10);
      assert Digits(n)[..|Digits(n)| - 1] == Digits(n / 10);
    } else {
      assert [48 + n][..0] == [];
    }
  }

  /** `text` is `n` in decimal: a minus sign for a negative number, and no leading zero. */
  ghost predicate IsDecimal(text: Bytes, n: int) {
    var digits := if n < 0 && text != [] then text[1..] else text;
    && text != [] && (n < 0 ==> text[0] == 45) && digits != [] && (forall d <- digits :: 48 <= d <= 57)
    && Value(digits) == (if n < 0 then -n else n) && (|digits| > 1 ==> digits[0] != 48)
  }

  lemma ToStringMeaning(n: int)
    ensures IsDecimal(ToString(n), n)
  {
    var m := if n < 0 then -n else n;
    DigitsAreDigits(m);
    DigitsRead(m);
    if n < 0 { assert ToString(n)[1..] == Digits(m); }
  }

  /** The name is EXT: and the two coordinates in decimal, x first. */
  lemma ExteriorCellKeyMeaning(x: int, y: int)
    ensures exists a, b :: ExteriorCellKey(x, y) == [69, 88, 84, 58] + a + [44] + b && IsDecimal(a, x) && IsDecimal(b, y)
  {
    hide IsDecimal, ToString;
    ToStringMeaning(x);
    ToStringMeaning(y);
    assert ExteriorCellKey(x, y) == [69, 88, 84, 58] + ToString(x) + [44] + ToString(y);
  }

  /** Different grid cells have different names, so removing duplicate names removes no cell. */
  lemma ExteriorCellKeyInjective(x: int, y: int, u: int, v: int)
    requires ExteriorCellKey(x, y) == ExteriorCellKey(u, v)
    ensures x == u && y == v
  {
    hide ToString;
    assert ExteriorCellKey(x, y)[4..] == ToString(x) + [COMMA] + ToString(y);
    assert ExteriorCellKey(u, v)[4..] == ToString(u) + [COMMA] + ToString(v);
    NoComma(x);
    NoComma(u);
    SplitAtComma(ToString(x), ToString(y), ToString(u), ToString(v));
    ToStringInjective(x, u);
    ToStringInjective(y, v);
  }

  // ----- geometry, independently of any scan -----------------------------------------------------------

  predicate InInterval(v: real, grid: int) {
    grid as real * CELL_SIZE <= v <= grid as real * CELL_SIZE + CELL_SIZE
  }

  predicate InCell(px: real, py: real, x: int, y: int) {
    InInterval(px, x) && InInterval(py, y)
  }

  function Square(v: real): (r: real)
    ensures r >= 0.0
  {
    v * v
  }

  function DistanceSquared(px: real, py: real, qx: real, qy: real): real {
    Square(px - qx) + Square(py - qy)
  }

  /** Some point of the closed rectangle of the cell lies within the circle. */
  ghost predicate Meets(posX: real, posY: real, radius: real, x: int, y: int) {
    exists px, py :: InCell(px, py, x, y) && DistanceSquared(px, py, posX, posY) <= radius * radius
  }

  // ----- the scan ---------------------------------------------------------------------------------------

  function DistanceToInterval(value: real, minimum: real, maximum: real): real {
    if value < minimum then minimum - value else if value > maximum then value - maximum else 0.0
  }

  /** The test of the scan. */
  predicate Near(posX: real, posY: real, radius: real, x: int, y: int) {
    var dx := DistanceToInterval(posX, x as real * CELL_SIZE, x as real * CELL_SIZE + CELL_SIZE);
    var dy := DistanceToInterval(posY, y as real * CELL_SIZE, y as real * CELL_SIZE + CELL_SIZE);
    Square(dx) + Square(dy) <= radius * radius
  }

  function Clamp(v: real, minimum: real, maximum: real): real {
    if v < minimum then minimum else if v > maximum then maximum else v
  }

  lemma SquareGrows(v: real, w: real)
    requires 0.0 <= v <= w || 0.0 <= v <= -w
    ensures Square(v) <= Square(w)
  {
    var gap := (if w < 0.0 then -w else w) - v;
    assert w * w == v * v + gap * v + gap * v + gap * gap;
    assert gap * v >= 0.0 && gap * gap >= 0.0;
  }

  lemma NearestPoint(v: real, p: real, grid: int)
    requires InInterval(p, grid)
    ensures var d := DistanceToInterval(v, grid as real * CELL_SIZE, grid as real * CELL_SIZE + CELL_SIZE);
            Square(d) <= Square(p - v)
  {
    SquareGrows(DistanceToInterval(v, grid as real * CELL_SIZE, grid as real * CELL_SIZE + CELL_SIZE), p - v);
  }

  /** The test finds exactly the cells that meet the circle. */
  lemma NearIsMeets(posX: real, posY: real, radius: real, x: int, y: int)
    ensures Near(posX, posY, radius, x, y) <==> Meets(posX, posY, radius, x, y)
  {
    hide Square;
    var minX, minY := x as real * CELL_SIZE, y as real * CELL_SIZE;
    if Near(posX, posY, radius, x, y) {
      var px, py := Clamp(posX, minX, minX + CELL_SIZE), Clamp(posY, minY, minY + CELL_SIZE);
      assert InCell(px, py, x, y);
      SquareOfOpposite(px - posX, DistanceToInterval(posX, minX, minX + CELL_SIZE));
      SquareOfOpposite(py - posY, DistanceToInterval(posY, minY, minY + CELL_SIZE));
    }
    if Meets(posX, posY, radius, x, y) {
      var px, py :| InCell(px, py, x, y) && DistanceSquared(px, py, posX, posY) <= radius * radius;
      NearestPoint(posX, px, x);
      NearestPoint(posY, py, y);
    }
  }

  lemma SquareOfOpposite(v: real, w: real)
    requires v == w || v == -w
    ensures Square(v) == Square(w)
  {}

  // ----- how far the scan has to reach --------------------------------------------------------------------

  function Min(a: real, b: real): real { if b < a then b else a }

  function Ceiling(v: real): (c: int)
    ensures (c - 1) as real < v <= c as real
  {
    -((-v).Floor)
  }

  /** The number of cells looked at in each direction. */
  function CellRadius(bounded: real): int {
    var c := Ceiling(bounded / CELL_SIZE) + 1;
    if c < 2 then c else 2
  }

  predicate Inside(v: real, grid: int) {
    grid as real * CELL_SIZE < v < grid as real * CELL_SIZE + CELL_SIZE
  }

  ghost predicate ScanIsComplete(posX: real, posY: real, bounded: real, gridX: int, gridY: int) {
    forall x, y :: Meets(posX, posY, bounded, x, y) ==> InScan(gridX, gridY, x, y)
  }

  predicate InScan(gridX: int, gridY: int, x: int, y: int) {
    -2 <= x - gridX <= 2 && -2 <= y - gridY <= 2
  }

  lemma FarInterval(v: real, grid: int, other: int)
    requires InInterval(v, grid) && !(-2 <= other - grid <= 2)
    ensures var d := DistanceToInterval(v, other as real * CELL_SIZE, other as real * CELL_SIZE + CELL_SIZE);
            d >= 2.0 * CELL_SIZE && (Inside(v, grid) ==> d > 2.0 * CELL_SIZE)
  {
    if other > grid {
      assert other as real >= grid as real + 3.0;
    } else {
      assert other as real <= grid as real - 3.0;
    }
  }

  /** From inside the accepted cell, a circle of less than two cells never reaches past the scan; one of
      exactly two cells does so only from the border of the accepted cell. */
  lemma ScanReachesEverything(posX: real, posY: real, bounded: real, gridX: int, gridY: int)
    requires InCell(posX, posY, gridX, gridY) && 0.0 < bounded <= 2.0 * CELL_SIZE
    ensures ScanIsComplete(posX, posY, bounded, gridX, gridY)
            <==> bounded < 2.0 * CELL_SIZE || (Inside(posX, gridX) && Inside(posY, gridY))
    ensures CellRadius(bounded) == 2
  {
    hide Meets, Near, Square;
    assert bounded / CELL_SIZE > 0.0;
    if bounded < 2.0 * CELL_SIZE || (Inside(posX, gridX) && Inside(posY, gridY)) {
      forall x, y | Meets(posX, posY, bounded, x, y)
        ensures InScan(gridX, gridY, x, y)
      {
        NearIsMeets(posX, posY, bounded, x, y);
        NearIsInScan(posX, posY, bounded, gridX, gridY, x, y);
      }
    } else {
      OnBorderSeesFurther(posX, posY, bounded, gridX, gridY);
    }
  }

  lemma NearIsInScan(posX: real, posY: real, bounded: real, gridX: int, gridY: int, x: int, y: int)
    requires InCell(posX, posY, gridX, gridY) && 0.0 < bounded <= 2.0 * CELL_SIZE
    requires bounded < 2.0 * CELL_SIZE || (Inside(posX, gridX) && Inside(posY, gridY))
    requires Near(posX, posY, bounded, x, y)
    ensures InScan(gridX, gridY, x, y)
  {
    if !(-2 <= x - gridX <= 2) {
      FarInterval(posX, gridX, x);
      SmallerSquare(bounded, DistanceToInterval(posX, x as real * CELL_SIZE, x as real * CELL_SIZE + CELL_SIZE));
      assert false;
    }
    if !(-2 <= y - gridY <= 2) {
      FarInterval(posY, gridY, y);
      SmallerSquare(bounded, DistanceToInterval(posY, y as real * CELL_SIZE, y as real * CELL_SIZE + CELL_SIZE));
      assert false;
    }
  }

  lemma SmallerSquare(v: real, w: real)
    requires 0.0 <= v < w
    ensures v * v < Square(w)
  {
    var gap := w - v;
    assert w * w == v * v + gap * v + gap * v + gap * gap;
    assert gap * v >= 0.0 && gap * gap > 0.0;
  }

  lemma OnBorderSeesFurther(posX: real, posY: real, bounded: real, gridX: int, gridY: int)
    requires InCell(posX, posY, gridX, gridY) && bounded == 2.0 * CELL_SIZE
    requires !Inside(posX, gridX) || !Inside(posY, gridY)
    ensures !ScanIsComplete(posX, posY, bounded, gridX, gridY)
  {
    var x := if Inside(posX, gridX) then gridX
             else if posX == gridX as real * CELL_SIZE then gridX - 3 else gridX + 3;
    var y := if !Inside(posX, gridX) then gridY
             else if posY == gridY as real * CELL_SIZE then gridY - 3 else gridY + 3;
    assert Near(posX, posY, bounded, x, y);
    NearIsMeets(posX, posY, bounded, x, y);
    assert !InScan(gridX, gridY, x, y);
  }

  // ----- the operation --------------------------------------------------------------------------------------

  /** A usable radius and a finite position inside the accepted cell. */
  predicate Usable(cell: CellId, posX: Number, posY: Number, radius: Number)
    requires cell.Exterior?
  {
    && radius.Finite? && radius.value > 0.0 && posX.Finite? && posY.Finite?
    && InCell(posX.value, posY.value, cell.gridX, cell.gridY)
  }

  function Keys(cells: seq<(int, int)>): seq<Bytes> {
    seq(|cells|, i requires 0 <= i < |cells| => ExteriorCellKey(cells[i].0, cells[i].1))
  }

  lemma KeysTellCells(cells: seq<(int, int)>)
    ensures forall x, y :: ExteriorCellKey(x, y) in Keys(cells) <==> (x, y) in cells
    ensures forall k <- Keys(cells) :: exists x, y :: k == ExteriorCellKey(x, y)
  {
    forall x, y
      ensures ExteriorCellKey(x, y) in Keys(cells) <==> (x, y) in cells
    {
      if (x, y) in cells {
        var i :| 0 <= i < |cells| && cells[i] == (x, y);
        assert Keys(cells)[i] == ExteriorCellKey(x, y);
      }
      if ExteriorCellKey(x, y) in Keys(cells) {
        var i :| 0 <= i < |cells| && Keys(cells)[i] == ExteriorCellKey(x, y);
        ExteriorCellKeyInjective(x, y, cells[i].0, cells[i].1);
      }
    }
  }

  /** Cells of the scan that come before the offset (dx, dy), row by row. */
  predicate Passed(gridX: int, gridY: int, x: int, y: int, dx: int, dy: int) {
    InScan(gridX, gridY, x, y) && (y - gridY < dy || (y - gridY == dy && x - gridX < dx))
  }

  /** The nested loops: the cell itself, then every other cell of the scan that passes the test. */
  method Scan(gridX: int, gridY: int, posX: real, posY: real, bounded: real) returns (result: seq<Bytes>)
    ensures |result| <= MAXIMUM_CELLS
    ensures forall k <- result :: exists x, y :: k == ExteriorCellKey(x, y)
    ensures forall x, y :: ExteriorCellKey(x, y) in result
                           <==> (x, y) == (gridX, gridY)
                                || (InScan(gridX, gridY, x, y) && Near(posX, posY, bounded, x, y))
  {
    hide Near, ExteriorCellKey;
    result := [ExteriorCellKey(gridX, gridY)];
    ghost var cells := [(gridX, gridY)];
    for dy := -2 to 3
      invariant result == Keys(cells) && |cells| <= 11 + 5 * dy - if dy > 0 then 1 else 0
      invariant forall x, y :: (x, y) in cells
                               <==> (x, y) == (gridX, gridY)
                                    || (Passed(gridX, gridY, x, y, -2, dy) && Near(posX, posY, bounded, x, y))
    {
      for dx := -2 to 3
        invariant result == Keys(cells) && |cells| <= 13 + 5 * dy + dx - if dy > 0 || (dy == 0 && dx > 0) then 1 else 0
        invariant forall x, y :: (x, y) in cells
                                 <==> (x, y) == (gridX, gridY)
                                      || (Passed(gridX, gridY, x, y, dx, dy) && Near(posX, posY, bounded, x, y))
      {
        if dx == 0 && dy == 0 { continue; }
        var candidateX, candidateY := gridX + dx, gridY + dy;
        if Near(posX, posY, bounded, candidateX, candidateY) {
          result := result + [ExteriorCellKey(candidateX, candidateY)];
          cells := cells + [(candidateX, candidateY)];
        }
      }
    }
    KeysTellCells(cells);
  }

  lemma OwnCellMeets(posX: real, posY: real, radius: real, x: int, y: int)
    requires InCell(posX, posY, x, y)
    ensures Meets(posX, posY, radius, x, y)
  {
    assert DistanceSquared(posX, posY, posX, posY) == 0.0 <= Square(radius);
  }

  /** The unbounded definition: every grid cell that meets the circle, and no other. */
  ghost predicate ListsEverythingMet(result: seq<Bytes>, posX: real, posY: real, radius: real) {
    forall x, y :: ExteriorCellKey(x, y) in result <==> Meets(posX, posY, radius, x, y)
  }

  method CollisionCellsForPlayer(cell: CellId, posX: Number, posY: Number, radius: Number) returns (result: seq<Bytes>)
    ensures cell.Interior? ==> result == if cell.cellName == [] then [] else [cell.cellName]
    ensures cell.Exterior? && !Usable(cell, posX, posY, radius) ==> result == [ExteriorCellKey(cell.gridX, cell.gridY)]
    ensures cell.Exterior? && Usable(cell, posX, posY, radius) ==>
              && Ascending(result)
              && (forall k <- result :: exists x, y :: k == ExteriorCellKey(x, y))
              && forall x, y :: ExteriorCellKey(x, y) in result
                                <==> Meets(posX.value, posY.value, Min(radius.value, 2.0 * CELL_SIZE), x, y)
                                     && InScan(cell.gridX, cell.gridY, x, y)
    ensures cell.Exterior? && Usable(cell, posX, posY, radius) ==>
              (ListsEverythingMet(result, posX.value, posY.value, Min(radius.value, 2.0 * CELL_SIZE))
               <==> radius.value < 2.0 * CELL_SIZE || (Inside(posX.value, cell.gridX) && Inside(posY.value, cell.gridY)))
  {
    hide Meets, Near, ExteriorCellKey, Ascending, Passed;
    if cell.Interior? { return if cell.cellName == [] then [] else [cell.cellName]; }
    result := [ExteriorCellKey(cell.gridX, cell.gridY)];
    if radius.NotFinite? || radius.value <= 0.0 || posX.NotFinite? || posY.NotFinite? { return; }
    if !InCell(posX.value, posY.value, cell.gridX, cell.gridY) { return; }
    var bounded := Min(radius.value, 2.0 * CELL_SIZE);
    var cellRadius := CellRadius(bounded);
    ScanReachesEverything(posX.value, posY.value, bounded, cell.gridX, cell.gridY);
    result := Scan(cell.gridX, cell.gridY, posX.value, posY.value, bounded);
    ghost var scanned := result;
    result := SortUnique(result);
    var size := if |result| > MAXIMUM_CELLS then MAXIMUM_CELLS else |result|;
    assert result[..size] == result;
    result := result[..size];
    OwnCellMeets(posX.value, posY.value, bounded, cell.gridX, cell.gridY);
    assert forall k :: k in result <==> k in Members(scanned);
    forall x, y
      ensures ExteriorCellKey(x, y) in result
              <==> Meets(posX.value, posY.value, bounded, x, y) && InScan(cell.gridX, cell.gridY, x, y)
    {
      NearIsMeets(posX.value, posY.value, bounded, x, y);
      assert ExteriorCellKey(x, y) in result <==> ExteriorCellKey(x, y) in Members(scanned);
    }
  }
}
