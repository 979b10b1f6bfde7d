/** normalizeConfiguredCell: remove the spaces around the two numbers of a grid cell, leave every other
  name alone. */
module ConfiguredCell {
  import opened Wrappers

  const PREFIX := "EXT:"

  // ----- the parts ------------------------------------------------------------------------------------------

  function TrimFront(s: string): string {
    if s != [] && s[0] == ' ' then TrimFront(s[1..]) else s
  }

  function TrimBack(s: string): string {
    if s != [] && s[|s| - 1] == ' ' then TrimBack(s[..|s| - 1]) else s
  }

  predicate IsDigit(c: char) { '0' <= c <= '9' }

  function Value(digits: string): nat
    requires forall c <- digits :: IsDigit(c)
  {
    if digits == [] then 0
    else
      var last := digits[|digits| - 1];
      assert IsDigit(last) && last as int >= '0' as int;
      10 * Value(digits[..|digits| - 1]) + (last as int - '0' as int)
  }

  /** std::from_chars takes all of it: an optional minus, digits, and a value in the range of int. */
  predicate IsInteger(s: string) {
    var digits := if s != [] && s[0] == '-' then s[1..] else s;
    && digits != [] && (forall c <- digits :: IsDigit(c))
    && Value(digits) <= if s[0] == '-' then 0x8000_0000 else 0x7fff_ffff
  }

  /** The two sides of the only comma. */
  function Sides(s: string): (r: Option<(string, string)>)
    ensures r.Some? ==> s == r.value.0 + "," + r.value.1 && ',' !in r.value.0 && ',' !in r.value.1
    ensures r.None? ==> forall a, b :: s == a + "," + b ==> ',' in a || ',' in b
  {
    if s == [] then None
    else if s[0] == ',' then
      OnlyComma(s);
      if ',' in s[1..] then None else Some(([], s[1..]))
    else
      NotFirst(s);
      match Sides(s[1..])
      case None => None
      case Some((a, b)) => Some(([s[0]] + a, b))
  }

  lemma OnlyComma(s: string)
    requires s != [] && s[0] == ','
    ensures ',' in s[1..] ==> forall a, b :: s == a + "," + b ==> ',' in a || ',' in b
  {
    forall a, b | s == a + "," + b && ',' in s[1..]
      ensures ',' in a || ',' in b
    {
      if a == [] { assert s[1..] == b; } else { assert a[0] == s[0]; }
    }
  }

  lemma NotFirst(s: string)
    requires s != [] && s[0] != ','
    ensures forall a, b :: s == a + "," + b ==> a != [] && s[1..] == a[1..] + "," + b && (',' in a[1..] ==> ',' in a)
  {
    forall a, b | s == a + "," + b
      ensures a != [] && s[1..] == a[1..] + "," + b && (',' in a[1..] ==> ',' in a)
    {
      assert s[0] == (a + "," + b)[0];
    }
  }

  function Prefix(raw: string): string { if PREFIX <= raw then PREFIX else [] }

  /** A grid cell: at most the prefix, and two integers around one comma, each with any spaces about it. */
  predicate IsGridCell(raw: string) {
    var sides := Sides(raw[|Prefix(raw)|..]);
    sides.Some? && IsInteger(TrimBack(TrimFront(sides.value.0))) && IsInteger(TrimBack(TrimFront(sides.value.1)))
  }

  /** All spaces deleted. */
  function Squeeze(s: string): string {
    if s == [] then [] else (if s[0] == ' ' then [] else [s[0]]) + Squeeze(s[1..])
  }

  // ----- the operation ------------------------------------------------------------------------------------------

  method Trim(part: string) returns (r: string)
    ensures r == TrimBack(TrimFront(part))
  {
    r := part;
    while r != [] && r[0] == ' '
      invariant TrimFront(r) == TrimFront(part)
    {
      r := r[1..];
    }
    ghost var front := r;
    while r != [] && r[|r| - 1] == ' '
      invariant TrimBack(r) == TrimBack(front)
    {
      r := r[..|r| - 1];
    }
  }

  /** A grid cell loses its spaces, and nothing else; any other name comes back as it was. */
  method NormalizeConfiguredCell(raw: string) returns (normalized: string)
    ensures normalized == if IsGridCell(raw) then Squeeze(raw) else raw
  {
    hide IsInteger, TrimBack, TrimFront, Squeeze, Prefix;
    var prefix := Prefix(raw);
    PrefixIsPrefix(raw);
    var value := raw[|prefix|..];
    var sides := Sides(value);
    if sides.None? { return raw; }
    var x := Trim(sides.value.0);
    var y := Trim(sides.value.1);
    if !IsInteger(x) || !IsInteger(y) { return raw; }
    SqueezedCell(raw);
    normalized := prefix + x + "," + y;
    assert prefix + x + "," + y == prefix + (x + "," + y);
  }

  lemma PrefixIsPrefix(raw: string)
    ensures Prefix(raw) <= raw
  {}

  lemma SqueezedCell(raw: string)
    requires IsGridCell(raw)
    ensures var sides := Sides(raw[|Prefix(raw)|..]).value;
            Squeeze(raw) == Prefix(raw) + (TrimBack(TrimFront(sides.0)) + "," + TrimBack(TrimFront(sides.1)))
  {
    hide IsInteger, TrimBack, TrimFront;
    var prefix := Prefix(raw);
    var sides := Sides(raw[|prefix|..]).value;
    assert raw == prefix + (sides.0 + "," + sides.1);
    SqueezeJoins(prefix, sides.0 + "," + sides.1);
    SqueezeSides(sides.0, sides.1);
    SqueezeNothing(prefix);
  }

  // ----- deleting spaces ------------------------------------------------------------------------------------------

  lemma SqueezeFirst(s: string)
    requires s != []
    ensures Squeeze(s) == Squeeze([s[0]]) + Squeeze(s[1..])
  {
    assert [s[0]][1..] == [];
  }

  lemma {:induction false} SqueezeJoins(a: string, b: string)
    ensures Squeeze(a + b) == Squeeze(a) + Squeeze(b)
  {
    if a == [] {
      assert a + b == b;
    } else {
      SqueezeJoins(a[1..], b);
      var first, rest, last := Squeeze([a[0]]), Squeeze(a[1..]), Squeeze(b);
      SqueezeFirst(a);
      SqueezeFirst(a + b);
      assert (a + b)[1..] == a[1..] + b && (a + b)[0] == a[0];
      assert first + (rest + last) == first + rest + last;
    }
  }

  lemma {:induction false} SqueezeNothing(s: string)
    requires ' ' !in s
    ensures Squeeze(s) == s
  {
    if s != [] { SqueezeNothing(s[1..]); }
  }

  lemma {:induction false} SqueezeTrimmed(s: string)
    ensures Squeeze(TrimFront(s)) == Squeeze(s) && Squeeze(TrimBack(s)) == Squeeze(s)
  {
    if s != [] {
      SqueezeTrimmed(s[1..]);
      SqueezeTrimmed(s[..|s| - 1]);
      assert s == s[..|s| - 1] + [s[|s| - 1]];
      SqueezeJoins(s[..|s| - 1], [s[|s| - 1]]);
    }
  }

  lemma IntegerHasNoSpace(s: string)
    requires IsInteger(s)
    ensures ' ' !in s && ',' !in s && s != [] && s[0] != 'E'
  {
    var digits := if s[0] == '-' then s[1..] else s;
    forall c <- s
      ensures c == '-' || IsDigit(c)
    {
      var i :| 0 <= i < |s| && s[i] == c;
      if s[0] == '-' && i > 0 { assert digits[i - 1] == c; }
    }
    assert s[0] in s;
  }

  lemma SqueezeSides(a: string, b: string)
    requires IsInteger(TrimBack(TrimFront(a))) && IsInteger(TrimBack(TrimFront(b)))
    ensures Squeeze(a + "," + b) == TrimBack(TrimFront(a)) + "," + TrimBack(TrimFront(b))
  {
    hide IsInteger;
    forall s | s == a || s == b
      ensures Squeeze(s) == TrimBack(TrimFront(s))
    {
      SqueezeTrimmed(s);
      SqueezeTrimmed(TrimFront(s));
      IntegerHasNoSpace(TrimBack(TrimFront(s)));
      SqueezeNothing(TrimBack(TrimFront(s)));
    }
    SqueezeJoins(a + ",", b);
    SqueezeJoins(a, ",");
  }

  lemma {:induction false} NothingToTrim(s: string)
    requires ' ' !in s
    ensures TrimBack(TrimFront(s)) == s
  {}

  /** What has been normalized is a grid cell again and stays as it is. */
  lemma NormalizedStays(raw: string)
    requires IsGridCell(raw)
    ensures IsGridCell(Squeeze(raw)) && Squeeze(Squeeze(raw)) == Squeeze(raw)
  {
    hide IsInteger;
    var prefix := Prefix(raw);
    var sides := Sides(raw[|prefix|..]).value;
    var x, y := TrimBack(TrimFront(sides.0)), TrimBack(TrimFront(sides.1));
    SqueezedCell(raw);
    IntegerHasNoSpace(x);
    IntegerHasNoSpace(y);
    var once := prefix + (x + "," + y);
    assert Squeeze(raw) == once;
    assert Prefix(once) == prefix by { if prefix == [] { assert once[0] == x[0]; } }
    assert once[|prefix|..] == x + "," + y;
    OneSplit(x, y);
    NothingToTrim(x);
    NothingToTrim(y);
    SqueezeNothing(once);
  }

  lemma OneSplit(x: string, y: string)
    requires ',' !in x && ',' !in y
    ensures Sides(x + "," + y) == Some((x, y))
  {
    var s := x + "," + y;
    var r := Sides(s);
    assert r.Some?;
    var a, b := r.value.0, r.value.1;
    assert s[|x|] == ',' && s[|a|] == ',';
    assert (forall k :: 0 <= k < |x| ==> s[k] == x[k]) && forall k :: 0 <= k < |a| ==> s[k] == a[k];
    assert s[..|x|] == x && s[..|a|] == a && s[|x| + 1..] == y && s[|a| + 1..] == b;
  }
}
