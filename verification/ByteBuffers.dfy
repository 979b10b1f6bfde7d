/** The little-endian Writer and Reader of the crime journal.

  A value's wire form is described twice: `PutX(acc, v)` is the buffer `acc` after the value has
  been appended, and `ParseX(b, p)` is what reading at position `p` of `b` yields. Every format
  satisfies the same two laws, called `XReads` and `XWasPut`:
   - if `PutX(b[..p], v)` is a prefix of `b`, parsing at `p` gives `v` and ends where `v` ends;
   - if parsing at `p` gives `v` and ends at `q`, then `b[..q]` is exactly `PutX(b[..p], v)`.
*/
module ByteBuffers {
  import opened Wrappers

  type u8 = x: int | 0 <= x < 0x100
  type u16 = x: int | 0 <= x < 0x1_0000
  type u32 = x: int | 0 <= x < 0x1_0000_0000
  type u64 = x: int | 0 <= x < 0x1_0000_0000_0000_0000
  type i32 = x: int | -0x8000_0000 <= x < 0x8000_0000
  type i64 = x: int | -0x8000_0000_0000_0000 <= x < 0x8000_0000_0000_0000

  const MAX_I32 := 0x7fff_ffff

  type Bytes = seq<u8>
  /** A std::string whose size fits the 32-bit length prefix. */
  type Text = s: seq<u8> | |s| < 0x1_0000_0000 witness []

  predicate NoNul(s: Bytes) { 0 !in s }

  /** What a text column keeps of a string that is bound as a C string: the part before the first NUL. */
  function Cut(s: Bytes): (r: Bytes)
    ensures NoNul(r) && r <= s && (r == s <==> NoNul(s))
    decreases |s|
  {
    if s == [] || s[0] == 0 then []
    else
      var rest := Cut(s[1..]);
      assert NoNul(s) ==> NoNul(s[1..]);
      [s[0]] + rest
  }

  /** Outcome of reading one value: the exceptions of Reader are all `Malformed`. */
  datatype Parse<+T> = Malformed | Parsed(value: T, next: nat) {
    predicate IsFailure() { Malformed? }

    function PropagateFailure<U>(): Parse<U>
      requires Malformed?
    {
      Malformed
    }

    function Extract(): (T, nat)
      requires Parsed?
    {
      (value, next)
    }
  }

  // ----- integers ---------------------------------------------------------------------------

  function Pow256(n: nat): (r: nat)
    ensures r >= 1
  {
    if n == 0 then 1 else 256 * Pow256(n - 1)
  }

  lemma Widths()
    ensures Pow256(1) == 0x100
    ensures Pow256(2) == 0x1_0000
    ensures Pow256(4) == 0x1_0000_0000
    ensures Pow256(8) == 0x1_0000_0000_0000_0000
  {
    assert Pow256(2) == 256 * Pow256(1);
    assert Pow256(3) == 256 * Pow256(2);
    assert Pow256(4) == 256 * Pow256(3);
    assert Pow256(5) == 256 * Pow256(4);
    assert Pow256(6) == 256 * Pow256(5);
    assert Pow256(7) == 256 * Pow256(6);
    assert Pow256(8) == 256 * Pow256(7);
  }

  function PutInt(acc: Bytes, v: nat, width: nat): (r: Bytes)
    ensures acc <= r && |r| == |acc| + width
    decreases width
  {
    if width == 0 then acc else PutInt(acc + [v % 256], v / 256, width - 1)
  }

  function ParseInt(b: Bytes, p: nat, width: nat): (r: Parse<nat>)
    ensures r.Parsed? <==> p + width <= |b| || width == 0
    ensures r.Parsed? ==> r.value < Pow256(width) && r.next == p + width
    decreases width
  {
    if width == 0 then Parsed(0, p)
    else if p >= |b| then Malformed
    else
      var (high, q) :- ParseInt(b, p + 1, width - 1);
      Parsed(b[p] + 256 * high, q)
  }

  lemma {:induction false} IntReads(b: Bytes, p: nat, v: nat, width: nat)
    requires p <= |b| && v < Pow256(width) && PutInt(b[..p], v, width) <= b
    ensures ParseInt(b, p, width) == Parsed(v, p + width)
    decreases width
  {
    if width > 0 {
      var head := b[..p] + [v % 256];
      assert head <= PutInt(b[..p], v, width);
      assert head == b[..p + 1];
      IntReads(b, p + 1, v / 256, width - 1);
    }
  }

  lemma {:induction false} IntWasPut(b: Bytes, p: nat, width: nat)
    requires p <= |b| && ParseInt(b, p, width).Parsed?
    ensures p + width <= |b|
    ensures b[..p + width] == PutInt(b[..p], ParseInt(b, p, width).value, width)
    decreases width
  {
    if width > 0 {
      IntWasPut(b, p + 1, width - 1);
      assert b[..p + 1] == b[..p] + [b[p]];
    }
  }

  /** One more byte is the most significant one read so far. */
  lemma {:induction false} OneMoreByte(b: Bytes, p: nat, width: nat)
    requires p + width < |b|
    ensures ParseInt(b, p, width + 1).value == ParseInt(b, p, width).value + Pow256(width) * b[p + width]
    decreases width
  {
    if width > 0 {
      OneMoreByte(b, p + 1, width - 1);
      ScaleUp(ParseInt(b, p + 1, width - 1).value, Pow256(width - 1), b[p + width]);
    }
  }

  lemma ScaleUp(low: int, scale: int, high: int)
    ensures 256 * (low + scale * high) == 256 * low + (256 * scale) * high
  {
  }

  lemma SliceIsPrefix(b: Bytes, p: nat, part: Bytes)
    requires p <= |b|
    ensures b[..p] + part <= b <==> p + |part| <= |b| && b[p..p + |part|] == part
  {
    if p + |part| <= |b| {
      var q := p + |part|;
      assert b[..p] + b[p..q] == b[..q];
      if b[..p] + part == b[..q] {
        assert part == (b[..p] + part)[p..] == b[..q][p..] == b[p..q];
      }
    }
  }

  function Unsigned(v: i32): u32 { if v < 0 then v + 0x1_0000_0000 else v }
  function Signed(v: u32): i32 { if v >= 0x8000_0000 then v - 0x1_0000_0000 else v }
  function Unsigned64(v: i64): u64 { if v < 0 then v + 0x1_0000_0000_0000_0000 else v }

  function PutU8(acc: Bytes, v: u8): (r: Bytes) ensures acc <= r { PutInt(acc, v, 1) }
  function PutU16(acc: Bytes, v: u16): (r: Bytes) ensures acc <= r { PutInt(acc, v, 2) }
  function PutU32(acc: Bytes, v: u32): (r: Bytes) ensures acc <= r { PutInt(acc, v, 4) }
  function PutU64(acc: Bytes, v: u64): (r: Bytes) ensures acc <= r { PutInt(acc, v, 8) }
  function PutI32(acc: Bytes, v: i32): (r: Bytes) ensures acc <= r { PutU32(acc, Unsigned(v)) }
  function PutBool(acc: Bytes, v: bool): (r: Bytes) ensures acc <= r { PutU8(acc, if v then 1 else 0) }

  function ParseU8(b: Bytes, p: nat): Parse<u8>
  {
    Widths();
    var (v, q) :- ParseInt(b, p, 1);
    Parsed(v, q)
  }

  function ParseU16(b: Bytes, p: nat): Parse<u16>
  {
    Widths();
    var (v, q) :- ParseInt(b, p, 2);
    Parsed(v, q)
  }

  function ParseU32(b: Bytes, p: nat): Parse<u32>
  {
    Widths();
    var (v, q) :- ParseInt(b, p, 4);
    Parsed(v, q)
  }

  function ParseU64(b: Bytes, p: nat): Parse<u64>
  {
    Widths();
    var (v, q) :- ParseInt(b, p, 8);
    Parsed(v, q)
  }

  function ParseI32(b: Bytes, p: nat): Parse<i32>
  {
    var (v, q) :- ParseU32(b, p);
    Parsed(Signed(v), q)
  }

  function ParseBool(b: Bytes, p: nat): Parse<bool>
  {
    var (v, q) :- ParseU8(b, p);
    if v > 1 then Malformed else Parsed(v == 1, q)
  }

  lemma U8Reads(b: Bytes, p: nat, v: u8)
    requires p <= |b| && PutU8(b[..p], v) <= b
    ensures ParseU8(b, p) == Parsed(v, p + 1) && p + 1 <= |b| && b[..p + 1] == PutU8(b[..p], v)
  {
    Widths();
    IntReads(b, p, v, 1);
    IntWasPut(b, p, 1);
  }

  lemma U16Reads(b: Bytes, p: nat, v: u16)
    requires p <= |b| && PutU16(b[..p], v) <= b
    ensures ParseU16(b, p) == Parsed(v, p + 2) && p + 2 <= |b| && b[..p + 2] == PutU16(b[..p], v)
  {
    Widths();
    IntReads(b, p, v, 2);
    IntWasPut(b, p, 2);
  }

  lemma U32Reads(b: Bytes, p: nat, v: u32)
    requires p <= |b| && PutU32(b[..p], v) <= b
    ensures ParseU32(b, p) == Parsed(v, p + 4) && p + 4 <= |b| && b[..p + 4] == PutU32(b[..p], v)
  {
    Widths();
    IntReads(b, p, v, 4);
    IntWasPut(b, p, 4);
  }

  lemma U64Reads(b: Bytes, p: nat, v: u64)
    requires p <= |b| && PutU64(b[..p], v) <= b
    ensures ParseU64(b, p) == Parsed(v, p + 8) && p + 8 <= |b| && b[..p + 8] == PutU64(b[..p], v)
  {
    Widths();
    IntReads(b, p, v, 8);
    IntWasPut(b, p, 8);
  }

  lemma I32Reads(b: Bytes, p: nat, v: i32)
    requires p <= |b| && PutI32(b[..p], v) <= b
    ensures ParseI32(b, p) == Parsed(v, p + 4) && p + 4 <= |b| && b[..p + 4] == PutI32(b[..p], v)
  {
    U32Reads(b, p, Unsigned(v));
  }

  lemma BoolReads(b: Bytes, p: nat, v: bool)
    requires p <= |b| && PutBool(b[..p], v) <= b
    ensures ParseBool(b, p) == Parsed(v, p + 1) && p + 1 <= |b| && b[..p + 1] == PutBool(b[..p], v)
  {
    U8Reads(b, p, if v then 1 else 0);
  }

  lemma U8WasPut(b: Bytes, p: nat)
    requires p <= |b| && ParseU8(b, p).Parsed?
    ensures ParseU8(b, p).next == p + 1 <= |b| && b[..p + 1] == PutU8(b[..p], ParseU8(b, p).value)
  {
    IntWasPut(b, p, 1);
  }

  lemma U16WasPut(b: Bytes, p: nat)
    requires p <= |b| && ParseU16(b, p).Parsed?
    ensures ParseU16(b, p).next == p + 2 <= |b| && b[..p + 2] == PutU16(b[..p], ParseU16(b, p).value)
  {
    IntWasPut(b, p, 2);
  }

  lemma U32WasPut(b: Bytes, p: nat)
    requires p <= |b| && ParseU32(b, p).Parsed?
    ensures ParseU32(b, p).next == p + 4 <= |b| && b[..p + 4] == PutU32(b[..p], ParseU32(b, p).value)
  {
    IntWasPut(b, p, 4);
  }

  lemma U64WasPut(b: Bytes, p: nat)
    requires p <= |b| && ParseU64(b, p).Parsed?
    ensures ParseU64(b, p).next == p + 8 <= |b| && b[..p + 8] == PutU64(b[..p], ParseU64(b, p).value)
  {
    IntWasPut(b, p, 8);
  }

  lemma I32WasPut(b: Bytes, p: nat)
    requires p <= |b| && ParseI32(b, p).Parsed?
    ensures ParseI32(b, p).next == p + 4 <= |b| && b[..p + 4] == PutI32(b[..p], ParseI32(b, p).value)
  {
    U32WasPut(b, p);
  }

  lemma BoolWasPut(b: Bytes, p: nat)
    requires p <= |b| && ParseBool(b, p).Parsed?
    ensures ParseBool(b, p).next == p + 1 <= |b| && b[..p + 1] == PutBool(b[..p], ParseBool(b, p).value)
  {
    U8WasPut(b, p);
  }

  // ----- strings ----------------------------------------------------------------------------

  function PutText(acc: Bytes, s: Text): (r: Bytes) ensures acc <= r { PutU32(acc, |s|) + s }

  /** Reader::string: a length above `maximum` or beyond the end is refused. */
  function ParseText(b: Bytes, p: nat, maximum: nat): Parse<Text>
  {
    var (size, q) :- ParseU32(b, p);
    if size > maximum || q + size > |b| then Malformed else Parsed(b[q..q + size], q + size)
  }

  lemma TextReads(b: Bytes, p: nat, s: Text, maximum: nat)
    requires p <= |b| && PutText(b[..p], s) <= b && |s| <= maximum
    ensures ParseText(b, p, maximum) == Parsed(s, p + 4 + |s|)
    ensures p + 4 + |s| <= |b| && b[..p + 4 + |s|] == PutText(b[..p], s)
  {
    U32Reads(b, p, |s|);
    assert b[p + 4..p + 4 + |s|] == s;
  }

  lemma TextWasPut(b: Bytes, p: nat, maximum: nat)
    requires p <= |b| && ParseText(b, p, maximum).Parsed?
    ensures var Parsed(s, q) := ParseText(b, p, maximum);
            |s| <= maximum && p <= q <= |b| && b[..q] == PutText(b[..p], s)
  {
    U32WasPut(b, p);
    var Parsed(s, q) := ParseText(b, p, maximum);
    assert b[..q] == b[..p + 4] + s;
  }

  // ----- the two classes --------------------------------------------------------------------

  class Writer {
    var bytes: Bytes

    constructor ()
      ensures bytes == []
    {
      bytes := [];
    }

    method U8(value: u8)
      modifies this
      ensures bytes == PutU8(old(bytes), value)
    {
      bytes := bytes + [value];
      assert PutInt(old(bytes), value, 1) == PutInt(bytes, value / 256, 0);
    }

    /** The shift loop shared by u16, u32 and u64. */
    method Little(value: nat, width: nat)
      modifies this
      ensures bytes == PutInt(old(bytes), value, width)
    {
      var rest := value;
      for i := 0 to width
        invariant PutInt(bytes, rest, width - i) == PutInt(old(bytes), value, width)
      {
        bytes := bytes + [rest % 256];
        rest := rest / 256;
      }
    }

    method U16(value: u16)
      modifies this
      ensures bytes == PutU16(old(bytes), value)
    {
      Little(value, 2);
    }

    method U32(value: u32)
      modifies this
      ensures bytes == PutU32(old(bytes), value)
    {
      Little(value, 4);
    }

    method U64(value: u64)
      modifies this
      ensures bytes == PutU64(old(bytes), value)
    {
      Little(value, 8);
    }

    method I32(value: i32)
      modifies this
      ensures bytes == PutI32(old(bytes), value)
    {
      U32(Unsigned(value));
    }

    method Bool(value: bool)
      modifies this
      ensures bytes == PutBool(old(bytes), value)
    {
      U8(if value then 1 else 0);
    }

    method String(value: Text)
      modifies this
      ensures bytes == PutText(old(bytes), value)
    {
      U32(|value|);
      bytes := bytes + value;
    }

    method Fixed(value: Bytes)
      modifies this
      ensures bytes == old(bytes) + value
    {
      bytes := bytes + value;
    }
  }

  class Reader {
    const bytes: Bytes
    var position: nat

    ghost predicate Valid()
      reads this
    {
      position <= |bytes|
    }

    /** `r` and the current position are what `parsed` says; None stands for a thrown exception. */
    ghost predicate Yields<T>(r: Option<T>, parsed: Parse<T>)
      reads this
    {
      match parsed
      case Malformed => r.None?
      case Parsed(v, q) => r == Some(v) && position == q
    }

    constructor (bytes: Bytes)
      ensures this.bytes == bytes && position == 0 && Valid()
    {
      this.bytes := bytes;
      position := 0;
    }

    method U8() returns (r: Option<u8>)
      requires Valid()
      modifies this
      ensures Valid() && Yields(r, ParseU8(bytes, old(position)))
    {
      if |bytes| - position < 1 { return None; }
      assert ParseInt(bytes, position, 1) == Parsed(bytes[position] + 256 * 0, position + 1) by {
        assert ParseInt(bytes, position + 1, 0) == Parsed(0, position + 1);
      }
      r := Some(bytes[position]);
      position := position + 1;
    }

    /** The accumulating loop shared by u16, u32 and u64. */
    method Little(width: nat) returns (r: Option<nat>)
      requires Valid()
      modifies this
      ensures Valid() && Yields(r, ParseInt(bytes, old(position), width))
    {
      var value: nat, scale: nat := 0, 1;
      for i := 0 to width
        invariant Valid() && position == old(position) + i && scale == Pow256(i)
        invariant ParseInt(bytes, old(position), i) == Parsed(value, position)
      {
        if |bytes| - position < 1 { return None; }
        OneMoreByte(bytes, old(position), i);
        value := value + scale * bytes[position];
        scale := scale * 256;
        position := position + 1;
      }
      r := Some(value);
    }

    method U16() returns (r: Option<u16>)
      requires Valid()
      modifies this
      ensures Valid() && Yields(r, ParseU16(bytes, old(position)))
    {
      Widths();
      var v :- Little(2);
      r := Some(v);
    }

    method U32() returns (r: Option<u32>)
      requires Valid()
      modifies this
      ensures Valid() && Yields(r, ParseU32(bytes, old(position)))
    {
      Widths();
      var v :- Little(4);
      r := Some(v);
    }

    method U64() returns (r: Option<u64>)
      requires Valid()
      modifies this
      ensures Valid() && Yields(r, ParseU64(bytes, old(position)))
    {
      Widths();
      var v :- Little(8);
      r := Some(v);
    }

    method I32() returns (r: Option<i32>)
      requires Valid()
      modifies this
      ensures Valid() && Yields(r, ParseI32(bytes, old(position)))
    {
      var v :- U32();
      r := Some(Signed(v));
    }

    method Boolean() returns (r: Option<bool>)
      requires Valid()
      modifies this
      ensures Valid() && Yields(r, ParseBool(bytes, old(position)))
    {
      var v :- U8();
      if v > 1 { return None; }
      r := Some(v == 1);
    }

    method String(maximum: nat) returns (r: Option<Text>)
      requires Valid()
      modifies this
      ensures Valid() && Yields(r, ParseText(bytes, old(position), maximum))
    {
      var size :- U32();
      if size > maximum || |bytes| - position < size { return None; }
      r := Some(bytes[position..position + size]);
      position := position + size;
    }

    /** Reader::expect: the next bytes must be exactly `expected`. */
    method Expect(expected: Bytes) returns (ok: bool)
      requires Valid()
      modifies this
      ensures Valid()
      ensures ok <==> bytes[..old(position)] + expected <= bytes
      ensures ok ==> position == old(position) + |expected|
    {
      ok := |bytes| - position >= |expected| && bytes[position..position + |expected|] == expected;
      SliceIsPrefix(bytes, position, expected);
      if ok { position := position + |expected|; }
    }

    method Finish() returns (ok: bool)
      ensures ok <==> position == |bytes|
    {
      ok := position == |bytes|;
    }
  }
}
