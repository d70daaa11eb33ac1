/** Column values and their order-preserving byte encoding, which index pages and hash tables compare bytewise. */
module KeyEncoding {
  import opened Bytes
  import opened Values
  import opened KeyOrder

  const SIGN64: int := 0x8000_0000_0000_0000
  const SIGN32: int := 0x8000_0000

  /** Sign and magnitude as one integer: patterns that are not NaN compare as these do, and both zeros are equal. */
  function FloatRank(bits: U64): int {
    if bits >= SIGN64 then -(bits - SIGN64) else bits
  }

  predicate IsNan(bits: U64) {
    bits % SIGN64 > 0x7FF0_0000_0000_0000
  }

  const FRACTION: nat := 0x10_0000_0000_0000

  function Pow2(n: nat): nat {
    if n == 0 then 1 else 2 * Pow2(n - 1)
  }

  /** What a pattern without its sign bit denotes, in units of two to the -1074: 11 exponent bits, 52 of fraction. */
  function Magnitude(m: nat): int {
    var e, f := m / FRACTION, m % FRACTION;
    if e == 0 then f else (FRACTION + f) * Pow2(e - 1)
  }

  /** The number an IEEE double denotes, in the same units; an infinity lies beyond all finite numbers. */
  function FloatValue(bits: U64): int {
    if bits >= SIGN64 then -Magnitude(bits - SIGN64) else Magnitude(bits)
  }

  lemma {:induction false} Pow2Ascends(m: nat, n: nat)
    requires m <= n
    ensures 0 < Pow2(m) <= Pow2(n)
    decreases n
  {
    if m < n {
      Pow2Ascends(m, n - 1);
    } else if n > 0 {
      Pow2Ascends(m - 1, n - 1);
    }
  }

  lemma Times(a: nat, b: nat, c: nat)
    requires a < b && c > 0
    ensures a * c < b * c
  {
  }

  /** A larger exponent outweighs every fraction. */
  lemma MagnitudeAscends(m: nat, n: nat)
    requires m < n
    ensures Magnitude(m) < Magnitude(n)
  {
    var e, f, g, h := m / FRACTION, m % FRACTION, n / FRACTION, n % FRACTION;
    assert e <= g;
    if e == g {
      assert f < h;
      if e > 0 {
        Pow2Ascends(0, e - 1);
        Times(FRACTION + f, FRACTION + h, Pow2(e - 1));
      }
    } else {
      Pow2Ascends(e, g - 1);
      MagnitudeBelow(m, e);
      assert FRACTION * Pow2(e) <= FRACTION * Pow2(g - 1) <= (FRACTION + h) * Pow2(g - 1);
    }
  }

  lemma MagnitudeBelow(m: nat, e: nat)
    requires e == m / FRACTION
    ensures Magnitude(m) < FRACTION * Pow2(e)
  {
    if e > 0 {
      Pow2Ascends(0, e - 1);
      Times(FRACTION + m % FRACTION, 2 * FRACTION, Pow2(e - 1));
    }
  }

  /** Comparing ranks is comparing numbers. */
  lemma RankIsValue(x: U64, y: U64)
    ensures FloatRank(x) < FloatRank(y) <==> FloatValue(x) < FloatValue(y)
  {
    hide Magnitude;
    var a, b := if x >= SIGN64 then x - SIGN64 else x, if y >= SIGN64 then y - SIGN64 else y;
    if a < b {
      MagnitudeAscends(a, b);
    } else if b < a {
      MagnitudeAscends(b, a);
    }
    if a > 0 {
      MagnitudeAscends(0, a);
    }
    if b > 0 {
      MagnitudeAscends(0, b);
    }
    assert Magnitude(0) == 0 by { ZeroMagnitude(); }
  }

  lemma ZeroMagnitude()
    ensures Magnitude(0) == 0
  {
  }

  // ------------------------------------------------------------------ big-endian words

  function ToBe(n: nat, width: nat): (s: seq<Byte>)
    ensures |s| == width
  {
    if width == 0 then [] else ToBe(n / 256, width - 1) + [n % 256]
  }

  /** For equally long strings the last byte decides only between equal beginnings. */
  lemma {:induction false} LastDecides(a: seq<Byte>, x: Byte, b: seq<Byte>, y: Byte)
    requires |a| == |b|
    ensures BytesLess(a + [x], b + [y]) <==> BytesLess(a, b) || (a == b && x < y)
    decreases |a|
  {
    var p, q := a + [x], b + [y];
    if a == [] {
      assert p[1..] == [] && q[1..] == [];
    } else {
      assert p[1..] == a[1..] + [x] && q[1..] == b[1..] + [y];
      LastDecides(a[1..], x, b[1..], y);
      assert a == [a[0]] + a[1..] && b == [b[0]] + b[1..];
    }
  }

  /** Numeric order is byte order. */
  lemma {:induction false} BeOrder(m: nat, n: nat, width: nat)
    requires m < Pow256(width) && n < Pow256(width)
    ensures BytesLess(ToBe(m, width), ToBe(n, width)) <==> m < n
    ensures ToBe(m, width) == ToBe(n, width) <==> m == n
    decreases width
  {
    if width > 0 {
      var a, b := ToBe(m / 256, width - 1), ToBe(n / 256, width - 1);
      BeOrder(m / 256, n / 256, width - 1);
      LastDecides(a, m % 256, b, n % 256);
      assert (a + [m % 256])[..width - 1] == a && (b + [n % 256])[..width - 1] == b;
      assert (a + [m % 256])[width - 1] == m % 256 && (b + [n % 256])[width - 1] == n % 256;
    }
  }

  // ------------------------------------------------------------------ the encoding

  const TAG_NULL: Byte := 0
  const TAG_INT: Byte := 1
  const TAG_FLOAT: Byte := 2
  const TAG_STR: Byte := 3
  const TAG_DATE: Byte := 4

  /** The sign bit flipped: negative numbers come first. */
  function FlipInt(n: I64): U64 {
    n + SIGN64
  }

  function FlipDate(n: I32): U32 {
    n + SIGN32
  }

  /** Negative patterns are complemented, positive ones get the sign bit; minus zero counts as zero. */
  function FlipFloat(bits: U64): U64 {
    var x := if bits == SIGN64 then 0 else bits;
    if x >= SIGN64 then 0xFFFF_FFFF_FFFF_FFFF - x else x + SIGN64
  }

  /** Booleans cannot be keys. */
  predicate Encodable(v: Value) {
    !v.Bool?
  }

  function EncodeKey(v: Value): (s: seq<Byte>)
    requires Encodable(v)
    ensures s != []
  {
    Pow256Values();
    match v
    case Null => [TAG_NULL]
    case Int(i) => [TAG_INT] + ToBe(FlipInt(i), 8)
    case Float(bits) => [TAG_FLOAT] + ToBe(FlipFloat(bits), 8)
    case Str(s) => [TAG_STR] + s + [0]
    case Date(d) => [TAG_DATE] + ToBe(FlipDate(d), 4)
  }

  /** How two values of one type compare. */
  predicate Less(a: Value, b: Value) {
    match a
    case Int(i) => b.Int? && i < b.n
    case Float(x) => b.Float? && FloatValue(x) < FloatValue(b.bits)
    case Str(s) => b.Str? && ByteSmaller(s, b.text)
    case Date(d) => b.Date? && d < b.d
    case _ => false
  }

  predicate SameType(a: Value, b: Value) {
    (a.Int? && b.Int?) || (a.Float? && b.Float?) || (a.Str? && b.Str?) || (a.Date? && b.Date?)
  }

  lemma FlipFloatOrder(x: U64, y: U64)
    ensures FlipFloat(x) < FlipFloat(y) <==> FloatRank(x) < FloatRank(y)
  {
  }

  /** A terminator does not disturb the order, whatever bytes the strings hold. */
  lemma {:induction false} TerminatedOrder(a: seq<Byte>, b: seq<Byte>)
    ensures BytesLess(a + [0], b + [0]) <==> BytesLess(a, b)
    decreases |a|
  {
    var x, y := a + [0], b + [0];
    if a == [] && b == [] {
      BytesIrreflexive([0]);
    } else if a == [] {
      assert x[1..] == [] && y[0] == b[0] && y[1..] != [];
    } else if b == [] {
      assert y[1..] == [] && x[0] == a[0];
    } else {
      assert x[1..] == a[1..] + [0] && y[1..] == b[1..] + [0];
      TerminatedOrder(a[1..], b[1..]);
    }
  }

  lemma TaggedOrder(tag: Byte, a: seq<Byte>, b: seq<Byte>)
    ensures BytesLess([tag] + a, [tag] + b) <==> BytesLess(a, b)
  {
    assert ([tag] + a)[1..] == a && ([tag] + b)[1..] == b;
  }

  /** Within a type, byte order of the encodings is the order of the values. */
  lemma EncodingPreservesOrder(a: Value, b: Value)
    requires SameType(a, b)
    ensures BytesLess(EncodeKey(a), EncodeKey(b)) <==> Less(a, b)
  {
    Pow256Values();
    match a {
      case Int(i) =>
        BeOrder(FlipInt(i), FlipInt(b.n), 8);
        TaggedOrder(TAG_INT, ToBe(FlipInt(i), 8), ToBe(FlipInt(b.n), 8));
      case Float(x) =>
        RankIsValue(x, b.bits);
        FlipFloatOrder(x, b.bits);
        BeOrder(FlipFloat(x), FlipFloat(b.bits), 8);
        TaggedOrder(TAG_FLOAT, ToBe(FlipFloat(x), 8), ToBe(FlipFloat(b.bits), 8));
      case Str(s) =>
        BytesLessIsMemcmp(s, b.text);
        TerminatedOrder(s, b.text);
        TaggedOrder(TAG_STR, s + [0], b.text + [0]);
        assert [TAG_STR] + s + [0] == [TAG_STR] + (s + [0]) && [TAG_STR] + b.text + [0] == [TAG_STR] + (b.text + [0]);
      case Date(d) =>
        BeOrder(FlipDate(d), FlipDate(b.d), 4);
        TaggedOrder(TAG_DATE, ToBe(FlipDate(d), 4), ToBe(FlipDate(b.d), 4));
    }
  }

  /** NULL sorts before every value. */
  lemma NullsFirst(v: Value)
    requires Encodable(v) && !v.Null?
    ensures BytesLess(EncodeKey(Null), EncodeKey(v)) && !BytesLess(EncodeKey(v), EncodeKey(Null))
  {
    assert EncodeKey(v)[0] != 0;
  }

  /** Values are equal in the sense of a comparison: neither is less. */
  predicate Equal(a: Value, b: Value) {
    SameType(a, b) && !Less(a, b) && !Less(b, a)
  }

  /** Equal encodings mean equal values, and the other way round. */
  lemma EncodingIsInjective(a: Value, b: Value)
    requires SameType(a, b)
    ensures EncodeKey(a) == EncodeKey(b) <==> Equal(a, b)
  {
    EncodingPreservesOrder(a, b);
    EncodingPreservesOrder(b, a);
    BytesTotal(EncodeKey(a), EncodeKey(b));
    BytesIrreflexive(EncodeKey(a));
  }
}
