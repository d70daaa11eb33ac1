/** LEB128 varints: seven payload bits per byte, the high bit set while more bytes follow. */
module Coding {
  import opened Options
  import opened Bytes

  const MAX_BYTES := 5

  function Varint(v: nat): (s: seq<Byte>)
    ensures |s| >= 1
  {
    if v < 0x80 then [v] else [v % 0x80 + 0x80] + Varint(v / 0x80)
  }

  function Pow128(k: nat): nat {
    if k == 0 then 1 else 0x80 * Pow128(k - 1)
  }

  /** The payload of the `k`-th byte at its place in a 32-bit word; bits shifted out are lost. */
  function Piece(b: Byte, k: nat): nat {
    (b % 0x80 * Pow128(k)) % 0x1_0000_0000
  }

  /** The word read from `pos` on, given that `k` bytes were read already, and the position behind it. */
  function ReadFrom(data: seq<Byte>, pos: nat, k: nat): Option<(nat, nat)>
    decreases MAX_BYTES - k
  {
    if k >= MAX_BYTES || pos >= |data| then None
    else if data[pos] < 0x80 then Some((Piece(data[pos], k), pos + 1))
    else Plus(Piece(data[pos], k), ReadFrom(data, pos + 1, k + 1))
  }

  function Plus(low: nat, rest: Option<(nat, nat)>): Option<(nat, nat)> {
    if rest.None? then None else Some((low + rest.value.0, rest.value.1))
  }

  method Put(buf: seq<Byte>, value: U32) returns (r: seq<Byte>)
    ensures r == buf + Varint(value)
  {
    r := buf;
    var v: nat := value;
    while v >= 0x80
      invariant r + Varint(v) == buf + Varint(value)
    {
      ghost var before := r;
      r := r + [v % 0x80 + 0x80];
      assert before + Varint(v) == r + Varint(v / 0x80);
      v := v / 0x80;
    }
    r := r + [v];
  }

  method Get(data: seq<Byte>, pos: nat) returns (r: Option<(nat, nat)>)
    ensures r == ReadFrom(data, pos, 0)
  {
    hide Piece, Pow128;
    var result: nat, at: nat, k: nat := 0, pos, 0;
    while k < MAX_BYTES
      invariant 0 <= k <= MAX_BYTES && at == pos + k && result >= 0
      invariant ReadFrom(data, pos, 0) == Plus(result, ReadFrom(data, at, k))
    {
      if at >= |data| {
        return None;
      }
      var b := data[at];
      at := at + 1;
      result := result + Piece(b, k);
      if b < 0x80 {
        return Some((result, at));
      }
      k := k + 1;
    }
    return None;
  }

  lemma Pow128Values()
    ensures Pow128(0) == 1 && Pow128(1) == 0x80 && Pow128(2) == 0x4000 && Pow128(3) == 0x20_0000
    ensures Pow128(4) == 0x1000_0000
  {
    assert Pow128(4) == 0x80 * Pow128(3);
    assert Pow128(3) == 0x80 * Pow128(2);
  }

  /** What remains to be read after `k` bytes fits the bits that remain. */
  ghost predicate Remains(v: nat, k: nat) {
    k < MAX_BYTES && v * Pow128(k) < 0x1_0000_0000
  }

  /** Within the word no bit is lost. */
  lemma PieceExact(b: Byte, k: nat, v: nat)
    requires b % 0x80 <= v && Remains(v, k)
    ensures Piece(b, k) == b % 0x80 * Pow128(k)
  {
    assert b % 0x80 * Pow128(k) <= v * Pow128(k);
  }

  lemma SplitWord(v: nat, k: nat)
    ensures v * Pow128(k) == v % 0x80 * Pow128(k) + v / 0x80 * Pow128(k + 1)
  {
    var low, high, p := v % 0x80, v / 0x80, Pow128(k);
    assert v == low + 0x80 * high;
    assert Pow128(k + 1) == 0x80 * p;
    assert (low + 0x80 * high) * p == low * p + high * (0x80 * p);
  }

  lemma {:induction false} ReadBack(v: nat, k: nat, before: seq<Byte>, rest: seq<Byte>)
    requires Remains(v, k)
    ensures ReadFrom(before + Varint(v) + rest, |before|, k) == Some((v * Pow128(k), |before| + |Varint(v)|))
    decreases v
  {
    hide Pow128, Piece;
    var data := before + Varint(v) + rest;
    var b: Byte := if v < 0x80 then v else v % 0x80 + 0x80;
    assert data[|before|] == Varint(v)[0] == b && b % 0x80 == v % 0x80;
    PieceExact(b, k, v);
    if v >= 0x80 {
      var high := v / 0x80;
      SplitWord(v, k);
      MoreToCome(v, k);
      ReadBack(high, k + 1, before + [b], rest);
      assert data == (before + [b]) + Varint(high) + rest;
    }
  }

  lemma MoreToCome(v: nat, k: nat)
    requires Remains(v, k) && v >= 0x80
    ensures Remains(v / 0x80, k + 1)
  {
    Pow128Values();
    var high := v / 0x80;
    assert k != 4 by {
      assert v * Pow128(4) >= 0x80 * Pow128(4);
    }
    assert high * Pow128(k + 1) == (high * 0x80) * Pow128(k);
    assert (high * 0x80) * Pow128(k) <= v * Pow128(k);
  }

  /** Every 32-bit value is read back, wherever it stands. */
  lemma RoundTrip(v: U32, before: seq<Byte>, rest: seq<Byte>)
    ensures ReadFrom(before + Varint(v) + rest, |before|, 0) == Some((v, |before| + |Varint(v)|))
  {
    ReadBack(v, 0, before, rest);
  }
}
