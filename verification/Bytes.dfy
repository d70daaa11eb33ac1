/** Bytes, machine words and their little-endian encoding. */
module Bytes {

  type Byte = b: int | 0 <= b < 256
  type U16 = n: int | 0 <= n < 0x1_0000
  type U32 = n: int | 0 <= n < 0x1_0000_0000
  type U64 = n: int | 0 <= n < 0x1_0000_0000_0000_0000

  function Pow256(width: nat): nat {
    if width == 0 then 1 else 256 * Pow256(width - 1)
  }

  lemma Pow256Values()
    ensures Pow256(2) == 0x1_0000 && Pow256(4) == 0x1_0000_0000 && Pow256(8) == 0x1_0000_0000_0000_0000
  {
    assert Pow256(3) == 256 * Pow256(2);
    assert Pow256(5) == 256 * Pow256(4);
    assert Pow256(6) == 256 * Pow256(5);
    assert Pow256(7) == 256 * Pow256(6);
    assert Pow256(8) == 256 * Pow256(7);
  }

  /** The low `width` bytes of `n`, least significant first. */
  function ToLe(n: nat, width: nat): (s: seq<Byte>)
    ensures |s| == width
  {
    if width == 0 then [] else [n % 256] + ToLe(n / 256, width - 1)
  }

  function FromLe(s: seq<Byte>): nat {
    if s == [] then 0 else s[0] + 256 * FromLe(s[1..])
  }

  /** Encoding keeps a number modulo the width. */
  lemma {:induction false} FromToLe(n: nat, width: nat)
    requires n < Pow256(width)
    ensures FromLe(ToLe(n, width)) == n
  {
    if width > 0 {
      assert n / 256 < Pow256(width - 1);
      FromToLe(n / 256, width - 1);
      assert ToLe(n, width)[1..] == ToLe(n / 256, width - 1);
    }
  }

  lemma {:induction false} FromLeBound(s: seq<Byte>)
    ensures FromLe(s) < Pow256(|s|)
  {
    if s != [] {
      FromLeBound(s[1..]);
    }
  }

  /** Decoding loses nothing either. */
  lemma {:induction false} ToFromLe(s: seq<Byte>)
    ensures ToLe(FromLe(s), |s|) == s
  {
    if s != [] {
      ToFromLe(s[1..]);
      assert FromLe(s) % 256 == s[0] && FromLe(s) / 256 == FromLe(s[1..]);
      assert s == [s[0]] + s[1..];
    }
  }

  lemma WordRoundTrip16(n: U16)
    ensures FromLe(ToLe(n, 2)) == n
  {
    Pow256Values();
    FromToLe(n, 2);
  }

  lemma WordRoundTrip32(n: U32)
    ensures FromLe(ToLe(n, 4)) == n
  {
    Pow256Values();
    FromToLe(n, 4);
  }

  lemma WordRoundTrip64(n: U64)
    ensures FromLe(ToLe(n, 8)) == n
  {
    Pow256Values();
    FromToLe(n, 8);
  }

  function Get16(s: seq<Byte>): (n: U16)
    requires |s| == 2
  {
    Pow256Values();
    FromLeBound(s);
    FromLe(s)
  }

  function Get32(s: seq<Byte>): (n: U32)
    requires |s| == 4
  {
    Pow256Values();
    FromLeBound(s);
    FromLe(s)
  }

  function Get64(s: seq<Byte>): (n: U64)
    requires |s| == 8
  {
    Pow256Values();
    FromLeBound(s);
    FromLe(s)
  }
}
