/** Byte strings under memcmp order, and the composite index keys (bytes, then row id) built on it. */
module KeyOrder {
  import opened Bytes

  predicate BytesLess(a: seq<Byte>, b: seq<Byte>) {
    b != [] && (a == [] || a[0] < b[0] || (a[0] == b[0] && BytesLess(a[1..], b[1..])))
  }

  /** memcmp, by indices: `a` ends where `b` goes on, or has the smaller byte where they first differ. */
  predicate ByteSmaller(a: seq<Byte>, b: seq<Byte>) {
    || (|a| < |b| && a == b[..|a|])
    || exists i :: 0 <= i < |a| && SmallerAt(a, b, i)
  }

  predicate SmallerAt(a: seq<Byte>, b: seq<Byte>, i: int) {
    0 <= i < |a| && i < |b| && a[..i] == b[..i] && a[i] < b[i]
  }

  /** A row id: 32-bit page number and 16-bit slot. */
  type RidPage = p: int | 0 <= p < 0x1_0000_0000
  type RidSlot = s: int | 0 <= s < 0x1_0000

  /** An index entry: encoded column value and the row it belongs to. */
  datatype Key = Key(bytes: seq<Byte>, page: RidPage, slot: RidSlot)

  /** The least and the greatest entry with the given bytes. */
  function FirstOf(bytes: seq<Byte>): Key {
    Key(bytes, 0, 0)
  }

  function LastOf(bytes: seq<Byte>): Key {
    Key(bytes, 0xFFFF_FFFF, 0xFFFF)
  }

  predicate Lt(a: Key, b: Key) {
    BytesLess(a.bytes, b.bytes) ||
    (a.bytes == b.bytes && (a.page < b.page || (a.page == b.page && a.slot < b.slot)))
  }

  /** The byte-by-byte comparison is memcmp. */
  lemma {:induction false} BytesLessIsMemcmp(a: seq<Byte>, b: seq<Byte>)
    ensures BytesLess(a, b) <==> ByteSmaller(a, b)
    decreases |a|
  {
    if a != [] && b != [] {
      BytesLessIsMemcmp(a[1..], b[1..]);
      if a[0] < b[0] {
        assert SmallerAt(a, b, 0);
      }
      if a[0] == b[0] {
        SmallerBehind(a, b);
      } else if ByteSmaller(a, b) {
        assert SmallerAt(a, b, 0) by { DifferFirst(a, b); }
      }
    }
  }

  lemma DifferFirst(a: seq<Byte>, b: seq<Byte>)
    requires a != [] && b != [] && a[0] != b[0] && ByteSmaller(a, b)
    ensures SmallerAt(a, b, 0)
  {
    forall i | 0 < i <= |a| && i <= |b|
      ensures a[..i] != b[..i]
    {
      assert a[..i][0] == a[0] && b[..i][0] == b[0];
    }
    assert a[..|a|] == a;
  }

  /** An equal first byte decides nothing. */
  lemma SmallerBehind(a: seq<Byte>, b: seq<Byte>)
    requires a != [] && b != [] && a[0] == b[0]
    ensures ByteSmaller(a, b) <==> ByteSmaller(a[1..], b[1..])
  {
    var x, y := a[1..], b[1..];
    assert a == [a[0]] + x && b == [b[0]] + y;
    assert |a| < |b| ==> b[..|a|] == [b[0]] + y[..|x|];
    if |a| < |b| && a == b[..|a|] {
      assert x == a[1..] == b[..|a|][1..] == y[..|x|];
    }
    forall i | 0 <= i < |x| && i < |y|
      ensures SmallerAt(a, b, i + 1) <==> SmallerAt(x, y, i)
    {
      assert a[..i + 1] == [a[0]] + x[..i] && b[..i + 1] == [b[0]] + y[..i];
      assert a[..i + 1][1..] == x[..i] && b[..i + 1][1..] == y[..i];
    }
    if i :| 0 <= i < |a| && SmallerAt(a, b, i) {
      assert SmallerAt(x, y, i - 1);
    }
    if i :| 0 <= i < |x| && SmallerAt(x, y, i) {
      assert SmallerAt(a, b, i + 1);
    }
  }

  /** Entries compare by their bytes under memcmp, equal bytes by the row id read as one number. */
  lemma LtMeans(a: Key, b: Key)
    ensures Lt(a, b) <==>
            || ByteSmaller(a.bytes, b.bytes)
            || (a.bytes == b.bytes && 0x1_0000 * a.page + a.slot < 0x1_0000 * b.page + b.slot)
  {
    hide ByteSmaller, BytesLess;
    BytesLessIsMemcmp(a.bytes, b.bytes);
  }

  lemma {:induction false} BytesIrreflexive(a: seq<Byte>)
    ensures !BytesLess(a, a)
  {
    if a != [] {
      BytesIrreflexive(a[1..]);
    }
  }

  lemma {:induction false} BytesTransitive(a: seq<Byte>, b: seq<Byte>, c: seq<Byte>)
    requires BytesLess(a, b) && BytesLess(b, c)
    ensures BytesLess(a, c)
  {
    if a != [] && a[0] == b[0] && b[0] == c[0] {
      BytesTransitive(a[1..], b[1..], c[1..]);
    }
  }

  lemma {:induction false} BytesTotal(a: seq<Byte>, b: seq<Byte>)
    ensures BytesLess(a, b) || a == b || BytesLess(b, a)
  {
    if a != [] && b != [] {
      BytesTotal(a[1..], b[1..]);
      if a[0] == b[0] && a[1..] == b[1..] {
        assert a == [a[0]] + a[1..] && b == [b[0]] + b[1..];
      }
    }
  }

  /** Composite keys are totally ordered. */
  lemma Order()
    ensures forall a :: !Lt(a, a)
    ensures forall a, b, c :: Lt(a, b) && Lt(b, c) ==> Lt(a, c)
    ensures forall a, b :: Lt(a, b) || a == b || Lt(b, a)
  {
    forall a
      ensures !Lt(a, a)
    {
      BytesIrreflexive(a.bytes);
    }
    forall a, b, c | Lt(a, b) && Lt(b, c)
      ensures Lt(a, c)
    {
      if BytesLess(a.bytes, b.bytes) && BytesLess(b.bytes, c.bytes) {
        BytesTransitive(a.bytes, b.bytes, c.bytes);
      }
    }
    forall a, b
      ensures Lt(a, b) || a == b || Lt(b, a)
    {
      BytesTotal(a.bytes, b.bytes);
    }
  }

  /** Composite order refines byte order, and the extreme row ids enclose all entries with the same bytes. */
  lemma RidBounds(k: Key, bytes: seq<Byte>)
    ensures Lt(k, FirstOf(bytes)) <==> BytesLess(k.bytes, bytes)
    ensures Lt(LastOf(bytes), k) <==> BytesLess(bytes, k.bytes)
  {
  }

  lemma BytesOrder()
    ensures forall a :: !BytesLess(a, a)
    ensures forall a, b, c :: BytesLess(a, b) && BytesLess(b, c) ==> BytesLess(a, c)
    ensures forall a, b :: BytesLess(a, b) || a == b || BytesLess(b, a)
  {
    forall a
      ensures !BytesLess(a, a)
    {
      BytesIrreflexive(a);
    }
    forall a, b, c | BytesLess(a, b) && BytesLess(b, c)
      ensures BytesLess(a, c)
    {
      BytesTransitive(a, b, c);
    }
    forall a, b
      ensures BytesLess(a, b) || a == b || BytesLess(b, a)
    {
      BytesTotal(a, b);
    }
  }

  ghost predicate Sorted(s: seq<Key>) {
    forall i, j :: 0 <= i < j < |s| ==> Lt(s[i], s[j])
  }
}
