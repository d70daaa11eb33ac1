/** Range scans over encoded column values, in terms of the values. */
module IndexRanges {
  import opened Options
  import opened Bytes
  import opened Values
  import opened KeyOrder
  import opened KeyEncoding
  import opened BLink
  import opened BLinkScan

  /** One end of a condition on a column. */
  datatype Limit = NoLimit | Including(v: Value) | Excluding(v: Value)

  /** The limit, if any, is a value of the same type as `v`. */
  predicate Fitting(limit: Limit, v: Value) {
    limit.NoLimit? || SameType(limit.v, v)
  }

  function BoundOf(limit: Limit): Bound
    requires limit.NoLimit? || Encodable(limit.v)
  {
    match limit
    case NoLimit => Unbounded
    case Including(v) => Included(EncodeKey(v))
    case Excluding(v) => Excluded(EncodeKey(v))
  }

  predicate AboveLimit(limit: Limit, v: Value) {
    match limit
    case NoLimit => true
    case Including(x) => Less(x, v) || Equal(x, v)
    case Excluding(x) => Less(x, v)
  }

  predicate BelowLimit(limit: Limit, v: Value) {
    match limit
    case NoLimit => true
    case Including(x) => Less(v, x) || Equal(v, x)
    case Excluding(x) => Less(v, x)
  }

  /** Comparing encodings, as a scan does, is comparing the values. */
  lemma BytesDecide(x: Value, v: Value)
    requires SameType(x, v)
    ensures BytesLess(EncodeKey(x), EncodeKey(v)) <==> Less(x, v)
    ensures !BytesLess(EncodeKey(x), EncodeKey(v)) <==> Less(v, x) || Equal(v, x)
  {
    hide EncodeKey, BytesLess, Less, Equal;
    EncodingPreservesOrder(x, v);
    EncodingPreservesOrder(v, x);
    EncodingIsInjective(x, v);
    EncodingIsInjective(v, x);
    BytesOrder();
    assert SameType(v, x);
  }

  /** The entry of a value is wanted by a scan exactly when the value lies within the limits. */
  lemma ValueIsWanted(lo: Limit, hi: Limit, v: Value, page: RidPage, slot: RidSlot)
    requires Encodable(v) && Fitting(lo, v) && Fitting(hi, v)
    ensures Wanted(BoundOf(lo), BoundOf(hi), Key(EncodeKey(v), page, slot)) <==> AboveLimit(lo, v) && BelowLimit(hi, v)
  {
    hide EncodeKey, BytesLess, Less, Equal;
    if !lo.NoLimit? {
      BytesDecide(lo.v, v);
      BytesDecide(v, lo.v);
    }
    if !hi.NoLimit? {
      BytesDecide(hi.v, v);
      BytesDecide(v, hi.v);
    }
  }

  /** Every entry of the index carries a value of one column. */
  ghost predicate ColumnIndex(pages: Pages, values: map<Key, Value>) {
    forall k :: Holds(pages, k) ==> k in values && Encodable(values[k]) && k.bytes == EncodeKey(values[k])
  }

  /**
   A complete scan lists exactly the entries whose values lie within the limits, smaller values first and
   equal ones by row id.
   */
  lemma ScanByValue(pages: Pages, values: map<Key, Value>, lo: Limit, hi: Limit, out: seq<Key>)
    requires lo.NoLimit? || Encodable(lo.v)
    requires hi.NoLimit? || Encodable(hi.v)
    requires ColumnIndex(pages, values) && Complete(pages, BoundOf(lo), BoundOf(hi), out)
    requires forall k :: k in values ==> Fitting(lo, values[k]) && Fitting(hi, values[k])
    requires forall k, l :: k in values && l in values ==> SameType(values[k], values[l])
    ensures forall k :: k in out <==>
              Holds(pages, k) && k in values && AboveLimit(lo, values[k]) && BelowLimit(hi, values[k])
    ensures forall i, j :: 0 <= i < j < |out| ==>
              && out[i] in values && out[j] in values
              && (Less(values[out[i]], values[out[j]]) ||
                  (Equal(values[out[i]], values[out[j]]) &&
                   0x1_0000 * out[i].page + out[i].slot < 0x1_0000 * out[j].page + out[j].slot))
  {
    hide EncodeKey, Less, Equal, Lt, Wanted, Holds, AboveLimit, BelowLimit, Encodable, SameType;
    forall k | Holds(pages, k)
      ensures k in values
      ensures Wanted(BoundOf(lo), BoundOf(hi), k) <==> AboveLimit(lo, values[k]) && BelowLimit(hi, values[k])
    {
      ValueIsWanted(lo, hi, values[k], k.page, k.slot);
    }
    forall i, j | 0 <= i < j < |out|
      ensures out[i] in values && out[j] in values
      ensures Less(values[out[i]], values[out[j]]) ||
              (Equal(values[out[i]], values[out[j]]) &&
               0x1_0000 * out[i].page + out[i].slot < 0x1_0000 * out[j].page + out[j].slot)
    {
      assert out[i] in out && out[j] in out;
      EntriesCompare(out[i], values[out[i]], out[j], values[out[j]]);
    }
  }

  lemma EntriesCompare(a: Key, x: Value, b: Key, y: Value)
    requires SameType(x, y) && Encodable(x) && Encodable(y) && a.bytes == EncodeKey(x) && b.bytes == EncodeKey(y)
    requires Lt(a, b)
    ensures Less(x, y) || (Equal(x, y) && 0x1_0000 * a.page + a.slot < 0x1_0000 * b.page + b.slot)
  {
    hide EncodeKey, BytesLess, Less, Equal;
    BytesDecide(x, y);
    EncodingIsInjective(x, y);
  }
}
