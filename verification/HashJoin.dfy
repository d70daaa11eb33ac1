/** The hash join against the nested-loop join: same rows, same order. */
module HashJoin {
  import opened Options
  import opened Bytes
  import opened Values
  import opened KeyEncoding
  import opened JoinExpr
  import opened JoinKeys

  // ------------------------------------------------------------------ key bytes

  /** A component is preceded by its length, so components cannot run together. */
  function Component(v: Value): seq<Byte>
    requires Encodable(v)
  {
    ToLe(|EncodeKey(v)| % 0x1_0000_0000, 4) + EncodeKey(v)
  }

  predicate Hashable(row: Row, keys: seq<nat>) {
    forall i :: 0 <= i < |keys| ==> keys[i] < |row| && Encodable(row[keys[i]])
  }

  /** The key of a row, or nothing if one of its columns is NULL. */
  function KeyOf(row: Row, keys: seq<nat>): Option<seq<Byte>>
    requires Hashable(row, keys)
  {
    if keys == [] then Some([])
    else if row[keys[0]].Null? then None
    else Prepend(Component(row[keys[0]]), KeyOf(row, keys[1..]))
  }

  method PushKeyComponent(out: seq<Byte>, v: Value) returns (ok: bool, r: seq<Byte>)
    requires Encodable(v)
    ensures ok == !v.Null? && r == if ok then out + Component(v) else out
  {
    hide EncodeKey, ToLe;
    if v.Null? {
      return false, out;
    }
    var start := |out|;
    r := out + [0, 0, 0, 0];
    r := r + EncodeKey(v);
    var len := |r| - start - 4;
    r := r[..start] + ToLe(len % 0x1_0000_0000, 4) + r[start + 4..];
    ok := true;
  }

  method RowKey(row: Row, keys: seq<nat>) returns (key: Option<seq<Byte>>)
    requires Hashable(row, keys)
    ensures key == KeyOf(row, keys)
  {
    hide Component;
    var out: seq<Byte> := [];
    assert keys[0..] == keys;
    PrependNothing(KeyOf(row, keys));
    for n := 0 to |keys|
      invariant KeyOf(row, keys) == Prepend(out, KeyOf(row, keys[n..]))
    {
      assert keys[n..][0] == keys[n] && keys[n..][1..] == keys[n + 1..];
      var before := out;
      var ok;
      ok, out := PushKeyComponent(out, row[keys[n]]);
      if !ok {
        return None;
      }
      PrependTwice(before, Component(row[keys[n]]), KeyOf(row, keys[n + 1..]));
    }
    assert keys[|keys|..] == [] && out + [] == out;
    key := Some(out);
  }

  lemma PrependNothing(rest: Option<seq<Byte>>)
    ensures Prepend([], rest) == rest
  {
    assert rest.Some? ==> [] + rest.value == rest.value;
  }

  function Prepend(out: seq<Byte>, rest: Option<seq<Byte>>): Option<seq<Byte>> {
    if rest.None? then None else Some(out + rest.value)
  }

  lemma PrependTwice(a: seq<Byte>, b: seq<Byte>, rest: Option<seq<Byte>>)
    ensures Prepend(a, Prepend(b, rest)) == Prepend(a + b, rest)
  {
    assert rest.Some? ==> a + (b + rest.value) == a + b + rest.value;
  }

  lemma ComponentsSeparate(x: Value, a: seq<Byte>, y: Value, b: seq<Byte>)
    requires Encodable(x) && Encodable(y) && |EncodeKey(x)| < 0x1_0000_0000 && |EncodeKey(y)| < 0x1_0000_0000
    ensures Component(x) + a == Component(y) + b <==> EncodeKey(x) == EncodeKey(y) && a == b
  {
    hide EncodeKey, ToLe;
    var e, f := EncodeKey(x), EncodeKey(y);
    assert |e| % 0x1_0000_0000 == |e| && |f| % 0x1_0000_0000 == |f|;
    if Component(x) + a == Component(y) + b {
      FramedSeparate(EncodeKey(x), a, EncodeKey(y), b);
    }
  }

  lemma FramedSeparate(x: seq<Byte>, a: seq<Byte>, y: seq<Byte>, b: seq<Byte>)
    requires |x| < 0x1_0000_0000 && |y| < 0x1_0000_0000
    requires ToLe(|x|, 4) + x + a == ToLe(|y|, 4) + y + b
    ensures x == y && a == b
  {
    hide ToLe, FromLe;
    WordRoundTrip32(|x|);
    WordRoundTrip32(|y|);
    var p, q := ToLe(|x|, 4) + x + a, ToLe(|y|, 4) + y + b;
    assert p[..4] == ToLe(|x|, 4) && q[..4] == ToLe(|y|, 4);
    assert p[4..4 + |x|] == x && q[4..4 + |y|] == y;
    assert p[4 + |x|..] == a && q[4 + |y|..] == b;
  }

  lemma EncodedLength(v: Value)
    requires Encodable(v) && (v.Str? ==> |v.text| < 0x8000_0000)
    ensures |EncodeKey(v)| < 0x1_0000_0000
  {
  }

  lemma TypedHashable(schema: Schema, row: Row, keys: seq<nat>)
    requires Typed(schema, row) && forall i :: 0 <= i < |keys| ==> keys[i] < |schema|
    ensures Hashable(row, keys)
  {
    forall i | 0 <= i < |keys|
      ensures Encodable(row[keys[i]])
    {
      assert Fits(row[keys[i]], schema[keys[i]].dtype);
    }
  }

  /** Rows have the same key bytes exactly when their key columns are present and pairwise equal. */
  lemma {:induction false} SameBytes(left: Schema, right: Schema, l: Row, lk: seq<nat>, r: Row, rk: seq<nat>)
    requires KeyPositions(left, right, lk, rk) && Typed(left, l) && Typed(right, r) && Hashable(l, lk)
    requires Hashable(r, rk)
    ensures KeysAgree(l, lk, r, rk) <==> KeyOf(l, lk).Some? && KeyOf(r, rk) == KeyOf(l, lk)
    decreases |lk|
  {
    hide Component, EncodeKey;
    if lk != [] {
      var x, y := l[lk[0]], r[rk[0]];
      SameBytes(left, right, l, lk[1..], r, rk[1..]);
      FirstKey(l, lk, r, rk);
      FirstPair(left, right, lk, rk, l, r);
      if !x.Null? && !y.Null? {
        var a, b := KeyOf(l, lk[1..]), KeyOf(r, rk[1..]);
        if a.Some? && b.Some? {
          ComponentsSeparate(x, a.value, y, b.value);
        }
      }
    }
  }

  lemma FirstKey(l: Row, lk: seq<nat>, r: Row, rk: seq<nat>)
    requires |lk| == |rk| > 0 && lk[0] < |l| && rk[0] < |r|
    ensures KeysAgree(l, lk, r, rk) <==> SameKeyValue(l, lk[0], r, rk[0]) && KeysAgree(l, lk[1..], r, rk[1..])
  {
    hide SameKeyValue;
    if KeysAgree(l, lk[1..], r, rk[1..]) && SameKeyValue(l, lk[0], r, rk[0]) {
      forall i | 0 <= i < |lk|
        ensures lk[i] < |l| && rk[i] < |r| && SameKeyValue(l, lk[i], r, rk[i])
      {
        if i > 0 {
          assert lk[1..][i - 1] == lk[i] && rk[1..][i - 1] == rk[i];
        }
      }
    }
  }

  lemma FirstPair(left: Schema, right: Schema, lk: seq<nat>, rk: seq<nat>, l: Row, r: Row)
    requires KeyPositions(left, right, lk, rk) && lk != [] && Typed(left, l) && Typed(right, r)
    ensures var x, y := l[lk[0]], r[rk[0]];
            && Encodable(x) && Encodable(y) && |EncodeKey(x)| < 0x1_0000_0000 && |EncodeKey(y)| < 0x1_0000_0000
            && (SameKeyValue(l, lk[0], r, rk[0]) <==> !x.Null? && !y.Null? && EncodeKey(x) == EncodeKey(y))
  {
    hide EncodeKey;
    var x, y := l[lk[0]], r[rk[0]];
    assert Fits(x, left[lk[0]].dtype) && Fits(y, right[rk[0]].dtype) &&
           Compatible(left[lk[0]].dtype, right[rk[0]].dtype);
    EncodedLength(x);
    EncodedLength(y);
    if !x.Null? && !y.Null? {
      EncodingIsInjective(x, y);
    }
  }
}
