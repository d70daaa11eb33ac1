/** Rows as tagged bytes: encoding, decoding all or some columns, and the records they make. */
module RowCodec {
  import opened Options
  import opened Bytes
  import opened Values
  import opened Slotted
  import opened PaxImage
  import opened PaxRecord
  import opened PaxPage
  import PaxTheorems

  /** Out-of-line strings by id. */
  type Lobs = map<U64, seq<Byte>>

  function Unsigned64(n: I64): U64 {
    if n < 0 then n + 0x1_0000_0000_0000_0000 else n
  }

  function Signed64(u: U64): I64 {
    if u >= 0x8000_0000_0000_0000 then u - 0x1_0000_0000_0000_0000 else u
  }

  function Unsigned32(n: I32): U32 {
    if n < 0 then n + 0x1_0000_0000 else n
  }

  function Signed32(u: U32): I32 {
    if u >= 0x8000_0000 then u - 0x1_0000_0000 else u
  }

  // ------------------------------------------------------------------ one value

  /** A string's length is kept in two bytes. */
  function EncodeValue(v: Value): seq<Byte> {
    match v
    case Null => [TAG_NULL]
    case Int(n) => [TAG_INT] + ToLe(Unsigned64(n), 8)
    case Float(bits) => [TAG_FLOAT] + ToLe(bits, 8)
    case Str(text) => [TAG_STR] + ToLe(|text|, 2) + text
    case Bool(b) => [TAG_BOOL, if b then 1 else 0]
    case Date(d) => [TAG_DATE] + ToLe(Unsigned32(d), 4)
  }

  /** Moves past a value without building it. */
  function Skip(d: seq<Byte>): Option<nat> {
    if d == [] then None
    else if d[0] == TAG_NULL then Some(1)
    else if d[0] == TAG_INT || d[0] == TAG_FLOAT || d[0] == TAG_LOB then (if |d| < 9 then None else Some(9))
    else if d[0] == TAG_BOOL then (if |d| < 2 then None else Some(2))
    else if d[0] == TAG_DATE then (if |d| < 5 then None else Some(5))
    else if d[0] == TAG_STR then
      if |d| < 3 then None else if 3 + Get16(d[1..3]) > |d| then None else Some(3 + Get16(d[1..3]))
    else None
  }

  /** The value at the front of `d` and its length. */
  function DecodeValue(d: seq<Byte>, lobs: Lobs): Option<(Value, nat)> {
    if d == [] then None
    else if d[0] == TAG_NULL then Some((Null, 1))
    else if d[0] == TAG_INT then (if |d| < 9 then None else Some((Int(Signed64(Get64(d[1..9]))), 9)))
    else if d[0] == TAG_FLOAT then (if |d| < 9 then None else Some((Float(Get64(d[1..9])), 9)))
    else if d[0] == TAG_STR then
      if |d| < 3 then None else
      var len := Get16(d[1..3]);
      if 3 + len > |d| then None else Some((Str(d[3..3 + len]), 3 + len))
    else if d[0] == TAG_LOB then
      if |d| < 9 then None
      else if Get64(d[1..9]) in lobs then Some((Str(lobs[Get64(d[1..9])]), 9)) else None
    else if d[0] == TAG_BOOL then (if |d| < 2 then None else Some((Bool(d[1] != 0), 2)))
    else if d[0] == TAG_DATE then (if |d| < 5 then None else Some((Date(Signed32(Get32(d[1..5]))), 5)))
    else None
  }

  function DecodeOne(d: seq<Byte>, needed: bool, lobs: Lobs): Option<(Value, nat)> {
    if needed then DecodeValue(d, lobs)
    else match Skip(d)
      case None => None
      case Some(n) => Some((Null, n))
  }

  /**
   Splitting, skipping and decoding agree on where a value ends; decoding can only fail more often on a
   missing large object.
   */
  lemma EndsAgree(d: seq<Byte>, lobs: Lobs)
    ensures Skip(d) == ValueLen(d)
    ensures DecodeValue(d, lobs).Some? ==> Skip(d) == Some(DecodeValue(d, lobs).value.1)
    ensures DecodeValue(d, lobs).None? <==> Skip(d).None? || (d[0] == TAG_LOB && Get64(d[1..9]) !in lobs)
  {
  }

  predicate Short(v: Value) {
    v.Str? ==> |v.text| < 0x1_0000
  }

  /** Fixed-width payloads come back. */
  lemma FixedRoundTrip(v: Value, rest: seq<Byte>, lobs: Lobs)
    requires !v.Str?
    ensures DecodeValue(EncodeValue(v) + rest, lobs) == Some((v, |EncodeValue(v)|))
  {
    hide ToLe, FromLe;
    var d := EncodeValue(v) + rest;
    match v
    case Null =>
    case Int(n) =>
      WordRoundTrip64(Unsigned64(n));
      assert d[1..9] == ToLe(Unsigned64(n), 8);
    case Float(bits) =>
      WordRoundTrip64(bits);
      assert d[1..9] == ToLe(bits, 8);
    case Bool(b) =>
    case Date(x) =>
      WordRoundTrip32(Unsigned32(x));
      assert d[1..5] == ToLe(Unsigned32(x), 4);
  }

  /** A string comes back exactly when its length fits two bytes. */
  lemma StrRoundTrip(text: seq<Byte>, rest: seq<Byte>, lobs: Lobs)
    ensures DecodeValue(EncodeValue(Str(text)) + rest, lobs) == Some((Str(text), 3 + |text|)) <==> |text| < 0x1_0000
    ensures DecodeValue(EncodeValue(Str(text)) + rest, lobs).Some? && |text| >= 0x1_0000 ==>
            DecodeValue(EncodeValue(Str(text)) + rest, lobs).value.0 != Str(text)
  {
    hide ToLe, FromLe;
    var d := EncodeValue(Str(text)) + rest;
    assert d[1..3] == ToLe(|text|, 2);
    if |text| < 0x1_0000 {
      WordRoundTrip16(|text|);
      assert d[3..3 + |text|] == text;
    }
  }

  lemma ValueRoundTrip(v: Value, rest: seq<Byte>, lobs: Lobs)
    ensures DecodeValue(EncodeValue(v) + rest, lobs) == Some((v, |EncodeValue(v)|)) <==> Short(v)
    ensures DecodeValue(EncodeValue(v) + rest, lobs).Some? && DecodeValue(EncodeValue(v) + rest, lobs).value.0 == v ==>
            Short(v)
  {
    hide ToLe, DecodeValue;
    if v.Str? {
      StrRoundTrip(v.text, rest, lobs);
    } else {
      FixedRoundTrip(v, rest, lobs);
    }
  }

  // ------------------------------------------------------------------ rows

  function EncodeAll(row: seq<Value>): (r: seq<seq<Byte>>)
    ensures |r| == |row| && forall i :: 0 <= i < |r| ==> r[i] == EncodeValue(row[i])
  {
    seq(|row|, i requires 0 <= i < |row| => EncodeValue(row[i]))
  }

  function EncodedRow(row: seq<Value>): seq<Byte> {
    ToLe(|row|, 2) + Concat(EncodeAll(row))
  }

  /** The encoding loop. */
  method EncodeRow(row: seq<Value>) returns (out: seq<Byte>)
    ensures out == EncodedRow(row)
  {
    hide Concat, EncodeValue;
    out := ToLe(|row|, 2);
    ghost var all := EncodeAll(row);
    assert all[..0] == [];
    assert Concat([]) == [] by {
      NothingYet();
    }
    for i := 0 to |row|
      invariant out == ToLe(|row|, 2) + Concat(all[..i])
    {
      ConcatNext(all, i);
      out := out + EncodeValue(row[i]);
    }
    assert all[..|row|] == all;
  }

  /** Values `i` up to `count`, the first of them at `pos`, and where the last one ends. */
  ghost function DecodeFrom(d: seq<Byte>, pos: nat, i: nat, count: nat, lobs: Lobs,
                            keep: Option<seq<bool>>): Option<(seq<Value>, nat)>
    requires pos <= |d| && i <= count
    decreases count - i
  {
    if i == count then Some(([], pos))
    else match DecodeOne(d[pos..], Needed(keep, i), lobs)
      case None => None
      case Some(one) =>
        if pos + one.1 > |d| then None else
        match DecodeFrom(d, pos + one.1, i + 1, count, lobs, keep)
        case None => None
        case Some(more) => Some(([one.0] + more.0, more.1))
  }

  ghost function DecodedRow(d: seq<Byte>, lobs: Lobs, keep: Option<seq<bool>>): Option<(seq<Value>, nat)> {
    if |d| < 2 then None else DecodeFrom(d, 2, 0, Get16(d[..2]), lobs, keep)
  }

  lemma OneInside(d: seq<Byte>, needed: bool, lobs: Lobs)
    ensures DecodeOne(d, needed, lobs).Some? ==> DecodeOne(d, needed, lobs).value.1 <= |d|
  {
  }

  /** The decoding loop. */
  method DecodeRow(d: seq<Byte>, lobs: Lobs, keep: Option<seq<bool>>) returns (r: Option<(seq<Value>, nat)>)
    ensures r == DecodedRow(d, lobs, keep)
  {
    hide DecodeOne;
    if |d| < 2 {
      return None;
    }
    var pos: nat, count := 2, Get16(d[..2]);
    var row: seq<Value> := [];
    assert forall more: seq<Value> :: row + more == more;
    for i := 0 to count
      invariant |row| == i && pos <= |d|
      invariant var more := DecodeFrom(d, pos, i, count, lobs, keep);
                DecodedRow(d, lobs, keep) == if more.None? then None else Some((row + more.value.0, more.value.1))
    {
      var one := DecodeOne(d[pos..], Needed(keep, i), lobs);
      OneInside(d[pos..], Needed(keep, i), lobs);
      if one.None? {
        return None;
      }
      ghost var more := DecodeFrom(d, pos + one.value.1, i + 1, count, lobs, keep);
      assert more.Some? ==> row + ([one.value.0] + more.value.0) == row + [one.value.0] + more.value.0;
      row := row + [one.value.0];
      pos := pos + one.value.1;
    }
    assert row + [] == row;
    return Some((row, pos));
  }

  ghost function Pruned(row: seq<Value>, keep: Option<seq<bool>>, from: nat): (r: seq<Value>)
    ensures |r| == |row|
  {
    seq(|row|, i requires 0 <= i < |row| => if Needed(keep, from + i) then row[i] else Null)
  }

  ghost predicate AllShort(row: seq<Value>) {
    forall i :: 0 <= i < |row| ==> Short(row[i])
  }

  /** Where value `i` of an encoded row stands. */
  ghost function ValuePos(row: seq<Value>, i: nat): nat
    requires i <= |row|
  {
    2 + |Concat(EncodeAll(row)[..i])|
  }

  lemma ValueHere(d: seq<Byte>, row: seq<Value>, i: nat)
    requires EncodedRow(row) <= d && i < |row|
    ensures ValuePos(row, i) + |EncodeValue(row[i])| == ValuePos(row, i + 1) <= |d|
    ensures EncodeValue(row[i]) <= d[ValuePos(row, i)..]
  {
    hide EncodeValue, Concat;
    var all := EncodeAll(row);
    ConcatAt(all, i);
    ConcatNext(all, i);
    Behind(ToLe(|row|, 2), Concat(all[..i]), all[i], Concat(all), d);
  }

  lemma DecodeHere(d: seq<Byte>, v: Value, needed: bool, lobs: Lobs)
    requires EncodeValue(v) <= d
    ensures Short(v) ==> DecodeOne(d, needed, lobs) == Some((if needed then v else Null, |EncodeValue(v)|))
    ensures DecodeValue(d, lobs).Some? && DecodeValue(d, lobs).value.0 == v ==> Short(v)
  {
    hide DecodeValue, Skip, EncodeValue, ValueLen;
    assert d == EncodeValue(v) + d[|EncodeValue(v)|..];
    ValueRoundTrip(v, d[|EncodeValue(v)|..], lobs);
    EndsAgree(d, lobs);
  }

  lemma {:induction false} RowDecodes(d: seq<Byte>, row: seq<Value>, i: nat, lobs: Lobs, keep: Option<seq<bool>>)
    requires EncodedRow(row) <= d && i <= |row| && AllShort(row) && ValuePos(row, i) <= |d|
    ensures DecodeFrom(d, ValuePos(row, i), i, |row|, lobs, keep) ==
            Some((Pruned(row, keep, 0)[i..], ValuePos(row, |row|)))
    decreases |row| - i
  {
    hide EncodeValue, Concat, DecodeOne, EncodedRow, ValuePos;
    if i < |row| {
      ValueHere(d, row, i);
      RowDecodes(d, row, i + 1, lobs, keep);
      DecodeHere(d[ValuePos(row, i)..], row[i], Needed(keep, i), lobs);
      var p := Pruned(row, keep, 0);
      assert p[i..] == [p[i]] + p[i + 1..];
    } else {
      assert Pruned(row, keep, 0)[i..] == [];
    }
  }

  lemma {:induction false} DecodedIsShort(d: seq<Byte>, row: seq<Value>, i: nat, lobs: Lobs, k: nat)
    requires EncodedRow(row) <= d && i <= k < |row| && ValuePos(row, i) <= |d|
    requires var r := DecodeFrom(d, ValuePos(row, i), i, |row|, lobs, None); r.Some? && r.value.0 == row[i..]
    ensures Short(row[k])
    decreases |row| - i
  {
    hide EncodeValue, Concat, DecodeValue, Skip, EncodedRow, ValuePos;
    ValueHere(d, row, i);
    var rest := d[ValuePos(row, i)..];
    DecodeHere(rest, row[i], true, lobs);
    assert DecodeValue(rest, lobs).value.0 == row[i..][0] == row[i];
    if i < k {
      assert row[i..][1..] == row[i + 1..];
      DecodedIsShort(d, row, i + 1, lobs, k);
    }
  }

  /**
   An encoded row is read back, whatever follows it, exactly when its column count and every string length fit
   two bytes.
   */
  lemma RowRoundTrip(row: seq<Value>, tail: seq<Byte>, lobs: Lobs)
    ensures DecodedRow(EncodedRow(row) + tail, lobs, None) == Some((row, |EncodedRow(row)|)) <==>
            |row| < 0x1_0000 && AllShort(row)
  {
    hide EncodeValue, Concat, DecodeOne;
    var d := EncodedRow(row) + tail;
    assert d[..2] == ToLe(|row|, 2);
    assert EncodeAll(row)[..|row|] == EncodeAll(row) && EncodeAll(row)[..0] == [];
    NothingYet();
    assert ValuePos(row, 0) == 2 && ValuePos(row, |row|) == |EncodedRow(row)|;
    if |row| < 0x1_0000 {
      WordRoundTrip16(|row|);
      if AllShort(row) {
        RowDecodes(d, row, 0, lobs, None);
        assert Pruned(row, None, 0)[0..] == row;
      } else if DecodedRow(d, lobs, None) == Some((row, |EncodedRow(row)|)) {
        forall k | 0 <= k < |row|
          ensures Short(row[k])
        {
          DecodedIsShort(d, row, 0, lobs, k);
        }
      }
    } else if DecodedRow(d, lobs, None).Some? {
      DecodedLength(d, 2, 0, Get16(d[..2]), lobs, None);
    }
  }

  lemma {:induction false} DecodedLength(d: seq<Byte>, pos: nat, i: nat, count: nat, lobs: Lobs,
                                         keep: Option<seq<bool>>)
    requires pos <= |d| && i <= count
    ensures var r := DecodeFrom(d, pos, i, count, lobs, keep); r.Some? ==> |r.value.0| == count - i
    decreases count - i
  {
    hide DecodeOne;
    if i < count && DecodeOne(d[pos..], Needed(keep, i), lobs).Some? {
      var one := DecodeOne(d[pos..], Needed(keep, i), lobs).value;
      if pos + one.1 <= |d| {
        DecodedLength(d, pos + one.1, i + 1, count, lobs, keep);
      }
    }
  }

  /** Skipping columns changes those columns to `NULL` and nothing else, on any bytes the full decoder accepts. */
  lemma {:induction false} PrunedDecode(d: seq<Byte>, pos: nat, i: nat, count: nat, lobs: Lobs, keep: Option<seq<bool>>)
    requires pos <= |d| && i <= count && DecodeFrom(d, pos, i, count, lobs, None).Some?
    ensures var full := DecodeFrom(d, pos, i, count, lobs, None).value;
            DecodeFrom(d, pos, i, count, lobs, keep) == Some((Pruned(full.0, keep, i), full.1))
    decreases count - i
  {
    hide DecodeValue, Skip, ValueLen;
    if i < count {
      var one := DecodeOne(d[pos..], true, lobs).value;
      EndsAgree(d[pos..], lobs);
      PrunedDecode(d, pos + one.1, i + 1, count, lobs, keep);
      var full := DecodeFrom(d, pos, i, count, lobs, None).value.0;
      var rest := DecodeFrom(d, pos + one.1, i + 1, count, lobs, None).value.0;
      assert full == [one.0] + rest;
      assert Pruned(full, keep, i) == [if Needed(keep, i) then one.0 else Null] + Pruned(rest, keep, i + 1);
    }
  }

  // ------------------------------------------------------------------ records

  /**
   A short row behind a version header is a record whose columns are its values' encodings, with nothing after
   them.
   */
  lemma EncodedRecordSplits(version: seq<Byte>, row: seq<Value>)
    requires |version| == VERSION_LEN && |row| < 0x1_0000 && AllShort(row)
    ensures var cells := Cells(version, EncodeAll(row));
            version + EncodedRow(row) == RecordBytes(cells) && Decoded(version + EncodedRow(row)) == Some(cells)
  {
    hide Concat, EncodeValue, ValueLen;
    var cells := Cells(version, EncodeAll(row));
    assert version + EncodedRow(row) == RecordBytes(cells);
    forall c | 0 <= c < |cells.vals|
      ensures Tagged(cells.vals[c])
    {
      ShortIsTagged(row[c]);
    }
    RecordRoundTrip(cells, []);
    assert RecordBytes(cells) + [] == RecordBytes(cells);
  }

  /** An encoded row with a column, once stored in a column-major page, is read back bit for bit. */
  lemma StoredRowReadsBack(ct: Content, slot: nat, version: seq<Byte>, row: seq<Value>)
    requires Shaped(ct) && |version| == VERSION_LEN && 0 < |row| < 0x1_0000 && AllShort(row)
    requires PutOutcome(ct, slot, version + EncodedRow(row)).Stored?
    ensures var record := version + EncodedRow(row); var after := With(ct, slot, Decoded(record).value);
            Shaped(after) && Record(after, slot) == Some(record)
  {
    hide EncodedRow, RecordBytes, With, Record;
    EncodedRecordSplits(version, row);
    PaxTheorems.ExactRecord(ct, slot, version + EncodedRow(row));
  }

  lemma ShortIsTagged(v: Value)
    requires Short(v)
    ensures Tagged(EncodeValue(v))
  {
    hide DecodeValue, EncodeValue;
    assert EncodeValue(v) + [] == EncodeValue(v);
    ValueRoundTrip(v, [], map[]);
    EndsAgree(EncodeValue(v), map[]);
  }
}
