/** Versioned records: splitting one into its columns and putting it together again. */
module PaxRecord {
  import opened Options
  import opened Bytes
  import opened PaxImage

  const TAG_NULL := 0x00
  const TAG_INT := 0x01
  const TAG_FLOAT := 0x02
  const TAG_STR := 0x03
  const TAG_BOOL := 0x04
  const TAG_DATE := 0x05
  const TAG_LOB := 0x06

  // ------------------------------------------------------------------ blocks one after the other

  function Concat(blocks: seq<seq<Byte>>): seq<Byte> {
    if blocks == [] then [] else Concat(blocks[..|blocks| - 1]) + blocks[|blocks| - 1]
  }

  lemma ConcatNext(blocks: seq<seq<Byte>>, k: nat)
    requires k < |blocks|
    ensures Concat(blocks[..k + 1]) == Concat(blocks[..k]) + blocks[k]
  {
    assert blocks[..k + 1][..k] == blocks[..k];
  }

  /** Block `k` stands behind the blocks before it. */
  lemma {:induction false} ConcatAt(blocks: seq<seq<Byte>>, k: nat)
    requires k < |blocks|
    ensures Concat(blocks[..k]) + blocks[k] <= Concat(blocks)
    decreases |blocks|
  {
    var n := |blocks| - 1;
    if k < n {
      ConcatAt(blocks[..n], k);
      assert blocks[..n][..k] == blocks[..k];
    } else {
      assert blocks[..k + 1] == blocks;
    }
  }

  // ------------------------------------------------------------------ tagged values

  /** Length of the tagged value at the front of `d`, if a whole one is there. */
  function ValueLen(d: seq<Byte>): (n: Option<nat>)
    ensures n.Some? ==> 0 < n.value <= |d|
  {
    if d == [] then None else
    var len := if d[0] == TAG_NULL then Some(1)
               else if d[0] == TAG_INT || d[0] == TAG_FLOAT || d[0] == TAG_LOB then Some(9)
               else if d[0] == TAG_BOOL then Some(2)
               else if d[0] == TAG_DATE then Some(5)
               else if d[0] == TAG_STR && |d| >= 3 then Some(3 + Get16(d[1..3]))
               else None;
    if len.Some? && len.value <= |d| then len else None
  }

  predicate Tagged(v: seq<Byte>) {
    ValueLen(v) == Some(|v|)
  }

  /** A tagged value says itself where it ends. */
  lemma TaggedPrefix(v: seq<Byte>, d: seq<Byte>)
    requires Tagged(v) && v <= d
    ensures ValueLen(d) == Some(|v|)
  {
    assert |v| >= 3 ==> v[1..3] == d[1..3];
  }

  lemma TaggedFront(d: seq<Byte>)
    requires ValueLen(d).Some?
    ensures Tagged(d[..ValueLen(d).value])
  {
    var v := d[..ValueLen(d).value];
    assert |v| >= 3 ==> v[1..3] == d[1..3];
  }

  // ------------------------------------------------------------------ records

  function RecordBytes(cells: Cells): seq<Byte> {
    cells.version + ToLe(|cells.vals|, 2) + Concat(cells.vals)
  }

  ghost predicate Sound(cells: Cells) {
    && |cells.version| == VERSION_LEN && |cells.vals| < 0x1_0000
    && forall c :: 0 <= c < |cells.vals| ==> Tagged(cells.vals[c])
  }

  /** `record` starts with these cells; bytes behind the last column do not matter. */
  ghost predicate Parses(record: seq<Byte>, cells: Cells) {
    Sound(cells) && RecordBytes(cells) <= record
  }

  lemma HeadOfRecord(record: seq<Byte>, cells: Cells)
    requires Parses(record, cells)
    ensures |record| >= 26 && record[..24] == cells.version && Get16(record[24..26]) == |cells.vals|
  {
    var r := RecordBytes(cells);
    assert record[..24] == r[..24] && record[24..26] == r[24..26] == ToLe(|cells.vals|, 2);
    WordRoundTrip16(|cells.vals|);
  }

  /** The next column of a parsed record is what stands at the reading position. */
  lemma Forced(record: seq<Byte>, cells: Cells, k: nat)
    requires Parses(record, cells) && k < |cells.vals|
    ensures 26 + |Concat(cells.vals[..k])| <= |record|
    ensures var rest := record[26 + |Concat(cells.vals[..k])|..];
            ValueLen(rest) == Some(|cells.vals[k]|) && rest[..|cells.vals[k]|] == cells.vals[k]
  {
    hide ValueLen, Concat, Sound;
    assert Tagged(cells.vals[k]) by {
      SoundValue(cells, k);
    }
    ConcatAt(cells.vals, k);
    Behind(cells.version + ToLe(|cells.vals|, 2), Concat(cells.vals[..k]), cells.vals[k], Concat(cells.vals), record);
    assert |cells.version + ToLe(|cells.vals|, 2)| == 26 by {
      SoundValue(cells, k);
    }
    TaggedPrefix(cells.vals[k], record[26 + |Concat(cells.vals[..k])|..]);
  }

  lemma SoundValue(cells: Cells, k: nat)
    requires Sound(cells) && k < |cells.vals|
    ensures Tagged(cells.vals[k]) && |cells.version| == 24
  {
  }

  lemma Behind(head: seq<Byte>, before: seq<Byte>, v: seq<Byte>, body: seq<Byte>, d: seq<Byte>)
    requires before + v <= body && head + body <= d
    ensures |head| + |before| + |v| <= |d| && v <= d[|head| + |before|..]
  {
    assert head + (before + v) <= d;
    assert head + (before + v) == (head + before) + v;
  }

  /** A record parses in at most one way. */
  lemma {:induction false} ParsesOnce(record: seq<Byte>, a: Cells, b: Cells, k: nat)
    requires Parses(record, a) && Parses(record, b) && k <= |a.vals|
    ensures |a.vals| == |b.vals| && a.vals[..k] == b.vals[..k]
    ensures k == |a.vals| ==> a == b
  {
    hide ValueLen, Concat, Parses;
    HeadOfRecord(record, a);
    HeadOfRecord(record, b);
    if k > 0 {
      ParsesOnce(record, a, b, k - 1);
      Forced(record, a, k - 1);
      Forced(record, b, k - 1);
      assert a.vals[..k] == a.vals[..k - 1] + [a.vals[k - 1]];
      assert b.vals[..k] == b.vals[..k - 1] + [b.vals[k - 1]];
    }
    if k == |a.vals| {
      assert a.vals[..k] == a.vals && b.vals[..k] == b.vals;
    }
  }

  /** The cells of a record, if it is well formed. */
  ghost function Decoded(record: seq<Byte>): (r: Option<Cells>)
    ensures r.Some? ==> Parses(record, r.value)
    ensures r.None? ==> forall cells :: !Parses(record, cells)
  {
    if exists cells :: Parses(record, cells) then
      var cells :| Parses(record, cells);
      Some(cells)
    else None
  }

  /** Putting a split record together gives its bytes back, whatever follows them. */
  lemma RecordRoundTrip(cells: Cells, tail: seq<Byte>)
    requires Sound(cells)
    ensures Decoded(RecordBytes(cells) + tail) == Some(cells)
  {
    var record := RecordBytes(cells) + tail;
    assert Parses(record, cells);
    ParsesOnce(record, cells, Decoded(record).value, |cells.vals|);
  }

  lemma DecodedIs(record: seq<Byte>, cells: Cells)
    requires Parses(record, cells)
    ensures Decoded(record) == Some(cells)
  {
    ParsesOnce(record, cells, Decoded(record).value, |cells.vals|);
  }

  // ------------------------------------------------------------------ the splitting loop

  /** Every way of reading the record agrees with the columns found so far. */
  ghost predicate Agrees(record: seq<Byte>, vals: seq<seq<Byte>>) {
    forall cells | Parses(record, cells) :: vals <= cells.vals
  }

  lemma NextAgrees(record: seq<Byte>, vals: seq<seq<Byte>>, count: nat)
    requires |record| >= 26 && Get16(record[24..26]) == count && |vals| < count && Agrees(record, vals)
    requires 26 + |Concat(vals)| <= |record|
    ensures var n := ValueLen(record[26 + |Concat(vals)|..]);
            if n.None? then Decoded(record) == None
            else Agrees(record, vals + [record[26 + |Concat(vals)|..][..n.value]])
  {
    hide ValueLen, Concat, Sound, RecordBytes;
    var rest := record[26 + |Concat(vals)|..];
    forall cells | Parses(record, cells)
      ensures ValueLen(rest).Some? && vals + [rest[..ValueLen(rest).value]] <= cells.vals
    {
      HeadOfRecord(record, cells);
      assert cells.vals[..|vals|] == vals;
      Forced(record, cells, |vals|);
    }
  }

  lemma ReadOn(record: seq<Byte>, vals: seq<seq<Byte>>)
    requires 26 + |Concat(vals)| <= |record| && record[..26 + |Concat(vals)|] == record[..26] + Concat(vals)
    requires ValueLen(record[26 + |Concat(vals)|..]).Some?
    ensures var v := record[26 + |Concat(vals)|..][..ValueLen(record[26 + |Concat(vals)|..]).value];
            && Tagged(v) && Concat(vals + [v]) == Concat(vals) + v
            && record[..26 + |Concat(vals + [v])|] == record[..26] + Concat(vals + [v])
  {
    var rest := record[26 + |Concat(vals)|..];
    TaggedFront(rest);
    var v := rest[..ValueLen(rest).value];
    assert (vals + [v])[..|vals|] == vals;
    assert record[..26 + |Concat(vals)| + |v|] == record[..26 + |Concat(vals)|] + v;
  }

  /** Version bytes and columns of a record; refused exactly when no columns can be read from it. */
  method Split(record: seq<Byte>) returns (r: Option<Cells>)
    ensures r == Decoded(record)
  {
    hide ValueLen, Concat, Sound, Parses, Tagged;
    if |record| < 26 {
      assert Decoded(record).Some? ==> |record| >= 26 by {
        if Decoded(record).Some? {
          HeadOfRecord(record, Decoded(record).value);
        }
      }
      return None;
    }
    var version, count := record[..24], Get16(record[24..26]);
    var pos, vals := 26, [];
    NothingRead(record);
    for i := 0 to count
      invariant |vals| == i && pos == 26 + |Concat(vals)| <= |record|
      invariant record[..pos] == record[..26] + Concat(vals)
      invariant forall c :: 0 <= c < i ==> Tagged(vals[c])
      invariant Agrees(record, vals)
    {
      var len := ValueLen(record[pos..]);
      NextAgrees(record, vals, count);
      if len.None? {
        return None;
      }
      ReadOn(record, vals);
      vals := vals + [record[pos..][..len.value]];
      pos := pos + len.value;
    }
    ReadAll(record, vals);
    return Some(Cells(version, vals));
  }

  lemma NothingRead(record: seq<Byte>)
    requires |record| >= 26
    ensures Concat([]) == [] && Agrees(record, []) && record[..26] == record[..26] + Concat([])
  {
  }

  lemma ReadAll(record: seq<Byte>, vals: seq<seq<Byte>>)
    requires |record| >= 26 && |vals| == Get16(record[24..26]) && 26 + |Concat(vals)| <= |record|
    requires record[..26 + |Concat(vals)|] == record[..26] + Concat(vals)
    requires forall c :: 0 <= c < |vals| ==> Tagged(vals[c])
    ensures Decoded(record) == Some(Cells(record[..24], vals))
  {
    hide ValueLen, Concat;
    var cells := Cells(record[..24], vals);
    ToFromLe(record[24..26]);
    assert RecordBytes(cells) == record[..26] + Concat(vals);
    assert Parses(record, cells);
    DecodedIs(record, cells);
  }
}
