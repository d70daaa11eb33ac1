/** Reading a block back: parsing, listing and looking up. */
module LsmRead {
  import opened Options
  import opened Bytes
  import opened KeyOrder
  import opened Coding
  import opened LsmBlock

  datatype Block = Block(data: seq<Byte>, restarts: seq<nat>, end: nat)

  // ------------------------------------------------------------------ parsing

  function WordAt(data: seq<Byte>, pos: nat): nat
    requires pos + 4 <= |data|
  {
    Get32(data[pos..pos + 4])
  }

  /** Where the restart array starts, if its length fits. */
  function ArrayStart(data: seq<Byte>): Option<nat> {
    if |data| < 4 then None else
      var n := WordAt(data, |data| - 4);
      if |data| < 4 + 4 * n then None else Some(|data| - 4 - 4 * n)
  }

  /** The array is there, ascends and points into the data. */
  ghost predicate WellFormed(data: seq<Byte>) {
    && ArrayStart(data).Some?
    && var end, n := ArrayStart(data).value, WordAt(data, |data| - 4);
    && (forall m :: 0 <= m < n ==> WordAt(data, end + 4 * m) < if end == 0 then 1 else end)
    && (forall m :: 0 < m < n ==> WordAt(data, end + 4 * (m - 1)) < WordAt(data, end + 4 * m))
  }

  method Parse(data: seq<Byte>) returns (r: Option<Block>)
    ensures r.Some? <==> WellFormed(data)
    ensures r.Some? ==> r.value.data == data && r.value.end == ArrayStart(data).value
    ensures r.Some? ==> |r.value.restarts| == WordAt(data, |data| - 4)
    ensures r.Some? ==> forall m :: 0 <= m < |r.value.restarts| ==>
            r.value.restarts[m] == WordAt(data, r.value.end + 4 * m)
  {
    hide WordAt;
    var start := ArrayStart(data);
    if start.None? {
      return None;
    }
    var end, n := start.value, WordAt(data, |data| - 4);
    var restarts: seq<nat> := [];
    for m := 0 to n
      invariant |restarts| == m && forall i :: 0 <= i < m ==> restarts[i] == WordAt(data, end + 4 * i)
    {
      restarts := restarts + [WordAt(data, end + 4 * m)];
    }
    for m := 0 to n
      invariant forall i :: 0 <= i < m ==> restarts[i] < if end == 0 then 1 else end
      invariant forall i :: 0 < i < m ==> restarts[i - 1] < restarts[i]
    {
      if restarts[m] >= (if end == 0 then 1 else end) || (m > 0 && restarts[m] <= restarts[m - 1]) {
        assert WordAt(data, end + 4 * m) == restarts[m];
        assert m > 0 ==> WordAt(data, end + 4 * (m - 1)) == restarts[m - 1];
        return None;
      }
    }
    forall i | 0 <= i < n
      ensures WordAt(data, end + 4 * i) < if end == 0 then 1 else end
      ensures i > 0 ==> WordAt(data, end + 4 * (i - 1)) < WordAt(data, end + 4 * i)
    {
      assert restarts[i] == WordAt(data, end + 4 * i);
      assert i > 0 ==> restarts[i - 1] < restarts[i];
    }
    r := Some(Block(data, restarts, end));
  }

  lemma {:induction false} WordBytesAt(words: seq<nat>, m: nat)
    requires m < |words|
    ensures WordBytes(words)[4 * m..4 * m + 4] == ToLe(words[m] % 0x1_0000_0000, 4)
    decreases |words|
  {
    if m < |words| - 1 {
      WordBytesAt(words[..|words| - 1], m);
    }
  }

  /** A finished block parses, and gives back its restart offsets. */
  lemma FinishedParses(data: seq<Byte>, restarts: seq<nat>)
    requires |restarts| < 0x1_0000_0000 && |data| < 0x1_0000_0000
    requires forall m :: 0 <= m < |restarts| ==> restarts[m] < if |data| == 0 then 1 else |data|
    requires forall m :: 0 < m < |restarts| ==> restarts[m - 1] < restarts[m]
    ensures var block := Finished(data, restarts);
            && WellFormed(block) && ArrayStart(block) == Some(|data|) && WordAt(block, |block| - 4) == |restarts|
            && forall m :: 0 <= m < |restarts| ==> WordAt(block, |data| + 4 * m) == restarts[m]
  {
    hide WordAt, Finished;
    var block := Finished(data, restarts);
    FinishedLength(data, restarts);
    forall m | 0 <= m < |restarts|
      ensures WordAt(block, |data| + 4 * m) == restarts[m]
      ensures m > 0 ==> WordAt(block, |data| + 4 * (m - 1)) < WordAt(block, |data| + 4 * m)
      ensures WordAt(block, |data| + 4 * m) < if |data| == 0 then 1 else |data|
    {
      FinishedWord(data, restarts, m);
      if m > 0 {
        FinishedWord(data, restarts, m - 1);
      }
    }
  }

  lemma FinishedLength(data: seq<Byte>, restarts: seq<nat>)
    requires |restarts| < 0x1_0000_0000
    ensures var block := Finished(data, restarts);
            |block| == |data| + 4 * |restarts| + 4 && WordAt(block, |block| - 4) == |restarts|
  {
    hide ToLe, WordBytes, WordAt;
    var block := Finished(data, restarts);
    assert block[|block| - 4..|block|] == ToLe(|restarts|, 4);
    WordHere(block, |block| - 4, |restarts|);
  }

  lemma WordHere(block: seq<Byte>, at: nat, v: U32)
    requires at + 4 <= |block| && block[at..at + 4] == ToLe(v, 4)
    ensures WordAt(block, at) == v
  {
    WordRoundTrip32(v);
  }

  lemma FinishedWord(data: seq<Byte>, restarts: seq<nat>, m: nat)
    requires m < |restarts| && restarts[m] < 0x1_0000_0000
    ensures |data| + 4 * m + 4 <= |Finished(data, restarts)|
    ensures WordAt(Finished(data, restarts), |data| + 4 * m) == restarts[m]
  {
    hide WordAt, ToLe;
    var block, at := Finished(data, restarts), |data| + 4 * m;
    WordBytesAt(restarts, m);
    hide WordBytes;
    assert block[at..at + 4] == WordBytes(restarts)[4 * m..4 * m + 4];
    WordHere(block, at, restarts[m]);
  }

  // ------------------------------------------------------------------ listing

  /** `block` was built from `es` with restart points `marks`. */
  ghost predicate Holds(block: Block, es: seq<Entry>, marks: seq<nat>) {
    && AllSmall(es) && MarksOk(marks, |es|)
    && block.end == |Data(es, MarkSet(marks))| && |Data(es, MarkSet(marks))| <= |block.data|
    && block.data[..block.end] == Data(es, MarkSet(marks))
    && (es == [] ==> block.restarts == [])
    && (es != [] ==> RestartsOk(es, marks, block.restarts))
  }

  lemma EntryOf(block: Block, es: seq<Entry>, marks: seq<nat>, i: nat)
    requires Holds(block, es, marks) && i < |es|
    ensures DecodesTo(block.data, block.end, Offset(es, MarkSet(marks), i), Shared(es, MarkSet(marks), i), es[i],
                      Offset(es, MarkSet(marks), i + 1))
    ensures Offset(es, MarkSet(marks), i) < block.end
  {
    hide DecodesTo, Data, Shared;
    DecodeAt(es, MarkSet(marks), block.data[block.end..], i);
    assert Data(es, MarkSet(marks)) + block.data[block.end..] == block.data;
    OffsetsAscend(es, MarkSet(marks), i, |es|);
    assert es[..|es|] == es;
  }

  /** Decodes the entry at `offset`, rebuilding its key from the one before. */
  method NextEntry(block: Block, offset: nat, current: seq<Byte>, ghost es: seq<Entry>, ghost marks: seq<nat>,
                   ghost i: nat)
    returns (r: Option<(Entry, nat)>)
    requires Holds(block, es, marks) && i < |es| && offset == Offset(es, MarkSet(marks), i)
    requires i == 0 || i in MarkSet(marks) || current == es[i - 1].key
    ensures r == Some((es[i], Offset(es, MarkSet(marks), i + 1)))
  {
    hide Data, Shared, Decode, Holds;
    EntryOf(block, es, marks, i);
    FirstSharesNothing(es, MarkSet(marks), i);
    var d := Decode(block.data, block.end, offset);
    if d.None? {
      return None;
    }
    Rebuilt(es, MarkSet(marks), i, current);
    var key := Truncate(current, d.value.shared) + block.data[d.value.keyStart..d.value.valueStart];
    r := Some((Entry(key, block.data[d.value.valueStart..d.value.next]), d.value.next));
  }

  /** Entry offsets lie before the restart array exactly while entries remain. */
  lemma MoreEntries(block: Block, es: seq<Entry>, marks: seq<nat>, i: nat)
    requires Holds(block, es, marks) && i <= |es|
    ensures Offset(es, MarkSet(marks), i) < block.end <==> i < |es|
  {
    hide DecodesTo, Data, Shared;
    OffsetEnds(block, es, marks);
    if i < |es| {
      EntryOf(block, es, marks, i);
    }
  }

  method Entries(block: Block, ghost es: seq<Entry>, ghost marks: seq<nat>) returns (r: Option<seq<Entry>>)
    requires Holds(block, es, marks)
    ensures r == Some(es)
  {
    hide Data, Holds, Offset, MarkSet;
    var out: seq<Entry> := [];
    var current: seq<Byte> := [];
    var offset := 0;
    ghost var i := 0;
    OffsetEnds(block, es, marks);
    MoreEntries(block, es, marks, 0);
    while offset < block.end
      invariant 0 <= i <= |es| && offset == Offset(es, MarkSet(marks), i) && out == es[..i]
      invariant offset < block.end <==> i < |es|
      invariant i > 0 ==> current == es[i - 1].key
      decreases |es| - i
    {
      var next := NextEntry(block, offset, current, es, marks, i);
      if next.None? {
        return None;
      }
      current, offset, out := next.value.0.key, next.value.1, out + [next.value.0];
      i := i + 1;
      MoreEntries(block, es, marks, i);
    }
    assert es[..|es|] == es;
    r := Some(out);
  }

  lemma OffsetEnds(block: Block, es: seq<Entry>, marks: seq<nat>)
    requires Holds(block, es, marks)
    ensures Offset(es, MarkSet(marks), 0) == 0 && Offset(es, MarkSet(marks), |es|) == block.end <= |block.data|
  {
    assert es[..|es|] == es && es[..0] == [];
  }

  lemma FirstSharesNothing(es: seq<Entry>, marks: set<nat>, i: nat)
    requires i < |es|
    ensures i == 0 || i in marks ==> Shared(es, marks, i) == 0
  {
  }

  // ------------------------------------------------------------------ looking up

  ghost predicate Ascending(es: seq<Entry>) {
    forall i, j :: 0 <= i < j < |es| ==> BytesLess(es[i].key, es[j].key)
  }

  /** The whole key stored at a restart point. */
  method RestartKey(block: Block, m: nat, ghost es: seq<Entry>, ghost marks: seq<nat>) returns (key: Option<seq<Byte>>)
    requires Holds(block, es, marks) && m < |block.restarts|
    ensures m < |marks| && marks[m] < |es| && key == Some(es[marks[m]].key)
  {
    hide Data, Decode, Shared;
    MarkInside(block, es, marks, m);
    EntryOf(block, es, marks, marks[m]);
    FirstSharesNothing(es, MarkSet(marks), marks[m]);
    var d := Decode(block.data, block.end, block.restarts[m]);
    if d.None? || d.value.shared != 0 {
      return None;
    }
    key := Some(block.data[d.value.keyStart..d.value.valueStart]);
  }

  lemma MarkInside(block: Block, es: seq<Entry>, marks: seq<nat>, m: nat)
    requires Holds(block, es, marks) && m < |block.restarts|
    ensures m < |marks| && marks[m] < |es| && marks[m] in MarkSet(marks)
    ensures block.restarts[m] == Offset(es, MarkSet(marks), marks[m])
  {
    hide Data;
    assert marks[m] in marks;
  }

  /** How many restart keys are smaller than the key: a binary search. */
  method RestartsBelow(block: Block, key: seq<Byte>, ghost es: seq<Entry>, ghost marks: seq<nat>) returns (left: nat)
    requires Holds(block, es, marks) && Ascending(es)
    ensures left <= |block.restarts|
    ensures left > 0 ==> left <= |marks| && marks[left - 1] < |es| && BytesLess(es[marks[left - 1]].key, key)
    ensures left < |block.restarts| ==> left < |marks| && marks[left] < |es| && !BytesLess(es[marks[left]].key, key)
  {
    hide Data, BytesLess, Holds, Ascending;
    left := 0;
    var right := |block.restarts|;
    while left < right
      invariant 0 <= left <= right <= |block.restarts|
      invariant left > 0 ==> left <= |marks| && marks[left - 1] < |es| && BytesLess(es[marks[left - 1]].key, key)
      invariant right < |block.restarts| ==> right < |marks| && marks[right] < |es|
      invariant right < |block.restarts| ==> !BytesLess(es[marks[right]].key, key)
    {
      var mid := (left + right) / 2;
      var k := RestartKey(block, mid, es, marks);
      if BytesLess(k.value, key) {
        left := mid + 1;
      } else {
        right := mid;
      }
    }
  }

  /** Everything before a smaller key is smaller. */
  lemma AllBelow(es: seq<Entry>, s: nat, key: seq<Byte>)
    requires Ascending(es) && s < |es| && BytesLess(es[s].key, key)
    ensures forall j :: 0 <= j <= s ==> BytesLess(es[j].key, key)
  {
    BytesOrder();
    hide BytesLess;
  }

  /** Finds the value of a key, or nothing exactly when the key is not in the block. */
  method Get(block: Block, key: seq<Byte>, ghost es: seq<Entry>, ghost marks: seq<nat>)
    returns (r: Option<Option<seq<Byte>>>)
    requires Holds(block, es, marks) && Ascending(es)
    ensures r.Some?
    ensures r.value.Some? ==> Entry(key, r.value.value) in es
    ensures r.value.None? ==> forall e :: e in es ==> e.key != key
  {
    if block.restarts == [] {
      NoRestarts(block, es, marks);
      return Some(None);
    }
    hide Data, Holds, BytesLess, Offset, MarkSet;
    var left := RestartsBelow(block, key, es, marks);
    OffsetEnds(block, es, marks);
    if left == 0 {
      r := ScanFrom(block, key, 0, es, marks, 0);
    } else {
      MarkInside(block, es, marks, left - 1);
      AllBelow(es, marks[left - 1], key);
      r := ScanFrom(block, key, block.restarts[left - 1], es, marks, marks[left - 1]);
    }
  }

  /** Walks forward from a restart point until the key is met or passed. */
  method ScanFrom(block: Block, key: seq<Byte>, from: nat, ghost es: seq<Entry>, ghost marks: seq<nat>,
                  ghost start: nat)
    returns (r: Option<Option<seq<Byte>>>)
    requires Holds(block, es, marks) && Ascending(es) && start <= |es| && from == Offset(es, MarkSet(marks), start)
    requires start == 0 || start in MarkSet(marks)
    requires forall j :: 0 <= j < start ==> BytesLess(es[j].key, key)
    ensures r.Some?
    ensures r.value.Some? ==> Entry(key, r.value.value) in es
    ensures r.value.None? ==> forall e :: e in es ==> e.key != key
  {
    BytesOrder();
    hide Data, Holds, BytesLess, Offset, MarkSet;
    var current: seq<Byte> := [];
    var offset := from;
    ghost var i := start;
    MoreEntries(block, es, marks, i);
    while offset < block.end
      invariant start <= i <= |es| && offset == Offset(es, MarkSet(marks), i) && (offset < block.end <==> i < |es|)
      invariant i > start ==> current == es[i - 1].key
      invariant forall j :: 0 <= j < i ==> BytesLess(es[j].key, key)
      decreases |es| - i
    {
      var next := NextEntry(block, offset, current, es, marks, i);
      if next.None? {
        return None;
      }
      current := next.value.0.key;
      if current == key {
        return Some(Some(next.value.0.value));
      }
      if !BytesLess(current, key) {
        NotInBlock(es, i, key);
        return Some(None);
      }
      offset := next.value.1;
      i := i + 1;
      MoreEntries(block, es, marks, i);
    }
    return Some(None);
  }

  lemma NoRestarts(block: Block, es: seq<Entry>, marks: seq<nat>)
    requires Holds(block, es, marks) && block.restarts == []
    ensures es == []
  {
    hide Data;
  }

  lemma NotInBlock(es: seq<Entry>, i: nat, key: seq<Byte>)
    requires Ascending(es) && i < |es| && BytesLess(key, es[i].key)
    requires forall j :: 0 <= j < i ==> BytesLess(es[j].key, key)
    ensures forall e :: e in es ==> e.key != key
  {
    BytesOrder();
    hide BytesLess;
    forall e | e in es
      ensures e.key != key
    {
      var j :| 0 <= j < |es| && es[j] == e;
      assert j > i ==> BytesLess(es[i].key, es[j].key);
    }
  }

  // ------------------------------------------------------------------ from builder to reader

  lemma RestartBounds(es: seq<Entry>, marks: seq<nat>, restarts: seq<nat>)
    requires MarksOk(marks, |es|) && RestartsOk(es, marks, restarts) && es != []
    ensures |restarts| <= |Data(es, MarkSet(marks))|
    ensures forall m :: 0 <= m < |restarts| ==> restarts[m] < |Data(es, MarkSet(marks))|
    ensures forall m :: 0 < m < |restarts| ==> restarts[m - 1] < restarts[m]
  {
    hide Data;
    forall m | 0 <= m < |restarts|
      ensures 3 * m <= restarts[m] < |Data(es, MarkSet(marks))|
    {
      MarkOffsets(es, marks, m);
    }
    forall m | 0 < m < |restarts|
      ensures restarts[m - 1] < restarts[m]
    {
      MarkOffsets(es, marks, m);
      MarkOffsets(es, marks, m - 1);
      OffsetsAscend(es, MarkSet(marks), marks[m - 1], marks[m]);
    }
    assert 3 * (|restarts| - 1) <= restarts[|restarts| - 1];
  }

  /** Whatever a builder finishes, parsing it gives a block that holds exactly what was added. */
  lemma BuiltBlockHolds(es: seq<Entry>, marks: seq<nat>, restarts: seq<nat>)
    requires AllSmall(es) && MarksOk(marks, |es|) && RestartsOk(es, marks, restarts)
    requires |Data(es, MarkSet(marks))| < 0x1_0000_0000
    ensures var rs := if es == [] then [] else restarts; var block := Finished(Data(es, MarkSet(marks)), rs);
            && WellFormed(block) && Holds(Block(block, rs, |Data(es, MarkSet(marks))|), es, marks)
            && ArrayStart(block) == Some(|Data(es, MarkSet(marks))|) && WordAt(block, |block| - 4) == |rs|
            && forall m :: 0 <= m < |rs| ==> WordAt(block, |Data(es, MarkSet(marks))| + 4 * m) == rs[m]
  {
    hide Data, RestartsOk, WordAt, WellFormed, MarkSet;
    if es != [] {
      RestartBounds(es, marks, restarts);
    }
    var rs, data := if es == [] then [] else restarts, Data(es, MarkSet(marks));
    FinishedParses(data, rs);
    assert Finished(data, rs)[..|data|] == data;
  }

  lemma MarkOffsets(es: seq<Entry>, marks: seq<nat>, m: nat)
    requires MarksOk(marks, |es|) && es != [] && m < |marks|
    ensures m <= marks[m] < |es| && 3 * m <= Offset(es, MarkSet(marks), marks[m]) < |Data(es, MarkSet(marks))|
  {
    MarksSpread(marks, m, |es|);
    OffsetsAscend(es, MarkSet(marks), 0, marks[m]);
    OffsetsAscend(es, MarkSet(marks), marks[m], |es|);
    assert es[..|es|] == es && es[..0] == [];
  }

  lemma {:induction false} MarksSpread(marks: seq<nat>, m: nat, n: nat)
    requires MarksOk(marks, n) && n > 0 && m < |marks|
    ensures m <= marks[m] < n
    decreases m
  {
    if m > 0 {
      MarksSpread(marks, m - 1, n);
    }
    assert m < |marks| - 1 ==> marks[m] < marks[|marks| - 1];
  }

  /** An upper bound of the encoded size: three varints of at most five bytes, key and value. */
  function Weight(es: seq<Entry>): nat {
    if es == [] then 0 else Weight(es[..|es| - 1]) + 15 + |es[|es| - 1].key| + |es[|es| - 1].value|
  }

  lemma {:induction false} VarintLength(v: nat, k: nat)
    requires Remains(v, k)
    ensures |Varint(v)| <= MAX_BYTES - k
    decreases v
  {
    if v >= 0x80 {
      MoreToCome(v, k);
      VarintLength(v / 0x80, k + 1);
    }
  }

  lemma {:induction false} DataWeight(es: seq<Entry>, marks: set<nat>)
    requires AllSmall(es)
    ensures |Data(es, marks)| <= Weight(es)
  {
    hide EntryBytes, Shared, Small;
    if es != [] {
      var n := |es| - 1;
      DataWeight(es[..n], marks);
      EntryWeight(Shared(es, marks, n), es[n]);
    }
  }

  lemma EntryWeight(shared: nat, e: Entry)
    requires shared <= |e.key| && Small(e)
    ensures |EntryBytes(shared, e)| <= 15 + |e.key| + |e.value|
  {
    hide Varint;
    assert Pow128(0) == 1;
    VarintLength(shared, 0);
    VarintLength(|e.key| - shared, 0);
    VarintLength(|e.value|, 0);
  }

  lemma {:induction false} WeightGrows(es: seq<Entry>, i: nat)
    requires i <= |es|
    ensures Weight(es[..i]) <= Weight(es)
    decreases |es|
  {
    if i < |es| {
      WeightGrows(es[..|es| - 1], i);
      assert es[..|es| - 1][..i] == es[..i];
    } else {
      assert es[..i] == es;
    }
  }

  /** Builds a block for any entries and any restart interval, parses it, and lists it: the same entries come back. */
  method BuildAndList(es: seq<Entry>, interval: nat) returns (r: Option<seq<Entry>>)
    requires AllSmall(es) && Weight(es) < 0x1_0000_0000
    ensures r == Some(es)
  {
    var builder := new BlockBuilder(interval);
    AddAll(builder, es);
    BuilderImage(builder, es);
    ghost var marks, rs := builder.marks, if es == [] then [] else builder.restarts;
    hide BlockBuilder.Valid, ImageOf, Finished;
    var bytes := builder.Finish();
    r := ListBytes(bytes, es, marks, rs);
  }

  /** `bytes` is a well-formed block image of `es`. */
  ghost predicate ImageOf(bytes: seq<Byte>, es: seq<Entry>, marks: seq<nat>, rs: seq<nat>) {
    && WellFormed(bytes) && Holds(Block(bytes, rs, |Data(es, MarkSet(marks))|), es, marks)
    && ArrayStart(bytes) == Some(|Data(es, MarkSet(marks))|) && WordAt(bytes, |bytes| - 4) == |rs|
    && forall m :: 0 <= m < |rs| ==> WordAt(bytes, |Data(es, MarkSet(marks))| + 4 * m) == rs[m]
  }

  lemma BuilderImage(builder: BlockBuilder, es: seq<Entry>)
    requires builder.Valid() && builder.added == es && AllSmall(es) && Weight(es) < 0x1_0000_0000
    ensures var rs := if es == [] then [] else builder.restarts;
            ImageOf(Finished(builder.buffer, rs), es, builder.marks, rs)
  {
    hide Data, MarkSet, RestartsOk, WellFormed, Holds, WordAt, Finished;
    DataWeight(es, MarkSet(builder.marks));
    BuiltBlockHolds(es, builder.marks, builder.restarts);
  }

  method AddAll(builder: BlockBuilder, es: seq<Entry>)
    requires builder.Valid() && builder.added == [] && AllSmall(es) && Weight(es) < 0x1_0000_0000
    modifies builder
    ensures builder.Valid() && builder.added == es
  {
    hide BlockBuilder.Valid, Weight;
    for i := 0 to |es|
      invariant builder.Valid() && builder.added == es[..i]
    {
      BufferFits(builder, es, i);
      assert es[i] == Entry(es[i].key, es[i].value);
      builder.Add(es[i].key, es[i].value);
      assert es[..i + 1] == es[..i] + [es[i]];
    }
    assert es[..|es|] == es;
  }

  lemma BufferFits(builder: BlockBuilder, es: seq<Entry>, i: nat)
    requires builder.Valid() && i <= |es| && builder.added == es[..i] && AllSmall(es) && Weight(es) < 0x1_0000_0000
    ensures |builder.buffer| < 0x1_0000_0000
  {
    hide Data, MarkSet, RestartsOk;
    DataWeight(es[..i], MarkSet(builder.marks));
    WeightGrows(es, i);
  }

  method ListBytes(bytes: seq<Byte>, ghost es: seq<Entry>, ghost marks: seq<nat>, ghost rs: seq<nat>)
    returns (r: Option<seq<Entry>>)
    requires ImageOf(bytes, es, marks, rs)
    ensures r == Some(es)
  {
    hide Data, MarkSet, Finished, WellFormed, WordAt, Holds;
    var block := Parse(bytes);
    if block.None? {
      return None;
    }
    assert block.value.restarts == rs;
    r := Entries(block.value, es, marks);
  }

  /** Builds a block for ascending keys and any restart interval, parses it, and looks a key up in it. */
  method BuildAndGet(es: seq<Entry>, interval: nat, key: seq<Byte>) returns (r: Option<seq<Byte>>)
    requires AllSmall(es) && Weight(es) < 0x1_0000_0000 && Ascending(es)
    ensures r.Some? ==> Entry(key, r.value) in es
    ensures r.None? ==> forall e :: e in es ==> e.key != key
  {
    var builder := new BlockBuilder(interval);
    AddAll(builder, es);
    BuilderImage(builder, es);
    ghost var marks, rs := builder.marks, if es == [] then [] else builder.restarts;
    hide BlockBuilder.Valid, ImageOf, Finished;
    var bytes := builder.Finish();
    r := LookUp(bytes, key, es, marks, rs);
  }

  method LookUp(bytes: seq<Byte>, key: seq<Byte>, ghost es: seq<Entry>, ghost marks: seq<nat>, ghost rs: seq<nat>)
    returns (r: Option<seq<Byte>>)
    requires ImageOf(bytes, es, marks, rs) && Ascending(es)
    ensures r.Some? ==> Entry(key, r.value) in es
    ensures r.None? ==> forall e :: e in es ==> e.key != key
  {
    hide Data, MarkSet, Finished, WellFormed, WordAt, Holds, Ascending;
    var block := Parse(bytes);
    assert block.Some? && block.value.restarts == rs;
    var found := Get(block.value, key, es, marks);
    r := found.value;
  }
}
