/** Sorted data blocks: prefix-compressed entries, restart points where keys are whole, and their offsets at the end. */
module LsmBlock {
  import opened Options
  import opened Bytes
  import opened Coding

  datatype Entry = Entry(key: seq<Byte>, value: seq<Byte>)

  // ------------------------------------------------------------------ the layout

  function CommonPrefix(a: seq<Byte>, b: seq<Byte>): (n: nat)
    ensures n <= |a| && n <= |b| && a[..n] == b[..n]
  {
    if a == [] || b == [] || a[0] != b[0] then 0 else
      var n := CommonPrefix(a[1..], b[1..]);
      assert a[..n + 1] == [a[0]] + a[1..][..n] && b[..n + 1] == [b[0]] + b[1..][..n];
      n + 1
  }

  /** No longer prefix is common. */
  lemma {:induction false} PrefixIsLongest(a: seq<Byte>, b: seq<Byte>, n: nat)
    requires n <= |a| && n <= |b| && a[..n] == b[..n]
    ensures n <= CommonPrefix(a, b)
  {
    if n > 0 {
      assert a[0] == a[..n][0] && b[0] == b[..n][0];
      assert a[1..][..n - 1] == a[..n][1..] && b[1..][..n - 1] == b[..n][1..];
      PrefixIsLongest(a[1..], b[1..], n - 1);
    }
  }

  method CommonPrefixLen(a: seq<Byte>, b: seq<Byte>) returns (i: nat)
    ensures i == CommonPrefix(a, b)
  {
    var max := if |a| < |b| then |a| else |b|;
    i := 0;
    while i < max && a[i] == b[i]
      invariant i <= max && CommonPrefix(a, b) == i + CommonPrefix(a[i..], b[i..])
    {
      assert a[i..][1..] == a[i + 1..] && b[i..][1..] == b[i + 1..];
      i := i + 1;
    }
  }

  lemma NoPrefix(b: seq<Byte>)
    ensures CommonPrefix([], b) == 0
  {
  }

  /** How many bytes entry `i` takes over from its predecessor: none at a restart point. */
  function Shared(es: seq<Entry>, marks: set<nat>, i: nat): (n: nat)
    requires i < |es|
    ensures n <= |es[i].key|
  {
    if i == 0 || i in marks then 0 else CommonPrefix(es[i - 1].key, es[i].key)
  }

  function EntryBytes(shared: nat, e: Entry): seq<Byte>
    requires shared <= |e.key|
  {
    Varint(shared) + Varint(|e.key| - shared) + Varint(|e.value|) + e.key[shared..] + e.value
  }

  function Data(es: seq<Entry>, marks: set<nat>): seq<Byte> {
    if es == [] then [] else
      var n := |es| - 1;
      Data(es[..n], marks) + EntryBytes(Shared(es, marks, n), es[n])
  }

  function Offset(es: seq<Entry>, marks: set<nat>, i: nat): nat
    requires i <= |es|
  {
    |Data(es[..i], marks)|
  }

  lemma DataNext(es: seq<Entry>, marks: set<nat>, i: nat)
    requires i < |es|
    ensures Data(es[..i + 1], marks) == Data(es[..i], marks) + EntryBytes(Shared(es, marks, i), es[i])
    ensures Offset(es, marks, i) + 3 <= Offset(es, marks, i + 1)
  {
    assert es[..i + 1][..i] == es[..i];
  }

  lemma {:induction false} DataPrefix(es: seq<Entry>, marks: set<nat>, i: nat) returns (rest: seq<Byte>)
    requires i <= |es|
    ensures Data(es, marks) == Data(es[..i], marks) + rest
    decreases |es| - i
  {
    hide EntryBytes, Shared;
    if i == |es| {
      assert es[..i] == es;
      rest := [];
    } else {
      DataNext(es, marks, i);
      var r := DataPrefix(es, marks, i + 1);
      rest := EntryBytes(Shared(es, marks, i), es[i]) + r;
    }
  }

  lemma {:induction false} OffsetsAscend(es: seq<Entry>, marks: set<nat>, i: nat, j: nat)
    requires i <= j <= |es|
    ensures Offset(es, marks, i) + 3 * (j - i) <= Offset(es, marks, j)
    decreases j
  {
    hide Data, EntryBytes, Shared;
    if i < j {
      OffsetsAscend(es, marks, i, j - 1);
      DataNext(es, marks, j - 1);
    }
  }

  /** Marks behind the last entry do not matter. */
  lemma {:induction false} LaterMark(es: seq<Entry>, marks: set<nat>, m: nat)
    requires |es| <= m
    ensures Data(es, marks + {m}) == Data(es, marks)
  {
    if es != [] {
      LaterMark(es[..|es| - 1], marks, m);
    }
  }

  // ------------------------------------------------------------------ reading one entry

  datatype Decoded = Decoded(shared: nat, keyStart: nat, valueStart: nat, next: nat)

  /** The entry at `offset`; `end` is where the restart array starts. */
  function Decode(data: seq<Byte>, end: nat, offset: nat): (r: Option<Decoded>)
    ensures r.Some? ==> offset < r.value.keyStart <= r.value.valueStart <= r.value.next <= end
  {
    if offset >= end then None else
      var a := ReadFrom(data, offset, 0);
      if a.None? then None else
        var b := ReadFrom(data, a.value.1, 0);
        if b.None? then None else
          var c := ReadFrom(data, b.value.1, 0);
          if c.None? then None else
            ReadAdvances(data, offset, 0);
            ReadAdvances(data, a.value.1, 0);
            ReadAdvances(data, b.value.1, 0);
            var valueStart := c.value.1 + b.value.0;
            var next := valueStart + c.value.0;
            if next > end then None else Some(Decoded(a.value.0, c.value.1, valueStart, next))
  }

  lemma {:induction false} ReadAdvances(data: seq<Byte>, pos: nat, k: nat)
    ensures ReadFrom(data, pos, k).Some? ==> pos < ReadFrom(data, pos, k).value.1
    decreases MAX_BYTES - k
  {
    if k < MAX_BYTES && pos < |data| && data[pos] >= 0x80 {
      ReadAdvances(data, pos + 1, k + 1);
    }
  }

  /** Lengths that the format can carry. */
  predicate Small(e: Entry) {
    |e.key| < 0x1_0000_0000 && |e.value| < 0x1_0000_0000
  }

  /** The bytes at `offset` are entry `e` with `shared` bytes left out, and end at `next`. */
  ghost predicate DecodesTo(data: seq<Byte>, end: nat, offset: nat, shared: nat, e: Entry, next: nat) {
    var d := Decode(data, end, offset);
    && d.Some? && d.value.shared == shared <= |e.key| && d.value.next == next <= |data|
    && data[d.value.keyStart..d.value.valueStart] == e.key[shared..] && data[d.value.valueStart..next] == e.value
  }

  lemma DecodeBytes(before: seq<Byte>, shared: nat, e: Entry, rest: seq<Byte>, end: nat)
    requires shared <= |e.key| && Small(e) && |before| + |EntryBytes(shared, e)| <= end
    ensures DecodesTo(before + EntryBytes(shared, e) + rest, end, |before|, shared, e,
                      |before| + |EntryBytes(shared, e)|)
  {
    hide ReadFrom, Varint;
    var a, b, c := Varint(shared), Varint(|e.key| - shared), Varint(|e.value|);
    var data := before + EntryBytes(shared, e) + rest;
    var start := |before| + |a| + |b| + |c|;
    assert data[|before|..|before| + |a|] == a;
    assert data[|before| + |a|..|before| + |a| + |b|] == b;
    assert data[|before| + |a| + |b|..start] == c;
    ReadAt(data, |before|, shared);
    ReadAt(data, |before| + |a|, |e.key| - shared);
    ReadAt(data, |before| + |a| + |b|, |e.value|);
    assert data[start..start + |e.key| - shared] == e.key[shared..];
    assert data[start + |e.key| - shared..|before| + |EntryBytes(shared, e)|] == e.value;
  }

  /** A varint is read wherever its bytes stand. */
  lemma ReadAt(data: seq<Byte>, pos: nat, v: U32)
    requires pos + |Varint(v)| <= |data| && data[pos..pos + |Varint(v)|] == Varint(v)
    ensures ReadFrom(data, pos, 0) == Some((v, pos + |Varint(v)|))
  {
    hide ReadFrom, Varint;
    RoundTrip(v, data[..pos], data[pos + |Varint(v)|..]);
    assert data == data[..pos] + Varint(v) + data[pos + |Varint(v)|..];
  }

  /** A block's data around entry `i`. */
  lemma DataAround(es: seq<Entry>, marks: set<nat>, i: nat) returns (rest: seq<Byte>)
    requires i < |es|
    ensures Data(es, marks) == Data(es[..i], marks) + EntryBytes(Shared(es, marks, i), es[i]) + rest
    ensures Offset(es, marks, i + 1) == Offset(es, marks, i) + |EntryBytes(Shared(es, marks, i), es[i])|
  {
    DataNext(es, marks, i);
    hide Data, EntryBytes;
    rest := DataPrefix(es, marks, i + 1);
  }

  ghost predicate AllSmall(es: seq<Entry>) {
    forall i :: 0 <= i < |es| ==> Small(es[i])
  }

  /** In a finished block, the bytes at entry `i`'s offset decode to it. */
  lemma DecodeAt(es: seq<Entry>, marks: set<nat>, tail: seq<Byte>, i: nat)
    requires i < |es| && AllSmall(es)
    ensures DecodesTo(Data(es, marks) + tail, |Data(es, marks)|, Offset(es, marks, i), Shared(es, marks, i), es[i],
                      Offset(es, marks, i + 1))
  {
    hide Decode, EntryBytes, Data, DecodesTo, Shared, Small;
    var rest := DataAround(es, marks, i);
    DecodeWithin(Data(es[..i], marks), Shared(es, marks, i), es[i], rest, tail, Data(es, marks));
  }

  lemma DecodeWithin(before: seq<Byte>, shared: nat, e: Entry, rest: seq<Byte>, tail: seq<Byte>, all: seq<Byte>)
    requires shared <= |e.key| && Small(e) && all == before + EntryBytes(shared, e) + rest
    ensures DecodesTo(all + tail, |all|, |before|, shared, e, |before| + |EntryBytes(shared, e)|)
  {
    hide Decode, EntryBytes, DecodesTo, Small;
    DecodeBytes(before, shared, e, rest + tail, |all|);
    assert before + EntryBytes(shared, e) + (rest + tail) == all + tail;
  }

  /** The key is rebuilt from its predecessor, or from anything at a restart point. */
  lemma Rebuilt(es: seq<Entry>, marks: set<nat>, i: nat, current: seq<Byte>)
    requires i < |es| && (Shared(es, marks, i) != 0 ==> current == es[i - 1].key)
    ensures Truncate(current, Shared(es, marks, i)) + es[i].key[Shared(es, marks, i)..] == es[i].key
  {
    var n := Shared(es, marks, i);
    assert es[i].key == es[i].key[..n] + es[i].key[n..];
  }

  function Truncate(s: seq<Byte>, n: nat): seq<Byte> {
    if n < |s| then s[..n] else s
  }

  // ------------------------------------------------------------------ a finished block

  ghost function MarkSet(marks: seq<nat>): set<nat> {
    set m | m in marks
  }

  /** Restart points begin at the first entry and ascend. */
  ghost predicate MarksOk(marks: seq<nat>, n: nat) {
    && (n == 0 ==> marks == [0])
    && (n > 0 ==> |marks| > 0 && marks[0] == 0 && marks[|marks| - 1] < n)
    && (forall i, j :: 0 <= i < j < |marks| ==> marks[i] < marks[j])
  }

  ghost predicate RestartsOk(es: seq<Entry>, marks: seq<nat>, restarts: seq<nat>) {
    |restarts| == |marks| && forall i :: 0 <= i < |marks| && marks[i] <= |es| ==>
      restarts[i] == Offset(es, MarkSet(marks), marks[i])
  }

  function WordBytes(words: seq<nat>): (s: seq<Byte>)
    ensures |s| == 4 * |words|
  {
    if words == [] then [] else WordBytes(words[..|words| - 1]) + ToLe(words[|words| - 1] % 0x1_0000_0000, 4)
  }

  function Finished(data: seq<Byte>, restarts: seq<nat>): seq<Byte> {
    data + WordBytes(restarts) + ToLe(|restarts| % 0x1_0000_0000, 4)
  }

  /** Runs of `interval` entries, each started by a restart point; `counter` counts the current one. */
  ghost predicate RunsOk(es: seq<Entry>, marks: seq<nat>, counter: nat, interval: nat) {
    && MarksOk(marks, |es|) && counter == |es| - marks[|marks| - 1] <= interval
    && forall i :: 0 <= i < |marks| ==> marks[i] == i * interval
  }

  /** A restart point may stand behind the last entry, and the run has room. */
  ghost predicate ReadyForMore(es: seq<Entry>, marks: seq<nat>, counter: nat, interval: nat) {
    && |marks| > 0 && marks[0] == 0 && marks[|marks| - 1] <= |es|
    && (forall i, j :: 0 <= i < j < |marks| ==> marks[i] < marks[j])
    && counter == |es| - marks[|marks| - 1] < interval
    && forall i :: 0 <= i < |marks| ==> marks[i] == i * interval
  }

  class BlockBuilder {
    var buffer: seq<Byte>
    var restarts: seq<nat>
    var counter: nat
    var lastKey: seq<Byte>
    const interval: nat

    ghost var added: seq<Entry>
    ghost var marks: seq<nat>

    ghost predicate Valid()
      reads this
    {
      && 1 <= interval && buffer == Data(added, MarkSet(marks)) && RestartsOk(added, marks, restarts)
      && RunsOk(added, marks, counter, interval)
      && lastKey == (if added == [] then [] else added[|added| - 1].key)
    }

    constructor (restartInterval: nat)
      ensures Valid() && added == [] && interval == if restartInterval == 0 then 1 else restartInterval
    {
      buffer, restarts, counter, lastKey := [], [0], 0, [];
      interval := if restartInterval == 0 then 1 else restartInterval;
      added, marks := [], [0];
    }

    /** Starts a new run when the current one is full; tells how much of the last key the next entry shares. */
    method NextShared(key: seq<Byte>, ghost e: Entry) returns (shared: nat)
      requires Valid() && e.key == key
      modifies `restarts, `marks, `counter
      ensures buffer == Data(added, MarkSet(marks)) && RestartsOk(added, marks, restarts)
      ensures ReadyForMore(added, marks, counter, interval)
      ensures shared == Shared(added + [e], MarkSet(marks), |added|)
    {
      NoPrefix(key);
      hide Data, CommonPrefix, RestartsOk, MarkSet, Shared;
      if counter < interval {
        shared := CommonPrefixLen(lastKey, key);
      } else {
        AddMark(added, marks, restarts);
        assert |added| == (|marks| - 1) * interval + interval == |marks| * interval;
        restarts, marks := restarts + [|buffer|], marks + [|added|];
        counter := 0;
        shared := 0;
      }
      SharedHere(added, marks, e);
    }

    /** Lengths and offsets are 32-bit fields. */
    method Add(key: seq<Byte>, value: seq<Byte>)
      requires Valid() && Small(Entry(key, value)) && |buffer| < 0x1_0000_0000
      modifies this
      ensures Valid() && added == old(added) + [Entry(key, value)] && old(buffer) <= buffer
    {
      hide Data, EntryBytes, CommonPrefix, RestartsOk, MarkSet, Shared, RunsOk, ReadyForMore;
      ghost var e := Entry(key, value);
      var shared := NextShared(key, e);
      Extend(added, marks, restarts, counter, interval, e);
      buffer := WriteEntry(buffer, shared, key, value);
      lastKey := key;
      counter := counter + 1;
      added := added + [e];
    }

    /** The encoded block; the builder is empty again. */
    method Finish() returns (block: seq<Byte>)
      requires Valid()
      modifies this
      ensures Valid() && added == []
      ensures block == Finished(old(buffer), if old(added) == [] then [] else old(restarts))
    {
      hide Data, MarkSet, WordBytes;
      SomeData(added, MarkSet(marks));
      NothingAdded(interval);
      var rs := if buffer == [] then [] else restarts;
      block := WriteWords(buffer, rs);
      block := block + ToLe(|rs| % 0x1_0000_0000, 4);
      buffer, restarts, counter, lastKey := [], [0], 0, [];
      added, marks := [], [0];
    }
  }

  method WriteEntry(buf: seq<Byte>, shared: nat, key: seq<Byte>, value: seq<Byte>) returns (r: seq<Byte>)
    requires shared <= |key| && Small(Entry(key, value))
    ensures r == buf + EntryBytes(shared, Entry(key, value))
  {
    hide Varint;
    r := Put(buf, shared);
    r := Put(r, |key| - shared);
    r := Put(r, |value|);
    r := r + key[shared..];
    r := r + value;
  }

  method WriteWords(buf: seq<Byte>, words: seq<nat>) returns (r: seq<Byte>)
    ensures r == buf + WordBytes(words)
  {
    r := buf;
    for i := 0 to |words|
      invariant r == buf + WordBytes(words[..i])
    {
      assert words[..i + 1][..i] == words[..i];
      r := r + ToLe(words[i] % 0x1_0000_0000, 4);
    }
    assert words[..|words|] == words;
  }

  lemma NothingAdded(interval: nat)
    ensures Data([], MarkSet([0])) == [] && RestartsOk([], [0], [0]) && RunsOk([], [0], 0, interval)
  {
  }

  lemma SomeData(es: seq<Entry>, marks: set<nat>)
    ensures es == [] <==> Data(es, marks) == []
  {
    if es != [] {
      assert es[..|es|] == es;
      DataNext(es, marks, |es| - 1);
    }
  }

  lemma AddMark(es: seq<Entry>, marks: seq<nat>, restarts: seq<nat>)
    requires MarksOk(marks, |es|) && RestartsOk(es, marks, restarts) && es != []
    ensures Data(es, MarkSet(marks + [|es|])) == Data(es, MarkSet(marks))
    ensures RestartsOk(es, marks + [|es|], restarts + [|Data(es, MarkSet(marks))|])
  {
    var more := marks + [|es|];
    assert MarkSet(more) == MarkSet(marks) + {|es|};
    assert es[..|es|] == es;
    LaterMark(es, MarkSet(marks), |es|);
    forall i | 0 <= i < |marks|
      ensures marks[i] <= |es| && Offset(es, MarkSet(more), marks[i]) == Offset(es, MarkSet(marks), marks[i])
    {
      LaterMark(es[..marks[i]], MarkSet(marks), |es|);
    }
  }

  lemma ExtendData(es: seq<Entry>, marks: set<nat>, e: Entry)
    ensures Data(es + [e], marks) == Data(es, marks) + EntryBytes(Shared(es + [e], marks, |es|), e)
  {
    hide EntryBytes, Shared;
    var all := es + [e];
    assert all[..|es|] == es && |all| - 1 == |es|;
  }

  lemma ExtendRestarts(es: seq<Entry>, marks: seq<nat>, restarts: seq<nat>, e: Entry)
    requires RestartsOk(es, marks, restarts) && forall i :: 0 <= i < |marks| ==> marks[i] <= |es|
    ensures RestartsOk(es + [e], marks, restarts)
  {
    hide Data;
    var all := es + [e];
    forall i | 0 <= i < |marks|
      ensures restarts[i] == Offset(all, MarkSet(marks), marks[i])
    {
      assert all[..marks[i]] == es[..marks[i]];
    }
  }

  lemma ExtendRuns(es: seq<Entry>, marks: seq<nat>, counter: nat, interval: nat, e: Entry)
    requires ReadyForMore(es, marks, counter, interval)
    ensures RunsOk(es + [e], marks, counter + 1, interval)
    ensures forall i :: 0 <= i < |marks| ==> marks[i] <= |es|
  {
    forall i | 0 <= i < |marks|
      ensures marks[i] <= |es|
    {
      assert i < |marks| - 1 ==> marks[i] < marks[|marks| - 1];
    }
  }

  lemma Extend(es: seq<Entry>, marks: seq<nat>, restarts: seq<nat>, counter: nat, interval: nat, e: Entry)
    requires RestartsOk(es, marks, restarts) && ReadyForMore(es, marks, counter, interval)
    ensures RestartsOk(es + [e], marks, restarts) && RunsOk(es + [e], marks, counter + 1, interval)
    ensures Data(es + [e], MarkSet(marks)) ==
            Data(es, MarkSet(marks)) + EntryBytes(Shared(es + [e], MarkSet(marks), |es|), e)
  {
    hide Data, EntryBytes, Shared, RestartsOk, RunsOk, ReadyForMore;
    ExtendRuns(es, marks, counter, interval, e);
    ExtendRestarts(es, marks, restarts, e);
    ExtendData(es, MarkSet(marks), e);
  }

  /** A new entry shares its prefix with the last key unless it starts a new run. */
  lemma SharedHere(es: seq<Entry>, marks: seq<nat>, e: Entry)
    requires |marks| > 0 && forall i :: 0 <= i < |marks| ==> marks[i] <= |es|
    requires forall i, j :: 0 <= i < j < |marks| ==> marks[i] < marks[j]
    ensures var last := marks[|marks| - 1];
            Shared(es + [e], MarkSet(marks), |es|) ==
              if last == |es| then 0 else CommonPrefix(if es == [] then [] else es[|es| - 1].key, e.key)
  {
    if marks[|marks| - 1] != |es| {
      assert forall i :: 0 <= i < |marks| ==> marks[i] < |es|;
      assert |es| !in MarkSet(marks);
    } else {
      assert |es| in marks;
    }
  }
}
