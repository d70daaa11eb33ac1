/** Deleting from a slotted page closes the gap. */
module SlottedCompact {
  import opened Options
  import opened Bytes
  import opened Slotted
  import opened SlottedOps
  import opened SlottedPage

  // ------------------------------------------------------------------ the compacted directory

  /** Records packed against the end in slot order. */
  function CompactedSlot(d: seq<Slot>, i: nat): Slot
    requires i < |d| && Sum(d) <= PAGE_SIZE
  {
    SumTake(d, i + 1);
    if d[i] == EMPTY then EMPTY else Slot(PAGE_SIZE - Sum(d[..i + 1]), d[i].len)
  }

  function Compacted(d: seq<Slot>): (r: seq<Slot>)
    requires Sum(d) <= PAGE_SIZE
    ensures |r| == |d| && forall i :: 0 <= i < |r| ==> r[i] == CompactedSlot(d, i)
  {
    seq(|d|, i requires 0 <= i < |d| => CompactedSlot(d, i))
  }

  lemma SumTake(d: seq<Slot>, i: nat)
    requires i <= |d|
    ensures Sum(d[..i]) <= Sum(d)
  {
    SumAppend(d[..i], d[i..]);
    assert d[..i] + d[i..] == d;
  }

  lemma SumNext(d: seq<Slot>, i: nat)
    requires i < |d|
    ensures Sum(d[..i + 1]) == Sum(d[..i]) + d[i].len
  {
    assert d[..i + 1][..i] == d[..i];
  }

  lemma SumOrder(d: seq<Slot>, i: nat, j: nat)
    requires i <= j <= |d|
    ensures Sum(d[..i]) <= Sum(d[..j])
  {
    SumTake(d[..j], i);
    assert d[..j][..i] == d[..i];
  }

  lemma {:induction false} SameLengths(a: seq<Slot>, b: seq<Slot>)
    requires |a| == |b| && forall i :: 0 <= i < |a| ==> a[i].len == b[i].len
    ensures Sum(a) == Sum(b)
  {
    if a != [] {
      SameLengths(a[..|a| - 1], b[..|b| - 1]);
    }
  }

  /** Before compaction: live records somewhere on the page, and together small enough. */
  ghost predicate Loose(d: seq<Slot>) {
    && HEADER_SIZE + SLOT_SIZE * |d| + Sum(d) <= PAGE_SIZE
    && forall i :: 0 <= i < |d| ==> d[i] == EMPTY || (d[i].off != 0 && d[i].off + d[i].len <= PAGE_SIZE)
  }

  /** A compacted record ends where the ones before it begin. */
  lemma CompactedBounds(d: seq<Slot>, i: nat)
    requires Sum(d) <= PAGE_SIZE && i < |d|
    ensures var c := CompactedSlot(d, i);
            c == EMPTY || (PAGE_SIZE - Sum(d) <= c.off && c.off + c.len == PAGE_SIZE - Sum(d[..i]) &&
                           c.off == PAGE_SIZE - Sum(d[..i + 1]))
    ensures CompactedSlot(d, i).len == if d[i] == EMPTY then 0 else d[i].len
  {
    hide Sum;
    SumTake(d, i + 1);
    SumNext(d, i);
  }

  lemma CompactedApart(d: seq<Slot>, i: nat, j: nat)
    requires Sum(d) <= PAGE_SIZE && i < j < |d|
    ensures Apart(CompactedSlot(d, i), CompactedSlot(d, j))
  {
    hide Sum, CompactedSlot;
    CompactedBounds(d, i);
    CompactedBounds(d, j);
    SumOrder(d, i + 1, j);
  }

  lemma CompactedPacked(d: seq<Slot>)
    requires Loose(d)
    ensures Packed(Compacted(d), PAGE_SIZE - Sum(d))
  {
    hide Sum, CompactedSlot, Apart;
    var c := Compacted(d);
    forall i | 0 <= i < |d|
      ensures c[i] == EMPTY || (PAGE_SIZE - Sum(d) <= c[i].off && c[i].off + c[i].len <= PAGE_SIZE)
      ensures c[i].len == d[i].len
    {
      CompactedBounds(d, i);
    }
    forall i, j | 0 <= i < j < |d|
      ensures Apart(c[i], c[j])
    {
      CompactedApart(d, i, j);
    }
    SameLengths(c, d);
  }

  // ------------------------------------------------------------------ moving the records

  /** The first `i` slots have been moved; `q` is the page so far, `p` the page before. */
  ghost predicate Moved(p: seq<Byte>, q: seq<Byte>, i: nat)
    requires DirFits(p) && Loose(Dir(p)) && i <= NumSlots(p)
  {
    var d := Dir(p);
    && |q| == PAGE_SIZE && NumSlots(q) == NumSlots(p)
    && (forall j :: 0 <= j < i ==> SlotAt(q, j) == CompactedSlot(d, j) && RecordMoved(p, q, j))
    && (forall j :: i <= j < |d| ==> SlotAt(q, j) == d[j])
  }

  /** Slot `j`'s bytes stand at its compacted place. */
  ghost predicate RecordMoved(p: seq<Byte>, q: seq<Byte>, j: nat)
    requires DirFits(p) && Loose(Dir(p)) && j < NumSlots(p) && |q| == PAGE_SIZE
  {
    CompactedBounds(Dir(p), j);
    RecordIn(q, CompactedSlot(Dir(p), j)) == RecordIn(p, Dir(p)[j])
  }

  function MoveOne(q: seq<Byte>, i: nat, off: U16, data: seq<Byte>): (r: seq<Byte>)
    requires |q| == PAGE_SIZE && off + |data| <= PAGE_SIZE && HEADER_SIZE + SLOT_SIZE * (i + 1) <= PAGE_SIZE
    ensures |r| == PAGE_SIZE
  {
    SetSlot(Put(q, off, data), i, off, |data|)
  }

  /** Placing one record below the others: its own slot is set, later bytes and other slots stay. */
  lemma MoveOneFacts(q: seq<Byte>, i: nat, off: U16, data: seq<Byte>, n: nat)
    requires |q| == PAGE_SIZE && HEADER_SIZE + SLOT_SIZE * n <= off && off + |data| <= PAGE_SIZE && i < n
    ensures var r := MoveOne(q, i, off, data); NumSlots(r) == NumSlots(q) && SlotAt(r, i) == Slot(off, |data|)
    ensures MoveOne(q, i, off, data)[off..off + |data|] == data
    ensures forall a, b :: off + |data| <= a <= b <= PAGE_SIZE ==> MoveOne(q, i, off, data)[a..b] == q[a..b]
    ensures forall j :: 0 <= j < n && j != i ==> SlotAt(MoveOne(q, i, off, data), j) == SlotAt(q, j)
  {
    hide Word, SlotAt, SetSlot, Put;
    var t := Put(q, off, data);
    DataFacts(q, off, data, n);
    SetSlotFacts(t, i, off, |data|);
    var r := SetSlot(t, i, off, |data|);
    forall a, b | off + |data| <= a <= b <= PAGE_SIZE
      ensures r[a..b] == q[a..b]
    {
      PutRange(q, off, data, a, b);
    }
    forall j | 0 <= j < n && j != i
      ensures SlotAt(r, j) == SlotAt(q, j)
    {
      SetSlotOther(t, i, off, |data|, j);
    }
  }

  lemma MovedNext(p: seq<Byte>, q: seq<Byte>, i: nat)
    requires DirFits(p) && Loose(Dir(p)) && i < NumSlots(p) && Moved(p, q, i) && Dir(p)[i] != EMPTY
    ensures var s, off := Dir(p)[i], CompactedSlot(Dir(p), i).off;
            && HEADER_SIZE + SLOT_SIZE * NumSlots(p) <= off
            && off == PAGE_SIZE - Sum(Dir(p)[..i]) - s.len == PAGE_SIZE - Sum(Dir(p)[..i + 1])
            && Moved(p, MoveOne(q, i, off, p[s.off..s.off + s.len]), i + 1)
  {
    hide Word, SlotAt, MoveOne, Sum, CompactedSlot;
    var d := Dir(p);
    SumTake(d, i + 1);
    SumNext(d, i);
    SlotStays(d, i);
    var s, off := d[i], CompactedSlot(d, i).off;
    var data := p[s.off..s.off + s.len];
    MoveOneFacts(q, i, off, data, |d|);
    var r := MoveOne(q, i, off, data);
    forall j | 0 <= j < i
      ensures RecordMoved(p, r, j)
    {
      CompactedBounds(d, j);
      SumOrder(d, j + 1, i);
      assert RecordMoved(p, q, j);
    }
    assert RecordMoved(p, r, i);
  }

  lemma SlotStays(d: seq<Slot>, i: nat)
    requires Sum(d) <= PAGE_SIZE && i < |d|
    ensures CompactedSlot(d, i) == EMPTY ==> d[i] == EMPTY || PAGE_SIZE - Sum(d[..i + 1]) == 0
    ensures d[i] != EMPTY ==> CompactedSlot(d, i) == Slot(PAGE_SIZE - Sum(d[..i + 1]), d[i].len)
  {
    hide Sum;
    SumTake(d, i + 1);
  }

  lemma MovedSkip(p: seq<Byte>, q: seq<Byte>, i: nat)
    requires DirFits(p) && Loose(Dir(p)) && i < NumSlots(p) && Moved(p, q, i) && Dir(p)[i] == EMPTY
    ensures Moved(p, q, i + 1) && Sum(Dir(p)[..i + 1]) == Sum(Dir(p)[..i])
  {
    hide Word, SlotAt, Sum;
    SumNext(Dir(p), i);
    assert RecordMoved(p, q, i);
  }

  /** When all slots are done and the bound is set, the page is packed and holds the same records. */
  lemma CompactDone(p: seq<Byte>, q: seq<Byte>, upper: U16)
    requires DirFits(p) && Loose(Dir(p)) && Moved(p, q, NumSlots(p)) && upper == PAGE_SIZE - Sum(Dir(p))
    ensures var r := SetUpper(q, upper); PageOk(r) && NumSlots(r) == NumSlots(p)
    ensures forall i :: 0 <= i < NumSlots(p) ==> Records(SetUpper(q, upper))[i] == RecordIn(p, Dir(p)[i])
  {
    hide Word, SlotAt, Sum, CompactedSlot;
    var r := SetUpper(q, upper);
    SetUpperFacts(q, upper);
    CompactedPacked(Dir(p));
    assert Dir(r) == Compacted(Dir(p));
    forall i | 0 <= i < NumSlots(p)
      ensures Records(r)[i] == RecordIn(p, Dir(p)[i])
    {
      CompactedBounds(Dir(p), i);
      assert RecordMoved(p, q, i);
      var c := CompactedSlot(Dir(p), i);
      if c != EMPTY {
        TailSlice(r, c.off, c.off + c.len);
        TailSlice(q, c.off, c.off + c.len);
      }
    }
  }

  method Compact(page: array<Byte>)
    requires page.Length == PAGE_SIZE && DirFits(page[..]) && Loose(Dir(page[..]))
    modifies page
    ensures PageOk(page[..]) && NumSlots(page[..]) == NumSlots(old(page[..]))
    ensures forall i :: 0 <= i < NumSlots(page[..]) ==>
            Records(page[..])[i] == RecordIn(old(page[..]), Dir(old(page[..]))[i])
  {
    hide Word, SlotAt, Sum, CompactedSlot, Moved, Loose, Packed, Put;
    ghost var src := page[..];
    var upper := MoveAll(page);
    UpperFits(src);
    CompactDone(src, page[..], upper);
    CopyInto(page, 2, ToLe(upper, 2));
  }

  /** Copies the live records aside and writes them back from the end of the page down. */
  method MoveAll(page: array<Byte>) returns (upper: nat)
    requires page.Length == PAGE_SIZE && DirFits(page[..]) && Loose(Dir(page[..]))
    modifies page
    ensures Moved(old(page[..]), page[..], NumSlots(old(page[..]))) && upper == PAGE_SIZE - Sum(Dir(old(page[..])))
  {
    hide Word, SlotAt, Sum, CompactedSlot, MoveOne, Moved, Loose;
    var src := page[..];
    var n := NumSlots(src);
    ghost var d := Dir(src);
    upper := PAGE_SIZE;
    NothingMoved(src);
    for i := 0 to n
      invariant Moved(src, page[..], i) && upper == PAGE_SIZE - Sum(d[..i])
    {
      LiveSlot(d, i);
      var s := SlotAt(src, i);
      if s.off != 0 {
        MovedNext(src, page[..], i);
        upper := upper - s.len;
        Relocate(page, i, upper, src[s.off..s.off + s.len]);
      } else {
        MovedSkip(src, page[..], i);
      }
    }
    assert d[..n] == d;
  }

  method Relocate(page: array<Byte>, i: nat, off: U16, data: seq<Byte>)
    requires page.Length == PAGE_SIZE && off + |data| <= PAGE_SIZE && HEADER_SIZE + SLOT_SIZE * (i + 1) <= PAGE_SIZE
    modifies page
    ensures page[..] == MoveOne(old(page[..]), i, off, data)
  {
    hide Put, SetSlot;
    CopyInto(page, off, data);
    WriteSlot(page, i, off, |data|);
  }

  lemma NothingMoved(p: seq<Byte>)
    requires DirFits(p) && Loose(Dir(p))
    ensures Moved(p, p, 0) && Sum(Dir(p)[..0]) == 0
  {
    hide Word;
  }

  lemma LiveSlot(d: seq<Slot>, i: nat)
    requires Loose(d) && i < |d|
    ensures (d[i].off == 0 <==> d[i] == EMPTY) && d[i].off + d[i].len <= PAGE_SIZE
    ensures HEADER_SIZE + SLOT_SIZE * (i + 1) <= PAGE_SIZE
  {
  }

  lemma UpperFits(p: seq<Byte>)
    requires DirFits(p) && Loose(Dir(p))
    ensures 0 <= PAGE_SIZE - Sum(Dir(p)) <= PAGE_SIZE
  {
  }

  // ------------------------------------------------------------------ delete and rewrite

  /** Clearing one slot of a packed page leaves the rest loose but in bounds. */
  lemma ClearedIsLoose(p: seq<Byte>, i: nat)
    requires PageOk(p) && i < NumSlots(p)
    ensures var q := SetSlot(p, i, 0, 0);
            && DirFits(q) && Dir(q) == Dir(p)[i := EMPTY] && Loose(Dir(q))
            && forall j :: 0 <= j < NumSlots(p) && j != i ==> RecordIn(q, Dir(q)[j]) == Records(p)[j]
  {
    hide Word, SlotAt, SetSlot, Apart;
    var q := SetSlot(p, i, 0, 0);
    SetSlotFacts(p, i, 0, 0);
    forall j | 0 <= j < NumSlots(p) && j != i
      ensures SlotAt(q, j) == SlotAt(p, j)
    {
      SetSlotOther(p, i, 0, 0, j);
    }
    assert Dir(q) == Dir(p)[i := EMPTY];
    SumUpdate(Dir(p), i, EMPTY);
  }

  /** Empties one slot; all other records survive bit for bit and their space closes up. */
  method Delete(page: array<Byte>, i: nat) returns (ok: bool)
    requires page.Length == PAGE_SIZE && PageOk(page[..])
    modifies page
    ensures PageOk(page[..]) && ok == (i < NumSlots(old(page[..])) && Records(old(page[..]))[i].Some?)
    ensures !ok ==> page[..] == old(page[..])
    ensures ok ==> Records(page[..]) == Records(old(page[..]))[i := None]
  {
    hide Word, Packed, SetSlot, Loose;
    ghost var p := page[..];
    if i >= NumSlots(page[..]) {
      return false;
    }
    var s := SlotAt(page[..], i);
    SlotRecord(p, i);
    if s == EMPTY {
      return false;
    }
    ClearedIsLoose(p, i);
    WriteSlot(page, i, 0, 0);
    Compact(page);
    assert Records(page[..]) == Records(p)[i := None];
    ok := true;
  }

  lemma SlotRecord(p: seq<Byte>, i: nat)
    requires PageOk(p) && i < NumSlots(p)
    ensures HEADER_SIZE + SLOT_SIZE * (i + 1) <= PAGE_SIZE && (Records(p)[i].Some? <==> SlotAt(p, i) != EMPTY)
    ensures var s := SlotAt(p, i);
            s != EMPTY ==>
              Upper(p) <= s.off && s.off + s.len <= PAGE_SIZE && HEADER_SIZE + SLOT_SIZE * NumSlots(p) <= s.off
    ensures var s := SlotAt(p, i); s != EMPTY ==> Records(p)[i] == Some(p[s.off..s.off + s.len])
  {
    hide Word, Sum;
    assert Dir(p)[i] == SlotAt(p, i);
  }

  /** Overwrites a record with one of the same length. */
  method Rewrite(page: array<Byte>, i: nat, data: seq<Byte>) returns (ok: bool)
    requires page.Length == PAGE_SIZE && PageOk(page[..])
    modifies page
    ensures PageOk(page[..])
    ensures var p := old(page[..]); ok == (i < NumSlots(p) && Records(p)[i].Some? && |Records(p)[i].value| == |data|)
    ensures !ok ==> page[..] == old(page[..])
    ensures ok ==> Records(page[..]) == Records(old(page[..]))[i := Some(data)]
  {
    hide Word, Packed, Put;
    ghost var p := page[..];
    if i >= NumSlots(page[..]) {
      return false;
    }
    var s := SlotAt(page[..], i);
    SlotRecord(p, i);
    if s == EMPTY || |data| != s.len {
      return false;
    }
    RewriteOk(p, i, data);
    CopyInto(page, s.off, data);
    ok := true;
  }

  lemma RewriteOk(p: seq<Byte>, i: nat, data: seq<Byte>)
    requires PageOk(p) && i < NumSlots(p) && SlotAt(p, i) != EMPTY && |data| == SlotAt(p, i).len
    requires SlotAt(p, i).off + |data| <= PAGE_SIZE
    ensures var q := Put(p, SlotAt(p, i).off, data); PageOk(q) && Records(q) == Records(p)[i := Some(data)]
  {
    hide Word, SlotAt, Put, Sum;
    var s := SlotAt(p, i);
    SlotRecord(p, i);
    var q := Put(p, s.off, data);
    DataFacts(p, s.off, data, NumSlots(p));
    assert Dir(q) == Dir(p);
    forall j | 0 <= j < NumSlots(p)
      ensures Records(q)[j] == Records(p)[i := Some(data)][j]
    {
      var t := Dir(p)[j];
      assert Dir(p)[i] == s;
      if j != i && t != EMPTY {
        assert Apart(Dir(p)[if i < j then i else j], Dir(p)[if i < j then j else i]);
        PutRange(p, s.off, data, t.off, t.off + t.len);
      }
    }
  }
}
