/** Bytes of a slotted page: a directory growing from the front, records packed against the end. */
module Slotted {
  import opened Options
  import opened Bytes

  const PAGE_SIZE := 8192
  const HEADER_SIZE := 4
  const SLOT_SIZE := 4

  datatype Slot = Slot(off: nat, len: nat)

  const EMPTY := Slot(0, 0)

  // ------------------------------------------------------------------ reading and writing bytes

  function Word(p: seq<Byte>, at: nat): U16
    requires at + 2 <= |p|
  {
    Get16(p[at..at + 2])
  }

  function Put(p: seq<Byte>, at: nat, data: seq<Byte>): (r: seq<Byte>)
    requires at + |data| <= |p|
    ensures |r| == |p|
  {
    p[..at] + data + p[at + |data|..]
  }

  /** Bytes inside and outside the written range. */
  lemma PutRange(p: seq<Byte>, at: nat, data: seq<Byte>, a: nat, b: nat)
    requires at + |data| <= |p| && a <= b <= |p|
    ensures b <= at || at + |data| <= a ==> Put(p, at, data)[a..b] == p[a..b]
    ensures a == at && b == at + |data| ==> Put(p, at, data)[a..b] == data
  {
  }

  lemma PutWord(p: seq<Byte>, at: nat, v: U16)
    requires at + 2 <= |p|
    ensures Word(Put(p, at, ToLe(v, 2)), at) == v
  {
    WordRoundTrip16(v);
    PutRange(p, at, ToLe(v, 2), at, at + 2);
  }

  lemma OtherWord(p: seq<Byte>, at: nat, data: seq<Byte>, b: nat)
    requires at + |data| <= |p| && b + 2 <= |p| && (b + 2 <= at || at + |data| <= b)
    ensures Word(Put(p, at, data), b) == Word(p, b)
  {
    PutRange(p, at, data, b, b + 2);
  }

  // ------------------------------------------------------------------ header and directory

  function NumSlots(p: seq<Byte>): nat
    requires |p| == PAGE_SIZE
  {
    Word(p, 0)
  }

  /** A fresh page of zeros is empty up to its end. */
  function Upper(p: seq<Byte>): nat
    requires |p| == PAGE_SIZE
  {
    if Word(p, 2) == 0 then PAGE_SIZE else Word(p, 2)
  }

  function SlotAt(p: seq<Byte>, i: nat): Slot
    requires |p| == PAGE_SIZE && HEADER_SIZE + SLOT_SIZE * (i + 1) <= PAGE_SIZE
  {
    Slot(Word(p, HEADER_SIZE + SLOT_SIZE * i), Word(p, HEADER_SIZE + SLOT_SIZE * i + 2))
  }

  function SetSlot(p: seq<Byte>, i: nat, off: U16, len: U16): (r: seq<Byte>)
    requires |p| == PAGE_SIZE && HEADER_SIZE + SLOT_SIZE * (i + 1) <= PAGE_SIZE
    ensures |r| == PAGE_SIZE
  {
    Put(Put(p, HEADER_SIZE + SLOT_SIZE * i, ToLe(off, 2)), HEADER_SIZE + SLOT_SIZE * i + 2, ToLe(len, 2))
  }

  /** The directory fits before the records. */
  predicate DirFits(p: seq<Byte>) {
    |p| == PAGE_SIZE && HEADER_SIZE + SLOT_SIZE * NumSlots(p) <= PAGE_SIZE
  }

  function Dir(p: seq<Byte>): (d: seq<Slot>)
    requires DirFits(p)
    ensures |d| == NumSlots(p) && forall i :: 0 <= i < |d| ==> d[i] == SlotAt(p, i)
  {
    seq(NumSlots(p), i requires 0 <= i < NumSlots(p) => SlotAt(p, i))
  }

  /** Writing a slot touches only its four bytes. */
  lemma SetSlotFacts(p: seq<Byte>, i: nat, off: U16, len: U16)
    requires |p| == PAGE_SIZE && HEADER_SIZE + SLOT_SIZE * (i + 1) <= PAGE_SIZE
    ensures var r := SetSlot(p, i, off, len);
            SlotAt(r, i) == Slot(off, len) && Word(r, 0) == Word(p, 0) && Word(r, 2) == Word(p, 2)
    ensures forall a, b :: HEADER_SIZE + SLOT_SIZE * (i + 1) <= a <= b <= PAGE_SIZE ==>
            SetSlot(p, i, off, len)[a..b] == p[a..b]
  {
    hide Word, Put;
    var at := HEADER_SIZE + SLOT_SIZE * i;
    var q := Put(p, at, ToLe(off, 2));
    PutWord(p, at, off);
    PutWord(q, at + 2, len);
    OtherWord(q, at + 2, ToLe(len, 2), at);
    OtherWord(p, at, ToLe(off, 2), 0);
    OtherWord(q, at + 2, ToLe(len, 2), 0);
    OtherWord(p, at, ToLe(off, 2), 2);
    OtherWord(q, at + 2, ToLe(len, 2), 2);
    forall a, b | HEADER_SIZE + SLOT_SIZE * (i + 1) <= a <= b <= PAGE_SIZE
      ensures SetSlot(p, i, off, len)[a..b] == p[a..b]
    {
      PutRange(p, at, ToLe(off, 2), a, b);
      PutRange(q, at + 2, ToLe(len, 2), a, b);
    }
  }

  lemma SetSlotOther(p: seq<Byte>, i: nat, off: U16, len: U16, j: nat)
    requires |p| == PAGE_SIZE && HEADER_SIZE + SLOT_SIZE * (i + 1) <= PAGE_SIZE
    requires HEADER_SIZE + SLOT_SIZE * (j + 1) <= PAGE_SIZE && i != j
    ensures SlotAt(SetSlot(p, i, off, len), j) == SlotAt(p, j)
  {
    hide Word, Put;
    var at, b := HEADER_SIZE + SLOT_SIZE * i, HEADER_SIZE + SLOT_SIZE * j;
    var q := Put(p, at, ToLe(off, 2));
    OtherWord(p, at, ToLe(off, 2), b);
    OtherWord(q, at + 2, ToLe(len, 2), b);
    OtherWord(p, at, ToLe(off, 2), b + 2);
    OtherWord(q, at + 2, ToLe(len, 2), b + 2);
  }

  // ------------------------------------------------------------------ packing

  function Sum(d: seq<Slot>): nat {
    if d == [] then 0 else Sum(d[..|d| - 1]) + d[|d| - 1].len
  }

  ghost predicate Apart(a: Slot, b: Slot) {
    a == EMPTY || b == EMPTY || a.off + a.len <= b.off || b.off + b.len <= a.off
  }

  /** Live records lie between `upper` and the end, do not overlap, and leave no gap. */
  ghost predicate Packed(d: seq<Slot>, upper: nat) {
    && HEADER_SIZE + SLOT_SIZE * |d| <= upper <= PAGE_SIZE
    && (forall i :: 0 <= i < |d| ==> d[i] == EMPTY || (upper <= d[i].off && d[i].off + d[i].len <= PAGE_SIZE))
    && (forall i, j :: 0 <= i < j < |d| ==> Apart(d[i], d[j]))
    && Sum(d) == PAGE_SIZE - upper
  }

  ghost predicate PageOk(p: seq<Byte>) {
    DirFits(p) && Packed(Dir(p), Upper(p))
  }

  function RecordIn(p: seq<Byte>, s: Slot): Option<seq<Byte>>
    requires |p| == PAGE_SIZE && (s == EMPTY || s.off + s.len <= PAGE_SIZE)
  {
    if s == EMPTY then None else Some(p[s.off..s.off + s.len])
  }

  /** The page as callers see it: a record, or nothing, per slot. */
  ghost function Records(p: seq<Byte>): (r: seq<Option<seq<Byte>>>)
    requires PageOk(p)
    ensures |r| == NumSlots(p)
  {
    seq(NumSlots(p), i requires 0 <= i < NumSlots(p) => RecordIn(p, Dir(p)[i]))
  }

  lemma {:induction false} SumUpdate(d: seq<Slot>, i: nat, s: Slot)
    requires i < |d|
    ensures Sum(d[i := s]) == Sum(d) - d[i].len + s.len
  {
    var n := |d| - 1;
    if i < n {
      SumUpdate(d[..n], i, s);
      assert d[i := s][..n] == d[..n][i := s];
    } else {
      assert d[i := s][..n] == d[..n];
    }
  }

  lemma {:induction false} SumAppend(a: seq<Slot>, b: seq<Slot>)
    ensures Sum(a + b) == Sum(a) + Sum(b)
  {
    if b == [] {
      assert a + b == a;
    } else {
      assert (a + b)[..|a + b| - 1] == a + b[..|b| - 1];
      SumAppend(a, b[..|b| - 1]);
    }
  }

  /** A record put right below the others keeps the page packed. */
  lemma PackedInsert(d: seq<Slot>, upper: nat, i: nat, len: nat)
    requires Packed(d, upper) && i < |d| && d[i] == EMPTY && HEADER_SIZE + SLOT_SIZE * |d| + len <= upper
    ensures Packed(d[i := Slot(upper - len, len)], upper - len)
  {
    SumUpdate(d, i, Slot(upper - len, len));
  }

  function Empties(n: nat): seq<Slot> {
    seq(n, _ => EMPTY)
  }

  lemma {:induction false} SumEmpties(n: nat)
    ensures Sum(Empties(n)) == 0
  {
    if n > 0 {
      SumEmpties(n - 1);
      assert Empties(n)[..n - 1] == Empties(n - 1);
    }
  }

  lemma PackedExtend(d: seq<Slot>, upper: nat, n: nat)
    requires Packed(d, upper) && HEADER_SIZE + SLOT_SIZE * (|d| + n) <= upper
    ensures Packed(d + Empties(n), upper)
  {
    SumAppend(d, Empties(n));
    SumEmpties(n);
  }
}
