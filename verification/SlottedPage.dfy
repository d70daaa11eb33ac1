/** The page operations, in place on the page's bytes. */
module SlottedPage {
  import opened Options
  import opened Bytes
  import opened Slotted
  import opened SlottedOps

  datatype Outcome = Done | PageFull | Occupied

  method CopyInto(page: array<Byte>, at: nat, data: seq<Byte>)
    requires at + |data| <= page.Length
    modifies page
    ensures page[..] == Put(old(page[..]), at, data)
  {
    ghost var was := page[..];
    for i := 0 to |data|
      invariant page[..] == Put(was, at, data[..i])
    {
      page[at + i] := data[i];
      assert Put(was, at, data[..i + 1]) == Put(was, at, data[..i])[at + i := data[i]];
    }
    assert data[..|data|] == data;
  }

  method WriteSlot(page: array<Byte>, i: nat, off: U16, len: U16)
    requires page.Length == PAGE_SIZE && HEADER_SIZE + SLOT_SIZE * (i + 1) <= PAGE_SIZE
    modifies page
    ensures page[..] == SetSlot(old(page[..]), i, off, len)
  {
    CopyInto(page, HEADER_SIZE + SLOT_SIZE * i, ToLe(off, 2));
    CopyInto(page, HEADER_SIZE + SLOT_SIZE * i + 2, ToLe(len, 2));
  }

  /** The first empty slot, or the number of slots. */
  function FirstEmpty(d: seq<Slot>): (i: nat)
    ensures i <= |d| && (i < |d| ==> d[i].off == 0) && forall j :: 0 <= j < i ==> d[j].off != 0
  {
    if d == [] || d[0].off == 0 then 0 else 1 + FirstEmpty(d[1..])
  }

  method FindEmpty(page: array<Byte>) returns (i: nat)
    requires page.Length == PAGE_SIZE && DirFits(page[..])
    ensures i == FirstEmpty(Dir(page[..]))
  {
    var p := page[..];
    i := 0;
    while i < NumSlots(p) && SlotAt(p, i).off != 0
      invariant 0 <= i <= NumSlots(p)
      invariant forall j :: 0 <= j < i ==> Dir(p)[j].off != 0
    {
      i := i + 1;
    }
    FirstIsUnique(Dir(p), i);
  }

  lemma FirstIsUnique(d: seq<Slot>, i: nat)
    requires i <= |d| && (i < |d| ==> d[i].off == 0) && forall j :: 0 <= j < i ==> d[j].off != 0
    ensures i == FirstEmpty(d)
  {
  }

  /** Bytes in use by the directory, with room for slot `i`, and by live records. */
  ghost function Demand(p: seq<Byte>, i: nat, len: nat): nat
    requires DirFits(p)
  {
    HEADER_SIZE + SLOT_SIZE * (if i < NumSlots(p) then NumSlots(p) else i + 1) + Sum(Dir(p)) + len
  }

  lemma RoomIsDemand(p: seq<Byte>, i: nat, len: nat)
    requires PageOk(p)
    ensures RoomFor(p, i, len) <==> Demand(p, i, len) <= PAGE_SIZE
  {
    hide Word;
  }

  /** `rec` is in slot `i`, every other slot as before; slots in between are empty. */
  ghost predicate Stored(p: seq<Byte>, p': seq<Byte>, i: nat, rec: seq<Byte>)
    requires PageOk(p)
  {
    PageOk(p') && i < NumSlots(p) + Grown(NumSlots(p), i) &&
    Records(p') == (Records(p) + Nones(Grown(NumSlots(p), i)))[i := Some(rec)]
  }

  lemma UpperBounds(p: seq<Byte>)
    requires PageOk(p)
    ensures HEADER_SIZE + SLOT_SIZE * NumSlots(p) <= Upper(p) <= PAGE_SIZE
  {
    hide Word, Sum;
  }

  /** In a packed page a slot without offset is empty. */
  lemma EmptyOff(p: seq<Byte>, i: nat)
    requires PageOk(p)
    ensures i < NumSlots(p) && Dir(p)[i].off == 0 ==> Dir(p)[i] == EMPTY
  {
    hide Word, Sum;
  }

  lemma InsertStored(p: seq<Byte>, i: nat, rec: seq<Byte>)
    requires PageOk(p) && i == FirstEmpty(Dir(p)) && RoomFor(p, i, |rec|)
    ensures Stored(p, InsertImage(p, i, rec), i, rec)
  {
    EmptyOff(p, i);
    hide Word, Placed, Packed, InsertImage;
    InsertPlaced(p, i, rec);
    PlacedOk(p, InsertImage(p, i, rec), i, rec);
  }

  lemma PutStored(p: seq<Byte>, i: nat, rec: seq<Byte>)
    requires PageOk(p) && (i < NumSlots(p) ==> Dir(p)[i] == EMPTY) && RoomFor(p, i, |rec|)
    ensures Stored(p, PutImage(p, i, rec), i, rec)
  {
    hide Word, Placed, Packed, PutImage;
    PutPlaced(p, i, rec);
    PlacedOk(p, PutImage(p, i, rec), i, rec);
  }

  /** Directory entry, count and upper bound after the record's bytes are in place. */
  method Enter(page: array<Byte>, i: nat, n: nat, off: U16, len: U16)
    requires page.Length == PAGE_SIZE && HEADER_SIZE + SLOT_SIZE * (i + 1) <= PAGE_SIZE && i < 0xFFFF
    modifies page
    ensures page[..] == Entered(old(page[..]), i, n, off, len)
  {
    hide Put, SetSlot;
    WriteSlot(page, i, off, len);
    if i >= n {
      CopyInto(page, 0, ToLe(i + 1, 2));
    }
    CopyInto(page, 2, ToLe(off, 2));
  }

  /** Refused only when directory, live records and the new record truly exceed the page. */
  method Insert(page: array<Byte>, record: seq<Byte>) returns (slot: Option<nat>)
    requires page.Length == PAGE_SIZE && PageOk(page[..])
    modifies page
    ensures PageOk(page[..])
    ensures var i := FirstEmpty(Dir(old(page[..])));
            slot == if Demand(old(page[..]), i, |record|) <= PAGE_SIZE then Some(i) else None
    ensures slot.None? ==> page[..] == old(page[..])
    ensures slot.Some? ==> Stored(old(page[..]), page[..], slot.value, record)
  {
    hide Word, Packed, Records, Put, Entered, Sum;
    ghost var p := page[..];
    var n, upper := NumSlots(page[..]), Upper(page[..]);
    var i := FindEmpty(page);
    RoomIsDemand(p, i, |record|);
    UpperBounds(p);
    var dirEnd := HEADER_SIZE + SLOT_SIZE * (if i < n then n else n + 1);
    if dirEnd + |record| > upper {
      return None;
    }
    InsertStored(p, i, record);
    var off := upper - |record|;
    CopyInto(page, off, record);
    Enter(page, i, n, off, |record|);
    slot := Some(i);
  }

  /** Puts a record into exactly the given slot, for replay. */
  method PutAt(page: array<Byte>, i: nat, record: seq<Byte>) returns (out: Outcome)
    requires page.Length == PAGE_SIZE && PageOk(page[..]) && i <= 0xFFFF
    modifies page
    ensures PageOk(page[..])
    ensures var p := old(page[..]);
            out == if i < NumSlots(p) && Dir(p)[i] != EMPTY then Occupied
                   else if Demand(p, i, |record|) <= PAGE_SIZE then Done else PageFull
    ensures !out.Done? ==> page[..] == old(page[..])
    ensures out.Done? ==> Stored(old(page[..]), page[..], i, record)
  {
    hide Word, Packed, Records, Put, Entered, Sum;
    ghost var p := page[..];
    var n, upper := NumSlots(page[..]), Upper(page[..]);
    RoomIsDemand(p, i, |record|);
    UpperBounds(p);
    if i < n && SlotAt(page[..], i) != EMPTY {
      return Occupied;
    }
    var dirEnd := HEADER_SIZE + SLOT_SIZE * (if i + 1 > n then i + 1 else n);
    if dirEnd + |record| > upper {
      return PageFull;
    }
    PutStored(p, i, record);
    var off := upper - |record|;
    CopyInto(page, off, record);
    if i >= n {
      CopyInto(page, HEADER_SIZE + SLOT_SIZE * n, Zeros(SLOT_SIZE * (i + 1 - n)));
    }
    Enter(page, i, n, off, |record|);
    out := Done;
  }

  method Get(page: array<Byte>, i: nat) returns (r: Option<seq<Byte>>)
    requires page.Length == PAGE_SIZE && PageOk(page[..])
    ensures r == if i < NumSlots(page[..]) then Records(page[..])[i] else None
  {
    hide Word, Sum;
    var p := page[..];
    if i >= NumSlots(p) {
      return None;
    }
    var s := SlotAt(p, i);
    assert Dir(p)[i] == s;
    if s == EMPTY {
      return None;
    }
    r := Some(p[s.off..s.off + s.len]);
  }
}
