/** Operations on a slotted page: each one changes its own slot and nothing else. */
module SlottedOps {
  import opened Options
  import opened Bytes
  import opened Slotted

  // ------------------------------------------------------------------ placing a record

  function SetCount(p: seq<Byte>, n: U16): (r: seq<Byte>)
    requires |p| == PAGE_SIZE
    ensures |r| == PAGE_SIZE
  {
    Put(p, 0, ToLe(n, 2))
  }

  function SetUpper(p: seq<Byte>, v: U16): (r: seq<Byte>)
    requires |p| == PAGE_SIZE
    ensures |r| == PAGE_SIZE
  {
    Put(p, 2, ToLe(v, 2))
  }

  lemma SetCountFacts(p: seq<Byte>, n: U16)
    requires |p| == PAGE_SIZE
    ensures var r := SetCount(p, n); Word(r, 0) == n && Word(r, 2) == Word(p, 2) && r[4..] == p[4..]
    ensures forall i :: 0 <= i && HEADER_SIZE + SLOT_SIZE * (i + 1) <= PAGE_SIZE ==>
            SlotAt(SetCount(p, n), i) == SlotAt(p, i)
  {
    PutWord(p, 0, n);
    OtherWord(p, 0, ToLe(n, 2), 2);
    hide Word;
    forall i | 0 <= i && HEADER_SIZE + SLOT_SIZE * (i + 1) <= PAGE_SIZE
      ensures SlotAt(SetCount(p, n), i) == SlotAt(p, i)
    {
      OtherWord(p, 0, ToLe(n, 2), HEADER_SIZE + SLOT_SIZE * i);
      OtherWord(p, 0, ToLe(n, 2), HEADER_SIZE + SLOT_SIZE * i + 2);
    }
  }

  lemma SetUpperFacts(p: seq<Byte>, v: U16)
    requires |p| == PAGE_SIZE
    ensures var r := SetUpper(p, v); Word(r, 2) == v && Word(r, 0) == Word(p, 0) && r[4..] == p[4..]
    ensures forall i :: 0 <= i && HEADER_SIZE + SLOT_SIZE * (i + 1) <= PAGE_SIZE ==>
            SlotAt(SetUpper(p, v), i) == SlotAt(p, i)
  {
    PutWord(p, 2, v);
    OtherWord(p, 2, ToLe(v, 2), 0);
    hide Word;
    forall i | 0 <= i && HEADER_SIZE + SLOT_SIZE * (i + 1) <= PAGE_SIZE
      ensures SlotAt(SetUpper(p, v), i) == SlotAt(p, i)
    {
      OtherWord(p, 2, ToLe(v, 2), HEADER_SIZE + SLOT_SIZE * i);
      OtherWord(p, 2, ToLe(v, 2), HEADER_SIZE + SLOT_SIZE * i + 2);
    }
  }

  /** Bytes written behind the directory leave it alone. */
  lemma DataFacts(p: seq<Byte>, off: nat, data: seq<Byte>, n: nat)
    requires |p| == PAGE_SIZE && HEADER_SIZE + SLOT_SIZE * n <= off && off + |data| <= PAGE_SIZE
    ensures var r := Put(p, off, data); Word(r, 0) == Word(p, 0) && Word(r, 2) == Word(p, 2)
    ensures var r := Put(p, off, data); r[off..off + |data|] == data && r[off + |data|..] == p[off + |data|..]
    ensures forall i :: 0 <= i < n ==> SlotAt(Put(p, off, data), i) == SlotAt(p, i)
  {
    OtherWord(p, off, data, 0);
    OtherWord(p, off, data, 2);
    hide Word;
    PutRange(p, off, data, off, off + |data|);
    PutRange(p, off, data, off + |data|, PAGE_SIZE);
    forall i | 0 <= i < n
      ensures SlotAt(Put(p, off, data), i) == SlotAt(p, i)
    {
      OtherWord(p, off, data, HEADER_SIZE + SLOT_SIZE * i);
      OtherWord(p, off, data, HEADER_SIZE + SLOT_SIZE * i + 2);
    }
  }

  /** Slots from the old count up to the new one. */
  function Grown(n: nat, i: nat): nat {
    if i < n then 0 else i + 1 - n
  }

  /** What a page looks like after `rec` went into slot `i`. */
  ghost predicate Placed(p: seq<Byte>, p': seq<Byte>, i: nat, rec: seq<Byte>)
    requires PageOk(p)
  {
    var upper, d := Upper(p), Dir(p) + Empties(Grown(NumSlots(p), i));
    && i < |d| && |rec| <= upper && DirFits(p') && Upper(p') == upper - |rec|
    && Dir(p') == d[i := Slot(upper - |rec|, |rec|)]
    && p'[upper - |rec|..upper] == rec && p'[upper..] == p[upper..]
  }

  predicate RoomFor(p: seq<Byte>, i: nat, len: nat)
    requires |p| == PAGE_SIZE
  {
    HEADER_SIZE + SLOT_SIZE * (if i < NumSlots(p) then NumSlots(p) else i + 1) + len <= Upper(p)
  }

  function Nones(n: nat): seq<Option<seq<Byte>>> {
    seq(n, _ => None)
  }

  lemma PlacedPacked(p: seq<Byte>, p': seq<Byte>, i: nat, rec: seq<Byte>)
    requires PageOk(p) && Placed(p, p', i, rec) && RoomFor(p, i, |rec|) && (i < NumSlots(p) ==> Dir(p)[i] == EMPTY)
    ensures PageOk(p')
  {
    hide Word;
    PackedExtend(Dir(p), Upper(p), Grown(NumSlots(p), i));
    PackedInsert(Dir(p) + Empties(Grown(NumSlots(p), i)), Upper(p), i, |rec|);
  }

  /** The record is there, every other one is as it was, and the page is still packed. */
  lemma PlacedOk(p: seq<Byte>, p': seq<Byte>, i: nat, rec: seq<Byte>)
    requires PageOk(p) && Placed(p, p', i, rec) && RoomFor(p, i, |rec|) && (i < NumSlots(p) ==> Dir(p)[i] == EMPTY)
    ensures PageOk(p') && Records(p') == (Records(p) + Nones(Grown(NumSlots(p), i)))[i := Some(rec)]
  {
    hide Word, Sum, Packed;
    var n, d := NumSlots(p), Dir(p) + Empties(Grown(NumSlots(p), i));
    PlacedPacked(p, p', i, rec);
    var rs := (Records(p) + Nones(Grown(n, i)))[i := Some(rec)];
    forall j | 0 <= j < |d|
      ensures Records(p')[j] == rs[j]
    {
      OneRecord(p, p', i, rec, j);
    }
  }

  lemma OneRecord(p: seq<Byte>, p': seq<Byte>, i: nat, rec: seq<Byte>, j: nat)
    requires PageOk(p) && PageOk(p') && Placed(p, p', i, rec) && j < NumSlots(p')
    requires (i < NumSlots(p) ==> Dir(p)[i] == EMPTY)
    requires HEADER_SIZE < Upper(p) - |rec|
    ensures Records(p')[j] == if j == i then Some(rec) else if j < NumSlots(p) then Records(p)[j] else None
  {
    hide Word, Sum;
    var upper := Upper(p);
    if j != i && j < NumSlots(p) {
      var s := Dir(p)[j];
      assert Dir(p')[j] == s;
      if s != EMPTY {
        assert p'[s.off..s.off + s.len] == p'[upper..][s.off - upper..s.off + s.len - upper];
        assert p[s.off..s.off + s.len] == p[upper..][s.off - upper..s.off + s.len - upper];
      }
    }
  }

  // ------------------------------------------------------------------ the bytes that insert and put write

  /** Slot written, count raised if need be, upper bound lowered. */
  function Entered(q: seq<Byte>, i: nat, n: nat, off: U16, len: U16): (r: seq<Byte>)
    requires |q| == PAGE_SIZE && HEADER_SIZE + SLOT_SIZE * (i + 1) <= PAGE_SIZE && i < 0xFFFF
    ensures |r| == PAGE_SIZE
  {
    var t := SetSlot(q, i, off, len);
    SetUpper(if i < n then t else SetCount(t, i + 1), off)
  }

  /** The other entries and all bytes behind the directory stay. */
  lemma EnteredFacts(q: seq<Byte>, i: nat, n: nat, off: U16, len: U16)
    requires |q| == PAGE_SIZE && HEADER_SIZE + SLOT_SIZE * (i + 1) <= PAGE_SIZE && i < 0xFFFF && n == NumSlots(q)
    ensures var r := Entered(q, i, n, off, len);
            NumSlots(r) == (if i < n then n else i + 1) && Word(r, 2) == off && SlotAt(r, i) == Slot(off, len)
    ensures forall j :: 0 <= j && j != i && HEADER_SIZE + SLOT_SIZE * (j + 1) <= PAGE_SIZE ==>
            SlotAt(Entered(q, i, n, off, len), j) == SlotAt(q, j)
    ensures forall a, b :: HEADER_SIZE + SLOT_SIZE * (i + 1) <= a <= b <= PAGE_SIZE ==>
            Entered(q, i, n, off, len)[a..b] == q[a..b]
  {
    hide Word, SlotAt, SetSlot, SetCount, SetUpper, Put;
    var t := SetSlot(q, i, off, len);
    SetSlotFacts(q, i, off, len);
    SetCountFacts(t, if i < n then 0 else i + 1);
    var u := if i < n then t else SetCount(t, i + 1);
    SetUpperFacts(u, off);
    var r := SetUpper(u, off);
    forall j | 0 <= j && j != i && HEADER_SIZE + SLOT_SIZE * (j + 1) <= PAGE_SIZE
      ensures SlotAt(r, j) == SlotAt(q, j)
    {
      SetSlotOther(q, i, off, len, j);
    }
    forall a, b | HEADER_SIZE + SLOT_SIZE * (i + 1) <= a <= b <= PAGE_SIZE
      ensures r[a..b] == q[a..b]
    {
      TailSlice(r, a, b);
      TailSlice(u, a, b);
      TailSlice(t, a, b);
    }
  }

  lemma TailSlice(s: seq<Byte>, a: nat, b: nat)
    requires 4 <= a <= b <= |s|
    ensures s[a..b] == s[4..][a - 4..b - 4]
  {
    var rest := s[4..];
    assert forall k :: 0 <= k < b - a ==> s[a..b][k] == rest[a - 4..b - 4][k];
  }

  /** Zeros for directory entries between the old count and slot `i`. */
  function Cleared(q: seq<Byte>, n: nat, i: nat): (r: seq<Byte>)
    requires |q| == PAGE_SIZE && HEADER_SIZE + SLOT_SIZE * (i + 1) <= PAGE_SIZE && n <= i + 1
    ensures |r| == PAGE_SIZE
  {
    Put(q, HEADER_SIZE + SLOT_SIZE * n, Zeros(SLOT_SIZE * (i + 1 - n)))
  }

  function Zeros(n: nat): seq<Byte> {
    seq(n, _ => 0)
  }

  lemma ClearedFacts(q: seq<Byte>, n: nat, i: nat)
    requires |q| == PAGE_SIZE && HEADER_SIZE + SLOT_SIZE * (i + 1) <= PAGE_SIZE && n <= i + 1
    ensures var r := Cleared(q, n, i); Word(r, 0) == Word(q, 0) && Word(r, 2) == Word(q, 2)
    ensures forall j :: 0 <= j < n ==> SlotAt(Cleared(q, n, i), j) == SlotAt(q, j)
    ensures forall j :: n <= j <= i ==> SlotAt(Cleared(q, n, i), j) == EMPTY
    ensures forall a, b :: HEADER_SIZE + SLOT_SIZE * (i + 1) <= a <= b <= PAGE_SIZE ==>
            Cleared(q, n, i)[a..b] == q[a..b]
  {
    var from, zeros := HEADER_SIZE + SLOT_SIZE * n, Zeros(SLOT_SIZE * (i + 1 - n));
    var r := Cleared(q, n, i);
    OtherWord(q, from, zeros, 0);
    OtherWord(q, from, zeros, 2);
    forall j | 0 <= j < n
      ensures SlotAt(r, j) == SlotAt(q, j)
    {
      OtherWord(q, from, zeros, HEADER_SIZE + SLOT_SIZE * j);
      OtherWord(q, from, zeros, HEADER_SIZE + SLOT_SIZE * j + 2);
    }
    forall j | n <= j <= i
      ensures SlotAt(r, j) == EMPTY
    {
      ZeroWord(r, HEADER_SIZE + SLOT_SIZE * j);
      ZeroWord(r, HEADER_SIZE + SLOT_SIZE * j + 2);
    }
    hide Word, SlotAt;
    forall a, b | HEADER_SIZE + SLOT_SIZE * (i + 1) <= a <= b <= PAGE_SIZE
      ensures r[a..b] == q[a..b]
    {
      PutRange(q, from, zeros, a, b);
    }
  }

  lemma ZeroWord(p: seq<Byte>, at: nat)
    requires at + 2 <= |p| && p[at] == 0 && p[at + 1] == 0
    ensures Word(p, at) == 0
  {
    var w := p[at..at + 2];
    assert w[0] == 0 && w[1..][0] == 0 && w[1..][1..] == [];
    assert FromLe(w[1..]) == w[1..][0] + 256 * FromLe([]);
  }

  function InsertImage(p: seq<Byte>, i: nat, rec: seq<Byte>): (r: seq<Byte>)
    requires PageOk(p) && RoomFor(p, i, |rec|)
    ensures |r| == PAGE_SIZE
  {
    var off := Upper(p) - |rec|;
    Entered(Put(p, off, rec), i, NumSlots(p), off, |rec|)
  }

  function PutImage(p: seq<Byte>, i: nat, rec: seq<Byte>): (r: seq<Byte>)
    requires PageOk(p) && RoomFor(p, i, |rec|)
    ensures |r| == PAGE_SIZE
  {
    var off, n := Upper(p) - |rec|, NumSlots(p);
    var q := Put(p, off, rec);
    Entered(if i < n then q else Cleared(q, n, i), i, n, off, |rec|)
  }

  lemma InsertPlaced(p: seq<Byte>, i: nat, rec: seq<Byte>)
    requires PageOk(p) && RoomFor(p, i, |rec|) && i <= NumSlots(p)
    ensures Placed(p, InsertImage(p, i, rec), i, rec)
  {
    hide Word, SlotAt, Put, Entered, Sum, Apart;
    var off, n, upper := Upper(p) - |rec|, NumSlots(p), Upper(p);
    var q := Put(p, off, rec);
    DataFacts(p, off, rec, if i < n then n else n + 1);
    EnteredFacts(q, i, n, off, |rec|);
    var r := Entered(q, i, n, off, |rec|);
    assert r[off..upper] == q[off..upper] == rec && r[upper..] == r[upper..PAGE_SIZE] == q[upper..PAGE_SIZE];
    assert q[upper..PAGE_SIZE] == q[upper..] == p[upper..];
    assert InsertImage(p, i, rec) == r;
    var d := Dir(p) + Empties(Grown(n, i));
    assert Dir(r) == d[i := Slot(off, |rec|)];
  }

  lemma GrowPlaced(p: seq<Byte>, i: nat, rec: seq<Byte>)
    requires PageOk(p) && RoomFor(p, i, |rec|) && NumSlots(p) <= i
    ensures Placed(p, PutImage(p, i, rec), i, rec)
  {
    hide Word, SlotAt, Put, Entered, Sum, Apart, Cleared;
    var off, n, upper := Upper(p) - |rec|, NumSlots(p), Upper(p);
    var q := Put(p, off, rec);
    DataFacts(p, off, rec, i + 1);
    ClearedFacts(q, n, i);
    var c := Cleared(q, n, i);
    EnteredFacts(c, i, n, off, |rec|);
    var r := Entered(c, i, n, off, |rec|);
    assert r[off..upper] == c[off..upper] == q[off..upper];
    assert r[upper..] == r[upper..PAGE_SIZE] == c[upper..PAGE_SIZE] == q[upper..PAGE_SIZE];
    assert q[upper..PAGE_SIZE] == q[upper..] == p[upper..] && q[off..upper] == rec;
    assert PutImage(p, i, rec) == r;
    var d := Dir(p) + Empties(Grown(n, i));
    assert NumSlots(r) == i + 1 == |d| && DirFits(r) && Upper(r) == off;
    forall j | 0 <= j < i + 1
      ensures Dir(r)[j] == d[i := Slot(off, |rec|)][j]
    {
      assert Dir(r)[j] == SlotAt(r, j);
      if j < n {
        assert SlotAt(r, j) == SlotAt(c, j) == SlotAt(q, j) == SlotAt(p, j) == Dir(p)[j];
      } else if j < i {
        assert SlotAt(r, j) == SlotAt(c, j) == EMPTY;
      }
    }
    assert Dir(r) == d[i := Slot(off, |rec|)];
  }

  lemma PutPlaced(p: seq<Byte>, i: nat, rec: seq<Byte>)
    requires PageOk(p) && RoomFor(p, i, |rec|)
    ensures Placed(p, PutImage(p, i, rec), i, rec)
  {
    hide Placed, Word, Packed;
    if i < NumSlots(p) {
      InsertPlaced(p, i, rec);
    } else {
      GrowPlaced(p, i, rec);
    }
  }
}
