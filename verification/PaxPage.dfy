/** A column-major page as a slot-to-record map: insert, place, delete, mark and read. */
module PaxPage {
  import opened Options
  import opened Bytes
  import opened Slotted
  import opened PaxImage
  import opened PaxRecord
  import PaxPack
  import SlottedPage

  /** What a page holds: nothing yet, or a fixed number of columns and its slots. */
  datatype Content = Fresh | Rows(ncols: nat, rows: seq<Cells>)

  datatype Outcome = Stored | Malformed | Mismatch | Occupied | PageFull | NoRecord

  ghost predicate Holds(p: seq<Byte>, ct: Content) {
    match ct
    case Fresh => |p| == PAGE_SIZE && p[0..4] != MAGIC
    case Rows(ncols, rows) => Represents(p, rows, ncols)
  }

  ghost function SlotsOf(ct: Content): seq<Cells> {
    if ct.Rows? then ct.rows else []
  }

  ghost predicate Shaped(ct: Content) {
    ct.Rows? ==> RowsOk(ct.rows, ct.ncols)
  }

  ghost predicate Empty(ct: Content, s: nat)
    requires Shaped(ct)
  {
    ct.Fresh? || ct.ncols == 0 || s >= |ct.rows| || ct.rows[s].vals[0] == []
  }

  function Blank(ncols: nat): Cells {
    Cells(seq(VERSION_LEN, _ => 0), seq(ncols, _ => []))
  }

  /** Blank slots up to `slot`, which takes `cells`. */
  function Placed(rows: seq<Cells>, ncols: nat, slot: nat, cells: Cells): (r: seq<Cells>)
    ensures |r| == if slot < |rows| then |rows| else slot + 1
    ensures r[slot] == cells
    ensures forall t :: 0 <= t < |rows| && t != slot ==> r[t] == rows[t]
    ensures forall t :: |rows| <= t < slot ==> r[t] == Blank(ncols)
  {
    if slot < |rows| then rows[slot := cells]
    else rows + seq(slot - |rows|, _ => Blank(ncols)) + [cells]
  }

  /** The record in a slot. */
  ghost function Record(ct: Content, s: nat): Option<seq<Byte>>
    requires Shaped(ct)
  {
    if Empty(ct, s) then None else Some(RecordBytes(ct.rows[s]))
  }

  // ------------------------------------------------------------------ reading

  predicate IsPax(p: seq<Byte>) {
    |p| >= 4 && p[0..4] == MAGIC
  }

  predicate IsEmpty(p: seq<Byte>, s: nat, ghost ct: Content)
    requires Holds(p, ct)
    ensures IsEmpty(p, s, ct) <==> Empty(ct, s)
  {
    !IsPax(p) || Word(p, 6) == 0 || s >= Word(p, 4) || ColValue(p, 0, s, ct.rows, ct.ncols) == []
  }

  /** All slots of a formatted page, read cell by cell. */
  method ReadSlots(p: seq<Byte>, ghost ct: Content) returns (rows: seq<Cells>)
    requires Holds(p, ct) && ct.Rows?
    ensures rows == ct.rows
  {
    hide Represents;
    RepresentsHeader(p, ct.rows, ct.ncols);
    rows := [];
    for s := 0 to Word(p, 4)
      invariant rows == ct.rows[..s]
    {
      var vals := [];
      for c := 0 to Word(p, 6)
        invariant vals == ct.rows[s].vals[..c]
      {
        vals := vals + [ColValue(p, c, s, ct.rows, ct.ncols)];
      }
      assert vals == ct.rows[s].vals;
      rows := rows + [Cells(VersionBytes(p, s, ct.rows, ct.ncols), vals)];
    }
  }

  lemma RepresentsHeader(p: seq<Byte>, rows: seq<Cells>, ncols: nat)
    requires Represents(p, rows, ncols)
    ensures |p| == PAGE_SIZE && p[0..4] == MAGIC && Word(p, 4) == |rows| && Word(p, 6) == ncols && RowsOk(rows, ncols)
  {
  }

  /** The record's bytes; columns not asked for come out as `NULL`. */
  ghost function Projected(cells: Cells, keep: Option<seq<bool>>): Cells {
    Cells(cells.version,
          seq(|cells.vals|, c requires 0 <= c < |cells.vals| => if Needed(keep, c) then cells.vals[c] else [TAG_NULL]))
  }

  predicate Needed(keep: Option<seq<bool>>, c: nat) {
    keep.None? || c >= |keep.value| || keep.value[c]
  }

  /** The columns of one live slot, one after the other. */
  method ReadColumns(p: seq<Byte>, slot: nat, keep: Option<seq<bool>>, ghost ct: Content) returns (body: seq<Byte>)
    requires Holds(p, ct) && ct.Rows? && slot < |ct.rows|
    ensures body == Concat(Projected(ct.rows[slot], keep).vals)
  {
    hide Represents, Concat, ColValue;
    RepresentsHeader(p, ct.rows, ct.ncols);
    ghost var want := Projected(ct.rows[slot], keep).vals;
    body := [];
    assert Concat([]) == [] by {
      NothingYet();
    }
    assert want[..0] == [];
    for c := 0 to Word(p, 6)
      invariant body == Concat(want[..c])
    {
      ConcatNext(want, c);
      if Needed(keep, c) {
        body := body + ColValue(p, c, slot, ct.rows, ct.ncols);
      } else {
        body := body + [TAG_NULL];
      }
    }
    assert want[..|want|] == want;
  }

  method ReadRecord(page: array<Byte>, slot: nat, keep: Option<seq<bool>>, ghost ct: Content)
    returns (out: Option<seq<Byte>>)
    requires page.Length == PAGE_SIZE && Holds(page[..], ct)
    ensures out == if Empty(ct, slot) then None else Some(RecordBytes(Projected(ct.rows[slot], keep)))
  {
    hide Represents, Concat, ToLe, IsEmpty, VersionBytes;
    var p := page[..];
    ContentShaped(p, ct);
    if IsEmpty(p, slot, ct) {
      return None;
    }
    RepresentsHeader(p, ct.rows, ct.ncols);
    var head := VersionBytes(p, slot, ct.rows, ct.ncols) + ToLe(Word(p, 6), 2);
    var body := ReadColumns(p, slot, keep, ct);
    return Some(head + body);
  }

  lemma NothingYet()
    ensures Concat([]) == []
  {
  }

  // ------------------------------------------------------------------ storing

  ghost function ColumnsOf(ct: Content, cells: Cells): nat {
    if ct.Rows? then ct.ncols else |cells.vals|
  }

  /** The page after `cells` went into `slot`. */
  ghost function With(ct: Content, slot: nat, cells: Cells): Content {
    Rows(ColumnsOf(ct, cells), Placed(SlotsOf(ct), ColumnsOf(ct, cells), slot, cells))
  }

  /** What placing a record at an empty slot comes to. */
  ghost function PutOutcome(ct: Content, slot: nat, record: seq<Byte>): Outcome
    requires Shaped(ct)
  {
    match Decoded(record)
    case None => Malformed
    case Some(cells) =>
      if ct.Rows? && |cells.vals| != ct.ncols then Mismatch
      else if !Empty(ct, slot) then Occupied
      else if Total(With(ct, slot, cells).rows, ColumnsOf(ct, cells)) > PAGE_SIZE then PageFull
      else Stored
  }

  /** The new state of a page, by outcome. */
  ghost predicate After(p: seq<Byte>, q: seq<Byte>, ct: Content, slot: nat, record: seq<Byte>, r: Outcome)
    requires Shaped(ct)
  {
    && r == PutOutcome(ct, slot, record)
    && (if r.Stored? then Holds(q, With(ct, slot, Decoded(record).value)) else q == p)
  }

  lemma ContentShaped(p: seq<Byte>, ct: Content)
    requires Holds(p, ct)
    ensures Shaped(ct) && (IsPax(p) <==> ct.Rows?)
  {
  }

  method Place(page: array<Byte>, slot: nat, record: seq<Byte>, cells: Cells, ghost ct: Content) returns (r: Outcome)
    requires page.Length == PAGE_SIZE && Holds(page[..], ct) && Decoded(record) == Some(cells)
    requires (ct.Rows? ==> |cells.vals| == ct.ncols) && Empty(ct, slot)
    modifies page
    ensures After(old(page[..]), page[..], ct, slot, record, r)
  {
    hide Represents, Decoded, Parses;
    var src := page[..];
    ContentShaped(src, ct);
    var ncols, rows := |cells.vals|, [];
    if IsPax(src) {
      RepresentsHeader(src, ct.rows, ct.ncols);
      ncols := Word(src, 6);
      rows := ReadSlots(src, ct);
    }
    assert |cells.version| == VERSION_LEN by {
      DecodedSound(record);
    }
    var newRows := Placed(rows, ncols, slot, cells);
    var ok := PaxPack.Pack(page, newRows, ncols);
    r := if ok then Stored else PageFull;
  }

  lemma DecodedSound(record: seq<Byte>)
    ensures Decoded(record).Some? ==> Sound(Decoded(record).value)
  {
  }

  /** Replay: the record goes to exactly this slot, or the page stays as it was. */
  method PutAt(page: array<Byte>, slot: nat, record: seq<Byte>, ghost ct: Content) returns (r: Outcome)
    requires page.Length == PAGE_SIZE && Holds(page[..], ct)
    modifies page
    ensures After(old(page[..]), page[..], ct, slot, record, r)
  {
    ContentShaped(page[..], ct);
    var cells := Split(record);
    if cells.None? {
      return Malformed;
    }
    if IsPax(page[..]) && |cells.value.vals| != Word(page[..], 6) {
      return Mismatch;
    }
    if !IsEmpty(page[..], slot, ct) {
      return Occupied;
    }
    r := Place(page, slot, record, cells.value, ct);
  }

  /** The slot an insert takes: the first empty one, or a new one. */
  ghost predicate IsFirstEmpty(ct: Content, slot: nat)
    requires Shaped(ct)
  {
    && slot <= |SlotsOf(ct)|
    && (slot < |SlotsOf(ct)| ==> Empty(ct, slot))
    && forall t :: 0 <= t < slot ==> !Empty(ct, t)
  }

  lemma SlotCount(p: seq<Byte>, ct: Content)
    requires Holds(p, ct)
    ensures Shaped(ct)
    ensures (if IsPax(p) then |p| >= 8 && ct.Rows? && Word(p, 4) == |ct.rows| && Word(p, 6) == ct.ncols
             else SlotsOf(ct) == [])
    ensures Empty(ct, |SlotsOf(ct)|)
  {
  }

  method Insert(page: array<Byte>, record: seq<Byte>, ghost ct: Content) returns (r: Outcome, slot: nat)
    requires page.Length == PAGE_SIZE && Holds(page[..], ct)
    modifies page
    ensures r !in {Malformed, Mismatch} ==> IsFirstEmpty(ct, slot)
    ensures After(old(page[..]), page[..], ct, slot, record, r)
  {
    hide Represents, IsEmpty, Decoded, Empty, With;
    ContentShaped(page[..], ct);
    SlotCount(page[..], ct);
    slot := 0;
    var cells := Split(record);
    if cells.None? {
      return Malformed, slot;
    }
    var n := if IsPax(page[..]) then Word(page[..], 4) else 0;
    if IsPax(page[..]) && |cells.value.vals| != Word(page[..], 6) {
      return Mismatch, slot;
    }
    while slot < n && !IsEmpty(page[..], slot, ct)
      invariant slot <= n && page[..] == old(page[..])
      invariant forall t :: 0 <= t < slot ==> !Empty(ct, t)
    {
      slot := slot + 1;
    }
    r := Place(page, slot, record, cells.value, ct);
  }

  // ------------------------------------------------------------------ deleting

  /** The page with one slot emptied; no slot is renumbered. */
  ghost function Without(ct: Content, slot: nat): Content
    requires ct.Rows? && slot < |ct.rows|
  {
    Rows(ct.ncols, ct.rows[slot := Blank(ct.ncols)])
  }

  lemma {:induction false} BlankIsNarrower(rows: seq<Cells>, ncols: nat, slot: nat, c: nat, s: nat)
    requires RowsOk(rows, ncols) && slot < |rows| && c < ncols && s <= |rows|
    ensures Width(rows[slot := Blank(ncols)], ncols, c, s) <= Width(rows, ncols, c, s)
  {
    if s > 0 {
      BlankIsNarrower(rows, ncols, slot, c, s - 1);
    }
  }

  lemma {:induction false} BlankStarts(rows: seq<Cells>, ncols: nat, slot: nat, c: nat)
    requires RowsOk(rows, ncols) && slot < |rows| && c <= ncols
    ensures Start(rows[slot := Blank(ncols)], ncols, c) <= Start(rows, ncols, c)
  {
    if c > 0 {
      BlankStarts(rows, ncols, slot, c - 1);
      BlankIsNarrower(rows, ncols, slot, c - 1, |rows|);
    }
  }

  /** Emptying a slot always fits. */
  method Delete(page: array<Byte>, slot: nat, ghost ct: Content) returns (r: Outcome)
    requires page.Length == PAGE_SIZE && Holds(page[..], ct)
    modifies page
    ensures r == if Empty(ct, slot) then NoRecord else Stored
    ensures r.NoRecord? ==> page[..] == old(page[..])
    ensures r.Stored? ==> Holds(page[..], Without(ct, slot))
  {
    ContentShaped(page[..], ct);
    if IsEmpty(page[..], slot, ct) {
      return NoRecord;
    }
    hide Represents, Start, Width;
    var src := page[..];
    RepresentsHeader(src, ct.rows, ct.ncols);
    assert Total(ct.rows, ct.ncols) <= PAGE_SIZE by {
      Fits(src, ct.rows, ct.ncols);
    }
    var rows := ReadSlots(src, ct);
    BlankStarts(ct.rows, ct.ncols, slot, ct.ncols);
    var ok := PaxPack.Pack(page, rows[slot := Blank(Word(src, 6))], Word(src, 6));
    return Stored;
  }

  lemma Fits(p: seq<Byte>, rows: seq<Cells>, ncols: nat)
    requires Represents(p, rows, ncols)
    ensures Total(rows, ncols) <= PAGE_SIZE && |p| == PAGE_SIZE
  {
  }

  // ------------------------------------------------------------------ marking

  /** Version bytes with another deleter and forward pointer. */
  ghost function Remarked(v: seq<Byte>, deleter: U64, next: U64): (w: seq<Byte>)
    requires |v| == VERSION_LEN
    ensures |w| == VERSION_LEN
  {
    v[..8] + ToLe(deleter, 8) + ToLe(next, 8)
  }

  ghost function Marked(ct: Content, slot: nat, deleter: U64, next: U64): Content
    requires Shaped(ct) && ct.Rows? && slot < |ct.rows|
  {
    Rows(ct.ncols, ct.rows[slot := Cells(Remarked(ct.rows[slot].version, deleter, next), ct.rows[slot].vals)])
  }

  lemma {:induction false} SameWidth(a: seq<Cells>, b: seq<Cells>, ncols: nat, c: nat, s: nat)
    requires RowsOk(a, ncols) && RowsOk(b, ncols) && |a| == |b| && c < ncols && s <= |a|
    requires forall t :: 0 <= t < |a| ==> a[t].vals == b[t].vals
    ensures Width(a, ncols, c, s) == Width(b, ncols, c, s)
  {
    if s > 0 {
      SameWidth(a, b, ncols, c, s - 1);
    }
  }

  lemma {:induction false} SameStart(a: seq<Cells>, b: seq<Cells>, ncols: nat, c: nat)
    requires RowsOk(a, ncols) && RowsOk(b, ncols) && |a| == |b| && c <= ncols
    requires forall t :: 0 <= t < |a| ==> a[t].vals == b[t].vals
    ensures Start(a, ncols, c) == Start(b, ncols, c)
  {
    if c > 0 {
      SameStart(a, b, ncols, c - 1);
      SameWidth(a, b, ncols, c - 1, |a|);
    }
  }

  /** Overwriting one slot's version bytes changes that slot only. */
  lemma VersionWritten(p: seq<Byte>, rows: seq<Cells>, ncols: nat, slot: nat, version: seq<Byte>)
    requires Represents(p, rows, ncols) && slot < |rows| && |version| == VERSION_LEN
    ensures VersionAt(ncols, slot) + VERSION_LEN <= |p|
    ensures Represents(Put(p, VersionAt(ncols, slot), version), rows[slot := Cells(version, rows[slot].vals)], ncols)
  {
    hide Word, Start, Width, Put, Only, Headed, Versioned, CellOk, ColumnOk;
    CellsStart(rows, ncols);
    var at := VersionAt(ncols, slot);
    assert at + VERSION_LEN <= VersionAt(ncols, |rows|);
    var q, b := Put(p, at, version), rows[slot := Cells(version, rows[slot].vals)];
    PutOnly(p, at, version, at, at + VERSION_LEN);
    HeadedKept(p, q, at, at + VERSION_LEN, rows, ncols);
    SameStart(rows, b, ncols, ncols);
    HeadedSame(q, rows, b, ncols);
    VersionsAfter(p, rows, ncols, slot, version);
    forall c | 0 <= c < ncols
      ensures ColumnOk(q, b, ncols, c)
    {
      StartGrows(rows, ncols, 0, c);
      ColumnKept(p, q, at, at + VERSION_LEN, rows, ncols, c);
      ColumnSame(q, rows, b, ncols, c);
    }
  }

  lemma HeadedSame(p: seq<Byte>, a: seq<Cells>, b: seq<Cells>, ncols: nat)
    requires |p| == PAGE_SIZE && RowsOk(a, ncols) && RowsOk(b, ncols) && |a| == |b|
    requires Total(a, ncols) == Total(b, ncols)
    requires Headed(p, a, ncols)
    ensures Headed(p, b, ncols)
  {
  }

  lemma ColumnSame(p: seq<Byte>, a: seq<Cells>, b: seq<Cells>, ncols: nat, c: nat)
    requires |p| == PAGE_SIZE && RowsOk(a, ncols) && RowsOk(b, ncols) && |a| == |b| && c < ncols
    requires Total(a, ncols) <= PAGE_SIZE && Total(b, ncols) <= PAGE_SIZE
    requires forall t :: 0 <= t < |a| ==> a[t].vals == b[t].vals
    requires ColumnOk(p, a, ncols, c)
    ensures ColumnOk(p, b, ncols, c)
  {
    hide Word, Start, Width;
    SameStart(a, b, ncols, c);
    SameStart(a, b, ncols, c + 1);
    SameWidth(a, b, ncols, c, |a|);
    forall s | 0 <= s < |b|
      ensures CellOk(p, b, ncols, c, s)
    {
      SameWidth(a, b, ncols, c, s);
      assert CellOk(p, a, ncols, c, s);
    }
  }

  lemma VersionsAfter(p: seq<Byte>, rows: seq<Cells>, ncols: nat, slot: nat, version: seq<Byte>)
    requires Represents(p, rows, ncols) && slot < |rows| && |version| == VERSION_LEN
    requires VersionAt(ncols, slot) + VERSION_LEN <= |p|
    requires Total(rows[slot := Cells(version, rows[slot].vals)], ncols) <= PAGE_SIZE
    ensures Versioned(Put(p, VersionAt(ncols, slot), version), rows[slot := Cells(version, rows[slot].vals)], ncols,
                      |rows|)
  {
    hide Word, Start, Width, Put, Headed, ColumnOk;
    CellsStart(rows, ncols);
    var at, b := VersionAt(ncols, slot), rows[slot := Cells(version, rows[slot].vals)];
    var q := Put(p, at, version);
    CellsStart(b, ncols);
    forall s | 0 <= s < |rows|
      ensures q[VersionAt(ncols, s)..VersionAt(ncols, s) + VERSION_LEN] == b[s].version
    {
      PutRange(p, at, version, VersionAt(ncols, s), VersionAt(ncols, s) + VERSION_LEN);
    }
  }

  ghost function DeleterOf(v: seq<Byte>): U64
    requires |v| == VERSION_LEN
  {
    Get64(v[8..16])
  }

  ghost function NextOf(v: seq<Byte>): U64
    requires |v| == VERSION_LEN
  {
    Get64(v[16..24])
  }

  lemma TwoPuts(p: seq<Byte>, at: nat, v: seq<Byte>, deleter: U64, next: U64)
    requires |v| == VERSION_LEN && at + VERSION_LEN <= |p| && p[at..at + VERSION_LEN] == v
    ensures Put(Put(p, at + 8, ToLe(deleter, 8)), at + 16, ToLe(next, 8)) == Put(p, at, Remarked(v, deleter, next))
    ensures p[at + 8..at + 16] == v[8..16] && p[at + 16..at + 24] == v[16..24]
  {
    hide ToLe;
    var d, n := ToLe(deleter, 8), ToLe(next, 8);
    assert p[at..at + 8] == v[..8] by {
      assert p[at..at + VERSION_LEN][..8] == p[at..at + 8];
    }
    assert p[at..at + VERSION_LEN][8..16] == p[at + 8..at + 16];
    assert p[at..at + VERSION_LEN][16..24] == p[at + 16..at + 24];
    assert p[..at + 8] == p[..at] + v[..8];
    var q := Put(p, at + 8, d);
    assert q == p[..at] + v[..8] + d + p[at + 16..];
    var r := Put(q, at + 16, n);
    assert r == p[..at] + v[..8] + d + n + p[at + 24..];
    assert p[..at] + v[..8] + d + n == p[..at] + (v[..8] + d + n);
  }

  /** Deleter and forward pointer rewritten in place; the previous pair is returned. */
  method DeleteMark(page: array<Byte>, slot: nat, deleter: U64, next: U64, ghost ct: Content)
    returns (r: Option<(U64, U64)>)
    requires page.Length == PAGE_SIZE && Holds(page[..], ct)
    modifies page
    ensures r.None? <==> Empty(ct, slot)
    ensures r.None? ==> page[..] == old(page[..])
    ensures r.Some? ==> r.value == (DeleterOf(ct.rows[slot].version), NextOf(ct.rows[slot].version))
    ensures r.Some? ==> Holds(page[..], Marked(ct, slot, deleter, next))
  {
    hide Represents, Put, Remarked, ToLe, IsEmpty, Word, FromLe;
    var p := page[..];
    ContentShaped(p, ct);
    if IsEmpty(p, slot, ct) {
      return None;
    }
    VersionSlice(p, ct.rows, ct.ncols, slot);
    var at := Word(p, PAX_HEADER) + slot * VERSION_LEN;
    MarkBytes(p, ct, slot, at, deleter, next);
    var prev, prevNext := Get64(p[at + 8..at + 16]), Get64(p[at + 16..at + 24]);
    SlottedPage.CopyInto(page, at + 8, ToLe(deleter, 8));
    SlottedPage.CopyInto(page, at + 16, ToLe(next, 8));
    return Some((prev, prevNext));
  }

  lemma MarkBytes(p: seq<Byte>, ct: Content, slot: nat, at: nat, deleter: U64, next: U64)
    requires Holds(p, ct) && ct.Rows? && slot < |ct.rows| && |p| == PAGE_SIZE
    requires at == VersionAt(ct.ncols, slot) && at + VERSION_LEN <= |p|
    ensures Shaped(ct) && p[at + 8..at + 16] == ct.rows[slot].version[8..16]
    ensures p[at + 16..at + 24] == ct.rows[slot].version[16..24]
    ensures Holds(Put(Put(p, at + 8, ToLe(deleter, 8)), at + 16, ToLe(next, 8)), Marked(ct, slot, deleter, next))
  {
    hide Represents, Put, Remarked, ToLe;
    RepresentsHeader(p, ct.rows, ct.ncols);
    var v := ct.rows[slot].version;
    VersionSlice(p, ct.rows, ct.ncols, slot);
    TwoPuts(p, at, v, deleter, next);
    VersionWritten(p, ct.rows, ct.ncols, slot, Remarked(v, deleter, next));
  }

  lemma VersionSlice(p: seq<Byte>, rows: seq<Cells>, ncols: nat, slot: nat)
    requires Represents(p, rows, ncols) && slot < |rows|
    ensures |p| == PAGE_SIZE && Word(p, PAX_HEADER) + slot * VERSION_LEN == VersionAt(ncols, slot)
    ensures VersionAt(ncols, slot) + VERSION_LEN <= |p|
    ensures p[VersionAt(ncols, slot)..VersionAt(ncols, slot) + VERSION_LEN] == rows[slot].version
  {
    CellsStart(rows, ncols);
  }
}
