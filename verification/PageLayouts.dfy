/** Row-major and column-major pages are the same slot-to-record map, operation after operation. */
module PageLayouts {
  import opened Options
  import opened Bytes
  import opened PaxRecord
  import Slotted
  import SlottedOps
  import SlottedPage
  import SlottedCompact
  import PaxImage
  import PaxPage
  import PaxTheorems
  import RowCodec
  import opened Values

  type Slots = map<nat, seq<Byte>>

  ghost function RowMap(p: seq<Byte>): Slots
    requires Slotted.PageOk(p)
  {
    map s: nat | s < Slotted.NumSlots(p) && Slotted.Records(p)[s].Some? :: Slotted.Records(p)[s].value
  }

  ghost function ColumnMap(ct: PaxPage.Content): Slots
    requires PaxPage.Shaped(ct)
  {
    map s: nat | s < |PaxPage.SlotsOf(ct)| && PaxPage.Record(ct, s).Some? :: PaxPage.Record(ct, s).value
  }

  /** A row with a column behind its version header, and nothing after it. */
  ghost predicate Whole(record: seq<Byte>) {
    Decoded(record).Some? && Decoded(record).value.vals != [] && record == RecordBytes(Decoded(record).value)
  }

  /** The records the engine writes are whole as soon as their table has a column. */
  lemma EncodedRowIsWhole(version: seq<Byte>, row: seq<Value>)
    requires |version| == PaxImage.VERSION_LEN && 0 < |row| < 0x1_0000 && RowCodec.AllShort(row)
    ensures Whole(version + RowCodec.EncodedRow(row))
  {
    hide RowCodec.EncodedRow, RecordBytes;
    RowCodec.EncodedRecordSplits(version, row);
  }

  datatype Op =
    | Insert(record: seq<Byte>)
    | PutAt(slot: U16, record: seq<Byte>)
    | Delete(slot: U16)
    | Mark(slot: U16, deleter: U64, next: U64)

  ghost predicate FirstFree(m: Slots, i: nat) {
    i !in m && forall j: nat :: j < i ==> j in m
  }

  /** A record with another deleter and forward pointer. */
  function Stamped(r: seq<Byte>, deleter: U64, next: U64): seq<Byte>
    requires |r| >= 24
  {
    r[..8] + ToLe(deleter, 8) + ToLe(next, 8) + r[24..]
  }

  /** What an operation that is not refused makes of the map; `slot` is where an inserted record goes. */
  ghost predicate Step(m: Slots, op: Op, slot: nat, m': Slots) {
    match op
    case Insert(record) => FirstFree(m, slot) && m' == m[slot := record]
    case PutAt(s, record) => s !in m && m' == m[s := record]
    case Delete(s) => s in m && m' == m - {s}
    case Mark(s, deleter, next) => s in m && |m[s]| >= 24 && m' == m[s := Stamped(m[s], deleter, next)]
  }

  ghost predicate Storable(op: Op) {
    op.Insert? || op.PutAt? ==> Whole(op.record)
  }

  /** An operation leads to one map only. */
  lemma StepDetermined(m: Slots, op: Op, s1: nat, m1: Slots, s2: nat, m2: Slots)
    requires Step(m, op, s1, m1) && Step(m, op, s2, m2)
    ensures m1 == m2 && (op.Insert? ==> s1 == s2)
  {
  }

  // ------------------------------------------------------------------ row-major pages

  lemma RowAt(p: seq<Byte>, s: nat)
    requires Slotted.PageOk(p)
    ensures s in RowMap(p) <==> s < Slotted.NumSlots(p) && Slotted.Records(p)[s].Some?
    ensures s in RowMap(p) ==> RowMap(p)[s] == Slotted.Records(p)[s].value
    ensures s < Slotted.NumSlots(p) ==> (Slotted.Records(p)[s].None? <==> Slotted.Dir(p)[s] == Slotted.EMPTY)
  {
    hide Slotted.PageOk;
  }

  lemma RowStored(p: seq<Byte>, p': seq<Byte>, i: nat, rec: seq<Byte>)
    requires Slotted.PageOk(p) && SlottedPage.Stored(p, p', i, rec)
    ensures RowMap(p') == RowMap(p)[i := rec]
  {
    hide Slotted.Packed, RowMap, Slotted.Records;
    var n := Slotted.NumSlots(p);
    var rs := Slotted.Records(p) + SlottedOps.Nones(SlottedOps.Grown(n, i));
    assert Slotted.Records(p') == rs[i := Some(rec)];
    forall s: nat
      ensures s in RowMap(p') <==> s == i || s in RowMap(p)
      ensures s in RowMap(p') ==> RowMap(p')[s] == if s == i then rec else RowMap(p)[s]
    {
      RowAt(p, s);
      RowAt(p', s);
    }
  }

  lemma RowFirst(p: seq<Byte>)
    requires Slotted.PageOk(p)
    ensures FirstFree(RowMap(p), SlottedPage.FirstEmpty(Slotted.Dir(p)))
  {
    hide Slotted.Packed, RowMap, Slotted.Records;
    var i := SlottedPage.FirstEmpty(Slotted.Dir(p));
    SlottedPage.EmptyOff(p, i);
    RowAt(p, i);
    forall j: nat | j < i
      ensures j in RowMap(p)
    {
      RowAt(p, j);
    }
  }

  /** One slot of a row-major page changes. */
  lemma RowChanged(p: seq<Byte>, p': seq<Byte>, i: nat, r: Option<seq<Byte>>)
    requires Slotted.PageOk(p) && Slotted.PageOk(p') && i < Slotted.NumSlots(p)
    requires Slotted.Records(p') == Slotted.Records(p)[i := r]
    ensures RowMap(p') == if r.None? then RowMap(p) - {i} else RowMap(p)[i := r.value]
  {
    hide Slotted.Packed, RowMap, Slotted.Records;
    forall s: nat
      ensures s in RowMap(p') <==> if s == i then r.Some? else s in RowMap(p)
      ensures s in RowMap(p') ==> RowMap(p')[s] == if s == i then r.value else RowMap(p)[s]
    {
      RowAt(p, s);
      RowAt(p', s);
    }
  }

  /** One operation on a row-major page; a mark is a read and a rewrite of the same length. */
  method OnRows(page: array<Byte>, op: Op) returns (done: bool, slot: nat)
    requires page.Length == Slotted.PAGE_SIZE && Slotted.PageOk(page[..])
    requires op.Mark? && op.slot in RowMap(page[..]) ==> |RowMap(page[..])[op.slot]| >= 24
    modifies page
    ensures Slotted.PageOk(page[..])
    ensures done ==> Step(old(RowMap(page[..])), op, slot, RowMap(page[..]))
    ensures !done ==> page[..] == old(page[..])
    ensures !done && (op.Delete? || op.Mark?) ==> op.slot !in old(RowMap(page[..]))
  {
    hide Slotted.PageOk, RowMap, Slotted.Records, SlottedPage.Stored, FirstFree;
    ghost var p := page[..];
    slot := 0;
    match op {
      case Insert(record) =>
        RowFirst(p);
        var s := SlottedPage.Insert(page, record);
        done := s.Some?;
        if done {
          slot := s.value;
          RowStored(p, page[..], slot, record);
        }
      case PutAt(i, record) =>
        RowAt(p, i);
        var out := SlottedPage.PutAt(page, i, record);
        done := out.Done?;
        if done {
          RowStored(p, page[..], i, record);
        }
      case Delete(i) =>
        RowAt(p, i);
        done := SlottedCompact.Delete(page, i);
        if done {
          RowChanged(p, page[..], i, None);
        }
      case Mark(i, deleter, next) =>
        RowAt(p, i);
        var r := SlottedPage.Get(page, i);
        done := r.Some?;
        if done {
          ToLeLengths(deleter, next);
          done := SlottedCompact.Rewrite(page, i, Stamped(r.value, deleter, next));
          RowChanged(p, page[..], i, Some(Stamped(r.value, deleter, next)));
        }
    }
  }

  lemma ToLeLengths(a: U64, b: U64)
    ensures |ToLe(a, 8)| == 8 && |ToLe(b, 8)| == 8
  {
  }

  // ------------------------------------------------------------------ column-major pages

  lemma ColumnAt(ct: PaxPage.Content, s: nat)
    requires PaxPage.Shaped(ct)
    ensures s in ColumnMap(ct) <==> PaxPage.Record(ct, s).Some?
    ensures s in ColumnMap(ct) ==> ColumnMap(ct)[s] == PaxPage.Record(ct, s).value
    ensures PaxPage.Record(ct, s).None? <==> PaxPage.Empty(ct, s)
  {
    hide RecordBytes;
  }

  lemma ColumnStored(ct: PaxPage.Content, slot: nat, record: seq<Byte>)
    requires PaxPage.Shaped(ct) && PaxPage.PutOutcome(ct, slot, record).Stored? && Whole(record)
    ensures var after := PaxPage.With(ct, slot, Decoded(record).value);
            slot !in ColumnMap(ct) && PaxPage.Shaped(after) && ColumnMap(after) == ColumnMap(ct)[slot := record]
  {
    var after := PaxPage.With(ct, slot, Decoded(record).value);
    PaxTheorems.ExactRecord(ct, slot, record);
    hide ColumnMap, PaxPage.Record, PaxPage.With, RecordBytes, PaxPage.Shaped;
    ColumnAt(ct, slot);
    forall s: nat
      ensures s in ColumnMap(after) <==> s == slot || s in ColumnMap(ct)
      ensures s in ColumnMap(after) ==> ColumnMap(after)[s] == if s == slot then record else ColumnMap(ct)[s]
    {
      PaxTheorems.StoredRecord(ct, slot, record, s);
      ColumnAt(ct, s);
      ColumnAt(after, s);
    }
  }

  lemma ColumnFirst(ct: PaxPage.Content, slot: nat)
    requires PaxPage.Shaped(ct) && PaxPage.IsFirstEmpty(ct, slot)
    ensures FirstFree(ColumnMap(ct), slot)
  {
    hide ColumnMap, PaxPage.Record;
    ColumnAt(ct, slot);
    assert PaxPage.Empty(ct, slot);
    forall j: nat | j < slot
      ensures j in ColumnMap(ct)
    {
      ColumnAt(ct, j);
    }
  }

  lemma ColumnDeleted(ct: PaxPage.Content, slot: nat)
    requires PaxPage.Shaped(ct) && !PaxPage.Empty(ct, slot)
    ensures ct.Rows? && slot < |ct.rows| && PaxPage.Shaped(PaxPage.Without(ct, slot))
    ensures ColumnMap(PaxPage.Without(ct, slot)) == ColumnMap(ct) - {slot}
  {
    var after := PaxPage.Without(ct, slot);
    PaxTheorems.DeletedRecord(ct, slot, slot);
    hide ColumnMap, PaxPage.Record, PaxPage.Without, PaxPage.Shaped, PaxPage.Empty;
    forall s: nat
      ensures s in ColumnMap(after) <==> s != slot && s in ColumnMap(ct)
      ensures s in ColumnMap(after) ==> ColumnMap(after)[s] == ColumnMap(ct)[s]
    {
      PaxTheorems.DeletedRecord(ct, slot, s);
      ColumnAt(ct, s);
      ColumnAt(after, s);
    }
  }

  lemma ColumnMarked(ct: PaxPage.Content, slot: nat, deleter: U64, next: U64)
    requires PaxPage.Shaped(ct) && !PaxPage.Empty(ct, slot)
    ensures ct.Rows? && slot < |ct.rows| && slot in ColumnMap(ct) && |ColumnMap(ct)[slot]| >= 24
    ensures var after := PaxPage.Marked(ct, slot, deleter, next);
            PaxPage.Shaped(after) &&
            ColumnMap(after) == ColumnMap(ct)[slot := Stamped(ColumnMap(ct)[slot], deleter, next)]
  {
    var after := PaxPage.Marked(ct, slot, deleter, next);
    PaxTheorems.MarkedRecord(ct, slot, deleter, next, slot);
    ColumnAt(ct, slot);
    assert |ColumnMap(ct)[slot]| >= 24;
    hide ColumnMap, PaxPage.Marked, PaxPage.Shaped, PaxPage.Empty, RecordBytes;
    forall s: nat
      ensures s in ColumnMap(after) <==> s in ColumnMap(ct)
      ensures s in ColumnMap(after) && s != slot ==> ColumnMap(after)[s] == ColumnMap(ct)[s]
      ensures s == slot ==> ColumnMap(after)[s] == Stamped(ColumnMap(ct)[s], deleter, next)
    {
      PaxTheorems.MarkedRecord(ct, slot, deleter, next, s);
      ColumnAt(ct, s);
      ColumnAt(after, s);
    }
  }

  /** One operation on a column-major page. */
  method OnColumns(page: array<Byte>, op: Op, ghost ct: PaxPage.Content)
    returns (done: bool, slot: nat, ghost ct': PaxPage.Content)
    requires page.Length == Slotted.PAGE_SIZE && PaxPage.Holds(page[..], ct) && PaxPage.Shaped(ct) && Storable(op)
    modifies page
    ensures PaxPage.Holds(page[..], ct') && PaxPage.Shaped(ct')
    ensures done ==> Step(ColumnMap(ct), op, slot, ColumnMap(ct'))
    ensures !done ==> page[..] == old(page[..]) && ct' == ct
    ensures !done && (op.Delete? || op.Mark?) ==> op.slot !in ColumnMap(ct)
  {
    hide PaxPage.Holds, PaxPage.Shaped, PaxPage.With, PaxPage.Without, PaxPage.Marked, PaxPage.PutOutcome;
    hide PaxPage.Empty, ColumnMap, FirstFree;
    slot, ct' := 0, ct;
    match op {
      case Insert(record) =>
        var r;
        r, slot := PaxPage.Insert(page, record, ct);
        done := r.Stored?;
        if done {
          ColumnFirst(ct, slot);
          ColumnStored(ct, slot, record);
          ct' := PaxPage.With(ct, slot, Decoded(record).value);
        }
      case PutAt(i, record) =>
        var r := PaxPage.PutAt(page, i, record, ct);
        done := r.Stored?;
        if done {
          ColumnStored(ct, i, record);
          ct' := PaxPage.With(ct, i, Decoded(record).value);
        }
      case Delete(i) =>
        ColumnAt(ct, i);
        var r := PaxPage.Delete(page, i, ct);
        done := r.Stored?;
        if done {
          ColumnDeleted(ct, i);
          ct' := PaxPage.Without(ct, i);
        }
      case Mark(i, deleter, next) =>
        ColumnAt(ct, i);
        var r := PaxPage.DeleteMark(page, i, deleter, next, ct);
        done := r.Some?;
        if done {
          ColumnMarked(ct, i, deleter, next);
          ct' := PaxPage.Marked(ct, i, deleter, next);
        }
    }
  }

  // ------------------------------------------------------------------ both at once

  /** Every record has its version header. */
  ghost predicate Headed(m: Slots) {
    forall s :: s in m ==> |m[s]| >= 24
  }

  lemma StepHeaded(m: Slots, op: Op, slot: nat, m': Slots)
    requires Headed(m) && Step(m, op, slot, m') && Storable(op)
    ensures Headed(m')
  {
    if op.Insert? || op.PutAt? {
      HeadOfRecord(op.record, Decoded(op.record).value);
    }
    if op.Mark? {
      ToLeLengths(op.deleter, op.next);
    }
  }

  /** A run of operations leads to this map; refused ones change nothing. */
  ghost predicate Leads(ops: seq<Op>, m: Slots)
    decreases |ops|
  {
    if ops == [] then m == map[]
    else
      var before, last := ops[..|ops| - 1], ops[|ops| - 1];
      exists m0, slot :: Leads(before, m0) && Moves(m0, last, slot, m)
  }

  ghost predicate Moves(m: Slots, op: Op, slot: nat, m': Slots) {
    m' == m || Step(m, op, slot, m')
  }

  lemma LeadsOn(ops: seq<Op>, n: nat, m0: Slots, slot: nat, m: Slots)
    requires n < |ops| && Leads(ops[..n], m0) && Moves(m0, ops[n], slot, m)
    ensures Leads(ops[..n + 1], m)
  {
    assert ops[..n + 1][..n] == ops[..n];
  }

  /** One operation on both pages. */
  method OnBoth(rows: array<Byte>, columns: array<Byte>, op: Op, ghost ct: PaxPage.Content)
    returns (agreed: bool, slot: nat, ghost ct': PaxPage.Content)
    requires rows != columns && rows.Length == columns.Length == Slotted.PAGE_SIZE && Storable(op)
    requires Slotted.PageOk(rows[..]) && PaxPage.Shaped(ct) && PaxPage.Holds(columns[..], ct)
    requires RowMap(rows[..]) == ColumnMap(ct) && Headed(ColumnMap(ct))
    modifies rows, columns
    ensures Slotted.PageOk(rows[..]) && PaxPage.Shaped(ct') && PaxPage.Holds(columns[..], ct')
    ensures agreed ==> RowMap(rows[..]) == ColumnMap(ct') && Headed(ColumnMap(ct'))
    ensures agreed ==> Moves(ColumnMap(ct), op, slot, ColumnMap(ct'))
    ensures !agreed ==> op.Insert? || op.PutAt?
  {
    hide Slotted.PageOk, PaxPage.Holds, PaxPage.Shaped, RowMap, ColumnMap, Storable, Step, Headed;
    ghost var m := ColumnMap(ct);
    HeadedAt(m, op);
    var onRows, rowSlot := OnRows(rows, op);
    var onColumns;
    onColumns, slot, ct' := OnColumns(columns, op, ct);
    agreed := onRows == onColumns;
    StepNeedsSlot(m, op, rowSlot, RowMap(rows[..]));
    StepNeedsSlot(m, op, slot, ColumnMap(ct'));
    if onRows && onColumns {
      StepDetermined(m, op, rowSlot, RowMap(rows[..]), slot, ColumnMap(ct'));
      StepHeaded(m, op, slot, ColumnMap(ct'));
    }
  }

  /**
   The same operations on an empty page of each layout. As long as none of them takes a record that the other
   refuses, both hold the same records in the same slots; deletions and marks are always taken by both or by neither.
   */
  method RunBoth(rows: array<Byte>, columns: array<Byte>, ops: seq<Op>)
    returns (agreed: bool, n: nat, ghost ct: PaxPage.Content)
    requires rows != columns && rows.Length == columns.Length == Slotted.PAGE_SIZE
    requires Slotted.PageOk(rows[..]) && RowMap(rows[..]) == map[] && PaxPage.Holds(columns[..], PaxPage.Fresh)
    requires forall i :: 0 <= i < |ops| ==> Storable(ops[i])
    modifies rows, columns
    ensures Slotted.PageOk(rows[..]) && PaxPage.Shaped(ct) && PaxPage.Holds(columns[..], ct) && n <= |ops|
    ensures agreed ==> n == |ops| && RowMap(rows[..]) == ColumnMap(ct) && Leads(ops, ColumnMap(ct))
    ensures !agreed ==> n < |ops| && (ops[n].Insert? || ops[n].PutAt?)
  {
    ct := PaxPage.Fresh;
    n := 0;
    assert Headed(map[]) && ColumnMap(ct) == map[] && ops[..0] == [];
    hide Slotted.PageOk, PaxPage.Holds, PaxPage.Shaped, RowMap, ColumnMap, Storable, Moves, Leads, Headed;
    while n < |ops|
      invariant n <= |ops| && Slotted.PageOk(rows[..]) && PaxPage.Shaped(ct) && PaxPage.Holds(columns[..], ct)
      invariant RowMap(rows[..]) == ColumnMap(ct) && Headed(ColumnMap(ct)) && Leads(ops[..n], ColumnMap(ct))
    {
      ghost var m := ColumnMap(ct);
      var slot;
      agreed, slot, ct := OnBoth(rows, columns, ops[n], ct);
      if !agreed {
        return;
      }
      LeadsOn(ops, n, m, slot, ColumnMap(ct));
      n := n + 1;
    }
    assert ops[..n] == ops;
    agreed := true;
  }

  lemma HeadedAt(m: Slots, op: Op)
    requires Headed(m)
    ensures op.Mark? && op.slot in m ==> |m[op.slot]| >= 24
  {
  }

  lemma StepNeedsSlot(m: Slots, op: Op, slot: nat, m': Slots)
    ensures Step(m, op, slot, m') && (op.Delete? || op.Mark?) ==> op.slot in m
  {
  }
}
