/** What the page operations come to, record by record. */
module PaxTheorems {
  import opened Options
  import opened Bytes
  import opened PaxImage
  import opened PaxRecord
  import opened PaxPage

  /** Live slots hold well-formed values, dead ones none. */
  ghost predicate Tidy(ct: Content) {
    && Shaped(ct)
    && (ct.Rows? ==> ct.ncols < 0x1_0000)
    && forall s :: 0 <= s < |SlotsOf(ct)| ==>
       if Empty(ct, s) then ct.rows[s].vals == Blank(ct.ncols).vals else Sound(ct.rows[s])
  }

  /** A stored record can be read from its slot, every other record is untouched. */
  lemma StoredRecord(ct: Content, slot: nat, record: seq<Byte>, t: nat)
    requires Shaped(ct) && PutOutcome(ct, slot, record).Stored?
    ensures var cells, after := Decoded(record).value, With(ct, slot, Decoded(record).value);
            && Shaped(after)
            && (t != slot ==> Record(after, t) == Record(ct, t))
            && Record(after, slot) == if cells.vals == [] then None else Some(RecordBytes(cells))
  {
    hide Concat, ValueLen;
    var cells := Decoded(record).value;
    assert cells.vals != [] ==> Tagged(cells.vals[0]) && cells.vals[0] != [] by {
      if cells.vals != [] {
        SoundValue(cells, 0);
        NonEmpty(cells.vals[0]);
      }
    }
  }

  lemma NonEmpty(v: seq<Byte>)
    requires Tagged(v)
    ensures v != []
  {
  }

  /** The record comes back bit for bit exactly when it has a column and nothing follows its last one. */
  lemma ExactRecord(ct: Content, slot: nat, record: seq<Byte>)
    requires Shaped(ct) && PutOutcome(ct, slot, record).Stored?
    ensures var cells, after := Decoded(record).value, With(ct, slot, Decoded(record).value);
            Shaped(after) &&
            (Record(after, slot) == Some(record) <==> cells.vals != [] && |record| == |RecordBytes(cells)|)
  {
    hide Concat, ValueLen, RecordBytes, With, Record;
    StoredRecord(ct, slot, record, slot);
    var cells := Decoded(record).value;
    assert RecordBytes(cells) <= record;
    assert |record| == |RecordBytes(cells)| ==> RecordBytes(cells) == record;
  }

  /** A row without columns is stored, takes room, and cannot be read; the next insert takes its slot again. */
  lemma ColumnlessRow(record: seq<Byte>)
    requires record == seq(26, _ => 0)
    ensures PutOutcome(Fresh, 0, record).Stored?
    ensures var after := With(Fresh, 0, Decoded(record).value);
            Shaped(after) && Record(after, 0) == None && IsFirstEmpty(after, 0)
  {
    var cells := Cells(record[..24], []);
    assert RecordBytes(cells) == record by {
      assert ToLe(0, 2) == [0, 0];
    }
    DecodedIs(record, cells);
    assert With(Fresh, 0, cells) == Rows(0, [cells]);
    assert Total([cells], 0) == 44;
  }

  /** A deleted slot is empty, every other record is untouched. */
  lemma DeletedRecord(ct: Content, slot: nat, t: nat)
    requires Shaped(ct) && !Empty(ct, slot)
    ensures Shaped(Without(ct, slot)) && Record(Without(ct, slot), slot) == None
    ensures t != slot ==> Record(Without(ct, slot), t) == Record(ct, t)
  {
  }

  /** A mark changes the last sixteen version bytes of its slot and nothing else. */
  lemma MarkedRecord(ct: Content, slot: nat, deleter: U64, next: U64, t: nat)
    requires Shaped(ct) && !Empty(ct, slot)
    ensures var after := Marked(ct, slot, deleter, next);
            Shaped(after) && (t != slot ==> Record(after, t) == Record(ct, t))
    ensures var after, r := Marked(ct, slot, deleter, next), RecordBytes(ct.rows[slot]);
            Record(after, slot) == Some(r[..8] + ToLe(deleter, 8) + ToLe(next, 8) + r[24..])
  {
    hide Concat, ToLe;
    var cells := ct.rows[slot];
    var r := RecordBytes(cells);
    var w := Remarked(cells.version, deleter, next);
    assert r[..8] == cells.version[..8];
    assert r[24..] == ToLe(|cells.vals|, 2) + Concat(cells.vals);
    assert RecordBytes(Cells(w, cells.vals)) == w + r[24..];
  }

  /** Marking again with the pair a mark returned undoes it. */
  lemma UnmarkRestores(ct: Content, slot: nat, deleter: U64, next: U64)
    requires Shaped(ct) && !Empty(ct, slot)
    ensures var v := ct.rows[slot].version; Marked(Marked(ct, slot, deleter, next), slot, DeleterOf(v), NextOf(v)) == ct
  {
    hide ToLe, FromLe, Remarked, DeleterOf, NextOf;
    RemarkTwice(ct.rows[slot].version, deleter, next);
    var v := ct.rows[slot].version;
    assert ct.rows[slot] == Cells(v, ct.rows[slot].vals);
    assert Marked(Marked(ct, slot, deleter, next), slot, DeleterOf(v), NextOf(v)).rows == ct.rows;
  }

  lemma RemarkTwice(v: seq<Byte>, deleter: U64, next: U64)
    requires |v| == VERSION_LEN
    ensures Remarked(Remarked(v, deleter, next), DeleterOf(v), NextOf(v)) == v
  {
    hide ToLe, FromLe;
    ToFromLe(v[8..16]);
    ToFromLe(v[16..24]);
    assert Remarked(v, deleter, next)[..8] == v[..8];
    assert v == v[..8] + v[8..16] + v[16..24];
  }

  // ------------------------------------------------------------------ over every run

  datatype Op =
    | PutOp(slot: nat, record: seq<Byte>)
    | DeleteOp(slot: nat)
    | MarkOp(slot: nat, deleter: U64, next: U64)

  /** One operation; a refused one leaves the page as it is. */
  ghost function Step(ct: Content, op: Op): (r: Content)
    requires Shaped(ct)
    ensures Shaped(r)
  {
    match op
    case PutOp(slot, record) =>
      if PutOutcome(ct, slot, record).Stored? then With(ct, slot, Decoded(record).value) else ct
    case DeleteOp(slot) => if Empty(ct, slot) then ct else Without(ct, slot)
    case MarkOp(slot, deleter, next) => if Empty(ct, slot) then ct else Marked(ct, slot, deleter, next)
  }

  ghost function Run(ops: seq<Op>): (r: Content)
    ensures Shaped(r)
  {
    if ops == [] then Fresh else Step(Run(ops[..|ops| - 1]), ops[|ops| - 1])
  }

  lemma PutTidy(ct: Content, slot: nat, record: seq<Byte>)
    requires Tidy(ct) && PutOutcome(ct, slot, record).Stored?
    ensures Tidy(With(ct, slot, Decoded(record).value))
  {
    hide ValueLen, Concat, RecordBytes;
    var cells := Decoded(record).value;
    var after := With(ct, slot, cells);
    assert Sound(cells);
    StoredRecord(ct, slot, record, slot);
    forall s | 0 <= s < |after.rows|
      ensures if Empty(after, s) then after.rows[s].vals == Blank(after.ncols).vals else Sound(after.rows[s])
    {
      if s == slot {
        assert cells.vals == [] ==> cells.vals == Blank(0).vals;
      } else if s < |SlotsOf(ct)| {
        assert ct.rows[s] == after.rows[s];
      }
    }
  }

  /** Every slot a run leaves behind is either blank or a whole record. */
  lemma {:induction false} RunIsTidy(ops: seq<Op>)
    ensures Tidy(Run(ops))
  {
    hide ValueLen, Concat, RecordBytes;
    if ops != [] {
      var before, op := Run(ops[..|ops| - 1]), ops[|ops| - 1];
      RunIsTidy(ops[..|ops| - 1]);
      match op
      case PutOp(slot, record) =>
        if PutOutcome(before, slot, record).Stored? {
          PutTidy(before, slot, record);
        }
      case DeleteOp(slot) =>
      case MarkOp(slot, deleter, next) =>
    }
  }

  /** A projected read is again a record: the kept columns unchanged, the others `NULL`. */
  lemma ProjectedReadParses(ops: seq<Op>, slot: nat, keep: Option<seq<bool>>)
    requires !Empty(Run(ops), slot)
    ensures var cells := Projected(Run(ops).rows[slot], keep); Decoded(RecordBytes(cells)) == Some(cells)
  {
    RunIsTidy(ops);
    var cells := Projected(Run(ops).rows[slot], keep);
    assert Tagged([TAG_NULL]);
    assert Sound(cells) by {
      assert Sound(Run(ops).rows[slot]);
    }
    RecordRoundTrip(cells, []);
    assert RecordBytes(cells) + [] == RecordBytes(cells);
  }
}
