/**
 Transactional writes over a heap table and its indexes. Every write pushes an
 undo entry and a redo frame; unwinding to a mark must take back exactly what
 was done since, and nothing that other transactions did meanwhile.
 */
module UndoLog {
  import opened Options
  import opened Heap

  /** An index entry: indexed column, key, row id. */
  type Posting = (nat, Option<int>, Rid)

  datatype Frame =
    | FrameInsert(rid: Rid, version: Version)
    | FrameMark(rid: Rid, deleter: Xid, next: Rid)

  /** The table's rows and index entries, and one transaction's undo and redo logs. */
  datatype Store = Store(heap: Versions, index: set<Posting>, undo: seq<Undo>, redo: seq<Frame>)

  datatype Op = Insert(rid: Rid, row: Row) | Delete(rid: Rid) | Update(rid: Rid, newRid: Rid, row: Row)

  function Cell(row: Row, c: nat): Option<int> {
    if c < |row| then row[c] else None
  }

  /** Index entries of one row under the table's indexed columns. */
  function Postings(cols: set<nat>, r: Rid, row: Row): set<Posting> {
    set c | c in cols :: (c, Cell(row, c), r)
  }

  /** The storage engine hands out a free slot, and marks need a row. */
  predicate CanDo(s: Store, op: Op) {
    match op
    case Insert(r, _) => r !in s.heap
    case Delete(r) => r in s.heap
    case Update(r, n, _) => r in s.heap && n !in s.heap
  }

  function Do(cols: set<nat>, t: Xid, s: Store, op: Op): Store
    requires CanDo(s, op)
  {
    match op
    case Insert(r, row) =>
      var v := Version(t, 0, 0, row);
      Store(s.heap[r := v], s.index + Postings(cols, r, row),
            s.undo + [UndoInsert(r, row)], s.redo + [FrameInsert(r, v)])
    case Delete(r) =>
      Store(SetMark(s.heap, r, t, 0), s.index,
            s.undo + [UndoMark(r, s.heap[r].deleter, s.heap[r].next)], s.redo + [FrameMark(r, t, 0)])
    case Update(r, n, row) =>
      var v := Version(t, 0, 0, row);
      Store(SetMark(s.heap[n := v], r, t, n), s.index + Postings(cols, n, row),
            s.undo + [UndoUpdate(r, n, row, s.heap[r].deleter, s.heap[r].next)],
            s.redo + [FrameInsert(n, v), FrameMark(r, t, n)])
  }

  function UndoneIndex(cols: set<nat>, index: set<Posting>, u: Undo): set<Posting> {
    match u
    case UndoInsert(r, row) => index - Postings(cols, r, row)
    case UndoMark(_, _, _) => index
    case UndoUpdate(_, n, row, _, _) => index - Postings(cols, n, row)
  }

  class TableStore {
    const cols: set<nat>
    const id: Xid
    var heap: Versions
    var index: set<Posting>
    var undo: seq<Undo>
    var redo: seq<Frame>

    ghost function View(): Store
      reads this
    {
      Store(heap, index, undo, redo)
    }

    method InsertRow(rid: Rid, row: Row)
      requires CanDo(View(), Insert(rid, row))
      modifies this
      ensures View() == Do(cols, id, old(View()), Insert(rid, row))
    {
      var v := Version(id, 0, 0, row);
      heap := heap[rid := v];
      undo := undo + [UndoInsert(rid, row)];
      redo := redo + [FrameInsert(rid, v)];
      AddPostings(rid, row);
    }

    method DeleteRow(rid: Rid)
      requires CanDo(View(), Delete(rid))
      modifies this
      ensures View() == Do(cols, id, old(View()), Delete(rid))
    {
      var prev := heap[rid];
      heap := SetMark(heap, rid, id, 0);
      undo := undo + [UndoMark(rid, prev.deleter, prev.next)];
      redo := redo + [FrameMark(rid, id, 0)];
    }

    method UpdateRow(rid: Rid, newRid: Rid, row: Row)
      requires CanDo(View(), Update(rid, newRid, row))
      modifies this
      ensures View() == Do(cols, id, old(View()), Update(rid, newRid, row))
    {
      var v := Version(id, 0, 0, row);
      heap := heap[newRid := v];
      redo := redo + [FrameInsert(newRid, v)];
      var prev := heap[rid];
      heap := SetMark(heap, rid, id, newRid);
      undo := undo + [UndoUpdate(rid, newRid, row, prev.deleter, prev.next)];
      redo := redo + [FrameMark(rid, id, newRid)];
      AddPostings(newRid, row);
    }

    method AddPostings(rid: Rid, row: Row)
      modifies this`index
      ensures index == old(index) + Postings(cols, rid, row)
    {
      var todo := cols;
      while todo != {}
        invariant todo <= cols && index == old(index) + Postings(cols - todo, rid, row)
        decreases todo
      {
        var c :| c in todo;
        index := index + {(c, Cell(row, c), rid)};
        todo := todo - {c};
      }
      assert cols - {} == cols;
    }

    method RemovePostings(rid: Rid, row: Row)
      modifies this`index
      ensures index == old(index) - Postings(cols, rid, row)
    {
      var todo := cols;
      while todo != {}
        invariant todo <= cols && index == old(index) - Postings(cols - todo, rid, row)
        decreases todo
      {
        var c :| c in todo;
        index := index - {(c, Cell(row, c), rid)};
        todo := todo - {c};
      }
      assert cols - {} == cols;
    }

    method TakeBack(u: Undo)
      modifies this`heap, this`index
      ensures heap == UndoOne(old(heap), u) && index == UndoneIndex(cols, old(index), u)
    {
      match u {
        case UndoInsert(r, row) =>
          heap := heap - {r};
          RemovePostings(r, row);
        case UndoMark(r, d, n) =>
          if r in heap {
            heap := SetMark(heap, r, d, n);
          }
        case UndoUpdate(r, n, row, d, p) =>
          heap := heap - {n};
          RemovePostings(n, row);
          if r in heap {
            heap := SetMark(heap, r, d, p);
          }
      }
    }

    /** Unwinds to a mark: newest entry first, redo frames cut off. */
    method UndoTo(undoMark: nat, redoMark: nat)
      requires undoMark <= |undo| && redoMark <= |redo|
      modifies this
      ensures View() == Unwind(cols, old(View()), undoMark, redoMark)
    {
      UnwindIgnoresRedo(cols, View(), redo[..redoMark], undoMark, redoMark);
      redo := redo[..redoMark];
      ghost var start := View();
      while |undo| > undoMark
        invariant undoMark <= |undo| && |redo| == redoMark
        invariant Unwind(cols, View(), undoMark, redoMark) == Unwind(cols, start, undoMark, redoMark)
      {
        var u := undo[|undo| - 1];
        undo := undo[..|undo| - 1];
        TakeBack(u);
      }
    }
  }

  function Pop(cols: set<nat>, s: Store): Store
    requires s.undo != []
  {
    var u := s.undo[|s.undo| - 1];
    s.(heap := UndoOne(s.heap, u), index := UndoneIndex(cols, s.index, u), undo := s.undo[..|s.undo| - 1])
  }

  function Unwind(cols: set<nat>, s: Store, undoMark: nat, redoMark: nat): Store
    requires undoMark <= |s.undo| && redoMark <= |s.redo|
    decreases |s.undo|
  {
    if |s.undo| == undoMark then s.(redo := s.redo[..redoMark]) else Unwind(cols, Pop(cols, s), undoMark, redoMark)
  }

  // ------------------------------------------------------------------ what unwinding restores

  /** Index entries point at stored rows only. */
  ghost predicate IndexOk(s: Store) {
    forall e :: e in s.index ==> e.2 in s.heap
  }

  /** One write followed by its own undo entry leaves rows and index entries as they were. */
  lemma PopUndoesDo(cols: set<nat>, t: Xid, s: Store, op: Op)
    requires CanDo(s, op) && IndexOk(s)
    ensures Pop(cols, Do(cols, t, s, op)).(redo := s.redo) == s
    ensures IndexOk(Do(cols, t, s, op))
  {
    var s' := Do(cols, t, s, op);
    assert s'.undo[..|s'.undo| - 1] == s.undo;
    assert Pop(cols, s').heap == s.heap;
    assert Pop(cols, s').index == s.index;
  }

  /** Rows written by the entries above `mark`. */
  ghost function Footprint(undo: seq<Undo>, mark: nat): set<Rid> {
    set i, r | mark <= i < |undo| && r in Touched(undo[i]) :: r
  }

  /** What another transaction may do: anything, except to rows in this footprint. */
  ghost predicate Foreign(s: Store, s': Store, own: set<Rid>) {
    && s'.undo == s.undo && s'.redo == s.redo
    && (forall r :: r in own ==> (r in s.heap <==> r in s'.heap) && (r in s.heap ==> s.heap[r] == s'.heap[r]))
    && (forall e: Posting :: e.2 in own ==> (e in s.index <==> e in s'.index))
    && IndexOk(s')
  }

  datatype Step = Own(op: Op) | Other(after: Store)

  ghost predicate Steps(cols: set<nat>, t: Xid, s: Store, mark: nat, steps: seq<Step>, s': Store)
    requires mark <= |s.undo|
    decreases |steps|
  {
    if steps == [] then s == s'
    else match steps[0]
      case Own(op) => CanDo(s, op) && Steps(cols, t, Do(cols, t, s, op), mark, steps[1..], s')
      case Other(after) =>
        Foreign(s, after, Footprint(s.undo, mark)) && Steps(cols, t, after, mark, steps[1..], s')
  }

  /** `others` with the part of `after` that lies outside `own`. */
  ghost function Adopt(others: Store, after: Store, own: set<Rid>): Store {
    others.(heap := map r | r in others.heap.Keys + after.heap.Keys &&
                            (if r in own then r in others.heap else r in after.heap)
                      :: if r in own then others.heap[r] else after.heap[r],
            index := (set e | e in others.index && e.2 in own) + (set e | e in after.index && e.2 !in own))
  }

  /** The same run with this transaction's own writes left out. */
  ghost function OthersOnly(cols: set<nat>, t: Xid, s: Store, mark: nat, steps: seq<Step>, others: Store): Store
    requires mark <= |s.undo|
    decreases |steps|
  {
    if steps == [] then others
    else match steps[0]
      case Own(op) =>
        if CanDo(s, op) then OthersOnly(cols, t, Do(cols, t, s, op), mark, steps[1..], others) else others
      case Other(after) =>
        if mark <= |after.undo|
        then OthersOnly(cols, t, after, mark, steps[1..], Adopt(others, after, Footprint(s.undo, mark)))
        else others
  }

  /** The unwound heap and index do not depend on redo frames past the mark. */
  lemma {:induction false} UnwindIgnoresRedo(cols: set<nat>, s: Store, redo: seq<Frame>, undoMark: nat, redoMark: nat)
    requires undoMark <= |s.undo| && redoMark <= |s.redo| && redoMark <= |redo|
    requires redo[..redoMark] == s.redo[..redoMark]
    ensures Unwind(cols, s.(redo := redo), undoMark, redoMark) == Unwind(cols, s, undoMark, redoMark)
    decreases |s.undo|
  {
    if |s.undo| > undoMark {
      UnwindIgnoresRedo(cols, Pop(cols, s), redo, undoMark, redoMark);
      assert Pop(cols, s.(redo := redo)) == Pop(cols, s).(redo := redo);
    }
  }

  ghost predicate SameOn(a: Store, b: Store, r: Rid) {
    && (r in a.heap <==> r in b.heap) && (r in a.heap ==> a.heap[r] == b.heap[r])
    && forall e: Posting :: e.2 == r ==> (e in a.index <==> e in b.index)
  }

  /** Unwinding leaves rows outside the footprint alone, and inside it reads nothing from outside. */
  lemma {:induction false} UnwindFrame(cols: set<nat>, s: Store, s': Store, mark: nat, redoMark: nat, r: Rid)
    requires mark <= |s.undo| && redoMark <= |s.redo| && s'.undo == s.undo && redoMark <= |s'.redo|
    ensures r !in Footprint(s.undo, mark) ==> SameOn(Unwind(cols, s, mark, redoMark), s, r)
    ensures SameOn(s, s', r) ==>
              SameOn(Unwind(cols, s, mark, redoMark), Unwind(cols, s', mark, redoMark), r)
    decreases |s.undo|
  {
    if |s.undo| > mark {
      UnwindFrame(cols, Pop(cols, s), Pop(cols, s'), mark, redoMark, r);
      PopFrame(cols, s, s', mark, r);
    }
  }

  lemma PopFrame(cols: set<nat>, s: Store, s': Store, mark: nat, r: Rid)
    requires mark < |s.undo| && s'.undo == s.undo
    ensures r !in Footprint(s.undo, mark) ==> SameOn(Pop(cols, s), s, r) && r !in Footprint(Pop(cols, s).undo, mark)
    ensures SameOn(s, s', r) ==> SameOn(Pop(cols, s), Pop(cols, s'), r)
  {
    var u := s.undo[|s.undo| - 1];
    if r in Touched(u) {
      assert r in Footprint(s.undo, mark);
    }
    if r !in Footprint(s.undo, mark) {
      assert forall i :: mark <= i < |s.undo| ==> r !in Touched(s.undo[i]);
    }
  }

  /** Unwinding now would leave exactly what the other transactions did. */
  ghost predicate Reversible(cols: set<nat>, s: Store, others: Store, mark: nat, redoMark: nat) {
    && mark <= |s.undo| && redoMark <= |s.redo| && IndexOk(s)
    && Unwind(cols, s, mark, redoMark) == others
  }

  lemma OwnStep(cols: set<nat>, t: Xid, s: Store, others: Store, mark: nat, redoMark: nat, op: Op)
    requires Reversible(cols, s, others, mark, redoMark) && CanDo(s, op)
    ensures Reversible(cols, Do(cols, t, s, op), others, mark, redoMark)
  {
    var s' := Do(cols, t, s, op);
    PopUndoesDo(cols, t, s, op);
    assert Pop(cols, s') == s.(redo := s'.redo);
    UnwindIgnoresRedo(cols, s, s'.redo, mark, redoMark);
  }

  lemma {:induction false} UnwindLogs(cols: set<nat>, s: Store, mark: nat, redoMark: nat)
    requires mark <= |s.undo| && redoMark <= |s.redo|
    ensures Unwind(cols, s, mark, redoMark).undo == s.undo[..mark]
    ensures Unwind(cols, s, mark, redoMark).redo == s.redo[..redoMark]
    decreases |s.undo|
  {
    if |s.undo| > mark {
      UnwindLogs(cols, Pop(cols, s), mark, redoMark);
    }
  }

  lemma OtherStep(cols: set<nat>, s: Store, others: Store, mark: nat, redoMark: nat, after: Store)
    requires Reversible(cols, s, others, mark, redoMark)
    requires Foreign(s, after, Footprint(s.undo, mark))
    ensures Reversible(cols, after, Adopt(others, after, Footprint(s.undo, mark)), mark, redoMark)
  {
    var own := Footprint(s.undo, mark);
    var u, goal := Unwind(cols, after, mark, redoMark), Adopt(others, after, own);
    UnwindLogs(cols, s, mark, redoMark);
    UnwindLogs(cols, after, mark, redoMark);
    forall r: Rid
      ensures SameOn(u, goal, r)
    {
      UnwindFrame(cols, s, after, mark, redoMark, r);
      UnwindFrame(cols, after, s, mark, redoMark, r);
    }
    forall r: Rid
      ensures r in u.heap <==> r in goal.heap
      ensures r in u.heap ==> u.heap[r] == goal.heap[r]
    {
      assert SameOn(u, goal, r);
    }
    assert u.heap == goal.heap;
    forall e: Posting
      ensures e in u.index <==> e in goal.index
    {
      assert SameOn(u, goal, e.2);
    }
  }

  lemma {:induction false} RunReversible(cols: set<nat>, t: Xid, s: Store, others: Store, mark: nat, redoMark: nat,
                                         steps: seq<Step>, s': Store)
    requires Reversible(cols, s, others, mark, redoMark)
    requires Steps(cols, t, s, mark, steps, s')
    ensures Reversible(cols, s', OthersOnly(cols, t, s, mark, steps, others), mark, redoMark)
    decreases |steps|
  {
    if steps != [] {
      match steps[0]
      case Own(op) =>
        OwnStep(cols, t, s, others, mark, redoMark, op);
        RunReversible(cols, t, Do(cols, t, s, op), others, mark, redoMark, steps[1..], s');
      case Other(after) =>
        OtherStep(cols, s, others, mark, redoMark, after);
        RunReversible(cols, t, after, Adopt(others, after, Footprint(s.undo, mark)), mark, redoMark, steps[1..], s');
    }
  }

  /**
   Unwinding to the mark gives the store that the same run would have produced
   without this transaction's writes: its own rows, index entries, undo and redo
   logs are back to the mark, and every other transaction's work stands.
   */
  lemma UndoLeavesOthersWork(cols: set<nat>, t: Xid, base: Store, steps: seq<Step>, now: Store)
    requires IndexOk(base) && Steps(cols, t, base, |base.undo|, steps, now)
    ensures |base.undo| <= |now.undo| && |base.redo| <= |now.redo|
    ensures Unwind(cols, now, |base.undo|, |base.redo|) == OthersOnly(cols, t, base, |base.undo|, steps, base)
  {
    assert base.redo[..|base.redo|] == base.redo;
    RunReversible(cols, t, base, base, |base.undo|, |base.redo|, steps, now);
  }

  lemma {:induction false} AloneOthersOnly(cols: set<nat>, t: Xid, s: Store, mark: nat, ops: seq<Step>, others: Store)
    requires mark <= |s.undo| && forall i :: 0 <= i < |ops| ==> ops[i].Own?
    ensures OthersOnly(cols, t, s, mark, ops, others) == others
    decreases |ops|
  {
    if ops != [] && CanDo(s, ops[0].op) {
      AloneOthersOnly(cols, t, Do(cols, t, s, ops[0].op), mark, ops[1..], others);
    }
  }

  /** Alone, a transaction that unwinds to a mark restores the very store it had there. */
  lemma UndoRestoresExactly(cols: set<nat>, t: Xid, base: Store, ops: seq<Step>, now: Store)
    requires IndexOk(base) && Steps(cols, t, base, |base.undo|, ops, now)
    requires forall i :: 0 <= i < |ops| ==> ops[i].Own?
    ensures |base.undo| <= |now.undo| && |base.redo| <= |now.redo|
    ensures Unwind(cols, now, |base.undo|, |base.redo|) == base
  {
    UndoLeavesOthersWork(cols, t, base, ops, now);
    AloneOthersOnly(cols, t, base, |base.undo|, ops, base);
  }
}
