/** What transactional writes do to the rows readers see, to the indexes, and to the heap a log rebuilds. */
module WriteEffects {
  import opened Options
  import opened Heap
  import opened TxnManager
  import opened UndoLog

  /** The rows a statement of transaction `id` sees. */
  function Seen(tm: Tm, id: Xid, snap: Snapshot, h: Versions): map<Rid, Row> {
    map r | r in h && tm.Visible(id, snap, h[r]) :: h[r].row
  }

  /** What the operation does to a table of rows. */
  function Applied(rows: map<Rid, Row>, op: Op): map<Rid, Row> {
    match op
    case Insert(r, row) => rows[r := row]
    case Delete(r) => rows - {r}
    case Update(r, n, row) => (rows - {r})[n := row]
  }

  /** The row an operation replaces, if any, satisfies `ok`. */
  predicate OldRow(s: Store, op: Op, seen: map<Rid, Row>) {
    !op.Insert? ==> op.rid in seen
  }

  /** A transaction sees its own write at once. */
  lemma WriterSees(cols: set<nat>, t: Xid, s: Store, op: Op, tm: Tm, snap: Snapshot)
    requires CanDo(s, op) && t != 0 && OldRow(s, op, Seen(tm, t, snap, s.heap))
    ensures Seen(tm, t, snap, Do(cols, t, s, op).heap) == Applied(Seen(tm, t, snap, s.heap), op)
  {
  }

  /** Nobody else sees it as long as the writer has not committed before the reader's snapshot. */
  lemma OthersDoNot(cols: set<nat>, t: Xid, s: Store, op: Op, tm: Tm, id: Xid, snap: Snapshot)
    requires CanDo(s, op) && t != 0 && id != t && !tm.CommittedBefore(snap, t)
    requires !op.Insert? ==> s.heap[op.rid].deleter == 0
    ensures Seen(tm, id, snap, Do(cols, t, s, op).heap) == Seen(tm, id, snap, s.heap)
  {
  }

  /** Readers whose snapshot comes after the commit see it as the writer did. */
  lemma LaterReadersSee(cols: set<nat>, t: Xid, s: Store, op: Op, tm: Tm, id: Xid, snap: Snapshot)
    requires CanDo(s, op) && t != 0 && tm.CommittedBefore(snap, t) && OldRow(s, op, Seen(tm, id, snap, s.heap))
    ensures Seen(tm, id, snap, Do(cols, t, s, op).heap) == Applied(Seen(tm, id, snap, s.heap), op)
  {
  }

  // ------------------------------------------------------------------ indexes

  /** The index holds an entry for every indexed column of every stored version, and no other. */
  ghost predicate IndexExact(cols: set<nat>, s: Store) {
    forall c, v, r :: (c, v, r) in s.index <==> c in cols && r in s.heap && v == Cell(s.heap[r].row, c)
  }

  lemma WritesKeepIndex(cols: set<nat>, t: Xid, s: Store, op: Op)
    requires CanDo(s, op) && IndexExact(cols, s)
    ensures IndexExact(cols, Do(cols, t, s, op))
  {
    var s' := Do(cols, t, s, op);
    forall c, v, r
      ensures (c, v, r) in s'.index <==> c in cols && r in s'.heap && v == Cell(s'.heap[r].row, c)
    {
      assert (c, v, r) in s.index <==> c in cols && r in s.heap && v == Cell(s.heap[r].row, c);
    }
  }

  lemma UndoKeepsIndex(cols: set<nat>, s: Store)
    requires s.undo != [] && IndexExact(cols, s) && Undoable(s.heap, s.undo[|s.undo| - 1])
    ensures IndexExact(cols, Pop(cols, s))
  {
    var s', u := Pop(cols, s), s.undo[|s.undo| - 1];
    forall c, v, r
      ensures (c, v, r) in s'.index <==> c in cols && r in s'.heap && v == Cell(s'.heap[r].row, c)
    {
      assert (c, v, r) in s.index <==> c in cols && r in s.heap && v == Cell(s.heap[r].row, c);
    }
  }

  /** The row an undo entry would remove is still the one it describes. */
  predicate Undoable(h: Versions, u: Undo) {
    match u
    case UndoInsert(r, row) => r in h && h[r].row == row
    case UndoMark(_, _, _) => true
    case UndoUpdate(_, n, row, _, _) => n in h && h[n].row == row
  }

  // ------------------------------------------------------------------ the log

  function Redone(h: Versions, f: Frame): Versions {
    match f
    case FrameInsert(r, v) => h[r := v]
    case FrameMark(r, d, n) => if r in h then SetMark(h, r, d, n) else h
  }

  function Replay(h: Versions, frames: seq<Frame>): Versions
    decreases |frames|
  {
    if frames == [] then h else Redone(Replay(h, frames[..|frames| - 1]), frames[|frames| - 1])
  }

  lemma ReplayOne(h: Versions, frames: seq<Frame>, f: Frame)
    ensures Replay(h, frames + [f]) == Redone(Replay(h, frames), f)
  {
    assert (frames + [f])[..|frames|] == frames;
  }

  /** The frames a write adds turn the heap before it into the heap after it. */
  lemma FramesRedo(cols: set<nat>, t: Xid, s: Store, op: Op, h: Versions, frames: seq<Frame>)
    requires CanDo(s, op) && Replay(h, frames) == s.heap
    ensures var s' := Do(cols, t, s, op);
            |s.redo| <= |s'.redo| && s'.redo[..|s.redo|] == s.redo && Replay(h, frames + s'.redo[|s.redo|..]) == s'.heap
  {
    var s' := Do(cols, t, s, op);
    var added := s'.redo[|s.redo|..];
    assert s'.redo[..|s.redo|] == s.redo;
    ReplayOne(h, frames, added[0]);
    if op.Update? {
      ReplayOne(h, frames + [added[0]], added[1]);
      assert frames + added == frames + [added[0]] + [added[1]];
    } else {
      assert added == [added[0]];
    }
  }

  ghost predicate AllCan(cols: set<nat>, t: Xid, s: Store, ops: seq<Op>)
    decreases |ops|
  {
    ops == [] || (CanDo(s, ops[0]) && AllCan(cols, t, Do(cols, t, s, ops[0]), ops[1..]))
  }

  ghost function DoAll(cols: set<nat>, t: Xid, s: Store, ops: seq<Op>): Store
    requires AllCan(cols, t, s, ops)
    decreases |ops|
  {
    if ops == [] then s else DoAll(cols, t, Do(cols, t, s, ops[0]), ops[1..])
  }

  /** Replaying what a transaction logged over the heap it started from gives the heap it left. */
  lemma {:induction false} RedoRebuildsHeap(cols: set<nat>, t: Xid, base: Store, ops: seq<Op>)
    requires AllCan(cols, t, base, ops)
    ensures var now := DoAll(cols, t, base, ops);
            |base.redo| <= |now.redo| && Replay(base.heap, now.redo[|base.redo|..]) == now.heap
  {
    LogFollows(cols, t, base, ops, base.heap, []);
    assert [] + DoAll(cols, t, base, ops).redo[|base.redo|..] == DoAll(cols, t, base, ops).redo[|base.redo|..];
  }

  lemma TailsJoin(a: seq<Frame>, b: seq<Frame>, c: seq<Frame>, frames: seq<Frame>)
    requires |a| <= |b| <= |c| && b[..|a|] == a && c[..|b|] == b
    ensures c[..|a|] == a && frames + c[|a|..] == frames + b[|a|..] + c[|b|..]
  {
    assert c == b + c[|b|..] && b == a + b[|a|..];
  }

  lemma {:induction false} LogFollows(cols: set<nat>, t: Xid, s: Store, ops: seq<Op>, h: Versions, frames: seq<Frame>)
    requires AllCan(cols, t, s, ops) && Replay(h, frames) == s.heap
    ensures var now := DoAll(cols, t, s, ops);
            && |s.redo| <= |now.redo| && now.redo[..|s.redo|] == s.redo
            && Replay(h, frames + now.redo[|s.redo|..]) == now.heap
    decreases |ops|
  {
    hide Do, Replay;
    if ops == [] {
      assert frames + s.redo[|s.redo|..] == frames;
    } else {
      var s' := Do(cols, t, s, ops[0]);
      var now := DoAll(cols, t, s, ops);
      FramesRedo(cols, t, s, ops[0], h, frames);
      LogFollows(cols, t, s', ops[1..], h, frames + s'.redo[|s.redo|..]);
      TailsJoin(s.redo, s'.redo, now.redo, frames);
    }
  }
}
