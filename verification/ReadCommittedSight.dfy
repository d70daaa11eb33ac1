/**
 What a running statement sees, told from the history of the run: which transactions had finished committing
 when its snapshot was taken.
 */
module ReadCommittedSight {
  import opened Options
  import opened Heap
  import opened Clog
  import opened TxnManager
  import opened ReadCommitted
  import opened ReadCommittedInv
  import opened ReadCommittedSteps
  import opened ReadCommittedWrites
  import opened ReadCommittedRun
  import opened ReadCommittedTheorems

  // ------------------------------------------------------------------ history

  /**
   `finished`: whose commit is complete, marked and out of the open set. `bound`: for each transaction the id
   its last snapshot read first. `frozen`: what was finished when that snapshot read the open set.
   */
  datatype History = History(finished: set<Xid>, bound: map<Xid, Xid>, frozen: map<Xid, set<Xid>>)

  function Note(h: History, w: World, a: Action): History {
    match a
    case LeaveCommitted(t) => h.(finished := h.finished + {t})
    case ReadNext(t) => h.(bound := h.bound[t := w.tm.next])
    case ReadOpen(t) => h.(frozen := h.frozen[t := h.finished])
    case _ => h
  }

  /** Everything a committed heap names has finished before the run starts. */
  ghost function Before(start: World): History {
    History(set x | 0 < x < start.tm.next && Committed(start, x), map[], map[])
  }

  ghost function Recall(h: History, w: World, acts: seq<Action>): History
    decreases |acts|
  {
    if acts == [] || !Enabled(w, acts[0]) then h else Recall(Note(h, w, acts[0]), Next(w, acts[0]), acts[1..])
  }

  /** What counts as finished is what was committed at the start, and every commit completed since. */
  lemma {:induction false} FinishedMeans(h: History, w: World, acts: seq<Action>, w': World, x: Xid)
    requires Steps(w, acts, w')
    ensures x in Recall(h, w, acts).finished <==> x in h.finished || LeaveCommitted(x) in acts
    decreases |acts|
  {
    hide Enabled, Next;
    if acts != [] {
      FinishedMeans(Note(h, w, acts[0]), Next(w, acts[0]), acts[1..], w', x);
      assert acts == [acts[0]] + acts[1..];
    }
  }

  lemma {:induction false} RecallJoin(h: History, w: World, xs: seq<Action>, w1: World, ys: seq<Action>, w': World)
    requires Steps(w, xs, w1) && Steps(w1, ys, w')
    ensures Recall(h, w, xs + ys) == Recall(Recall(h, w, xs), w1, ys)
    decreases |xs|
  {
    hide Enabled, Next, Note;
    if xs == [] {
      assert xs + ys == ys;
    } else {
      RecallJoin(Note(h, w, xs[0]), Next(w, xs[0]), xs[1..], w1, ys, w');
      assert (xs + ys)[1..] == xs[1..] + ys;
    }
  }

  lemma {:induction false} SnapshotKept(h: History, w: World, acts: seq<Action>, w': World, t: Xid)
    requires Steps(w, acts, w') && ReadNext(t) !in acts && ReadOpen(t) !in acts
    ensures (t in h.frozen ==> t in Recall(h, w, acts).frozen && Recall(h, w, acts).frozen[t] == h.frozen[t])
    ensures (t in h.bound ==> t in Recall(h, w, acts).bound && Recall(h, w, acts).bound[t] == h.bound[t])
    decreases |acts|
  {
    hide Enabled, Next;
    if acts != [] {
      assert acts[0] in acts;
      SnapshotKept(Note(h, w, acts[0]), Next(w, acts[0]), acts[1..], w', t);
    }
  }

  /**
   The moments of a snapshot: after `xs` the next id is read, `ys` later the open set. What counts then is what
   had finished by the second reading, of the ids handed out before the first.
   */
  lemma SnapshotMoments(start: World, xs: seq<Action>, w1: World, ys: seq<Action>, w2: World, zs: seq<Action>, w: World,
                        t: Xid)
    requires Steps(start, xs, w1) && Enabled(w1, ReadNext(t)) && Steps(Next(w1, ReadNext(t)), ys, w2)
    requires Enabled(w2, ReadOpen(t)) && Steps(Next(w2, ReadOpen(t)), zs, w)
    requires ReadNext(t) !in ys && ReadOpen(t) !in ys && ReadNext(t) !in zs && ReadOpen(t) !in zs
    ensures var all := xs + ([ReadNext(t)] + (ys + ([ReadOpen(t)] + zs)));
            var h := Recall(Before(start), start, all);
            && Steps(start, all, w) && t in h.bound && h.bound[t] == w1.tm.next && t in h.frozen
            && forall x: Xid :: x in h.frozen[t] <==>
                 (0 < x < start.tm.next && Committed(start, x)) || LeaveCommitted(x) in xs + [ReadNext(t)] + ys
  {
    hide Enabled, Next;
    var h0 := Before(start);
    var h1 := Recall(h0, start, xs);
    var w1', w2' := Next(w1, ReadNext(t)), Next(w2, ReadOpen(t));
    var h1' := Note(h1, w1, ReadNext(t));
    var h2 := Recall(h1', w1', ys);
    var h2' := Note(h2, w2, ReadOpen(t));
    var back := [ReadOpen(t)] + zs;
    var mid := ys + back;
    Prefixed(w2, ReadOpen(t), zs, w);
    Glued(w1', ys, w2, back, w);
    Prefixed(w1, ReadNext(t), mid, w);
    Glued(start, xs, w1, [ReadNext(t)] + mid, w);
    RecallJoin(h0, start, xs, w1, [ReadNext(t)] + mid, w);
    RecallFirst(h1, w1, ReadNext(t), mid);
    RecallJoin(h1', w1', ys, w2, back, w);
    RecallFirst(h2, w2, ReadOpen(t), zs);
    SnapshotKept(h1', w1', ys, w2, t);
    SnapshotKept(h2', w2', zs, w, t);
    forall x
      ensures x in h2.finished <==> x in h0.finished || LeaveCommitted(x) in xs + [ReadNext(t)] + ys
    {
      FinishedMeans(h0, start, xs, w1, x);
      FinishedMeans(h1', w1', ys, w2, x);
    }
  }

  lemma Prefixed(w: World, a: Action, acts: seq<Action>, w': World)
    requires Enabled(w, a) && Steps(Next(w, a), acts, w')
    ensures Steps(w, [a] + acts, w')
  {
    hide Enabled, Next;
    assert ([a] + acts)[1..] == acts;
  }

  lemma RecallFirst(h: History, w: World, a: Action, acts: seq<Action>)
    requires Enabled(w, a)
    ensures Recall(h, w, [a] + acts) == Recall(Note(h, w, a), Next(w, a), acts)
  {
    hide Enabled, Next, Note;
    assert ([a] + acts)[1..] == acts;
  }

  lemma {:induction false} Glued(w: World, xs: seq<Action>, w1: World, ys: seq<Action>, w': World)
    requires Steps(w, xs, w1) && Steps(w1, ys, w')
    ensures Steps(w, xs + ys, w')
    decreases |xs|
  {
    hide Enabled, Next;
    if xs == [] {
      assert xs + ys == ys;
    } else {
      Glued(Next(w, xs[0]), xs[1..], w1, ys, w');
      assert (xs + ys)[1..] == xs[1..] + ys;
    }
  }

  // ------------------------------------------------------------------ invariant

  /** Running or committing: its writes are in the heap, its commit is not complete. */
  predicate Pending(w: World, x: Xid) {
    x in w.txns && (Undecided(w.txns[x].pc) || w.txns[x].pc.Committing?)
  }

  /** Transactions that ended without committing are not named by any row. */
  predicate Nameable(w: World, h: History, x: Xid) {
    x in h.finished || Pending(w, x)
  }

  ghost predicate NamesOk(w: World, h: History) {
    forall r :: r in w.heap ==>
      Nameable(w, h, w.heap[r].creator) && (w.heap[r].deleter != 0 ==> Nameable(w, h, w.heap[r].deleter))
  }

  ghost predicate FinishedOk(w: World, h: History) {
    && (forall x :: x in h.finished ==> 0 < x < w.tm.next && Committed(w, x) && x !in w.tm.open && !Pending(w, x))
    && (forall x :: x in w.txns && w.txns[x].pc.Committing? ==> x in w.tm.open)
  }

  /** The statement's snapshot is in use. */
  predicate Reading(pc: Pc) {
    Planning(pc) || Storing(pc)
  }

  /** The snapshot tells finished transactions by `bound` and `frozen`. */
  ghost predicate SnapSight(h: History, t: Xid, snap: Snapshot) {
    && t in h.bound && t in h.frozen && snap.xmax == h.bound[t] && h.frozen[t] <= h.finished
    && (forall x :: x in h.frozen[t] ==> x !in snap.xip)
    && (forall x :: x in h.finished && x < snap.xmax && x !in snap.xip ==> x in h.frozen[t])
  }

  ghost predicate TxnSight(w: World, h: History, t: Xid)
    requires t in w.txns
  {
    && (w.txns[t].pc.HalfSnapshot? ==> t in h.bound && h.bound[t] == w.txns[t].pc.xmax)
    && (Reading(w.txns[t].pc) ==> SnapSight(h, t, w.txns[t].snap))
  }

  ghost predicate Sight(w: World, h: History) {
    NamesOk(w, h) && FinishedOk(w, h) && forall t :: t in w.txns ==> TxnSight(w, h, t)
  }

  lemma StartSight(start: World)
    requires Init(start)
    ensures Sight(start, Before(start))
  {
    forall r | r in start.heap
      ensures Nameable(start, Before(start), start.heap[r].creator)
      ensures start.heap[r].deleter != 0 ==> Nameable(start, Before(start), start.heap[r].deleter)
    {
      CommittedBelow(start, start.heap[r].creator);
      if start.heap[r].deleter != 0 {
        CommittedBelow(start, start.heap[r].deleter);
      }
    }
  }

  lemma CommittedBelow(w: World, x: Xid)
    requires w.tm.status.base <= w.tm.next && (forall y :: y in w.tm.status.marked ==> y < w.tm.next) && Committed(w, x)
    ensures 0 < x < w.tm.next
  {
  }

  // ------------------------------------------------------------------ a step

  function Actor(w: World, a: Action): Xid
    requires !a.Vacuum?
  {
    if a.Begin? then w.tm.next else a.t
  }

  /** Every step but vacuum leaves the other sessions alone. */
  lemma StepQuiet(w: World, a: Action)
    requires Inv(w) && Enabled(w, a) && !a.Vacuum?
    ensures Quiet(w, Next(w, a), Actor(w, a))
  {
    hide Inv, Enabled, Next, Quiet, TmQuiet, LockShape, LocksQuiet, SameHeap, WriteShape, RowQuiet, Shape;
    var w', t := Next(w, a), Actor(w, a);
    if Move(a) {
      MoveShape(w, a);
      MoveUnmoved(w, a);
      UnmovedMeaning(w, w', t);
      MoveSameHeap(w, a);
      QuietMove(w, w', t);
    } else if Writing(a) {
      WriteHasShape(w, a);
      WriteRows(w, a);
      WriteQuiet(w, w', t);
    } else if Releasing(a) {
      ReleaseShape(w, a);
      SameTm(w, w', t);
      QuietMove(w, w', t);
    } else if Leaving(a) {
      LeaveShape(w, a);
      LeftMeans(w, w', t);
      QuietMove(w, w', t);
    } else if a.Begin? {
      BeginShape(w);
      QuietMove(w, w', t);
    } else {
      CommitShape(w, t);
      QuietMove(w, w', t);
    }
  }

  lemma LeftMeans(w: World, w': World, t: Xid)
    requires Left(w, w', t)
    ensures SameHeap(w, w', t) && LockShape(w, w', t) && TmQuiet(w, w', t)
  {
  }

  lemma SameTm(w: World, w': World, t: Xid)
    requires w'.tm == w.tm
    ensures TmQuiet(w, w', t)
  {
  }

  lemma MoveSameHeap(w: World, a: Action)
    requires Enabled(w, a) && Move(a)
    ensures SameHeap(w, Next(w, a), a.t)
  {
    hide Enabled, Next;
    MoveUnmoved(w, a);
  }

  lemma WriteRows(w: World, a: Action)
    requires Inv(w) && Enabled(w, a) && Writing(a)
    ensures forall r :: RowQuiet(w, Next(w, a), a.t, r)
  {
    hide Inv, Enabled, Next, WriteShape, RowQuiet, MarkShape, PopShape;
    var w', t := Next(w, a), a.t;
    WriteHasShape(w, a);
    if a.Insert? || a.StoreNew? {
      StoreKeyHeld(w, a);
      StoreRows(w, w', t, a.r, StoredRow(w, a));
    } else if Marking(a) {
      MarkHasShape(w, a);
      MarkRows(w, w', t, MarkedRid(w, a), MarkEntry(w, a));
    } else {
      TakeBackHasShape(w, t);
      PopQuiet(w, w', t, LastOwed(w, t));
    }
  }

  /** How a step moves the session that makes it. */
  ghost predicate Moves(w: World, w': World, a: Action, t: Xid) {
    && t in w.txns && t in w'.txns
    && var pc, pc' := w.txns[t].pc, w'.txns[t].pc;
       && (if a.MarkCommit? then pc.Idle? && pc'.Committing?
           else if a.LeaveCommitted? then pc.Committing? && pc'.Closing?
           else if a.Close? then pc.Closing? && pc'.Ended?
           else if a.AbortEnd? then pc.Aborting? && pc'.Ended?
           else if a.LeaveAborted? then pc' == pc && (pc.Aborting? || pc.Ended?)
           else Undecided(pc) && Undecided(pc'))
       && (a.ReadNext? ==> pc' == HalfSnapshot(w.tm.next))
       && (pc'.HalfSnapshot? ==> a.ReadNext? || pc' == pc) && (pc'.CheckKey? ==> IsKey(a))
       && (a.ReadOpen? ==> pc.HalfSnapshot? && w'.txns[t].snap == Snapshot(pc.xmax, w.tm.open))
       && (Reading(pc') ==> a.ReadOpen? || (Reading(pc) && w'.txns[t].snap == w.txns[t].snap))
  }

  lemma MovesByStatement(w: World, a: Action)
    requires Enabled(w, a) && (IsRead(a) || IsChoose(a))
    ensures Moves(w, Next(w, a), a, a.t)
  {
    hide PlannedRids, Claimed;
  }

  lemma MovesByLock(w: World, a: Action)
    requires Enabled(w, a) && (a.LockKey? || a.KeyDone?)
    ensures Moves(w, Next(w, a), a, a.t)
  {
    hide AfterRead, AfterChoose, AfterStore, AfterRow, AfterUndo, AfterEnd;
  }

  lemma MovesByKey(w: World, a: Action)
    requires Enabled(w, a) && (a.Search? || a.PassRid?)
    ensures Moves(w, Next(w, a), a, a.t)
  {
    hide Passes, WithKey, AfterRead, AfterChoose, AfterStore, AfterRow, AfterUndo, AfterEnd;
  }

  lemma MovesByStore(w: World, a: Action)
    requires Enabled(w, a) && IsStore(a)
    ensures Moves(w, Next(w, a), a, a.t)
  {
    hide EntriesOf, Unlinked, AfterRead, AfterChoose, AfterKey, AfterRow, AfterUndo, AfterEnd;
  }

  lemma MovesByRow(w: World, a: Action)
    requires Enabled(w, a) && IsRow(a) && !Marking(a)
    ensures Moves(w, Next(w, a), a, a.t)
  {
    hide Conflicting, AfterRead, AfterChoose, AfterKey, AfterStore, AfterUndo, AfterEnd;
  }

  lemma MovesByMark(w: World, a: Action)
    requires Enabled(w, a) && Marking(a)
    ensures Moves(w, Next(w, a), a, a.t)
  {
    hide SetMark, AfterRead, AfterChoose, AfterKey, AfterStore, AfterUndo, AfterEnd;
  }

  lemma MovesByFail(w: World, a: Action)
    requires Enabled(w, a) && (a.Fail? || a.Unwound?)
    ensures Moves(w, Next(w, a), a, a.t)
  {
    hide Unlocked, AfterRead, AfterChoose, AfterKey, AfterStore, AfterRow, AfterEnd;
  }

  lemma MovesByUndo(w: World, a: Action)
    requires Enabled(w, a) && a.TakeBack?
    ensures Moves(w, Next(w, a), a, a.t)
  {
    hide StepBack, DroppedEntry, Remaining, AfterRead, AfterChoose, AfterKey, AfterStore, AfterRow, AfterEnd;
  }

  lemma MovesByEnd(w: World, a: Action)
    requires Enabled(w, a) && (a.EndStatement? || a.StartAbort? || a.LeaveAborted?)
    ensures Moves(w, Next(w, a), a, a.t)
  {
    hide AfterRead, AfterChoose, AfterKey, AfterStore, AfterRow, AfterUndo;
  }

  lemma MovesByCommit(w: World, a: Action)
    requires Enabled(w, a) && (a.MarkCommit? || a.LeaveCommitted?)
    ensures Moves(w, Next(w, a), a, a.t)
  {
    hide Claims, AfterRead, AfterChoose, AfterKey, AfterStore, AfterRow, AfterUndo;
  }

  lemma MovesByRelease(w: World, a: Action)
    requires Enabled(w, a) && (a.AbortEnd? || a.Close?)
    ensures Moves(w, Next(w, a), a, a.t)
  {
    hide Unlocked, AfterRead, AfterChoose, AfterKey, AfterStore, AfterRow, AfterUndo;
  }

  lemma StepMoves(w: World, a: Action)
    requires Enabled(w, a) && !a.Begin? && !a.Vacuum?
    ensures Moves(w, Next(w, a), a, a.t)
  {
    hide Enabled, Next, Moves;
    if IsRead(a) || IsChoose(a) {
      MovesByStatement(w, a);
    } else if a.LockKey? || a.KeyDone? {
      MovesByLock(w, a);
    } else if IsKey(a) {
      MovesByKey(w, a);
    } else if IsStore(a) {
      MovesByStore(w, a);
    } else if Marking(a) {
      MovesByMark(w, a);
    } else if IsRow(a) {
      MovesByRow(w, a);
    } else if a.Fail? || a.Unwound? {
      MovesByFail(w, a);
    } else if IsUndo(a) {
      MovesByUndo(w, a);
    } else if a.MarkCommit? || a.LeaveCommitted? {
      MovesByCommit(w, a);
    } else if a.AbortEnd? || a.Close? {
      MovesByRelease(w, a);
    } else {
      MovesByEnd(w, a);
    }
  }

  /** Only commits leave the open set with a commit behind them. */
  lemma OpenSet(w: World, a: Action)
    requires Inv(w) && Enabled(w, a) && !a.Begin? && !a.Vacuum?
    ensures a.LeaveCommitted? ==> a.t !in Next(w, a).tm.open && Next(w, a).tm.next == w.tm.next
    ensures !Leaving(a) ==> Next(w, a).tm.open == w.tm.open
  {
    hide Inv, Enabled, Next;
    if Move(a) {
      MoveShape(w, a);
    } else if Writing(a) {
      WriteHasShape(w, a);
    } else if Releasing(a) {
      ReleaseShape(w, a);
    } else if a.LeaveCommitted? {
      LeavesOpen(w, a);
    } else if a.MarkCommit? {
      MarkOpen(w, a);
    }
  }

  lemma LeavesOpen(w: World, a: Action)
    requires Enabled(w, a) && a.LeaveCommitted?
    ensures Next(w, a).tm.open == w.tm.open - {a.t} && Next(w, a).tm.next == w.tm.next
  {
  }

  lemma MarkOpen(w: World, a: Action)
    requires Enabled(w, a) && a.MarkCommit?
    ensures Next(w, a).tm.open == w.tm.open && Next(w, a).tm.next == w.tm.next
  {
    hide Claims;
  }

  // ------------------------------------------------------------------ the invariant is kept

  lemma PendingKept(w: World, w': World, a: Action, t: Xid, x: Xid)
    requires Quiet(w, w', t) && (x == t ==> Moves(w, w', a, t))
    ensures x != t ==> (Pending(w', x) <==> Pending(w, x))
    ensures x == t ==> (Pending(w', x) ==> Pending(w, x))
    ensures x == t && Pending(w, x) && !a.LeaveCommitted? && !a.AbortEnd? ==> Pending(w', x)
  {
    hide TmQuiet, LocksQuiet, RowQuiet;
  }

  lemma StepFinished(w: World, h: History, a: Action)
    requires Inv(w) && Sight(w, h) && Enabled(w, a) && !a.Begin? && !a.Vacuum?
    ensures FinishedOk(Next(w, a), Note(h, w, a))
  {
    hide Inv, Enabled, Next, NamesOk, LocksQuiet, RowQuiet, TxnSight;
    var w', h', t := Next(w, a), Note(h, w, a), a.t;
    StepQuiet(w, a);
    StepMoves(w, a);
    OpenSet(w, a);
    PhaseAt(w, t);
    forall x | x in h'.finished
      ensures 0 < x < w'.tm.next && Committed(w', x) && x !in w'.tm.open && !Pending(w', x)
    {
      PendingKept(w, w', a, t, x);
      assert Committed(w, x);
    }
  }

  lemma StepNames(w: World, h: History, a: Action)
    requires Inv(w) && Sight(w, h) && Enabled(w, a) && !a.Begin? && !a.Vacuum?
    ensures NamesOk(Next(w, a), Note(h, w, a))
  {
    hide Inv, Enabled, Next, FinishedOk, LocksQuiet, TmQuiet, TxnSight, OwnsNothing;
    var w', h', t := Next(w, a), Note(h, w, a), a.t;
    StepQuiet(w, a);
    StepMoves(w, a);
    forall r, x | r in w'.heap && x != 0 && (x == w'.heap[r].creator || x == w'.heap[r].deleter)
      ensures Nameable(w', h', x)
    {
      assert RowQuiet(w, w', t, r);
      PendingKept(w, w', a, t, x);
      if a.AbortEnd? {
        AbortedIsGone(w, a);
      } else if w'.heap != w.heap {
        HeapWriterGoesOn(w, a);
      }
    }
    StepInv(w, a);
    forall r | r in w'.heap
      ensures w'.heap[r].creator != 0
    {
      VersionAt(w', r);
    }
  }

  lemma AbortedIsGone(w: World, a: Action)
    requires Inv(w) && Enabled(w, a) && a.AbortEnd?
    ensures Next(w, a).heap == w.heap
    ensures forall r :: r in w.heap ==> w.heap[r].creator != a.t && w.heap[r].deleter != a.t
  {
    hide Inv, Enabled, Next;
    ReleaseShape(w, a);
    MovesByAbort(w, a);
  }

  lemma MovesByAbort(w: World, a: Action)
    requires Enabled(w, a) && a.AbortEnd?
    ensures Owns(w, a.t)
  {
  }

  lemma HeapWriterGoesOn(w: World, a: Action)
    requires Inv(w) && Enabled(w, a) && !a.Begin? && !a.Vacuum? && Next(w, a).heap != w.heap
    ensures Owns(w, a.t) && Owns(Next(w, a), a.t)
  {
    hide Inv, Enabled, Next;
    if Writing(a) {
      WriteHasShape(w, a);
    } else {
      OnlyWritesChangeTheHeap(w, a);
    }
  }

  lemma StepSnapshots(w: World, h: History, a: Action, x: Xid)
    requires Inv(w) && Sight(w, h) && Enabled(w, a) && !a.Begin? && !a.Vacuum? && x in Next(w, a).txns
    ensures TxnSight(Next(w, a), Note(h, w, a), x)
  {
    hide Inv, Enabled, Next, NamesOk, LocksQuiet, RowQuiet, TmQuiet, SnapSight;
    var w', h', t := Next(w, a), Note(h, w, a), a.t;
    StepQuiet(w, a);
    StepMoves(w, a);
    if x != t {
      assert x in w.txns && w'.txns[x] == w.txns[x] && TxnSight(w, h, x);
      if Reading(w.txns[x].pc) {
        SightGrows(w, h, a, x);
      }
    } else {
      assert TxnSight(w, h, t);
      if a.ReadOpen? {
        SightStarts(w, h, a);
      } else if Reading(w'.txns[t].pc) {
        assert h'.finished == h.finished;
        SameSight(h, h', t, w.txns[t].snap);
      }
    }
  }

  lemma SameSight(h: History, h': History, t: Xid, snap: Snapshot)
    requires SnapSight(h, t, snap) && h'.finished == h.finished
    requires t in h.bound ==> t in h'.bound && h'.bound[t] == h.bound[t]
    requires t in h.frozen ==> t in h'.frozen && h'.frozen[t] == h.frozen[t]
    ensures SnapSight(h', t, snap)
  {
  }

  /** A snapshot just taken counts what has finished by now. */
  lemma SightStarts(w: World, h: History, a: Action)
    requires Sight(w, h) && a.ReadOpen? && a.t in w.txns && w.txns[a.t].pc.HalfSnapshot?
    ensures SnapSight(Note(h, w, a), a.t, Snapshot(w.txns[a.t].pc.xmax, w.tm.open))
  {
    hide NamesOk;
    assert TxnSight(w, h, a.t);
  }

  /** A commit that completes later was in flight when the snapshot was taken. */
  lemma SightGrows(w: World, h: History, a: Action, x: Xid)
    requires Inv(w) && Sight(w, h) && Enabled(w, a) && !a.Begin? && !a.Vacuum? && x in w.txns && x != a.t
    requires Reading(w.txns[x].pc)
    ensures SnapSight(Note(h, w, a), x, w.txns[x].snap)
  {
    hide Inv, Enabled, Next, NamesOk, LogOk, KeysOk;
    assert TxnSight(w, h, x);
    if a.LeaveCommitted? {
      StepMoves(w, a);
      OwnerAt(w, x);
      assert SnapOk(w, w.txns[x].snap);
    }
  }

  lemma StepSight(w: World, h: History, a: Action)
    requires Inv(w) && Sight(w, h) && Enabled(w, a)
    ensures Sight(Next(w, a), Note(h, w, a))
  {
    hide Inv, Enabled, Next, NamesOk, FinishedOk, TxnSight;
    if a.Begin? {
      BeginSight(w, h);
    } else if a.Vacuum? {
      VacuumSight(w, h);
    } else {
      StepNames(w, h, a);
      StepFinished(w, h, a);
      forall x | x in Next(w, a).txns
        ensures TxnSight(Next(w, a), Note(h, w, a), x)
      {
        StepSnapshots(w, h, a, x);
      }
    }
  }

  lemma BeginFacts(w: World)
    ensures var w', t := Next(w, Begin), w.tm.next;
            && t in w'.txns && w'.txns[t].pc.Idle? && w'.tm.next == t + 1 && w'.tm.open == w.tm.open + {t}
            && w'.heap == w.heap && w'.tm.status == w.tm.status
            && (forall x :: x != t ==> (x in w.txns <==> x in w'.txns) && (x in w.txns ==> w'.txns[x] == w.txns[x]))
  {
  }

  lemma BeginSight(w: World, h: History)
    requires Inv(w) && Sight(w, h)
    ensures Sight(Next(w, Begin), h)
  {
    hide Inv, Next, SnapSight;
    var w', t := Next(w, Begin), w.tm.next;
    BeginFacts(w);
    BeginIds(w);
    assert forall x :: x != t ==> (Pending(w', x) <==> Pending(w, x));
    forall x | x in w'.txns
      ensures TxnSight(w', h, x)
    {
      assert x != t ==> TxnSight(w, h, x);
    }
  }

  lemma VacuumSight(w: World, h: History)
    requires Inv(w) && Sight(w, h) && Enabled(w, Vacuum)
    ensures Sight(Next(w, Vacuum), h)
  {
    hide Inv;
    var w' := Next(w, Vacuum);
    VacuumStatus(w);
    forall r | r in w'.heap
      ensures Nameable(w', h, w'.heap[r].creator) && w'.heap[r].deleter == 0
    {
      VacuumRow(w, r);
      assert Nameable(w, h, w.heap[r].creator);
    }
  }

  lemma {:induction false} RunSight(w: World, h: History, acts: seq<Action>, w': World)
    requires Inv(w) && Sight(w, h) && Steps(w, acts, w')
    ensures Inv(w') && Sight(w', Recall(h, w, acts))
    decreases |acts|
  {
    hide Inv, Enabled, Next, Sight, Note;
    if acts != [] {
      StepInv(w, acts[0]);
      StepSight(w, h, acts[0]);
      RunSight(Next(w, acts[0]), Note(h, w, acts[0]), acts[1..], w');
    }
  }

  // ------------------------------------------------------------------ what a statement sees

  /** `x` began before the snapshot's first reading and had finished committing by its second. */
  predicate FinishedBefore(h: History, t: Xid, x: Xid) {
    t in h.bound && t in h.frozen && x < h.bound[t] && x in h.frozen[t]
  }

  lemma CommittedIsFinished(w: World, h: History, t: Xid, x: Xid)
    requires Inv(w) && Sight(w, h) && t in w.txns && Reading(w.txns[t].pc) && Nameable(w, h, x)
    ensures w.tm.CommittedBefore(w.txns[t].snap, x) <==> FinishedBefore(h, t, x)
  {
    hide Inv, NamesOk, LogOk, KeysOk;
    assert TxnSight(w, h, t);
    OwnerAt(w, t);
    if x !in h.finished {
      PhaseAt(w, x);
    }
  }

  /**
   In every run, the rows a running statement can see are exactly those its own transaction stored and has not
   marked, and those whose creator had finished committing at its snapshot and that bear neither its own mark
   nor one of a transaction finished by then.
   */
  lemma SeesExactly(start: World, acts: seq<Action>, w: World, t: Xid, r: Rid)
    requires Init(start) && Steps(start, acts, w) && At(w, t, Running)
    ensures var h := Recall(Before(start), start, acts);
            && t in h.bound && t in h.frozen
            && (Enabled(w, See(t, r)) <==>
                  && r in w.heap
                  && var v := w.heap[r];
                     || (v.creator == t && v.deleter != t)
                     || (FinishedBefore(h, t, v.creator) && v.deleter != t && !FinishedBefore(h, t, v.deleter)))
  {
    hide Inv, Sight;
    var h := Recall(Before(start), start, acts);
    InitInv(start);
    StartSight(start);
    RunSight(start, Before(start), acts, w);
    SeesNow(w, h, t, r);
  }

  lemma SeesNow(w: World, h: History, t: Xid, r: Rid)
    requires Inv(w) && Sight(w, h) && At(w, t, Running)
    ensures t in h.bound && t in h.frozen
    ensures Enabled(w, See(t, r)) <==>
              && r in w.heap
              && var v := w.heap[r];
                 || (v.creator == t && v.deleter != t)
                 || (FinishedBefore(h, t, v.creator) && v.deleter != t && !FinishedBefore(h, t, v.deleter))
  {
    hide Inv, LogOk, KeysOk, StatementOk;
    assert TxnSight(w, h, t);
    PhaseAt(w, t);
    if r in w.heap {
      var v := w.heap[r];
      VersionAt(w, r);
      CommittedIsFinished(w, h, t, v.creator);
      if v.deleter != 0 {
        CommittedIsFinished(w, h, t, v.deleter);
      }
      assert !FinishedBefore(h, t, 0);
    }
  }
}
