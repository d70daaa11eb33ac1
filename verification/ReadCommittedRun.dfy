/** Putting the parts together: the invariant over whole runs, and what it means. */
module ReadCommittedRun {
  import opened Options
  import opened Heap
  import opened TxnManager
  import opened ReadCommitted
  import opened ReadCommittedInv
  import opened ReadCommittedSteps

  // ------------------------------------------------------------------ steps that leave the heap alone

  /** Nothing stored changes, and no other session's record does. */
  ghost predicate SameHeap(w: World, w': World, t: Xid) {
    && w'.heap == w.heap && w'.birth == w.birth && w'.births == w.births && w'.clean == w.clean
    && (forall x :: x != t ==> (x in w.txns <==> x in w'.txns) && (x in w.txns ==> w'.txns[x] == w.txns[x]))
  }

  /** `t` releases all of its locks, or takes locks nobody else has. */
  ghost predicate LockShape(w: World, w': World, t: Xid) {
    && (w'.rowLocks == w.rowLocks || w'.rowLocks == Unlocked(w.rowLocks, t) ||
        exists r: Rid :: Free(w.rowLocks, r, t) && w'.rowLocks == w.rowLocks[r := t])
    && (w'.keyLocks == w.keyLocks || w'.keyLocks == Unlocked(w.keyLocks, t) ||
        exists k: int :: Free(w.keyLocks, k, t) && w'.keyLocks == w.keyLocks[k := t])
  }

  lemma LockShapeQuiet(w: World, w': World, t: Xid)
    requires LockShape(w, w', t)
    ensures LocksQuiet(w, w', t)
  {
  }

  lemma QuietMove(w: World, w': World, t: Xid)
    requires SameHeap(w, w', t) && LockShape(w, w', t) && TmQuiet(w, w', t)
    ensures Quiet(w, w', t)
  {
    LockShapeQuiet(w, w', t);
    hide LockShape, TmQuiet, LocksQuiet;
  }

  /** What a move leaves as it is. */
  ghost predicate Unmoved(w: World, w': World, t: Xid) {
    && SameHeap(w, w', t) && w'.claims == w.claims && w'.tm == w.tm
    && (w'.rowLocks == w.rowLocks || exists r: Rid :: Free(w.rowLocks, r, t) && w'.rowLocks == w.rowLocks[r := t])
    && (w'.keyLocks == w.keyLocks || exists k: int :: Free(w.keyLocks, k, t) && w'.keyLocks == w.keyLocks[k := t])
  }

  lemma UnmovedByReads(w: World, a: Action)
    requires Enabled(w, a) && (a.ReadNext? || a.ReadOpen? || a.See?)
    ensures Unmoved(w, Next(w, a), a.t)
  {
    hide Free;
  }

  lemma UnmovedByChoice(w: World, a: Action)
    requires Enabled(w, a) && (a.ChooseDelete? || a.ChooseInsert?)
    ensures Unmoved(w, Next(w, a), a.t)
  {
    hide PlannedRids, Claimed, Free, KeyOf;
  }

  lemma UnmovedByUpdate(w: World, a: Action)
    requires Enabled(w, a) && a.ChooseUpdate?
    ensures Unmoved(w, Next(w, a), a.t)
  {
    hide PlannedRids, Claimed, Free, KeyOf;
  }

  lemma UnmovedByChoices(w: World, a: Action)
    requires Enabled(w, a) && (a.ChooseDelete? || a.ChooseUpdate? || a.ChooseInsert?)
    ensures Unmoved(w, Next(w, a), a.t)
  {
    hide Enabled, Next, Unmoved;
    if a.ChooseUpdate? {
      UnmovedByUpdate(w, a);
    } else {
      UnmovedByChoice(w, a);
    }
  }

  lemma UnmovedByLock(w: World, a: Action)
    requires Enabled(w, a) && a.LockKey?
    ensures Unmoved(w, Next(w, a), a.t)
  {
    if KeyOf(w.txns[a.t].pc.row).Some? {
      var k := KeyOf(w.txns[a.t].pc.row).value;
      assert Free(w.keyLocks, k, a.t) && Next(w, a).keyLocks == w.keyLocks[k := a.t];
    }
  }

  lemma UnmovedByTests(w: World, a: Action)
    requires Enabled(w, a) && (a.Search? || a.PassRid?)
    ensures Unmoved(w, Next(w, a), a.t)
  {
    hide Passes, WithKey, Free, KeyOf, EntriesOf;
  }

  lemma UnmovedByKeyDone(w: World, a: Action)
    requires Enabled(w, a) && a.KeyDone?
    ensures Unmoved(w, Next(w, a), a.t)
  {
    hide Passes, WithKey, Free, KeyOf, EntriesOf;
  }

  lemma UnmovedByEntry(w: World, a: Action)
    requires Enabled(w, a) && a.AddEntry?
    ensures Unmoved(w, Next(w, a), a.t)
  {
    hide Passes, WithKey, Free, KeyOf, EntriesOf;
  }

  lemma UnmovedByKeys(w: World, a: Action)
    requires Enabled(w, a) && (a.KeyDone? || a.AddEntry?)
    ensures Unmoved(w, Next(w, a), a.t)
  {
    hide Enabled, Next, Unmoved;
    if a.KeyDone? {
      UnmovedByKeyDone(w, a);
    } else {
      UnmovedByEntry(w, a);
    }
  }

  lemma UnmovedByRows(w: World, a: Action)
    requires Enabled(w, a) && (a.StartApply? || a.LockRow? || a.PassRow?)
    ensures Unmoved(w, Next(w, a), a.t)
  {
    hide Conflicting, AfterRead, AfterChoose, AfterKey, AfterStore, AfterUndo, AfterEnd;
    if a.LockRow? {
      var r := w.txns[a.t].plan[0].rid;
      assert Free(w.rowLocks, r, a.t) && Next(w, a).rowLocks == w.rowLocks[r := a.t];
    }
  }

  lemma UnmovedByEnds(w: World, a: Action)
    requires Enabled(w, a) && (a.EndStatement? || a.Fail? || (a.Unwound? && !a.release) || a.StartAbort?)
    ensures Unmoved(w, Next(w, a), a.t)
  {
    hide Free, AfterRead, AfterChoose, AfterKey, AfterStore, AfterRow;
  }

  lemma MoveUnmoved(w: World, a: Action)
    requires Enabled(w, a) && Move(a)
    ensures Unmoved(w, Next(w, a), a.t)
  {
    hide Enabled, Next, Unmoved;
    if a.ReadNext? || a.ReadOpen? || a.See? {
      UnmovedByReads(w, a);
    } else if a.ChooseDelete? || a.ChooseUpdate? || a.ChooseInsert? {
      UnmovedByChoices(w, a);
    } else if a.LockKey? {
      UnmovedByLock(w, a);
    } else if a.Search? || a.PassRid? {
      UnmovedByTests(w, a);
    } else if a.KeyDone? || a.AddEntry? {
      UnmovedByKeys(w, a);
    } else if a.StartApply? || a.LockRow? || a.PassRow? {
      UnmovedByRows(w, a);
    } else {
      UnmovedByEnds(w, a);
    }
  }

  lemma UnmovedMeaning(w: World, w': World, t: Xid)
    requires Unmoved(w, w', t)
    ensures LockShape(w, w', t) && TmQuiet(w, w', t)
    ensures forall r: Rid :: HoldsRow(w, t, r) ==> HoldsRow(w', t, r)
    ensures forall k: int :: HoldsKey(w, t, k) ==> HoldsKey(w', t, k)
  {
  }

  /** With an unchanged heap, versions stay in order if owners keep their locks or own nothing any more. */
  lemma HeapKept(w: World, w': World, t: Xid)
    requires Inv(w) && SameHeap(w, w', t) && LocksQuiet(w, w', t)
    requires forall x :: Committed(w, x) ==> Committed(w', x)
    requires Owns(w', t) ==> Owns(w, t)
    requires Owns(w, t) && !Committed(w', t) &&
             (!Owns(w', t) || exists r: Rid :: HoldsRow(w, t, r) && !HoldsRow(w', t, r))
             ==> OwnsNothing(w, t)
    requires Owns(w, t) && !Committed(w', t) && (exists k: int :: HoldsKey(w, t, k) && !HoldsKey(w', t, k)) ==>
             OwnsNothing(w, t)
    requires Committed(w', t) && !Committed(w, t) ==> !Owns(w', t)
    ensures HeapOk(w')
  {
    forall r | r in w'.heap
      ensures VersionOk(w', r)
    {
      VersionAt(w, r);
    }
  }

  /** No stored version was created or marked by `t`. */
  ghost predicate OwnsNothing(w: World, t: Xid) {
    forall r :: r in w.heap ==> w.heap[r].creator != t && w.heap[r].deleter != t
  }

  lemma EmptyLogOwnsNothing(w: World, t: Xid)
    requires Inv(w) && Owns(w, t) && w.txns[t].undo == [] && !w.txns[t].pc.NewStored?
    ensures OwnsNothing(w, t)
  {
    hide Inv, KeysOk, StatementOk;
    OwnerAt(w, t);
  }

  /** The other owners' parts, after any quiet step. */
  lemma OthersOk(w: World, w': World, t: Xid)
    requires Inv(w) && Quiet(w, w', t) && (Owns(w', t) ==> OwnerOk(w', t))
    ensures OwnersOk(w')
  {
    hide Inv, OwnerOk;
    forall x | Owns(w', x)
      ensures OwnerOk(w', x)
    {
      if x != t {
        QuietOwns(w, w', t, x);
        FrameOwner(w, w', t, x);
      }
    }
  }

  lemma QuietOwns(w: World, w': World, t: Xid, x: Xid)
    requires Quiet(w, w', t) && x != t && Owns(w', x)
    ensures Owns(w, x)
  {
  }

  lemma IdsKept(w: World, w': World, t: Xid)
    requires Inv(w) && SameHeap(w, w', t) && w'.tm == w.tm && Owns(w, t) && Owns(w', t)
    requires w.txns[t].pc.Aborting? ==> w'.txns[t].pc.Aborting?
    ensures IdsOk(w')
  {
    hide HeapOk, OwnersOk, UniqueOk, ClaimsOk;
    forall x | x in w'.txns
      ensures PhaseOk(w', x)
    {
      assert PhaseOk(w, x);
    }
  }

  lemma UniqueKept(w: World, w': World)
    requires UniqueOk(w) && w'.heap == w.heap && w'.tm == w.tm && w'.clean == w.clean
    ensures UniqueOk(w')
  {
    forall a, b | w'.clean && SameKey(w'.heap, a, b)
      ensures !(Live(w', a) && Live(w', b))
    {
      assert SameKey(w.heap, a, b);
    }
  }

  /** Index entries stay as long as every row that was being entered has been. */
  lemma IndexKept(w: World, w': World, t: Xid)
    requires IndexOk(w) && SameHeap(w, w', t) && w.index <= w'.index
    requires forall r :: r in w.heap && w.heap[r].creator == t && t in w.txns && Entering(w.txns[t].pc, r) ==>
               EntriesOf(r, w.heap[r].row) <= w'.index
    ensures IndexOk(w')
  {
    forall r | r in w'.heap && KeyOf(w'.heap[r].row).Some?
      ensures (KeyOf(w'.heap[r].row).value, r) in w'.index
              || (w'.heap[r].creator in w'.txns && Entering(w'.txns[w'.heap[r].creator].pc, r))
    {
      var e := (KeyOf(w.heap[r].row).value, r);
      assert e in EntriesOf(r, w.heap[r].row);
      assert e in w.index ==> e in w'.index;
    }
  }

  lemma MoveIndex(w: World, w': World, t: Xid)
    requires Inv(w) && Shape(w, w', t) && SameHeap(w, w', t)
    ensures IndexOk(w')
  {
    hide Inv, LogOk, KeysOk, RowStageOk, Unwinding;
    OwnerAt(w, t);
    assert IndexOk(w) by { IndexOf(w); }
    IndexKept(w, w', t);
  }

  lemma IndexOf(w: World)
    requires Inv(w)
    ensures IndexOk(w)
  {
  }

  lemma ClaimsKept(w: World, w': World)
    requires ClaimsOk(w) && w'.heap == w.heap && w'.birth == w.birth && w'.births == w.births && w'.claims == w.claims
    requires forall x :: Committed(w, x) ==> Committed(w', x)
    ensures ClaimsOk(w')
  {
  }

  lemma MoveInv(w: World, a: Action)
    requires Inv(w) && Enabled(w, a) && Move(a)
    ensures Inv(Next(w, a))
  {
    hide Enabled, Next, HeapOk, OwnersOk, UniqueOk, ClaimsOk, IdsOk, IndexOk, OwnerOk, LockShape, LocksQuiet, TmQuiet;
    var w', t := Next(w, a), a.t;
    MoveShape(w, a);
    MoveUnmoved(w, a);
    MoveStep(w, a);
    MoveNotAborting(w, a);
    UnmovedMeaning(w, w', t);
    LockShapeQuiet(w, w', t);
    QuietMove(w, w', t);
    HeapKept(w, w', t);
    OthersOk(w, w', t);
    IdsKept(w, w', t);
    UniqueKept(w, w');
    ClaimsKept(w, w');
    MoveIndex(w, w', t);
  }

  lemma MoveNotAborting(w: World, a: Action)
    requires Enabled(w, a) && Move(a)
    ensures a.t in w.txns && !w.txns[a.t].pc.Aborting?
  {
    hide Passes, Conflicting, PlannedRids, Claimed;
  }

  // ------------------------------------------------------------------ releasing locks, ending, committing

  predicate Releasing(a: Action) {
    (a.Unwound? && a.release) || a.AbortEnd? || a.Close?
  }

  lemma ReleaseShape(w: World, a: Action)
    requires Inv(w) && Enabled(w, a) && Releasing(a)
    ensures var w' := Next(w, a);
            && SameHeap(w, w', a.t) && LockShape(w, w', a.t) && w'.tm == w.tm && w'.claims == w.claims
            && w'.index == w.index
            && (a.t in w.txns ==> forall r :: !Entering(w.txns[a.t].pc, r))
            && (Owns(w, a.t) ==> OwnsNothing(w, a.t)) && (Owns(w', a.t) ==> Owns(w, a.t))
  {
    hide Inv;
    if !a.Close? {
      EmptyLogOwnsNothing(w, a.t);
    }
  }

  lemma ReleaseOwner(w: World, a: Action)
    requires Inv(w) && Enabled(w, a) && a.Unwound?
    ensures OwnerOk(Next(w, a), a.t)
  {
    hide LogOk, KeysOk, StatementOk, AfterRead, AfterChoose, AfterKey, AfterStore, AfterRow, AfterEnd;
    RestStep(w, a);
    LogKept(w, Next(w, a), a.t);
  }

  lemma ReleasePhase(w: World, a: Action, x: Xid)
    requires Inv(w) && Enabled(w, a) && Releasing(a) && x in w.txns
    ensures x in Next(w, a).txns && PhaseOk(Next(w, a), x)
  {
    hide Inv, Unlocked;
    PhaseAt(w, x);
  }

  lemma ReleaseIds(w: World, a: Action)
    requires Inv(w) && Enabled(w, a) && Releasing(a)
    ensures IdsOk(Next(w, a))
  {
    hide HeapOk, OwnersOk, UniqueOk, ClaimsOk, IndexOk, PhaseOk, Unlocked;
    var w' := Next(w, a);
    forall x | x in w'.txns
      ensures PhaseOk(w', x)
    {
      ReleasePhase(w, a, x);
    }
  }

  lemma ReleaseInv(w: World, a: Action)
    requires Inv(w) && Enabled(w, a) && Releasing(a)
    ensures Inv(Next(w, a))
  {
    hide HeapOk, OwnersOk, UniqueOk, ClaimsOk, IdsOk, IndexOk, OwnerOk, LockShape, LocksQuiet, OwnsNothing;
    var w', t := Next(w, a), a.t;
    ReleaseShape(w, a);
    ReleaseIds(w, a);
    if a.Unwound? {
      ReleaseOwner(w, a);
    }
    assert !a.Unwound? ==> !Owns(w', t);
    hide Enabled, Next;
    assert TmQuiet(w, w', t);
    LockShapeQuiet(w, w', t);
    QuietMove(w, w', t);
    HeapKept(w, w', t);
    OthersOk(w, w', t);
    UniqueKept(w, w');
    ClaimsKept(w, w');
    IndexKept(w, w', t);
  }

  predicate Leaving(a: Action) {
    a.LeaveAborted? || a.LeaveCommitted?
  }

  /** Only the open set and the leaving transaction's own phase change. */
  ghost predicate Left(w: World, w': World, t: Xid) {
    && SameHeap(w, w', t) && LockShape(w, w', t) && TmQuiet(w, w', t) && w'.claims == w.claims
    && (Owns(w', t) <==> Owns(w, t))
    && w'.tm.status == w.tm.status && w'.rowLocks == w.rowLocks && w'.keyLocks == w.keyLocks && w'.index == w.index
    && t in w.txns && forall r :: !Entering(w.txns[t].pc, r)
  }

  lemma LeaveAbortedShape(w: World, a: Action)
    requires Inv(w) && Enabled(w, a) && a.LeaveAborted?
    ensures Left(w, Next(w, a), a.t)
  {
    hide Inv, AfterRead, AfterChoose, AfterKey, AfterStore, AfterRow, AfterUndo;
  }

  lemma LeaveCommittedShape(w: World, a: Action)
    requires Inv(w) && Enabled(w, a) && a.LeaveCommitted?
    ensures Left(w, Next(w, a), a.t)
  {
    hide Inv, AfterRead, AfterChoose, AfterKey, AfterStore, AfterRow, AfterUndo;
  }

  lemma LeaveShape(w: World, a: Action)
    requires Inv(w) && Enabled(w, a) && Leaving(a)
    ensures Left(w, Next(w, a), a.t)
  {
    hide Inv, Enabled, Next, Left;
    if a.LeaveAborted? {
      LeaveAbortedShape(w, a);
    } else {
      LeaveCommittedShape(w, a);
    }
  }

  lemma LeaveIds(w: World, a: Action)
    requires Inv(w) && Enabled(w, a) && Leaving(a)
    ensures IdsOk(Next(w, a))
  {
    hide HeapOk, OwnersOk, UniqueOk, ClaimsOk, AfterRead, AfterChoose, AfterKey, AfterStore, AfterRow, AfterUndo;
    var w' := Next(w, a);
    assert PhaseOk(w, a.t);
    forall x | x in w'.txns
      ensures PhaseOk(w', x)
    {
      assert PhaseOk(w, x);
    }
  }

  lemma LeaveOwner(w: World, a: Action)
    requires Inv(w) && Enabled(w, a) && Leaving(a) && Owns(w, a.t)
    ensures Owns(Next(w, a), a.t) && OwnerOk(Next(w, a), a.t)
  {
    hide LogOk, KeysOk, Inv;
    var w' := Next(w, a);
    assert w.txns[a.t].pc.Aborting? && w'.txns == w.txns;
    assert StatementOk(w', a.t);
    LogKept(w, w', a.t);
  }

  lemma LeaveInv(w: World, a: Action)
    requires Inv(w) && Enabled(w, a) && Leaving(a)
    ensures Inv(Next(w, a))
  {
    hide HeapOk, OwnersOk, UniqueOk, ClaimsOk, IdsOk, IndexOk, OwnerOk, LockShape, LocksQuiet, OwnsNothing, TmQuiet;
    var w', t := Next(w, a), a.t;
    LeaveShape(w, a);
    LeaveIds(w, a);
    if Owns(w, t) {
      LeaveOwner(w, a);
    }
    hide Enabled, Next;
    LockShapeQuiet(w, w', t);
    QuietMove(w, w', t);
    HeapKept(w, w', t);
    OthersOk(w, w', t);
    UniqueSameStatus(w, w');
    ClaimsKept(w, w');
    IndexKept(w, w', t);
  }

  lemma UniqueSameStatus(w: World, w': World)
    requires UniqueOk(w) && w'.heap == w.heap && w'.tm.status == w.tm.status && w'.clean == w.clean
    ensures UniqueOk(w')
  {
    forall a, b | w'.clean && SameKey(w'.heap, a, b)
      ensures !(Live(w', a) && Live(w', b))
    {
      assert SameKey(w.heap, a, b);
    }
  }

  // ------------------------------------------------------------------ committing

  lemma CommitShape(w: World, t: Xid)
    requires Inv(w) && Enabled(w, MarkCommit(t))
    ensures var w' := Next(w, MarkCommit(t));
            && SameHeap(w, w', t) && LockShape(w, w', t) && TmQuiet(w, w', t) && IdsOk(w')
            && Owns(w, t) && !Owns(w', t) && !Committed(w, t) && Committed(w', t) && t in w.tm.open
            && (forall x :: Committed(w', x) <==> Committed(w, x) || x == t)
            && w'.rowLocks == w.rowLocks && w'.keyLocks == w.keyLocks && w'.index == w.index &&
               forall r :: !Entering(w.txns[t].pc, r)
  {
    hide HeapOk, OwnersOk, UniqueOk, ClaimsOk, Claims, IndexOk;
    var w' := Next(w, MarkCommit(t));
    assert PhaseOk(w, t);
    forall x
      ensures Committed(w', x) <==> Committed(w, x) || x == t
    {
    }
    forall x | x in w'.txns
      ensures PhaseOk(w', x)
    {
      assert PhaseOk(w, x);
    }
  }

  /** Committing never makes a second live holder of a key: whatever held it before is marked by now. */
  lemma CommitUnique(w: World, t: Xid)
    requires Inv(w) && Enabled(w, MarkCommit(t))
    ensures UniqueOk(Next(w, MarkCommit(t)))
  {
    hide StatementOk;
    CommitShape(w, t);
    OwnerAt(w, t);
    var w' := Next(w, MarkCommit(t));
    forall a, b | w'.clean && SameKey(w'.heap, a, b)
      ensures !(Live(w', a) && Live(w', b))
    {
      if w.heap[a].creator == t || w.heap[b].creator == t {
        CommitPair(w, t, a, b);
      } else {
        assert !(Live(w, a) && Live(w, b));
      }
    }
  }

  lemma CommitPair(w: World, t: Xid, a: Rid, b: Rid)
    requires Inv(w) && w.clean && Enabled(w, MarkCommit(t)) && SameKey(w.heap, a, b)
    requires w.heap[a].creator == t || w.heap[b].creator == t
    ensures Committed(w, w.heap[a].deleter) || w.heap[a].deleter == t ||
            Committed(w, w.heap[b].deleter) || w.heap[b].deleter == t
  {
    hide Inv, StatementOk;
    OwnerAt(w, t);
    var x := w.txns[t];
    if w.heap[b].creator == t {
      var j :| CreatedAt(x, j, b);
      if w.heap[a].creator == t {
        var i :| CreatedAt(x, i, a);
        if i < j {
          LaterPair(w, t, a, b, j);
        } else {
          assert SameKey(w.heap, b, a);
          LaterPair(w, t, b, a, i);
        }
      } else {
        LaterPair(w, t, a, b, j);
      }
    } else {
      var i :| CreatedAt(x, i, a);
      assert SameKey(w.heap, b, a);
      LaterPair(w, t, b, a, i);
    }
  }

  lemma LaterPair(w: World, t: Xid, a: Rid, b: Rid, j: int)
    requires Inv(w) && w.clean && Enabled(w, MarkCommit(t)) && SameKey(w.heap, a, b) && CreatedAt(w.txns[t], j, b)
    requires forall i :: CreatedAt(w.txns[t], i, a) ==> i <= j
    ensures Committed(w, w.heap[a].deleter) || w.heap[a].deleter == t
  {
    hide Inv, StatementOk;
    OwnerAt(w, t);
    var x := w.txns[t];
    assert Settled(w, t, a, j);
    if i :| i <= j && MarkedAt(x, i, a) {
      assert EntryOk(w, t, x.undo[i]);
    }
  }

  lemma CommitAdds(w: World, t: Xid)
    requires Enabled(w, MarkCommit(t))
    ensures var w' := Next(w, MarkCommit(t));
            w'.claims == w.claims + Claims(w, t) && w'.birth == w.birth && w'.births == w.births && w'.heap == w.heap
  {
    hide Claims;
  }

  lemma CommitClaims(w: World, t: Xid)
    requires Inv(w) && Enabled(w, MarkCommit(t))
    ensures ClaimsOk(Next(w, MarkCommit(t)))
  {
    hide HeapOk, OwnersOk, UniqueOk, IdsOk, IndexOk, Enabled, Next, LockShape, TmQuiet;
    CommitShape(w, t);
    CommitAdds(w, t);
    var w' := Next(w, MarkCommit(t));
    forall c, d | c in w'.claims && d in w'.claims && c.0 == d.0
      ensures c.1 == d.1
    {
    }
  }

  lemma CommitInv(w: World, t: Xid)
    requires Inv(w) && Enabled(w, MarkCommit(t))
    ensures Inv(Next(w, MarkCommit(t)))
  {
    hide HeapOk, OwnersOk, UniqueOk, ClaimsOk, IdsOk, IndexOk, OwnerOk, LockShape, LocksQuiet, OwnsNothing, TmQuiet;
    hide Enabled, Next;
    var w' := Next(w, MarkCommit(t));
    CommitShape(w, t);
    CommitUnique(w, t);
    CommitClaims(w, t);
    LockShapeQuiet(w, w', t);
    QuietMove(w, w', t);
    HeapKept(w, w', t);
    OthersOk(w, w', t);
    IndexKept(w, w', t);
  }

  // ------------------------------------------------------------------ beginning

  lemma BeginIds(w: World)
    requires Inv(w)
    ensures IdsOk(Next(w, Begin)) && w.tm.next !in w.txns && w.tm.next !in w.tm.open
  {
    hide OwnersOk, UniqueOk, ClaimsOk, HeapOk, IndexOk;
    var w', t := Next(w, Begin), w.tm.next;
    assert t in w.txns ==> PhaseOk(w, t);
    forall x | x in w'.txns
      ensures PhaseOk(w', x)
    {
      if x != t {
        assert PhaseOk(w, x);
      }
    }
  }

  lemma BeginOwnsNothing(w: World)
    requires Inv(w)
    ensures OwnsNothing(w, w.tm.next)
  {
    hide OwnersOk, UniqueOk, ClaimsOk, HeapOk, IndexOk;
    var t := w.tm.next;
    forall r | r in w.heap
      ensures w.heap[r].creator != t && w.heap[r].deleter != t
    {
      VersionAt(w, r);
    }
  }

  lemma BeginShape(w: World)
    requires Inv(w)
    ensures var w' := Next(w, Begin);
            && SameHeap(w, w', w.tm.next) && LockShape(w, w', w.tm.next) && TmQuiet(w, w', w.tm.next) && IdsOk(w')
            && w.tm.next !in w.txns && OwnsNothing(w, w.tm.next) && w'.claims == w.claims
            && w'.tm.status == w.tm.status && w'.rowLocks == w.rowLocks && w'.keyLocks == w.keyLocks
            && w'.index == w.index
  {
    hide OwnersOk, UniqueOk, ClaimsOk, HeapOk, IndexOk, IdsOk;
    BeginIds(w);
    BeginOwnsNothing(w);
  }

  lemma BeginHeap(w: World)
    requires Inv(w)
    ensures HeapOk(Next(w, Begin))
  {
    BeginShape(w);
    hide OwnersOk, UniqueOk, ClaimsOk, HeapOk, IdsOk;
    var w', t := Next(w, Begin), w.tm.next;
    forall r | r in w'.heap
      ensures VersionOk(w', r)
    {
      VersionAt(w, r);
    }
    AllVersions(w');
  }

  lemma AllVersions(w: World)
    requires forall r :: r in w.heap ==> VersionOk(w, r)
    ensures HeapOk(w)
  {
  }

  lemma BeginOwner(w: World)
    requires Inv(w)
    ensures var w' := Next(w, Begin); w.tm.next in w'.txns && OwnerOk(w', w.tm.next)
  {
    BeginShape(w);
    hide Inv;
    var w', t := Next(w, Begin), w.tm.next;
    assert w'.txns[t] == Txn(Idle, Snapshot(0, {}), {}, [], [], 0);
  }

  lemma BeginInv(w: World)
    requires Inv(w)
    ensures Inv(Next(w, Begin))
  {
    hide HeapOk, OwnersOk, UniqueOk, ClaimsOk, IdsOk, IndexOk, OwnerOk, LockShape, OwnsNothing, TmQuiet, Next;
    var w', t := Next(w, Begin), w.tm.next;
    BeginShape(w);
    BeginHeap(w);
    BeginOwner(w);
    QuietMove(w, w', t);
    OthersOk(w, w', t);
    UniqueSameStatus(w, w');
    ClaimsKept(w, w');
    IndexKept(w, w', t);
  }
}
