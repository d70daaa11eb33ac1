/** The uniqueness check refuses a key only because of a row that really holds it. */
module ReadCommittedRefusal {
  import opened Options
  import opened Heap
  import opened TxnManager
  import opened ReadCommitted
  import opened ReadCommittedInv
  import opened ReadCommittedSteps
  import opened ReadCommittedWrites
  import opened ReadCommittedRun
  import opened ReadCommittedTheorems
  import opened ReadCommittedSight

  // ------------------------------------------------------------------ the index lists nothing else

  /** The transaction has removed the row and is about to remove its index entry. */
  ghost predicate Owes(w: World, t: Xid, k: int, q: Rid) {
    Owns(w, t) && w.txns[t].undo != [] && (k, q) in DroppedEntry(w.txns[t].undo[|w.txns[t].undo| - 1])
  }

  predicate HasRow(h: Versions, k: int, q: Rid) {
    q in h && KeyOf(h[q].row) == Some(k)
  }

  ghost predicate EntryKnown(w: World, k: int, q: Rid) {
    HasRow(w.heap, k, q) || exists t :: Owes(w, t, k, q)
  }

  /** Every index entry belongs to a stored row, or to one just being taken back. */
  ghost predicate IndexTight(w: World) {
    forall k, q :: (k, q) in w.index ==> EntryKnown(w, k, q)
  }

  /** The rows still to be looked at do have the key. */
  ghost predicate TodoOk(w: World, t: Xid)
    requires t in w.txns
  {
    var pc := w.txns[t].pc;
    pc.CheckKey? ==> forall r :: r in pc.todo ==> r in w.heap && KeyOf(w.heap[r].row) == KeyOf(pc.row)
  }

  ghost predicate Tight(w: World) {
    IndexTight(w) && forall t :: t in w.txns ==> TodoOk(w, t)
  }

  lemma OwesMeans(w: World, t: Xid, k: int, q: Rid)
    requires Inv(w) && Owes(w, t, k, q)
    ensures HoldsKey(w, t, k) && Unwinding(w.txns[t])
  {
    hide Inv, KeysOk, StatementOk;
    OwnerAt(w, t);
    var u := w.txns[t].undo[|w.txns[t].undo| - 1];
    assert EntryOk(w, t, u);
    assert u.OweEntry? || u.OweUpdateEntry?;
    assert !Whole(u);
  }

  /** Somebody who is unwinding does nothing else. */
  lemma OnlyUnwinds(w: World, a: Action)
    requires Enabled(w, a) && !a.Begin? && !a.Vacuum? && a.t in w.txns && Unwinding(w.txns[a.t])
    ensures a.TakeBack? || a.LeaveAborted?
  {
    hide Passes, Conflicting, PlannedRids, Claimed, Next;
  }

  // ------------------------------------------------------------------ what a step does to the index

  lemma IndexByStatement(w: World, a: Action)
    requires Enabled(w, a) && (IsRead(a) || IsChoose(a))
    ensures Next(w, a).index == w.index
  {
    hide PlannedRids, Claimed;
  }

  lemma IndexByKey(w: World, a: Action)
    requires Enabled(w, a) && IsKey(a)
    ensures Next(w, a).index == w.index
  {
    hide Passes, WithKey;
  }

  lemma IndexByStore(w: World, a: Action)
    requires Enabled(w, a) && IsStore(a)
    ensures a.t in w.txns
    ensures Next(w, a).index ==
            if a.AddEntry? then w.index + EntriesOf(w.txns[a.t].pc.rid, w.txns[a.t].pc.row) else w.index
  {
    hide EntriesOf, Unlinked;
  }

  lemma IndexByRow(w: World, a: Action)
    requires Enabled(w, a) && IsRow(a)
    ensures Next(w, a).index == w.index
  {
    hide Conflicting;
  }

  lemma IndexByUndo(w: World, a: Action)
    requires Enabled(w, a) && IsUndo(a)
    ensures a.t in w.txns && (a.TakeBack? ==> w.txns[a.t].undo != [])
    ensures Next(w, a).index == if a.TakeBack? then w.index - DroppedEntry(LastOwed(w, a.t)) else w.index
    ensures a.TakeBack? ==> a.t in Next(w, a).txns && Next(w, a).txns[a.t].pc == w.txns[a.t].pc
    ensures a.TakeBack? ==>
              Next(w, a).txns[a.t].undo == w.txns[a.t].undo[..|w.txns[a.t].undo| - 1] + Remaining(LastOwed(w, a.t))
  {
    hide StepBack, DroppedEntry, Remaining, Unlocked;
  }

  lemma IndexByEnd(w: World, a: Action)
    requires Enabled(w, a) && IsEnd(a)
    ensures Next(w, a).index == w.index
    ensures a.LeaveAborted? ==> Next(w, a).txns == w.txns
  {
    hide Unlocked, Claims, AfterRead, AfterChoose, AfterKey, AfterStore, AfterRow, AfterUndo;
  }

  lemma IndexStep(w: World, a: Action)
    requires Enabled(w, a) && !a.Begin? && !a.Vacuum? && !a.AddEntry? && !a.TakeBack?
    ensures Next(w, a).index == w.index && (a.LeaveAborted? ==> Next(w, a).txns == w.txns)
  {
    hide Enabled, Next;
    if IsRead(a) || IsChoose(a) {
      IndexByStatement(w, a);
    } else if IsKey(a) {
      IndexByKey(w, a);
    } else if IsStore(a) {
      IndexByStore(w, a);
    } else if IsRow(a) {
      IndexByRow(w, a);
    } else if IsUndo(a) {
      IndexByUndo(w, a);
    } else {
      IndexByEnd(w, a);
    }
  }

  // ------------------------------------------------------------------ entries stay known

  /** A row that is taken back leaves a debt. */
  lemma RemovedIsOwed(w: World, t: Xid, k: int, q: Rid)
    requires Inv(w) && Enabled(w, TakeBack(t)) && HasRow(w.heap, k, q) && q !in Next(w, TakeBack(t)).heap
    ensures Owes(Next(w, TakeBack(t)), t, k, q)
  {
    hide Inv, Enabled, Next;
    TakeBackHasShape(w, t);
    var w', u := Next(w, TakeBack(t)), LastOwed(w, t);
    PopRows(w, w', t, u);
    IndexByUndo(w, TakeBack(t));
    UndoHasShape(w, TakeBack(t));
    assert q in NewRows(u);
    assert w'.txns[t].undo[|w'.txns[t].undo| - 1] == Remaining(u)[0];
  }

  /** Rows that stay keep their key. */
  lemma RowStays(w: World, a: Action, k: int, q: Rid)
    requires Inv(w) && Enabled(w, a) && !a.Vacuum? && HasRow(w.heap, k, q)
    ensures q in Next(w, a).heap ==> HasRow(Next(w, a).heap, k, q)
  {
    hide Inv, Enabled, Next, TmQuiet, LocksQuiet;
    StepQuiet(w, a);
    assert RowQuiet(w, Next(w, a), Actor(w, a), q);
  }

  lemma OnlyUndoRemoves(w: World, a: Action, q: Rid)
    requires Inv(w) && Enabled(w, a) && !a.Vacuum? && q in w.heap && q !in Next(w, a).heap
    ensures a.TakeBack?
  {
    hide Inv, Enabled, Next, WriteShape;
    if !Writing(a) {
      OnlyWritesChangeTheHeap(w, a);
    } else if a.Insert? || a.StoreNew? {
      StoreKeyHeld(w, a);
    } else if Marking(a) {
      MarkHasShape(w, a);
    }
  }

  /** The debts of others stay, those of an unwinding transaction are paid by dropping the entry. */
  lemma DebtStays(w: World, a: Action, x: Xid, k: int, q: Rid)
    requires Inv(w) && Enabled(w, a) && !a.Vacuum? && Owes(w, x, k, q) && (k, q) in Next(w, a).index
    ensures Owes(Next(w, a), x, k, q)
  {
    hide Inv, Enabled, Next, TmQuiet, LocksQuiet, RowQuiet, DroppedEntry, Unwinding;
    OwesMeans(w, x, k, q);
    StepQuiet(w, a);
    if a.Begin? {
      BeginIds(w);
    } else if x == a.t {
      OnlyUnwinds(w, a);
      if a.TakeBack? {
        IndexByUndo(w, a);
      } else {
        IndexStep(w, a);
      }
    }
  }

  lemma EntryStays(w: World, a: Action, k: int, q: Rid)
    requires Inv(w) && Enabled(w, a) && !a.Vacuum? && EntryKnown(w, k, q) && (k, q) in Next(w, a).index
    ensures EntryKnown(Next(w, a), k, q)
  {
    hide Inv, Enabled, Next, HasRow, Owes;
    if HasRow(w.heap, k, q) {
      RowStays(w, a, k, q);
      RowThere(w.heap, k, q);
      if q !in Next(w, a).heap {
        OnlyUndoRemoves(w, a, q);
        RemovedIsOwed(w, a.t, k, q);
      }
    } else {
      var x :| Owes(w, x, k, q);
      DebtStays(w, a, x, k, q);
    }
  }

  lemma RowThere(h: Versions, k: int, q: Rid)
    requires HasRow(h, k, q)
    ensures q in h
  {
  }

  lemma AddedIsKnown(w: World, t: Xid, k: int, q: Rid)
    requires Inv(w) && Enabled(w, AddEntry(t)) && t in w.txns
    requires w.txns[t].pc.IndexInsert? || w.txns[t].pc.IndexUpdate?
    requires (k, q) in EntriesOf(w.txns[t].pc.rid, w.txns[t].pc.row)
    ensures HasRow(w.heap, k, q)
  {
    hide Inv, Enabled, LogOk, KeysOk;
    OwnerAt(w, t);
  }

  lemma EnteringNow(w: World, t: Xid)
    requires Enabled(w, AddEntry(t))
    ensures t in w.txns && (w.txns[t].pc.IndexInsert? || w.txns[t].pc.IndexUpdate?)
  {
  }

  lemma IndexTightStep(w: World, a: Action)
    requires Inv(w) && IndexTight(w) && Enabled(w, a) && !a.Vacuum?
    ensures IndexTight(Next(w, a))
  {
    hide Inv, Enabled, Next, EntryKnown, HasRow;
    var w' := Next(w, a);
    forall k, q | (k, q) in w'.index
      ensures EntryKnown(w', k, q)
    {
      if (k, q) in w.index {
        EntryStays(w, a, k, q);
      } else {
        NewEntry(w, a, k, q);
      }
    }
  }

  lemma NewEntry(w: World, a: Action, k: int, q: Rid)
    requires Inv(w) && Enabled(w, a) && !a.Vacuum? && (k, q) in Next(w, a).index && (k, q) !in w.index
    ensures EntryKnown(Next(w, a), k, q)
  {
    hide Inv, Enabled, Next;
    if a.AddEntry? {
      EnteringNow(w, a.t);
      IndexByStore(w, a);
      AddedIsKnown(w, a.t, k, q);
      OnlyWritesChangeTheHeap(w, a);
    } else if a.TakeBack? {
      IndexByUndo(w, a);
    } else if a.Begin? {
      BeginShape(w);
    } else {
      IndexStep(w, a);
    }
  }

  lemma VacuumTight(w: World)
    requires Inv(w) && IndexTight(w) && Enabled(w, Vacuum)
    ensures IndexTight(Next(w, Vacuum))
  {
    hide Inv;
    var w' := Next(w, Vacuum);
    assert forall t :: !Owns(w, t);
    forall k, q | (k, q) in w'.index
      ensures EntryKnown(w', k, q)
    {
      assert EntryKnown(w, k, q);
      assert HasRow(w.heap, k, q);
      assert Dead(w.tm.status, w.heap[q]) ==> (k, q) in DeadEntries(w.tm.status, w.heap);
    }
  }

  // ------------------------------------------------------------------ the rows still to be looked at

  lemma SearchFinds(w: World, t: Xid)
    requires Inv(w) && IndexTight(w) && Enabled(w, Search(t))
    ensures t in Next(w, Search(t)).txns && TodoOk(Next(w, Search(t)), t)
  {
    SearchFacts(w, t);
    hide Inv, Enabled, Next, LogOk, KeysOk, IndexTight;
    OwnerAt(w, t);
    var pc := w.txns[t].pc;
    forall r | r in WithKey(w.index, KeyOf(pc.row).value)
      ensures r in w.heap && KeyOf(w.heap[r].row) == KeyOf(pc.row)
    {
      ListedHasKey(w, t, KeyOf(pc.row).value, r);
    }
  }

  lemma SearchFacts(w: World, t: Xid)
    requires Enabled(w, Search(t))
    ensures t in w.txns && w.txns[t].pc.KeyHeld?
    ensures var w', pc := Next(w, Search(t)), w.txns[t].pc;
            && t in w'.txns && w'.heap == w.heap
            && w'.txns[t].pc == CheckKey(pc.target, pc.row,
                                         if KeyOf(pc.row).Some? then WithKey(w.index, KeyOf(pc.row).value) else {})
  {
    hide WithKey;
  }

  lemma ListedHasKey(w: World, t: Xid, k: int, r: Rid)
    requires Inv(w) && IndexTight(w) && Owns(w, t) && w.txns[t].pc.KeyHeld? && HoldsKey(w, t, k)
    requires r in WithKey(w.index, k)
    ensures HasRow(w.heap, k, r)
  {
    hide Inv;
    assert (k, r) in w.index;
    assert EntryKnown(w, k, r);
    if !HasRow(w.heap, k, r) {
      var x :| Owes(w, x, k, r);
      OwesMeans(w, x, k, r);
    }
  }

  /** While the key is held no row with it goes away. */
  lemma TodoStays(w: World, a: Action, t: Xid, r: Rid)
    requires Inv(w) && Enabled(w, a) && !a.Vacuum? && t in w.txns && w.txns[t].pc.CheckKey?
    requires KeyOf(w.txns[t].pc.row).Some? && HoldsKey(w, t, KeyOf(w.txns[t].pc.row).value)
    requires HasRow(w.heap, KeyOf(w.txns[t].pc.row).value, r)
    ensures HasRow(Next(w, a).heap, KeyOf(w.txns[t].pc.row).value, r)
  {
    hide Inv, Enabled, Next;
    var k := KeyOf(w.txns[t].pc.row).value;
    RowStays(w, a, k, r);
    if r !in Next(w, a).heap {
      OnlyUndoRemoves(w, a, r);
      TakeBackHasShape(w, a.t);
      RemovedIsOwed(w, a.t, k, r);
      StepInv(w, a);
      OwesMeans(Next(w, a), a.t, k, r);
      UndoHasShape(w, a);
      IndexByUndo(w, a);
    }
  }

  lemma KeyIsHeld(w: World, t: Xid)
    requires Inv(w) && t in w.txns && w.txns[t].pc.CheckKey?
    ensures KeyOf(w.txns[t].pc.row).Some? && HoldsKey(w, t, KeyOf(w.txns[t].pc.row).value)
  {
    hide Inv, LogOk, KeysOk;
    OwnerAt(w, t);
  }

  /** A session at the check was there before with at least these rows, or has just searched. */
  lemma CheckFacts(w: World, a: Action)
    requires Enabled(w, a) && !a.Begin? && !a.Vacuum? && !a.Search?
    ensures a.t in w.txns && a.t in Next(w, a).txns
    ensures var pc, pc' := w.txns[a.t].pc, Next(w, a).txns[a.t].pc;
            pc'.CheckKey? ==> pc.CheckKey? && pc'.row == pc.row && pc'.todo <= pc.todo
  {
    hide Enabled, Next;
    if IsKey(a) {
      CheckByKey(w, a);
    } else {
      StepMoves(w, a);
    }
  }

  lemma CheckByKey(w: World, a: Action)
    requires Enabled(w, a) && IsKey(a) && !a.Search?
    ensures a.t in w.txns && a.t in Next(w, a).txns
    ensures var pc, pc' := w.txns[a.t].pc, Next(w, a).txns[a.t].pc;
            pc'.CheckKey? ==> pc.CheckKey? && pc'.row == pc.row && pc'.todo <= pc.todo
  {
    hide Passes, WithKey;
  }

  lemma TodoStep(w: World, a: Action, t: Xid)
    requires Inv(w) && Tight(w) && Enabled(w, a) && !a.Vacuum? && t in Next(w, a).txns
    ensures TodoOk(Next(w, a), t)
  {
    hide Inv, Enabled, Next, TmQuiet, LocksQuiet, RowQuiet, IndexTight;
    var w' := Next(w, a);
    StepQuiet(w, a);
    if t == Actor(w, a) && a.Begin? {
      BeginFacts(w);
    } else if t == Actor(w, a) && a.Search? {
      SearchFinds(w, t);
    } else {
      if t == Actor(w, a) {
        CheckFacts(w, a);
      }
      if w'.txns[t].pc.CheckKey? {
        KeyIsHeld(w, t);
        assert TodoOk(w, t);
        forall r | r in w'.txns[t].pc.todo
          ensures r in w'.heap && KeyOf(w'.heap[r].row) == KeyOf(w'.txns[t].pc.row)
        {
          TodoStays(w, a, t, r);
        }
      }
    }
  }

  lemma StepTight(w: World, a: Action)
    requires Inv(w) && Tight(w) && Enabled(w, a)
    ensures Tight(Next(w, a))
  {
    hide Inv, Enabled, Next, IndexTight, TodoOk;
    if a.Vacuum? {
      VacuumTight(w);
      NobodyChecks(w);
    } else {
      IndexTightStep(w, a);
      forall t | t in Next(w, a).txns
        ensures TodoOk(Next(w, a), t)
      {
        TodoStep(w, a, t);
      }
    }
  }

  lemma NobodyChecks(w: World)
    requires Enabled(w, Vacuum)
    ensures forall t :: t in Next(w, Vacuum).txns ==> TodoOk(Next(w, Vacuum), t)
  {
  }

  lemma {:induction false} RunTight(w: World, acts: seq<Action>, w': World)
    requires Inv(w) && Tight(w) && Steps(w, acts, w')
    ensures Inv(w') && Tight(w')
    decreases |acts|
  {
    hide Inv, Enabled, Next, Tight;
    if acts != [] {
      StepInv(w, acts[0]);
      StepTight(w, acts[0]);
      RunTight(Next(w, acts[0]), acts[1..], w');
    }
  }

  // ------------------------------------------------------------------ refusals

  /** The index holds entries of stored rows only, as it does when it has just been built. */
  ghost predicate FreshIndex(w: World) {
    forall k, q :: (k, q) in w.index ==> HasRow(w.heap, k, q)
  }

  /**
   In every run, a row that does not pass the uniqueness check is another stored row with the very key, live
   for the committed state as the transaction would leave it, and no version of the row being updated.
   */
  lemma RefusalHasHolder(start: World, acts: seq<Action>, w: World, t: Xid, r: Rid)
    requires Init(start) && FreshIndex(start) && Steps(start, acts, w)
    requires t in w.txns && w.txns[t].pc.CheckKey? && r in w.txns[t].pc.todo && !Enabled(w, PassRid(t, r))
    ensures var pc := w.txns[t].pc;
            && r in w.heap && KeyOf(pc.row).Some? && KeyOf(w.heap[r].row) == KeyOf(pc.row)
            && pc.target != Some(r) && (pc.target.Some? ==> !SameChain(w.heap, pc.target.value, r))
            && (w.heap[r].creator == t || Committed(w, w.heap[r].creator))
            && w.heap[r].deleter != t && (w.heap[r].deleter == 0 || !Committed(w, w.heap[r].deleter))
  {
    hide Inv, SameChain;
    InitInv(start);
    assert forall k, q :: (k, q) in start.index ==> EntryKnown(start, k, q);
    RunTight(start, acts, w);
    KeyIsHeld(w, t);
    assert TodoOk(w, t);
    PhaseAt(w, t);
  }

  /** A key that no other live row holds gets through: every row still to be looked at passes. */
  lemma FreeKeyPasses(start: World, acts: seq<Action>, w: World, t: Xid, r: Rid)
    requires Init(start) && FreshIndex(start) && Steps(start, acts, w)
    requires t in w.txns && w.txns[t].pc.CheckKey? && r in w.txns[t].pc.todo
    requires forall q ::
               q in w.heap && KeyOf(w.heap[q].row) == KeyOf(w.txns[t].pc.row) && w.txns[t].pc.target != Some(q) ==>
               (w.heap[q].creator != t && !Committed(w, w.heap[q].creator)) || w.heap[q].deleter == t ||
               (w.heap[q].deleter != 0 && Committed(w, w.heap[q].deleter))
    ensures Enabled(w, PassRid(t, r))
  {
    hide Enabled, Steps, Init, FreshIndex, SameChain;
    if !Enabled(w, PassRid(t, r)) {
      RefusalHasHolder(start, acts, w, t, r);
    }
  }
}
