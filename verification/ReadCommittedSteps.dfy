/** Every step of the read-committed system keeps the invariant. */
module ReadCommittedSteps {
  import opened Options
  import opened Heap
  import opened TxnManager
  import opened ReadCommitted
  import opened ReadCommittedInv

  // ------------------------------------------------------------------ the session that moves: statements

  /** Moves within a statement touch neither heap nor log. */
  lemma LogKept(w: World, w': World, t: Xid)
    requires Inv(w) && Owns(w, t) && t in w'.txns && w'.heap == w.heap
    requires w'.txns[t].undo == w.txns[t].undo && !w.txns[t].pc.NewStored? && !w'.txns[t].pc.NewStored?
    requires !Unwinding(w.txns[t]) || (w'.txns[t] == w.txns[t] && w'.keyLocks == w.keyLocks)
    requires (w'.clean ==> w.clean) && forall x :: Committed(w, x) ==> Committed(w', x)
    ensures LogOk(w', t) && KeysOk(w', t)
  {
    hide Inv, StatementOk;
    OwnerAt(w, t);
    var x, x' := w.txns[t], w'.txns[t];
    forall i | 0 <= i < |x'.undo|
      ensures EntryOk(w', t, x'.undo[i])
    {
      assert EntryOk(w, t, x.undo[i]);
    }
    forall i, r
      ensures CreatedAt(x', i, r) <==> CreatedAt(x, i, r)
      ensures MarkedAt(x', i, r) <==> MarkedAt(x, i, r)
    {
    }
    forall a, b, j | w'.clean && CreatedAt(x', j, b) && SameKey(w'.heap, a, b)
      ensures Settled(w', t, a, j)
    {
      assert CreatedAt(x, j, b);
      assert Settled(w, t, a, j);
    }
    forall r | r in w'.heap && w'.heap[r].creator == t
      ensures exists i :: CreatedAt(x', i, r)
    {
      var i :| CreatedAt(x, i, r);
      assert CreatedAt(x', i, r);
    }
    forall r | r in w'.heap && w'.heap[r].deleter == t
      ensures exists i :: MarkedAt(x', i, r)
    {
      var i :| MarkedAt(x, i, r);
      assert MarkedAt(x', i, r);
    }
  }

  lemma SeeStep(w: World, t: Xid, r: Rid)
    requires Inv(w) && Enabled(w, See(t, r))
    ensures SeenOk(w, t, w.txns[t].snap, r)
  {
    hide Inv;
    VersionAt(w, r);
  }

  lemma ChooseApart(plan: seq<Plan>, p: Plan)
    requires PlansApart(plan) && p.rid !in PlannedRids(plan)
    requires p.Update? && KeyOf(p.row).Some? ==> KeyOf(p.row) !in Claimed(plan)
    ensures PlansApart(plan + [p])
  {
    var plan' := plan + [p];
    forall i, j | 0 <= i < |plan'| && 0 <= j < |plan'| && i != j
      ensures PlanApart(plan'[i], plan'[j])
    {
      if i < |plan| && j < |plan| {
        assert PlanApart(plan[i], plan[j]);
      } else {
        var q := if i < |plan| then plan[i] else plan[j];
        assert q in plan && q.rid in PlannedRids(plan);
        assert q.Update? ==> KeyOf(q.row) in Claimed(plan);
      }
    }
  }

  /** All of a chain hanging off a version marked by an undecided transaction is that transaction's own. */
  lemma {:induction false} ChainOfOwner(w: World, from: Rid, target: Rid, limit: nat, x: Xid)
    requires Inv(w) && w.clean && ChainReaches(w.heap, from, target, limit) && w.heap[from].deleter == x && Owns(w, x)
    requires target in w.heap
    ensures w.heap[target].creator == x
    decreases limit
  {
    hide Inv;
    VersionAt(w, from);
    var n := w.heap[from].next;
    if n != target {
      VersionAt(w, n);
      ChainOfOwner(w, n, target, limit - 1, x);
    }
  }

  /** The version-chain exemption only ever spares a row whose update is bound to be retried. */
  lemma ExemptionMeansRetry(w: World, t: Xid, snap: Snapshot, target: Rid, r: Rid)
    requires Inv(w) && w.clean && Owns(w, t) && SeenOk(w, t, snap, target) && r in w.heap && r != target
    requires Taken(w, w.heap[r], t) && SameChain(w.heap, target, r)
    ensures Doomed(w, t, snap, Some(target))
  {
    hide Inv;
    VersionAt(w, target);
    VersionAt(w, r);
    PhaseAt(w, t);
    if ChainReaches(w.heap, target, r, CHAIN_LIMIT) {
      var x := w.heap[target].deleter;
      if Owns(w, x) {
        PhaseAt(w, x);
        ChainOfOwner(w, target, r, CHAIN_LIMIT, x);
      }
    } else {
      var y := w.heap[r].deleter;
      PhaseAt(w, y);
      ChainOfOwner(w, r, target, CHAIN_LIMIT, y);
    }
  }

  lemma PassStep(w: World, t: Xid, r: Rid)
    requires Inv(w) && Enabled(w, PassRid(t, r))
    ensures var pc := w.txns[t].pc; KeyFree(w, t, w.txns[t].snap, pc.target, pc.row, pc.todo - {r})
  {
    hide Inv, LogOk, KeysOk, Taken, SameChain;
    OwnerAt(w, t);
    var x := w.txns[t];
    var pc := x.pc;
    if w.clean && r in w.heap && pc.target != Some(r) && Taken(w, w.heap[r], t) {
      ExemptionMeansRetry(w, t, x.snap, pc.target.value, r);
    }
  }

  /** Locked, seen and not overtaken by a later committer: the row is not marked at all. */
  lemma ClearRowIsUnmarked(w: World, t: Xid)
    requires Inv(w) && Enabled(w, PassRow(t))
    ensures w.heap[w.txns[t].plan[0].rid].deleter == 0
  {
    hide Inv, LogOk, KeysOk, KeyFree;
    OwnerAt(w, t);
    var x := w.txns[t];
    assert PlanOk(w, t, x.snap, x.plan[0]);
    VersionAt(w, x.plan[0].rid);
  }

  // ------------------------------------------------------------------ moves that only read, plan or lock

  /** A key search under the key's lock finds every stored row with that key. */
  lemma SearchCovers(w: World, t: Xid, k: int, q: Rid)
    requires Inv(w) && Owns(w, t) && HoldsKey(w, t, k) && w.txns[t].pc.KeyHeld?
    requires q in w.heap && KeyOf(w.heap[q].row) == Some(k)
    ensures q in WithKey(w.index, k)
  {
    VersionAt(w, q);
    var c := w.heap[q].creator;
    assert c in w.txns ==> PhaseOk(w, c);
    assert (k, q) in w.index;
  }

  predicate Move(a: Action) {
    a.ReadNext? || a.ReadOpen? || a.See? || a.ChooseDelete? || a.ChooseUpdate? || a.ChooseInsert? || a.LockKey? ||
    a.Search? || a.PassRid? || a.KeyDone? || a.StartApply? || a.LockRow? || a.PassRow? || a.EndStatement? || a.Fail? ||
    (a.Unwound? && !a.release) || a.StartAbort? || a.AddEntry?
  }

  /** Heap and commit status are as before, and `t` has lost no lock. */
  ghost predicate OnlyLocks(w: World, w': World, t: Xid) {
    && w'.heap == w.heap && w'.tm == w.tm && w'.clean == w.clean
    && (forall r: Rid :: HoldsRow(w, t, r) ==> HoldsRow(w', t, r))
    && (forall k: int :: HoldsKey(w, t, k) ==> HoldsKey(w', t, k))
  }

  lemma KeyFreeKept(w: World, w': World, t: Xid, snap: Snapshot, target: Option<Rid>, row: Row, todo: set<Rid>)
    requires OnlyLocks(w, w', t) && KeyFree(w, t, snap, target, row, todo)
    ensures KeyFree(w', t, snap, target, row, todo)
  {
    if KeyOf(row).Some? && w'.clean {
      forall q | q in w'.heap && KeyOf(w'.heap[q].row) == KeyOf(row) && target != Some(q) && q !in todo
        ensures !Taken(w', w'.heap[q], t) || Doomed(w', t, snap, target)
      {
        assert !Taken(w, w.heap[q], t) || Doomed(w, t, snap, target);
      }
    }
  }

  lemma PlansKept(w: World, w': World, t: Xid, x: Txn, from: nat)
    requires OnlyLocks(w, w', t) && PlansOk(w, t, x, from)
    ensures PlansOk(w', t, x, from)
  {
    hide KeyFree, OnlyLocks, PlansApart;
    forall i | from <= i < |x.plan|
      ensures PlanOk(w', t, x.snap, x.plan[i])
    {
      var p := x.plan[i];
      assert PlanOk(w, t, x.snap, p);
      SeenKept(w, w', t, x.snap, p.rid);
      if p.Update? {
        KeyFreeKept(w, w', t, x.snap, Some(p.rid), p.row, {});
      }
    }
  }

  lemma SeenKept(w: World, w': World, t: Xid, snap: Snapshot, r: Rid)
    requires OnlyLocks(w, w', t) && SeenOk(w, t, snap, r)
    ensures SeenOk(w', t, snap, r)
  {
  }

  /** A statement that still plans what it planned before stays in order. */
  lemma PlanningKept(w: World, w': World, t: Xid)
    requires Inv(w) && Owns(w, t) && OnlyLocks(w, w', t) && t in w'.txns
    requires Planning(w.txns[t].pc) && w'.txns[t].snap == w.txns[t].snap
    requires w'.txns[t].plan == w.txns[t].plan && w'.txns[t].seen <= w.txns[t].seen
    ensures SnapOk(w', w'.txns[t].snap) && PlansOk(w', t, w'.txns[t], 0)
    ensures forall r :: r in w'.txns[t].seen ==> SeenOk(w', t, w'.txns[t].snap, r)
  {
    hide Inv, LogOk, KeysOk, KeyStageOk, RowStageOk, PlansOk, SeenOk;
    OwnerAt(w, t);
    PlansKept(w, w', t, w.txns[t], 0);
    PlansDependOnPlan(w', t, w.txns[t], w'.txns[t], 0);
    forall r | r in w'.txns[t].seen
      ensures SeenOk(w', t, w'.txns[t].snap, r)
    {
      SeenKept(w, w', t, w.txns[t].snap, r);
    }
  }

  lemma PlansDependOnPlan(w: World, t: Xid, x: Txn, x': Txn, from: nat)
    requires PlansOk(w, t, x, from) && x'.plan == x.plan && x'.snap == x.snap
    ensures PlansOk(w, t, x', from)
  {
    hide PlanOk, PlansApart;
  }

  lemma PlanAdded(w: World, t: Xid, x: Txn, x': Txn, p: Plan)
    requires PlansOk(w, t, x, 0) && PlanOk(w, t, x.snap, p)
    requires x'.snap == x.snap && x'.plan == x.plan + [p]
    requires p.rid !in PlannedRids(x.plan) && (p.Update? && KeyOf(p.row).Some? ==> KeyOf(p.row) !in Claimed(x.plan))
    ensures PlansOk(w, t, x', 0)
  {
    hide PlanOk, PlansApart, PlannedRids, Claimed;
    ChooseApart(x.plan, p);
  }

  lemma ChooseStep(w: World, a: Action)
    requires Inv(w) && Enabled(w, a) && (a.ChooseDelete? || a.ChooseUpdate? || a.ChooseInsert?)
    ensures a.t in Next(w, a).txns && StatementOk(Next(w, a), a.t)
  {
    hide Inv, StatementOk, Enabled, Next;
    if a.ChooseDelete? || (a.ChooseUpdate? && KeyOf(a.row).None?) {
      PlanStep(w, a);
    } else {
      AskStep(w, a);
    }
  }

  lemma AskStep(w: World, a: Action)
    requires Inv(w) && Enabled(w, a) && (a.ChooseInsert? || (a.ChooseUpdate? && KeyOf(a.row).Some?))
    ensures a.t in Next(w, a).txns && StatementOk(Next(w, a), a.t)
  {
    hide Inv, LogOk, KeysOk, PlansOk, SeenOk, PlannedRids, Claimed, OnlyLocks;
    OwnerAt(w, a.t);
    SameLocks(w, Next(w, a), a.t);
    PlanningKept(w, Next(w, a), a.t);
  }

  lemma PlanStep(w: World, a: Action)
    requires Inv(w) && Enabled(w, a) && (a.ChooseDelete? || (a.ChooseUpdate? && KeyOf(a.row).None?))
    ensures a.t in Next(w, a).txns && StatementOk(Next(w, a), a.t)
  {
    hide Inv, LogOk, KeysOk, PlansOk, SeenOk, PlannedRids, Claimed, OnlyLocks;
    var t, w' := a.t, Next(w, a);
    OwnerAt(w, t);
    var x, x' := w.txns[t], w'.txns[t];
    var p := if a.ChooseDelete? then Delete(a.r) else Update(a.r, a.row);
    assert OnlyLocks(w, w', t) by { SameLocks(w, w', t); }
    forall r | r in x.seen
      ensures SeenOk(w', t, x.snap, r)
    {
      SeenKept(w, w', t, x.snap, r);
    }
    PlansKept(w, w', t, x, 0);
    PlanAdded(w', t, x, x', p);
  }

  lemma SameLocks(w: World, w': World, t: Xid)
    requires w'.heap == w.heap && w'.tm == w.tm && w'.clean == w.clean && w'.rowLocks == w.rowLocks
    requires w'.keyLocks == w.keyLocks
    ensures OnlyLocks(w, w', t)
  {
  }

  lemma KeyDoneStep(w: World, t: Xid)
    requires Inv(w) && Enabled(w, KeyDone(t))
    ensures t in Next(w, KeyDone(t)).txns && StatementOk(Next(w, KeyDone(t)), t)
  {
    hide Inv, LogOk, KeysOk, PlansOk, SeenOk, PlannedRids, Claimed;
    hide AfterRead, AfterChoose, AfterStore, AfterRow, AfterUndo, AfterEnd;
    var w' := Next(w, KeyDone(t));
    OwnerAt(w, t);
    var x, x' := w.txns[t], w'.txns[t];
    KeyFreeKept(w, w', t, x.snap, x.pc.target, x.pc.row, {});
    if x.pc.target.None? {
      PlanningKept(w, w', t);
    } else {
      forall r | r in x.seen
        ensures SeenOk(w', t, x.snap, r)
      {
        SeenKept(w, w', t, x.snap, r);
      }
      PlansKept(w, w', t, x, 0);
      PlanAdded(w', t, x, x', Update(x.pc.target.value, x.pc.row));
    }
  }

  lemma KeyLockStep(w: World, t: Xid)
    requires Inv(w) && Enabled(w, LockKey(t))
    ensures t in Next(w, LockKey(t)).txns && StatementOk(Next(w, LockKey(t)), t)
  {
    hide Inv, LogOk, KeysOk, PlansOk, SeenOk;
    OwnerAt(w, t);
    PlanningKept(w, Next(w, LockKey(t)), t);
  }

  lemma SearchStep(w: World, t: Xid)
    requires Inv(w) && Enabled(w, Search(t))
    ensures t in Next(w, Search(t)).txns && StatementOk(Next(w, Search(t)), t)
  {
    hide Inv, LogOk, KeysOk, PlansOk, SeenOk, WithKey, OnlyLocks;
    var w' := Next(w, Search(t));
    OwnerAt(w, t);
    SameLocks(w, w', t);
    PlanningKept(w, w', t);
    var k := KeyOf(w.txns[t].pc.row).value;
    forall q | q in w.heap && KeyOf(w.heap[q].row) == Some(k)
      ensures q in WithKey(w.index, k)
    {
      SearchCovers(w, t, k, q);
    }
  }

  lemma PassRidStep(w: World, t: Xid, r: Rid)
    requires Inv(w) && Enabled(w, PassRid(t, r))
    ensures t in Next(w, PassRid(t, r)).txns && StatementOk(Next(w, PassRid(t, r)), t)
  {
    hide Inv, LogOk, KeysOk, PlansOk, SeenOk, Passes, KeyFree, OnlyLocks;
    var w' := Next(w, PassRid(t, r));
    OwnerAt(w, t);
    SameLocks(w, w', t);
    PlanningKept(w, w', t);
    PassStep(w, t, r);
    var pc := w.txns[t].pc;
    KeyFreeKept(w, w', t, w.txns[t].snap, pc.target, pc.row, pc.todo - {r});
  }

  lemma ReadStep(w: World, a: Action)
    requires Inv(w) && Enabled(w, a) && (a.ReadNext? || a.ReadOpen? || a.See?)
    ensures a.t in Next(w, a).txns && StatementOk(Next(w, a), a.t)
  {
    hide Inv, LogOk, KeysOk, KeyFree;
    var t, w' := a.t, Next(w, a);
    OwnerAt(w, t);
    if a.See? {
      SeeStep(w, t, a.r);
      PlansKept(w, w', t, w.txns[t], 0);
      PlansDependOnPlan(w', t, w.txns[t], w'.txns[t], 0);
      forall r | r in w'.txns[t].seen
        ensures SeenOk(w', t, w'.txns[t].snap, r)
      {
        SeenKept(w, w', t, w.txns[t].snap, r);
      }
    }
  }

  lemma ApplyKeepsPlans(w: World, a: Action)
    requires Inv(w) && Enabled(w, a) && (a.StartApply? || a.LockRow? || a.PassRow?)
    ensures a.t in Next(w, a).txns && PlansOk(Next(w, a), a.t, Next(w, a).txns[a.t], 0)
  {
    hide Inv, LogOk, KeysOk, KeyFree, SeenOk;
    var t, w' := a.t, Next(w, a);
    OwnerAt(w, t);
    assert OnlyLocks(w, w', t);
    PlansKept(w, w', t, w.txns[t], 0);
    PlansDependOnPlan(w', t, w.txns[t], w'.txns[t], 0);
  }

  lemma ApplyStep(w: World, a: Action)
    requires Inv(w) && Enabled(w, a) && (a.StartApply? || a.LockRow? || a.PassRow?)
    ensures a.t in Next(w, a).txns && StatementOk(Next(w, a), a.t)
  {
    hide Inv, LogOk, KeysOk, KeyFree, SeenOk, PlansOk;
    hide AfterRead, AfterChoose, AfterKey, AfterStore, AfterUndo, AfterEnd;
    var t, w' := a.t, Next(w, a);
    OwnerAt(w, t);
    ApplyKeepsPlans(w, a);
    if a.PassRow? {
      ClearRowIsUnmarked(w, t);
    }
  }

  lemma EntryStep(w: World, t: Xid)
    requires Inv(w) && Enabled(w, AddEntry(t))
    ensures t in Next(w, AddEntry(t)).txns && StatementOk(Next(w, AddEntry(t)), t)
  {
    hide Inv, LogOk, KeysOk, KeyFree, SeenOk, PlansOk;
    var w' := Next(w, AddEntry(t));
    OwnerAt(w, t);
    if w.txns[t].pc.IndexInsert? {
      PlanningKept(w, w', t);
    } else {
      PlansKept(w, w', t, w.txns[t], 0);
      PlansDependOnPlan(w', t, w.txns[t], w'.txns[t], 0);
    }
  }

  lemma AtRest(w: World, t: Xid)
    requires t in w.txns && (w.txns[t].pc.Idle? || w.txns[t].pc.Undoing? || w.txns[t].pc.Aborting?)
    ensures StatementOk(w, t)
  {
  }

  lemma RestStep(w: World, a: Action)
    requires Inv(w) && Enabled(w, a) && (a.EndStatement? || a.Fail? || a.Unwound? || a.StartAbort?)
    ensures a.t in Next(w, a).txns && StatementOk(Next(w, a), a.t)
  {
    hide Inv, StatementOk;
    AtRest(Next(w, a), a.t);
  }

  /** A move keeps heap, commit status and log, and leaves the transaction undecided. */
  ghost predicate Shape(w: World, w': World, t: Xid) {
    && Owns(w, t) && Owns(w', t) && w'.heap == w.heap && w'.tm == w.tm && w'.clean == w.clean && w.index <= w'.index
    && !Unwinding(w.txns[t]) && !w'.txns[t].pc.IndexInsert? && !w'.txns[t].pc.IndexUpdate?
    && (w.txns[t].pc.IndexInsert? || w.txns[t].pc.IndexUpdate? ==>
          w'.index == w.index + EntriesOf(w.txns[t].pc.rid, w.txns[t].pc.row))
    && w'.txns[t].undo == w.txns[t].undo && !w.txns[t].pc.NewStored? && !w'.txns[t].pc.NewStored?
  }

  lemma ShapeOfReads(w: World, a: Action)
    requires Enabled(w, a) && (a.ReadNext? || a.ReadOpen? || a.See?)
    ensures Shape(w, Next(w, a), a.t)
  {
    hide Passes, WithKey, Free, KeyOf, EntriesOf, PlannedRids, Claimed, Conflicting;
  }

  lemma ShapeOfChoices(w: World, a: Action)
    requires Enabled(w, a) && (a.ChooseDelete? || a.ChooseUpdate? || a.ChooseInsert?)
    ensures Shape(w, Next(w, a), a.t)
  {
    hide Passes, WithKey, Free, KeyOf, EntriesOf, PlannedRids, Claimed, Conflicting;
  }

  lemma ShapeOfLock(w: World, a: Action)
    requires Enabled(w, a) && a.LockKey?
    ensures Shape(w, Next(w, a), a.t)
  {
    hide Passes, WithKey, Free, KeyOf, EntriesOf, PlannedRids, Claimed, Conflicting;
  }

  lemma ShapeOfSearch(w: World, a: Action)
    requires Enabled(w, a) && a.Search?
    ensures Shape(w, Next(w, a), a.t)
  {
    hide Passes, WithKey, Free, KeyOf, EntriesOf, PlannedRids, Claimed, Conflicting;
  }

  lemma ShapeOfPass(w: World, a: Action)
    requires Enabled(w, a) && a.PassRid?
    ensures Shape(w, Next(w, a), a.t)
  {
    hide Passes, WithKey, Free, KeyOf, EntriesOf, PlannedRids, Claimed, Conflicting;
  }

  lemma ShapeOfKeyDone(w: World, a: Action)
    requires Enabled(w, a) && a.KeyDone?
    ensures Shape(w, Next(w, a), a.t)
  {
    hide Passes, WithKey, Free, KeyOf, EntriesOf, PlannedRids, Claimed, Conflicting;
  }

  lemma ShapeOfRows(w: World, a: Action)
    requires Enabled(w, a) && (a.StartApply? || a.LockRow? || a.PassRow?)
    ensures Shape(w, Next(w, a), a.t)
  {
    hide Passes, WithKey, Free, KeyOf, EntriesOf, PlannedRids, Claimed, Conflicting;
  }

  lemma ShapeOfEnds(w: World, a: Action)
    requires Enabled(w, a) && (a.EndStatement? || a.StartAbort?)
    ensures Shape(w, Next(w, a), a.t)
  {
    hide Passes, WithKey, Free, KeyOf, EntriesOf, PlannedRids, Claimed, Conflicting;
  }

  lemma ShapeOfUndo(w: World, a: Action)
    requires Enabled(w, a) && (a.Fail? || (a.Unwound? && !a.release))
    ensures Shape(w, Next(w, a), a.t)
  {
    hide Passes, WithKey, Free, KeyOf, EntriesOf, PlannedRids, Claimed, Conflicting;
  }

  lemma ShapeOfEntry(w: World, a: Action)
    requires Enabled(w, a) && a.AddEntry?
    ensures Shape(w, Next(w, a), a.t)
  {
    hide Passes, WithKey, Free, KeyOf, EntriesOf, PlannedRids, Claimed, Conflicting;
  }

  lemma MoveShape(w: World, a: Action)
    requires Enabled(w, a) && Move(a)
    ensures Shape(w, Next(w, a), a.t)
  {
    hide Enabled, Next, Shape;
    if a.ReadNext? || a.ReadOpen? || a.See? {
      ShapeOfReads(w, a);
    } else if a.ChooseDelete? || a.ChooseUpdate? || a.ChooseInsert? {
      ShapeOfChoices(w, a);
    } else if a.LockKey? {
      ShapeOfLock(w, a);
    } else if a.Search? {
      ShapeOfSearch(w, a);
    } else if a.PassRid? {
      ShapeOfPass(w, a);
    } else if a.KeyDone? {
      ShapeOfKeyDone(w, a);
    } else if a.StartApply? || a.LockRow? || a.PassRow? {
      ShapeOfRows(w, a);
    } else if a.EndStatement? || a.StartAbort? {
      ShapeOfEnds(w, a);
    } else if a.Fail? || (a.Unwound? && !a.release) {
      ShapeOfUndo(w, a);
    } else {
      ShapeOfEntry(w, a);
    }
  }

  lemma MoveStatement(w: World, a: Action)
    requires Inv(w) && Enabled(w, a) && Move(a)
    ensures a.t in Next(w, a).txns && StatementOk(Next(w, a), a.t)
  {
    MoveShape(w, a);
    hide Inv, Enabled, Next, StatementOk;
    match a {
      case ReadNext(_) => ReadStep(w, a);
      case ReadOpen(_) => ReadStep(w, a);
      case See(_, _) => ReadStep(w, a);
      case ChooseDelete(_, _) => ChooseStep(w, a);
      case ChooseUpdate(_, _, _) => ChooseStep(w, a);
      case ChooseInsert(_, _) => ChooseStep(w, a);
      case LockKey(t) => KeyLockStep(w, t);
      case Search(t) => SearchStep(w, t);
      case PassRid(t, r) => PassRidStep(w, t, r);
      case KeyDone(_) => KeyDoneStep(w, a.t);
      case StartApply(_) => ApplyStep(w, a);
      case LockRow(_) => ApplyStep(w, a);
      case PassRow(_) => ApplyStep(w, a);
      case AddEntry(t) => EntryStep(w, t);
      case _ => RestStep(w, a);
    }
  }

  lemma MoveStep(w: World, a: Action)
    requires Inv(w) && Enabled(w, a) && Move(a)
    ensures a.t in Next(w, a).txns && OwnerOk(Next(w, a), a.t)
  {
    hide Inv, Enabled, Next, LogOk, KeysOk, StatementOk;
    MoveShape(w, a);
    LogKept(w, Next(w, a), a.t);
    MoveStatement(w, a);
  }
}
