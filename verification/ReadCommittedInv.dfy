/** The invariant of the read-committed system, and why one session's step leaves the others' parts of it intact. */
module ReadCommittedInv {
  import opened Options
  import opened Heap
  import opened TxnManager
  import opened ReadCommitted

  predicate Undecided(pc: Pc) {
    !pc.Committing? && !pc.Closing? && !pc.Ended?
  }

  /** `t` is running or unwinding: it may still commit, or still has writes to take back. */
  predicate Owns(w: World, t: Xid) {
    t in w.txns && Undecided(w.txns[t].pc)
  }

  predicate HoldsRow(w: World, t: Xid, r: Rid) {
    r in w.rowLocks && w.rowLocks[r] == t
  }

  predicate HoldsKey(w: World, t: Xid, k: int) {
    k in w.keyLocks && w.keyLocks[k] == t
  }

  // ------------------------------------------------------------------ versions

  /** Creator and deleter are committed or still own the version; an owner holds the locks that go with it. */
  ghost predicate VersionOk(w: World, r: Rid)
    requires r in w.heap
  {
    var v := w.heap[r];
    && r != 0 && v.creator != 0
    && (Committed(w, v.creator) || Owns(w, v.creator))
    && (v.deleter == 0 || Committed(w, v.deleter) || Owns(w, v.deleter))
    && (v.deleter == 0 ==> v.next == 0)
    && (w.clean && v.next in w.heap ==> w.heap[v.next].creator == v.deleter)
    && (Owns(w, v.creator) ==> v.deleter == 0 || v.deleter == v.creator)
    && (Owns(w, v.creator) && KeyOf(v.row).Some? ==> HoldsKey(w, v.creator, KeyOf(v.row).value))
    && (Owns(w, v.deleter) ==> HoldsRow(w, v.deleter, r))
  }

  ghost predicate HeapOk(w: World) {
    forall r :: r in w.heap ==> VersionOk(w, r)
  }

  // ------------------------------------------------------------------ transactions

  ghost predicate IdsOk(w: World) {
    && w.tm.next > 0 && w.tm.status.base <= w.tm.next
    && (forall x :: x in w.tm.status.marked ==> x < w.tm.next)
    && (forall x :: x in w.tm.open ==> x in w.txns)
    && (forall t :: t in w.txns ==> PhaseOk(w, t))
  }

  ghost predicate PhaseOk(w: World, t: Xid)
    requires t in w.txns
  {
    var pc := w.txns[t].pc;
    && 0 < t < w.tm.next
    && (Undecided(pc) ==> !Committed(w, t) && (!pc.Aborting? ==> t in w.tm.open))
    && (pc.Committing? || pc.Closing? ==> Committed(w, t))
    && (pc.Closing? ==> t !in w.tm.open)
    && (pc.Ended? && t in w.tm.open ==> !Committed(w, t))
  }

  ghost predicate CreatedAt(x: Txn, i: int, r: Rid) {
    0 <= i < |x.undo| && r in NewRows(x.undo[i])
  }

  ghost predicate MarkedAt(x: Txn, i: int, r: Rid) {
    0 <= i < |x.undo| && r in OldRows(x.undo[i])
  }

  /** An index entry waiting to be dropped: its key is still held, and no stored row has it in this slot. */
  ghost predicate Lapsed(w: World, t: Xid, r: Rid, row: Row) {
    KeyOf(row).Some? ==> HoldsKey(w, t, KeyOf(row).value) && !(r in w.heap && KeyOf(w.heap[r].row) == KeyOf(row))
  }

  ghost predicate Made(h: Versions, t: Xid, r: Rid) {
    r in h && h[r].creator == t
  }

  ghost predicate MarkedBy(h: Versions, t: Xid, r: Rid, next: Rid) {
    r in h && h[r].deleter == t && h[r].next == next
  }

  /** What an undo entry says is what the heap shows. */
  ghost predicate EntryOk(w: World, t: Xid, u: Owed) {
    match u
    case OweInsert(r, row) => Made(w.heap, t, r) && w.heap[r].row == row
    case OweEntry(r, row) => Lapsed(w, t, r, row)
    case OweMark(r, d, n) => d == 0 && n == 0 && MarkedBy(w.heap, t, r, 0)
    case OweUpdate(r, n, row, d, p) =>
      d == 0 && p == 0 && r != n && Made(w.heap, t, n) && w.heap[n].row == row && MarkedBy(w.heap, t, r, n)
    case OweUpdateEntry(r, n, row, d, p) =>
      d == 0 && p == 0 && !Made(w.heap, t, n) && MarkedBy(w.heap, t, r, n) && Lapsed(w, t, n, row)
    case OweRestore(r, n, d, p) => d == 0 && p == 0 && !Made(w.heap, t, n) && MarkedBy(w.heap, t, r, n)
  }

  /** Only the last entry can be taken back in part, and only while unwinding. */
  ghost predicate WholeBelow(x: Txn) {
    forall i :: 0 <= i < |x.undo| && !Whole(x.undo[i]) ==> i == |x.undo| - 1 && Unwinding(x)
  }

  /** No row is created or marked twice, and none is marked before it is created. */
  ghost predicate LogApart(x: Txn) {
    && (forall i, j, r :: CreatedAt(x, i, r) && CreatedAt(x, j, r) ==> i == j)
    && (forall i, j, r :: MarkedAt(x, i, r) && MarkedAt(x, j, r) ==> i == j)
    && (forall i, j, r :: MarkedAt(x, i, r) && CreatedAt(x, j, r) ==> j < i)
  }

  /** The undo log and the transaction's versions and marks in the heap account for each other. */
  ghost predicate LogOk(w: World, t: Xid)
    requires t in w.txns
  {
    var x := w.txns[t];
    && (forall i :: 0 <= i < |x.undo| ==> EntryOk(w, t, x.undo[i]))
    && WholeBelow(x)
    && (forall r :: r in w.heap && w.heap[r].creator == t ==> x.pc == NewStored(r) || exists i :: CreatedAt(x, i, r))
    && (forall r :: r in w.heap && w.heap[r].deleter == t ==> exists i :: MarkedAt(x, i, r))
    && LogApart(x)
    && (x.pc.NewStored? ==>
        x.pc.newRid in w.heap && w.heap[x.pc.newRid].creator == t && w.heap[x.pc.newRid].deleter == 0
                            && forall i :: !CreatedAt(x, i, x.pc.newRid))
  }

  predicate SameKey(h: Versions, a: Rid, b: Rid) {
    a in h && b in h && a != b && KeyOf(h[a].row).Some? && KeyOf(h[a].row) == KeyOf(h[b].row)
  }

  /** `a` gave up its key no later than log position `j`, or got it after `j`. */
  ghost predicate Settled(w: World, t: Xid, a: Rid, j: int)
    requires t in w.txns && a in w.heap
  {
    var x := w.txns[t];
    || Committed(w, w.heap[a].deleter)
    || (exists i :: i <= j && MarkedAt(x, i, a))
    || (exists i :: j < i && CreatedAt(x, i, a))
    || x.pc == NewStored(a)
  }

  /** Whenever `t` stored a key, every other version with that key had already given it up. */
  ghost predicate KeysOk(w: World, t: Xid)
    requires t in w.txns
  {
    w.clean ==>
      var x := w.txns[t];
      && (forall a, b, j :: CreatedAt(x, j, b) && SameKey(w.heap, a, b) ==> Settled(w, t, a, j))
      && (x.pc.NewStored? ==>
            && x.plan != []
            && forall a :: SameKey(w.heap, a, x.pc.newRid) && a != x.plan[0].rid ==> Settled(w, t, a, |x.undo|))
  }

  // ------------------------------------------------------------------ running statements

  /** Transactions still open are invisible to the snapshot. */
  ghost predicate SnapOk(w: World, snap: Snapshot) {
    && snap.xmax <= w.tm.next
    && forall x :: x in w.tm.open && x < snap.xmax ==> x in snap.xip
  }

  ghost predicate Gone(w: World, t: Xid, snap: Snapshot, v: Version) {
    v.deleter != 0 && (v.deleter == t || w.tm.CommittedBefore(snap, v.deleter))
  }

  /** A row the statement saw is still there, and not deleted as far as its snapshot is concerned. */
  ghost predicate SeenOk(w: World, t: Xid, snap: Snapshot, r: Rid) {
    && r in w.heap
    && (w.heap[r].creator == t || Committed(w, w.heap[r].creator))
    && !Gone(w, t, snap, w.heap[r])
  }

  ghost predicate Doomed(w: World, t: Xid, snap: Snapshot, target: Option<Rid>) {
    target.Some? && target.value in w.heap && Conflicting(w, t, snap, w.heap[target.value].deleter)
  }

  /** No version but `target` and those in `todo` holds the row's key, unless updating `target` must be retried. */
  ghost predicate KeyFree(w: World, t: Xid, snap: Snapshot, target: Option<Rid>, row: Row, todo: set<Rid>) {
    KeyOf(row).Some? ==>
      && HoldsKey(w, t, KeyOf(row).value)
      && (w.clean ==>
            forall q :: q in w.heap && KeyOf(w.heap[q].row) == KeyOf(row) && target != Some(q) && q !in todo
                        ==> !Taken(w, w.heap[q], t) || Doomed(w, t, snap, target))
  }

  ghost predicate PlanOk(w: World, t: Xid, snap: Snapshot, p: Plan) {
    && SeenOk(w, t, snap, p.rid)
    && (p.Update? ==> KeyFree(w, t, snap, Some(p.rid), p.row, {}))
  }

  ghost predicate PlanApart(p: Plan, q: Plan) {
    && p.rid != q.rid
    && (p.Update? && q.Update? && KeyOf(p.row).Some? ==> KeyOf(p.row) != KeyOf(q.row))
  }

  ghost predicate PlansApart(plan: seq<Plan>) {
    forall i, j :: 0 <= i < |plan| && 0 <= j < |plan| && i != j ==> PlanApart(plan[i], plan[j])
  }

  ghost predicate PlansOk(w: World, t: Xid, x: Txn, from: nat) {
    PlansApart(x.plan) && forall i :: from <= i < |x.plan| ==> PlanOk(w, t, x.snap, x.plan[i])
  }

  /** The row being updated is a seen one not planned yet, and its new key is not claimed by the statement. */
  ghost predicate TargetOk(x: Txn, target: Option<Rid>, row: Row) {
    && KeyOf(row).Some?
    && (target.None? ==> x.plan == [])
    && (target.Some? ==>
        target.value in x.seen && target.value !in PlannedRids(x.plan) && KeyOf(row) !in Claimed(x.plan))
  }

  predicate Planning(pc: Pc) {
    pc.Running? || pc.AskKey? || pc.KeyHeld? || pc.CheckKey? || pc.InsertNow? || pc.IndexInsert?
  }

  predicate Storing(pc: Pc) {
    pc.Applying? || pc.RowLocked? || pc.RowClear? || pc.NewStored? || pc.IndexUpdate?
  }

  ghost predicate StatementOk(w: World, t: Xid)
    requires t in w.txns
  {
    var x := w.txns[t];
    && (x.pc.HalfSnapshot? ==> x.pc.xmax <= w.tm.next)
    && (Planning(x.pc) ==> SnapOk(w, x.snap) && PlansOk(w, t, x, 0) &&
                           forall r :: r in x.seen ==> SeenOk(w, t, x.snap, r))
    && (Storing(x.pc) ==> SnapOk(w, x.snap) && PlansOk(w, t, x, if x.pc.NewStored? then 1 else 0))
    && KeyStageOk(w, t, x)
    && RowStageOk(w, t, x)
  }

  ghost predicate KeyStageOk(w: World, t: Xid, x: Txn) {
    match x.pc
    case AskKey(target, row) => TargetOk(x, target, row)
    case KeyHeld(target, row) => TargetOk(x, target, row) && HoldsKey(w, t, KeyOf(row).value)
    case CheckKey(target, row, todo) => TargetOk(x, target, row) && KeyFree(w, t, x.snap, target, row, todo)
    case InsertNow(row) => x.plan == [] && KeyFree(w, t, x.snap, None, row, {})
    case IndexInsert(r, row) => Made(w.heap, t, r) && w.heap[r].row == row
    case IndexUpdate(r, row) => Made(w.heap, t, r) && w.heap[r].row == row
    case _ => true
  }

  ghost predicate RowStageOk(w: World, t: Xid, x: Txn) {
    && (x.pc.RowLocked? || x.pc.RowClear? || x.pc.NewStored? ==> x.plan != [] && HoldsRow(w, t, x.plan[0].rid))
    && (x.pc.RowClear? || x.pc.NewStored? ==> x.plan[0].rid in w.heap && w.heap[x.plan[0].rid].deleter == 0)
    && (x.pc.NewStored? ==>
          && x.plan[0].Update? && x.pc.newRid in w.heap && w.heap[x.pc.newRid].row == x.plan[0].row
          && x.pc.newRid != x.plan[0].rid
          && (w.heap[x.plan[0].rid].creator == t || Committed(w, w.heap[x.plan[0].rid].creator)))
  }

  // ------------------------------------------------------------------ the invariant

  ghost predicate OwnerOk(w: World, t: Xid)
    requires t in w.txns
  {
    LogOk(w, t) && KeysOk(w, t) && StatementOk(w, t)
  }

  ghost predicate OwnersOk(w: World) {
    forall t :: Owns(w, t) ==> OwnerOk(w, t)
  }

  /** The version is live in the committed state. */
  predicate Live(w: World, r: Rid)
    requires r in w.heap
  {
    Committed(w, w.heap[r].creator) && !Committed(w, w.heap[r].deleter)
  }

  ghost predicate UniqueOk(w: World) {
    w.clean ==> forall a, b :: SameKey(w.heap, a, b) ==> !(Live(w, a) && Live(w, b))
  }

  /** The transaction has stored `r` and not yet entered it in the index. */
  predicate Entering(pc: Pc, r: Rid) {
    pc == NewStored(r) || (pc.IndexInsert? && pc.rid == r) || (pc.IndexUpdate? && pc.rid == r)
  }

  /** Every stored key is in the index, or about to be entered by the transaction that stored it. */
  ghost predicate IndexOk(w: World) {
    forall r :: r in w.heap && KeyOf(w.heap[r].row).Some? ==>
      || (KeyOf(w.heap[r].row).value, r) in w.index
      || (w.heap[r].creator in w.txns && Entering(w.txns[w.heap[r].creator].pc, r))
  }

  /** A claimed version carries its claimant's mark for as long as it is stored. */
  ghost predicate ClaimsOk(w: World) {
    && (forall r :: r in w.heap ==> r in w.birth && w.birth[r] < w.births)
    && (forall r, s :: r in w.heap && s in w.heap && r != s ==> w.birth[r] != w.birth[s])
    && (forall c :: c in w.claims ==> c.0 < w.births && Committed(w, c.1))
    && (forall c, r :: c in w.claims && r in w.heap && w.birth[r] == c.0 ==> w.heap[r].deleter == c.1)
    && (forall c, d :: c in w.claims && d in w.claims && c.0 == d.0 ==> c.1 == d.1)
  }

  ghost predicate Inv(w: World) {
    IdsOk(w) && HeapOk(w) && OwnersOk(w) && UniqueOk(w) && ClaimsOk(w) && IndexOk(w)
  }

  lemma VersionAt(w: World, r: Rid)
    requires Inv(w) && r in w.heap
    ensures VersionOk(w, r)
  {
  }

  lemma OwnerAt(w: World, t: Xid)
    requires Inv(w) && Owns(w, t)
    ensures LogOk(w, t) && KeysOk(w, t) && StatementOk(w, t) && PhaseOk(w, t)
  {
    assert OwnerOk(w, t);
  }

  lemma PhaseAt(w: World, t: Xid)
    requires Inv(w) && t in w.txns
    ensures PhaseOk(w, t)
  {
  }

  // ------------------------------------------------------------------ a step as the other sessions see it

  ghost predicate TmQuiet(w: World, w': World, t: Xid) {
    && w.tm.next <= w'.tm.next
    && (forall x :: x != t ==> (x in w.tm.open <==> x in w'.tm.open))
    && (forall x :: x in w'.tm.open ==> x in w.tm.open || w.tm.next <= x)
    && (forall x :: Committed(w, x) ==> Committed(w', x))
    && (forall x :: Committed(w', x) && !Committed(w, x) ==> x == t && t in w.tm.open && w'.heap == w.heap)
  }

  ghost predicate LocksQuiet(w: World, w': World, t: Xid) {
    && (forall x, r: Rid :: x != t ==> (HoldsRow(w, x, r) <==> HoldsRow(w', x, r)))
    && (forall x, k: int :: x != t ==> (HoldsKey(w, x, k) <==> HoldsKey(w', x, k)))
  }

  /**
   Only versions `t` owns go away, only rows `t` has locked change their mark, only keys `t` has locked are
   stored.
   */
  ghost predicate RowQuiet(w: World, w': World, t: Xid, r: Rid) {
    && (r in w.heap && r !in w'.heap ==> w.heap[r].creator == t)
    && (r in w.heap && r in w'.heap && w'.heap[r] != w.heap[r] ==>
          && HoldsRow(w, t, r)
          && (w.heap[r].creator == t || Committed(w, w.heap[r].creator))
          && (w.heap[r].deleter == 0 || w.heap[r].deleter == t)
          && (w'.heap[r].deleter == 0 || w'.heap[r].deleter == t)
          && w'.heap[r] == w.heap[r].(deleter := w'.heap[r].deleter, next := w'.heap[r].next))
    && (r !in w.heap && r in w'.heap ==>
          && w'.heap[r].creator == t && w'.heap[r].deleter == 0
          && (KeyOf(w'.heap[r].row).Some? ==> HoldsKey(w', t, KeyOf(w'.heap[r].row).value)))
  }

  ghost predicate Quiet(w: World, w': World, t: Xid) {
    && (forall x :: x != t ==> (x in w.txns <==> x in w'.txns) && (x in w.txns ==> w'.txns[x] == w.txns[x]))
    && TmQuiet(w, w', t) && LocksQuiet(w, w', t)
    && (forall r :: RowQuiet(w, w', t, r))
    && (w'.heap != w.heap ==> Owns(w, t))
    && (w'.clean ==> w.clean)
  }

  /** What a snapshot counts as committed does not change under other sessions' steps. */
  lemma FrameSnapshot(w: World, w': World, t: Xid, snap: Snapshot)
    requires TmQuiet(w, w', t) && SnapOk(w, snap)
    ensures SnapOk(w', snap)
    ensures forall x :: w'.tm.CommittedBefore(snap, x) <==> w.tm.CommittedBefore(snap, x)
  {
    forall x
      ensures w'.tm.CommittedBefore(snap, x) <==> w.tm.CommittedBefore(snap, x)
    {
      assert Committed(w, x) ==> Committed(w', x);
      assert Committed(w', x) && !Committed(w, x) ==> x in w.tm.open;
    }
  }

  /** Versions and marks of `x` are left alone by the others. */
  lemma FrameOwn(w: World, w': World, t: Xid, x: Xid, r: Rid)
    requires Inv(w) && Quiet(w, w', t) && x != t && Owns(w, x)
    ensures r in w.heap && (w.heap[r].creator == x || w.heap[r].deleter == x) ==> r in w'.heap
    ensures r in w.heap && (w.heap[r].creator == x || w.heap[r].deleter == x) ==> w'.heap[r] == w.heap[r]
    ensures r in w'.heap && (w'.heap[r].creator == x || w'.heap[r].deleter == x) ==> r in w.heap
    ensures r in w'.heap && (w'.heap[r].creator == x || w'.heap[r].deleter == x) ==> w.heap[r] == w'.heap[r]
  {
    hide Inv, TmQuiet, LocksQuiet;
    PhaseAt(w, x);
    assert RowQuiet(w, w', t, r);
    if r in w.heap {
      VersionAt(w, r);
    }
  }

  lemma FrameLapsed(w: World, w': World, t: Xid, x: Xid, r: Rid, row: Row)
    requires Quiet(w, w', t) && x != t && Lapsed(w, x, r, row)
    ensures Lapsed(w', x, r, row)
  {
    hide TmQuiet;
    assert RowQuiet(w, w', t, r);
    assert KeyOf(row).Some? ==> HoldsKey(w', x, KeyOf(row).value);
  }

  lemma FrameEntry(w: World, w': World, t: Xid, x: Xid, u: Owed)
    requires Inv(w) && Quiet(w, w', t) && x != t && Owns(w, x) && EntryOk(w, x, u)
    ensures EntryOk(w', x, u)
  {
    hide Inv, Quiet, Lapsed;
    FrameOwn(w, w', t, x, u.rid);
    match u {
      case OweInsert(r, row) =>
      case OweEntry(r, row) => FrameLapsed(w, w', t, x, r, row);
      case OweMark(r, d, n) =>
      case OweUpdate(r, n, row, d, p) => FrameOwn(w, w', t, x, n);
      case OweUpdateEntry(r, n, row, d, p) =>
        FrameOwn(w, w', t, x, n);
        FrameLapsed(w, w', t, x, n, row);
      case OweRestore(r, n, d, p) => FrameOwn(w, w', t, x, n);
    }
  }

  lemma FrameLog(w: World, w': World, t: Xid, x: Xid)
    requires Inv(w) && Quiet(w, w', t) && x != t && Owns(w, x)
    ensures LogOk(w', x)
  {
    hide Inv, TmQuiet, LocksQuiet, KeysOk, StatementOk, EntryOk, RowQuiet;
    OwnerAt(w, x);
    var y := w.txns[x];
    forall r
      ensures r in w.heap && (w.heap[r].creator == x || w.heap[r].deleter == x) ==> r in w'.heap
      ensures r in w.heap && (w.heap[r].creator == x || w.heap[r].deleter == x) ==> w'.heap[r] == w.heap[r]
      ensures r in w'.heap && (w'.heap[r].creator == x || w'.heap[r].deleter == x) ==> r in w.heap
      ensures r in w'.heap && (w'.heap[r].creator == x || w'.heap[r].deleter == x) ==> w.heap[r] == w'.heap[r]
    {
      FrameOwn(w, w', t, x, r);
    }
    forall i | 0 <= i < |y.undo|
      ensures EntryOk(w', x, y.undo[i])
    {
      FrameEntry(w, w', t, x, y.undo[i]);
    }
  }

  lemma FrameRow(w: World, w': World, t: Xid, x: Xid, r: Rid)
    requires Inv(w) && Quiet(w, w', t) && x != t && r in w.heap
    requires w.heap[r].creator == x || Committed(w, w.heap[r].creator)
    requires Owns(w, x) || w'.heap == w.heap
    ensures r in w'.heap && w'.heap[r].creator == w.heap[r].creator && w'.heap[r].row == w.heap[r].row
    ensures w'.heap[r].deleter == w.heap[r].deleter ||
            (w.heap[r].deleter in {0, t} && w'.heap[r].deleter in {0, t} && Owns(w, t))
  {
    hide Inv, TmQuiet, LocksQuiet;
    assert RowQuiet(w, w', t, r);
    if w'.heap != w.heap {
      PhaseAt(w, t);
    }
  }

  lemma FrameKeys(w: World, w': World, t: Xid, x: Xid)
    requires Inv(w) && Quiet(w, w', t) && x != t && Owns(w, x)
    ensures KeysOk(w', x)
  {
    hide Inv, StatementOk, RowQuiet;
    OwnerAt(w, x);
    FrameLog(w, w', t, x);
    var y := w.txns[x];
    forall a, b, j | w'.clean && CreatedAt(y, j, b) && SameKey(w'.heap, a, b)
      ensures Settled(w', x, a, j)
    {
      assert EntryOk(w, x, y.undo[j]) && EntryOk(w', x, y.undo[j]);
      SameKeyBefore(w, w', t, x, a, b);
      assert Settled(w, x, a, j);
    }
    if w'.clean && y.pc.NewStored? {
      forall a | SameKey(w'.heap, a, y.pc.newRid) && a != y.plan[0].rid
        ensures Settled(w', x, a, |y.undo|)
      {
        SameKeyBefore(w, w', t, x, a, y.pc.newRid);
        assert Settled(w, x, a, |y.undo|);
      }
    }
  }

  /** Nobody else stores a key that `x` holds, so versions sharing one with a version of `x` were there before. */
  lemma SameKeyBefore(w: World, w': World, t: Xid, x: Xid, a: Rid, b: Rid)
    requires Inv(w) && Quiet(w, w', t) && x != t && Owns(w, x)
    requires b in w.heap && w.heap[b].creator == x && SameKey(w'.heap, a, b)
    ensures SameKey(w.heap, a, b)
    ensures Committed(w, w.heap[a].deleter) ==> Committed(w', w'.heap[a].deleter)
  {
    hide Inv;
    VersionAt(w, b);
    PhaseAt(w, x);
    assert RowQuiet(w, w', t, a) && RowQuiet(w, w', t, b);
    if a in w.heap && w'.heap != w.heap {
      PhaseAt(w, t);
    }
    assert HoldsKey(w', x, KeyOf(w.heap[b].row).value);
  }

  lemma FrameSeen(w: World, w': World, t: Xid, x: Xid, snap: Snapshot, r: Rid)
    requires Inv(w) && Quiet(w, w', t) && x != t && Owns(w, x) && SnapOk(w, snap) && SeenOk(w, x, snap, r)
    ensures SeenOk(w', x, snap, r)
    ensures HoldsRow(w, x, r) ==> w'.heap[r] == w.heap[r]
  {
    hide Inv;
    PhaseAt(w, x);
    FrameSnapshot(w, w', t, snap);
    FrameRow(w, w', t, x, r);
    assert RowQuiet(w, w', t, r);
    if Owns(w, t) {
      PhaseAt(w, t);
    }
  }

  lemma FrameDoomed(w: World, w': World, t: Xid, x: Xid, snap: Snapshot, target: Option<Rid>)
    requires Inv(w) && Quiet(w, w', t) && x != t && Owns(w, x) && SnapOk(w, snap)
    requires Doomed(w, x, snap, target) && SeenOk(w, x, snap, target.value)
    ensures Doomed(w', x, snap, target)
  {
    hide Inv;
    FrameSnapshot(w, w', t, snap);
    FrameRow(w, w', t, x, target.value);
    if Owns(w, t) {
      PhaseAt(w, t);
    }
  }

  /** Under a held key, a version that gave the key up is marked by the holder or by a committed transaction. */
  lemma UntakenIsMarked(w: World, x: Xid, q: Rid)
    requires Inv(w) && q in w.heap && KeyOf(w.heap[q].row).Some? && HoldsKey(w, x, KeyOf(w.heap[q].row).value)
    ensures w.heap[q].creator == x || Committed(w, w.heap[q].creator)
    ensures !Taken(w, w.heap[q], x) ==> w.heap[q].deleter != 0
    ensures !Taken(w, w.heap[q], x) ==> (w.heap[q].deleter == x || Committed(w, w.heap[q].deleter))
  {
    hide Inv;
    VersionAt(w, q);
  }

  lemma FrameUntaken(w: World, w': World, t: Xid, x: Xid, q: Rid)
    requires Inv(w) && Quiet(w, w', t) && x != t && Owns(w, x)
    requires q in w'.heap && KeyOf(w'.heap[q].row).Some? && HoldsKey(w, x, KeyOf(w'.heap[q].row).value)
    ensures q in w.heap && w.heap[q].row == w'.heap[q].row
    ensures !Taken(w, w.heap[q], x) ==> !Taken(w', w'.heap[q], x)
  {
    hide Inv;
    assert RowQuiet(w, w', t, q);
    assert HoldsKey(w', x, KeyOf(w'.heap[q].row).value);
    UntakenIsMarked(w, x, q);
    FrameRow(w, w', t, x, q);
    PhaseAt(w, x);
    if Owns(w, t) {
      PhaseAt(w, t);
    }
  }

  lemma FrameKeyFree(w: World, w': World, t: Xid, x: Xid, snap: Snapshot, target: Option<Rid>, row: Row, todo: set<Rid>)
    requires Inv(w) && Quiet(w, w', t) && x != t && Owns(w, x) && SnapOk(w, snap)
    requires target.Some? ==> SeenOk(w, x, snap, target.value)
    requires KeyFree(w, x, snap, target, row, todo)
    ensures KeyFree(w', x, snap, target, row, todo)
  {
    hide Inv, Taken, Doomed;
    if KeyOf(row).Some? && w'.clean {
      forall q | q in w'.heap && KeyOf(w'.heap[q].row) == KeyOf(row) && target != Some(q) && q !in todo
        ensures !Taken(w', w'.heap[q], x) || Doomed(w', x, snap, target)
      {
        FrameUntaken(w, w', t, x, q);
        if Doomed(w, x, snap, target) {
          DoomedHasTarget(w, x, snap, target);
          FrameDoomed(w, w', t, x, snap, target);
        }
      }
    }
  }

  lemma DoomedHasTarget(w: World, x: Xid, snap: Snapshot, target: Option<Rid>)
    requires Doomed(w, x, snap, target)
    ensures target.Some?
  {
  }

  lemma FramePlans(w: World, w': World, t: Xid, x: Xid, y: Txn, from: nat)
    requires Inv(w) && Quiet(w, w', t) && x != t && Owns(w, x) && SnapOk(w, y.snap) && PlansOk(w, x, y, from)
    ensures PlansOk(w', x, y, from)
  {
    hide Inv, Quiet, SnapOk, SeenOk, KeyFree, PlanApart;
    forall i | from <= i < |y.plan|
      ensures PlanOk(w', x, y.snap, y.plan[i])
    {
      var p := y.plan[i];
      assert PlanOk(w, x, y.snap, p);
      FrameSeen(w, w', t, x, y.snap, p.rid);
      if p.Update? {
        FrameKeyFree(w, w', t, x, y.snap, Some(p.rid), p.row, {});
      }
    }
  }

  lemma FrameKeyStage(w: World, w': World, t: Xid, x: Xid)
    requires Inv(w) && Quiet(w, w', t) && x != t && Owns(w, x)
    ensures KeyStageOk(w', x, w.txns[x])
  {
    hide Inv, LogOk, KeysOk, SnapOk, SeenOk, KeyFree, PlansOk, RowStageOk;
    OwnerAt(w, x);
    var y := w.txns[x];
    match y.pc {
      case CheckKey(target, row, todo) => FrameKeyFree(w, w', t, x, y.snap, target, row, todo);
      case InsertNow(row) => FrameKeyFree(w, w', t, x, y.snap, None, row, {});
      case IndexInsert(r, row) => FrameOwn(w, w', t, x, r);
      case IndexUpdate(r, row) => FrameOwn(w, w', t, x, r);
      case _ =>
    }
  }

  lemma FrameRowStage(w: World, w': World, t: Xid, x: Xid)
    requires Inv(w) && Quiet(w, w', t) && x != t && Owns(w, x)
    ensures RowStageOk(w', x, w.txns[x])
  {
    hide Inv, KeysOk, SnapOk, KeyFree, KeyStageOk;
    OwnerAt(w, x);
    PhaseAt(w, x);
    var y := w.txns[x];
    if y.pc.RowClear? || y.pc.NewStored? {
      var r := y.plan[0].rid;
      if y.pc.RowClear? {
        assert PlanOk(w, x, y.snap, y.plan[0]);
      }
      FrameRow(w, w', t, x, r);
      assert RowQuiet(w, w', t, r);
    }
    if y.pc.NewStored? {
      FrameRow(w, w', t, x, y.pc.newRid);
    }
  }

  lemma FrameStatement(w: World, w': World, t: Xid, x: Xid)
    requires Inv(w) && Quiet(w, w', t) && x != t && Owns(w, x)
    ensures StatementOk(w', x)
  {
    hide Inv, LogOk, KeysOk, KeyFree, KeyStageOk, RowStageOk, PlansOk, SeenOk;
    OwnerAt(w, x);
    var y := w.txns[x];
    FrameKeyStage(w, w', t, x);
    FrameRowStage(w, w', t, x);
    if Planning(y.pc) || Storing(y.pc) {
      FrameSnapshot(w, w', t, y.snap);
      FramePlans(w, w', t, x, y, if y.pc.NewStored? then 1 else 0);
    }
    if Planning(y.pc) {
      forall r | r in y.seen
        ensures SeenOk(w', x, y.snap, r)
      {
        FrameSeen(w, w', t, x, y.snap, r);
      }
    }
  }

  /** A step of `t` leaves every other transaction's part of the invariant as it was. */
  lemma FrameOwner(w: World, w': World, t: Xid, x: Xid)
    requires Inv(w) && Quiet(w, w', t) && x != t && Owns(w, x)
    ensures OwnerOk(w', x)
  {
    hide Inv, LogOk, KeysOk, StatementOk;
    FrameLog(w, w', t, x);
    FrameKeys(w, w', t, x);
    FrameStatement(w, w', t, x);
  }
}
