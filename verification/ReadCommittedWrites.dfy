/** The steps that store, mark and take back versions keep the moving transaction's part of the invariant. */
module ReadCommittedWrites {
  import opened Options
  import opened Heap
  import opened TxnManager
  import opened ReadCommitted
  import opened ReadCommittedInv

  /** After a passed uniqueness check every other holder of the key has given it up for good. */
  lemma KeyIsSettled(w: World, t: Xid, target: Option<Rid>, row: Row, a: Rid)
    requires Inv(w) && Owns(w, t) && KeyFree(w, t, w.txns[t].snap, target, row, {})
    requires w.clean && !Doomed(w, t, w.txns[t].snap, target)
    requires a in w.heap && target != Some(a) && KeyOf(row).Some? && KeyOf(w.heap[a].row) == KeyOf(row)
    ensures Committed(w, w.heap[a].deleter) || exists i :: MarkedAt(w.txns[t], i, a)
  {
    hide Inv, KeysOk, StatementOk, Taken;
    OwnerAt(w, t);
    UntakenIsMarked(w, t, a);
  }

  // ------------------------------------------------------------------ storing a version

  ghost predicate Stored(w: World, w': World, t: Xid, r: Rid, row: Row) {
    r !in w.heap && r != 0 && w'.heap == w.heap[r := Version(t, 0, 0, row)] && w'.tm == w.tm && t in w'.txns
  }

  /** A version not in the log's reach is neither created nor marked by it. */
  lemma FreshIsUnlogged(w: World, t: Xid, r: Rid)
    requires Inv(w) && Owns(w, t) && r !in w.heap
    ensures forall i :: !CreatedAt(w.txns[t], i, r) && !MarkedAt(w.txns[t], i, r)
  {
    hide Inv, KeysOk, StatementOk;
    OwnerAt(w, t);
    forall i
      ensures !CreatedAt(w.txns[t], i, r) && !MarkedAt(w.txns[t], i, r)
    {
      if 0 <= i < |w.txns[t].undo| {
        assert EntryOk(w, t, w.txns[t].undo[i]);
      }
    }
  }

  lemma EntriesKeptByStore(w: World, w': World, t: Xid, r: Rid, row: Row)
    requires Inv(w) && Owns(w, t) && Stored(w, w', t, r, row) && !Unwinding(w.txns[t])
    ensures forall i :: 0 <= i < |w.txns[t].undo| ==> EntryOk(w', t, w.txns[t].undo[i]) && Whole(w.txns[t].undo[i])
  {
    hide Inv, KeysOk, StatementOk;
    OwnerAt(w, t);
    forall i | 0 <= i < |w.txns[t].undo|
      ensures EntryOk(w', t, w.txns[t].undo[i]) && Whole(w.txns[t].undo[i])
    {
      assert EntryOk(w, t, w.txns[t].undo[i]);
    }
  }

  /** The log grown by one entry that creates `r`. */
  lemma AppendedLog(x: Txn, x': Txn, u: Owed)
    requires x'.undo == x.undo + [u]
    ensures forall i, r :: CreatedAt(x', i, r) <==> CreatedAt(x, i, r) || (i == |x.undo| && r in NewRows(u))
    ensures forall i, r :: MarkedAt(x', i, r) <==> MarkedAt(x, i, r) || (i == |x.undo| && r in OldRows(u))
  {
  }

  lemma InsertIsLogged(w: World, t: Xid, r: Rid, s: Rid)
    requires Inv(w) && Enabled(w, Insert(t, r)) && s in Next(w, Insert(t, r)).heap
    ensures
      var w' := Next(w, Insert(t, r));
      && t in w'.txns
      && (w'.heap[s].creator == t ==> exists i :: CreatedAt(w'.txns[t], i, s))
      && (w'.heap[s].deleter == t ==> exists i :: MarkedAt(w'.txns[t], i, s))
  {
    hide Inv, KeysOk, StatementOk;
    var w' := Next(w, Insert(t, r));
    var x, x' := w.txns[t], w'.txns[t];
    OwnerAt(w, t);
    PhaseAt(w, t);
    AppendedLog(x, x', OweInsert(r, x.pc.row));
    if s == r {
      assert CreatedAt(x', |x.undo|, s);
    } else {
      assert forall i :: CreatedAt(x, i, s) ==> CreatedAt(x', i, s);
      assert forall i :: MarkedAt(x, i, s) ==> MarkedAt(x', i, s);
    }
  }

  lemma InsertLog(w: World, t: Xid, r: Rid)
    requires Inv(w) && Enabled(w, Insert(t, r))
    ensures LogOk(Next(w, Insert(t, r)), t)
  {
    hide Inv, KeysOk, StatementOk, AfterRead, AfterChoose, AfterKey, AfterRow, AfterUndo, AfterEnd;
    var w' := Next(w, Insert(t, r));
    var x, x' := w.txns[t], w'.txns[t];
    OwnerAt(w, t);
    EntriesKeptByStore(w, w', t, r, x.pc.row);
    FreshIsUnlogged(w, t, r);
    AppendedLog(x, x', OweInsert(r, x.pc.row));
    forall s | s in w'.heap
      ensures w'.heap[s].creator == t ==> exists i :: CreatedAt(x', i, s)
      ensures w'.heap[s].deleter == t ==> exists i :: MarkedAt(x', i, s)
    {
      InsertIsLogged(w, t, r, s);
    }
  }

  lemma InsertKeys(w: World, t: Xid, r: Rid)
    requires Inv(w) && Enabled(w, Insert(t, r))
    ensures KeysOk(Next(w, Insert(t, r)), t)
  {
    hide Inv, LogOk, Doomed, KeyFree;
    var w' := Next(w, Insert(t, r));
    var x, x' := w.txns[t], w'.txns[t];
    OwnerAt(w, t);
    FreshIsUnlogged(w, t, r);
    AppendedLog(x, x', OweInsert(r, x.pc.row));
    forall a, b, j | w'.clean && CreatedAt(x', j, b) && SameKey(w'.heap, a, b)
      ensures Settled(w', t, a, j)
    {
      if a == r {
        assert CreatedAt(x', |x.undo|, a);
      } else if b == r {
        NoTargetNotDoomed(w, t, x.snap);
        KeyIsSettled(w, t, None, x.pc.row, a);
        if i :| MarkedAt(x, i, a) {
          assert MarkedAt(x', i, a);
        }
      } else {
        assert CreatedAt(x, j, b) && SameKey(w.heap, a, b);
        SettledKept(w, w', t, a, j);
      }
    }
  }

  lemma NoTargetNotDoomed(w: World, t: Xid, snap: Snapshot)
    ensures !Doomed(w, t, snap, None)
  {
  }

  /** Growing the log or moving on does not unsettle a version whose mark stays. */
  lemma SettledKept(w: World, w': World, t: Xid, a: Rid, j: int)
    requires t in w.txns && t in w'.txns && a in w.heap && a in w'.heap && Settled(w, t, a, j)
    requires w'.tm == w.tm
    requires Committed(w, w.heap[a].deleter) ==> w'.heap[a].deleter == w.heap[a].deleter
    requires w.txns[t].undo <= w'.txns[t].undo
    requires w.txns[t].pc == NewStored(a) ==>
             w'.txns[t].pc == NewStored(a) || exists i :: j < i && CreatedAt(w'.txns[t], i, a)
    ensures Settled(w', t, a, j)
  {
    var x, x' := w.txns[t], w'.txns[t];
    if i :| i <= j && MarkedAt(x, i, a) {
      assert MarkedAt(x', i, a);
    } else if i :| j < i && CreatedAt(x, i, a) {
      assert CreatedAt(x', i, a);
    }
  }

  lemma SeenAfterStore(w: World, w': World, t: Xid, r: Rid, row: Row, snap: Snapshot, s: Rid)
    requires Stored(w, w', t, r, row) && SeenOk(w, t, snap, s)
    ensures SeenOk(w', t, snap, s) && w'.heap[s] == w.heap[s]
  {
  }

  lemma InsertStatement(w: World, t: Xid, r: Rid)
    requires Inv(w) && Enabled(w, Insert(t, r))
    ensures StatementOk(Next(w, Insert(t, r)), t)
  {
    hide Inv, LogOk, KeysOk, KeyFree, SeenOk;
    var w' := Next(w, Insert(t, r));
    var x, x' := w.txns[t], w'.txns[t];
    OwnerAt(w, t);
    forall s | s in x'.seen
      ensures SeenOk(w', t, x'.snap, s)
    {
      SeenAfterStore(w, w', t, r, x.pc.row, x.snap, s);
    }
  }

  lemma SameLog(x: Txn, x': Txn)
    requires x'.undo == x.undo
    ensures forall i, r :: CreatedAt(x', i, r) <==> CreatedAt(x, i, r)
    ensures forall i, r :: MarkedAt(x', i, r) <==> MarkedAt(x, i, r)
  {
  }

  lemma StoreNewIsLogged(w: World, t: Xid, n: Rid, s: Rid)
    requires Inv(w) && Enabled(w, StoreNew(t, n)) && s in Next(w, StoreNew(t, n)).heap && s != n
    ensures
      var w' := Next(w, StoreNew(t, n));
      && t in w'.txns
      && (w'.heap[s].creator == t ==> exists i :: CreatedAt(w'.txns[t], i, s))
      && (w'.heap[s].deleter == t ==> exists i :: MarkedAt(w'.txns[t], i, s))
  {
    hide Inv, KeysOk, StatementOk, EntryOk, LogApart, WholeBelow;
    var w' := Next(w, StoreNew(t, n));
    OwnerAt(w, t);
    SameLog(w.txns[t], w'.txns[t]);
  }

  lemma StoreNewLog(w: World, t: Xid, n: Rid)
    requires Inv(w) && Enabled(w, StoreNew(t, n))
    ensures LogOk(Next(w, StoreNew(t, n)), t)
  {
    hide Inv, KeysOk, StatementOk, AfterRead, AfterChoose, AfterKey, AfterRow, AfterUndo, AfterEnd;
    var w' := Next(w, StoreNew(t, n));
    var x, x' := w.txns[t], w'.txns[t];
    OwnerAt(w, t);
    PhaseAt(w, t);
    EntriesKeptByStore(w, w', t, n, x.plan[0].row);
    FreshIsUnlogged(w, t, n);
    SameLog(x, x');
    forall s | s in w'.heap && s != n
      ensures w'.heap[s].creator == t ==> exists i :: CreatedAt(x', i, s)
      ensures w'.heap[s].deleter == t ==> exists i :: MarkedAt(x', i, s)
    {
      StoreNewIsLogged(w, t, n, s);
    }
  }

  lemma StoreNewKeys(w: World, t: Xid, n: Rid)
    requires Inv(w) && Enabled(w, StoreNew(t, n))
    ensures KeysOk(Next(w, StoreNew(t, n)), t)
  {
    hide Inv, LogOk;
    var w' := Next(w, StoreNew(t, n));
    var x, x' := w.txns[t], w'.txns[t];
    OwnerAt(w, t);
    FreshIsUnlogged(w, t, n);
    assert PlanOk(w, t, x.snap, x.plan[0]);
    assert !Doomed(w, t, x.snap, Some(x.plan[0].rid));
    hide KeyFree, Doomed, PlansOk, SeenOk;
    forall a, b, j | w'.clean && CreatedAt(x', j, b) && SameKey(w'.heap, a, b)
      ensures Settled(w', t, a, j)
    {
      assert CreatedAt(x, j, b);
      if a != n {
        assert SameKey(w.heap, a, b);
        SettledKept(w, w', t, a, j);
      }
    }
    forall a | w'.clean && SameKey(w'.heap, a, n) && a != x.plan[0].rid
      ensures Settled(w', t, a, |x'.undo|)
    {
      KeyIsSettled(w, t, Some(x.plan[0].rid), x.plan[0].row, a);
      if i :| MarkedAt(x, i, a) {
        assert MarkedAt(x', i, a);
      }
    }
  }

  lemma KeyFreeAfterStore(w: World, w': World, t: Xid, r: Rid, row: Row, snap: Snapshot, p: Plan)
    requires Stored(w, w', t, r, row) && PlanOk(w, t, snap, p) && w'.keyLocks == w.keyLocks && (w'.clean ==> w.clean)
    requires p.Update? && KeyOf(p.row).Some? ==> KeyOf(p.row) != KeyOf(row)
    ensures PlanOk(w', t, snap, p)
  {
    if p.Update? && KeyOf(p.row).Some? && w'.clean {
      forall q | q in w'.heap && KeyOf(w'.heap[q].row) == KeyOf(p.row) && Some(p.rid) != Some(q)
        ensures !Taken(w', w'.heap[q], t) || Doomed(w', t, snap, Some(p.rid))
      {
        assert q in w.heap && (!Taken(w, w.heap[q], t) || Doomed(w, t, snap, Some(p.rid)));
      }
    }
  }

  lemma StoreNewStatement(w: World, t: Xid, n: Rid)
    requires Inv(w) && Enabled(w, StoreNew(t, n))
    ensures StatementOk(Next(w, StoreNew(t, n)), t)
  {
    hide Inv, LogOk, KeysOk, KeyFree;
    var w' := Next(w, StoreNew(t, n));
    var x, x' := w.txns[t], w'.txns[t];
    OwnerAt(w, t);
    assert PlanOk(w, t, x.snap, x.plan[0]);
    forall i | 1 <= i < |x'.plan|
      ensures PlanOk(w', t, x'.snap, x'.plan[i])
    {
      assert PlanOk(w, t, x.snap, x.plan[i]) && PlanApart(x.plan[i], x.plan[0]);
      KeyFreeAfterStore(w, w', t, n, x.plan[0].row, x.snap, x.plan[i]);
    }
  }

  // ------------------------------------------------------------------ marking a row

  predicate Marking(a: Action) {
    a.MarkDeleted? || a.MarkUpdated?
  }

  ghost function MarkedRid(w: World, a: Action): Rid
    requires Marking(a) && Enabled(w, a)
  {
    w.txns[a.t].plan[0].rid
  }

  ghost function MarkEntry(w: World, a: Action): Owed
    requires Marking(a) && Enabled(w, a)
  {
    if a.MarkDeleted? then OweMark(MarkedRid(w, a), 0, 0)
    else OweUpdate(MarkedRid(w, a), w.txns[a.t].pc.newRid, w.txns[a.t].plan[0].row, 0, 0)
  }

  /** The row is locked, unmarked, and either committed or the transaction's own; marking it changes nothing else. */
  ghost predicate MarkShape(w: World, w': World, t: Xid, r: Rid, u: Owed) {
    && t in w.txns && t in w'.txns && w'.tm == w.tm && w'.keyLocks == w.keyLocks && w'.rowLocks == w.rowLocks
    && w'.clean == w.clean && !Unwinding(w.txns[t])
    && r in w.heap && w.heap[r].deleter == 0 && w.heap[r].next == 0 && HoldsRow(w, t, r)
    && (w.heap[r].creator == t || Committed(w, w.heap[r].creator))
    && w'.heap == SetMark(w.heap, r, t, if u.OweUpdate? then u.newRid else 0)
    && w'.txns[t].undo == w.txns[t].undo + [u] && OldRows(u) == {r}
    && w.txns[t].plan != [] && w.txns[t].plan[0].rid == r
    && w'.txns[t].plan == w.txns[t].plan[1..] && w'.txns[t].snap == w.txns[t].snap
    && (u.OweMark? ==> u == OweMark(r, 0, 0) && !w.txns[t].pc.NewStored? && w'.txns[t].pc.Applying?)
    && (u.OweUpdate? ==>
          && w.txns[t].pc == NewStored(u.newRid) && u.newRid != r && Made(w.heap, t, u.newRid)
          && w.heap[u.newRid].row == u.newRow && u.prevDeleter == 0 && u.prevNext == 0 && u.rid == r
          && w'.txns[t].pc == IndexUpdate(u.newRid, u.newRow))
    && (u.OweMark? || u.OweUpdate?)
  }

  lemma DeleteHasShape(w: World, a: Action)
    requires Inv(w) && a.MarkDeleted? && Enabled(w, a)
    ensures MarkShape(w, Next(w, a), a.t, MarkedRid(w, a), MarkEntry(w, a))
  {
    hide Inv, KeysOk, KeyFree, KeyStageOk, SnapOk, PlansApart, LogOk;
    OwnerAt(w, a.t);
    assert PlanOk(w, a.t, w.txns[a.t].snap, w.txns[a.t].plan[0]);
    VersionAt(w, MarkedRid(w, a));
  }

  lemma UpdateHasShape(w: World, a: Action)
    requires Inv(w) && a.MarkUpdated? && Enabled(w, a)
    ensures MarkShape(w, Next(w, a), a.t, MarkedRid(w, a), MarkEntry(w, a))
  {
    hide Inv, KeysOk, KeyFree, KeyStageOk, SnapOk, PlansApart, LogApart, EntryOk, WholeBelow;
    OwnerAt(w, a.t);
    VersionAt(w, MarkedRid(w, a));
  }

  lemma MarkHasShape(w: World, a: Action)
    requires Inv(w) && Marking(a) && Enabled(w, a)
    ensures MarkShape(w, Next(w, a), a.t, MarkedRid(w, a), MarkEntry(w, a))
  {
    hide Inv, MarkShape, Next, Enabled, MarkedRid, MarkEntry;
    if a.MarkDeleted? {
      DeleteHasShape(w, a);
    } else {
      UpdateHasShape(w, a);
    }
  }

  lemma UnmarkedIsUnlogged(w: World, t: Xid, r: Rid)
    requires Inv(w) && Owns(w, t) && r in w.heap && w.heap[r].deleter == 0
    ensures forall i :: !MarkedAt(w.txns[t], i, r)
  {
    hide Inv, KeysOk, StatementOk;
    OwnerAt(w, t);
    forall i
      ensures !MarkedAt(w.txns[t], i, r)
    {
      if 0 <= i < |w.txns[t].undo| {
        assert EntryOk(w, t, w.txns[t].undo[i]);
      }
    }
  }

  lemma EntryKeptByMark(w: World, w': World, t: Xid, r: Rid, u: Owed, v: Owed)
    requires MarkShape(w, w', t, r, u) && EntryOk(w, t, v) && Whole(v) && r !in OldRows(v)
    ensures EntryOk(w', t, v)
  {
  }

  lemma MarkEntries(w: World, w': World, t: Xid, r: Rid, u: Owed)
    requires Inv(w) && Owns(w, t) && MarkShape(w, w', t, r, u)
    ensures forall i :: 0 <= i < |w'.txns[t].undo| ==> EntryOk(w', t, w'.txns[t].undo[i]) && Whole(w'.txns[t].undo[i])
  {
    hide Inv, KeysOk, StatementOk, LogApart, EntryOk;
    OwnerAt(w, t);
    UnmarkedIsUnlogged(w, t, r);
    MarkEntryOk(w, w', t, r, u);
    forall i | 0 <= i < |w.txns[t].undo|
      ensures EntryOk(w', t, w.txns[t].undo[i]) && Whole(w.txns[t].undo[i])
    {
      assert !MarkedAt(w.txns[t], i, r);
      EntryKeptByMark(w, w', t, r, u, w.txns[t].undo[i]);
    }
  }

  lemma MarkEntryOk(w: World, w': World, t: Xid, r: Rid, u: Owed)
    requires MarkShape(w, w', t, r, u)
    ensures EntryOk(w', t, u) && Whole(u)
  {
  }

  lemma ApartAppended(x: Txn, x': Txn, u: Owed)
    requires LogApart(x) && x'.undo == x.undo + [u] && NewRows(u) !! OldRows(u)
    requires forall i, r :: r in NewRows(u) ==> !CreatedAt(x, i, r) && !MarkedAt(x, i, r)
    requires forall i, r :: r in OldRows(u) ==> !MarkedAt(x, i, r)
    ensures LogApart(x')
  {
    hide NewRows, OldRows;
    AppendedLog(x, x', u);
    hide CreatedAt, MarkedAt;
  }

  lemma MarkApart(w: World, w': World, t: Xid, r: Rid, u: Owed)
    requires Inv(w) && Owns(w, t) && MarkShape(w, w', t, r, u)
    ensures LogApart(w'.txns[t])
  {
    hide Inv, KeysOk, StatementOk, EntryOk, LogApart;
    OwnerAt(w, t);
    UnmarkedIsUnlogged(w, t, r);
    if u.OweUpdate? {
      UnmarkedIsUnlogged(w, t, u.newRid);
    }
    ApartAppended(w.txns[t], w'.txns[t], u);
  }

  lemma MarkIsLogged(w: World, w': World, t: Xid, r: Rid, u: Owed, s: Rid)
    requires Inv(w) && Owns(w, t) && MarkShape(w, w', t, r, u) && s in w'.heap
    ensures w'.heap[s].creator == t ==> exists i :: CreatedAt(w'.txns[t], i, s)
    ensures w'.heap[s].deleter == t ==> exists i :: MarkedAt(w'.txns[t], i, s)
  {
    hide Inv, KeysOk, StatementOk, EntryOk, LogApart, WholeBelow;
    OwnerAt(w, t);
    var x, x' := w.txns[t], w'.txns[t];
    AppendedLog(x, x', u);
    if w'.heap[s].creator == t {
      if x.pc == NewStored(s) {
        assert CreatedAt(x', |x.undo|, s);
      } else {
        var i :| CreatedAt(x, i, s);
        assert CreatedAt(x', i, s);
      }
    }
    if w'.heap[s].deleter == t {
      if s == r {
        assert MarkedAt(x', |x.undo|, s);
      } else {
        var i :| MarkedAt(x, i, s);
        assert MarkedAt(x', i, s);
      }
    }
  }

  lemma MarkLog(w: World, w': World, t: Xid, r: Rid, u: Owed)
    requires Inv(w) && Owns(w, t) && MarkShape(w, w', t, r, u)
    ensures LogOk(w', t)
  {
    hide Inv, KeysOk, StatementOk, EntryOk, LogApart, CreatedAt, MarkedAt, SetMark;
    MarkEntries(w, w', t, r, u);
    MarkApart(w, w', t, r, u);
    OwnerAt(w, t);
    var x, x' := w.txns[t], w'.txns[t];
    forall s | s in w'.heap
      ensures w'.heap[s].creator == t ==> exists i :: CreatedAt(x', i, s)
      ensures w'.heap[s].deleter == t ==> exists i :: MarkedAt(x', i, s)
    {
      MarkIsLogged(w, w', t, r, u, s);
    }
  }

  lemma MarkKeys(w: World, w': World, t: Xid, r: Rid, u: Owed)
    requires Inv(w) && Owns(w, t) && MarkShape(w, w', t, r, u)
    ensures KeysOk(w', t)
  {
    hide Inv, LogOk, StatementOk;
    OwnerAt(w, t);
    var x, x' := w.txns[t], w'.txns[t];
    AppendedLog(x, x', u);
    forall a, b, j | w'.clean && CreatedAt(x', j, b) && SameKey(w'.heap, a, b)
      ensures Settled(w', t, a, j)
    {
      assert SameKey(w.heap, a, b);
      if x.pc == NewStored(a) {
        assert CreatedAt(x', |x.undo|, a);
      }
      if CreatedAt(x, j, b) {
        SettledKept(w, w', t, a, j);
      } else {
        assert x.pc == NewStored(b) && j == |x.undo|;
        if a == r {
          assert MarkedAt(x', j, a);
        } else {
          SettledKept(w, w', t, a, j);
        }
      }
    }
  }

  lemma PlanAfterMark(w: World, w': World, t: Xid, r: Rid, u: Owed, p: Plan)
    requires MarkShape(w, w', t, r, u) && PlanOk(w, t, w.txns[t].snap, p) && p.rid != r && t != 0
    ensures PlanOk(w', t, w.txns[t].snap, p)
  {
    var snap := w.txns[t].snap;
    if p.Update? && KeyOf(p.row).Some? && w'.clean {
      forall q | q in w'.heap && KeyOf(w'.heap[q].row) == KeyOf(p.row) && Some(p.rid) != Some(q)
        ensures !Taken(w', w'.heap[q], t) || Doomed(w', t, snap, Some(p.rid))
      {
        assert !Taken(w, w.heap[q], t) || Doomed(w, t, snap, Some(p.rid));
      }
    }
  }

  lemma MarkStatement(w: World, w': World, t: Xid, r: Rid, u: Owed)
    requires Inv(w) && Owns(w, t) && MarkShape(w, w', t, r, u)
    requires Storing(w.txns[t].pc)
    ensures StatementOk(w', t)
  {
    hide Inv, LogOk, KeysOk, KeyFree, SeenOk;
    OwnerAt(w, t);
    PhaseAt(w, t);
    var x, x' := w.txns[t], w'.txns[t];
    forall i, j | 0 <= i < |x'.plan| && 0 <= j < |x'.plan| && i != j
      ensures PlanApart(x'.plan[i], x'.plan[j])
    {
      assert PlanApart(x.plan[i + 1], x.plan[j + 1]);
    }
    forall i | 0 <= i < |x'.plan|
      ensures PlanOk(w', t, x'.snap, x'.plan[i])
    {
      assert PlanOk(w, t, x.snap, x.plan[i + 1]) && PlanApart(x.plan[i + 1], x.plan[0]);
      PlanAfterMark(w, w', t, r, u, x.plan[i + 1]);
    }
  }

  // ------------------------------------------------------------------ taking a write back

  /** The last entry `u` shrinks by one page write. */
  ghost predicate PopShape(w: World, w': World, t: Xid, u: Owed) {
    && t in w.txns && t in w'.txns && w'.tm == w.tm && w'.keyLocks == w.keyLocks && w'.rowLocks == w.rowLocks
    && w'.clean == w.clean
    && |w.txns[t].undo| > 0 && w.txns[t].undo[|w.txns[t].undo| - 1] == u && Unwinding(w.txns[t])
    && w'.txns[t] == w.txns[t].(undo := w.txns[t].undo[..|w.txns[t].undo| - 1] + Remaining(u))
    && w'.heap == StepBack(w.heap, u) && w'.index == w.index - DroppedEntry(u)
  }

  ghost function LastOwed(w: World, t: Xid): Owed
    requires t in w.txns && w.txns[t].undo != []
  {
    w.txns[t].undo[|w.txns[t].undo| - 1]
  }

  lemma TakeBackHasShape(w: World, t: Xid)
    requires Inv(w) && Enabled(w, TakeBack(t))
    ensures Owns(w, t) && w.txns[t].undo != [] && PopShape(w, Next(w, TakeBack(t)), t, LastOwed(w, t))
  {
    hide Inv;
  }

  /** The row whose mark this page write restores, if any. */
  function Cleared(u: Owed): set<Rid> {
    match u
    case OweMark(r, _, _) => {r}
    case OweRestore(r, _, _, _) => {r}
    case _ => {}
  }

  /** What a page write of taking `u` back does to the heap, row by row. */
  lemma StepBackRows(w: World, t: Xid, u: Owed)
    requires EntryOk(w, t, u)
    ensures forall r :: r in StepBack(w.heap, u) <==> r in w.heap && r !in NewRows(u)
    ensures forall r :: r in StepBack(w.heap, u) ==>
              StepBack(w.heap, u)[r] == if r in Cleared(u) then w.heap[r].(deleter := 0, next := 0) else w.heap[r]
  {
  }

  lemma RemainingRows(x: Txn, x': Txn, u: Owed)
    requires x.undo != [] && x.undo[|x.undo| - 1] == u && x'.undo == x.undo[..|x.undo| - 1] + Remaining(u)
    ensures forall i, r :: CreatedAt(x, i, r) <==> CreatedAt(x', i, r) || (i == |x.undo| - 1 && r in NewRows(u))
    ensures forall i, r :: MarkedAt(x, i, r) <==> MarkedAt(x', i, r) || (i == |x.undo| - 1 && r in Cleared(u))
  {
    assert forall i :: 0 <= i < |x.undo| - 1 ==> x'.undo[i] == x.undo[i];
  }

  lemma PopRows(w: World, w': World, t: Xid, u: Owed)
    requires Inv(w) && Owns(w, t) && PopShape(w, w', t, u)
    ensures EntryOk(w, t, u)
    ensures forall r :: r in w'.heap <==> r in w.heap && r !in NewRows(u)
    ensures forall r :: r in w'.heap ==>
              w'.heap[r] == if r in Cleared(u) then w.heap[r].(deleter := 0, next := 0) else w.heap[r]
    ensures forall i, r :: CreatedAt(w.txns[t], i, r) <==>
              CreatedAt(w'.txns[t], i, r) || (i == |w.txns[t].undo| - 1 && r in NewRows(u))
    ensures forall i, r :: MarkedAt(w.txns[t], i, r) <==>
              MarkedAt(w'.txns[t], i, r) || (i == |w.txns[t].undo| - 1 && r in Cleared(u))
  {
    hide Inv, KeysOk, StatementOk, StepBack, EntryOk, CreatedAt, MarkedAt;
    OwnerAt(w, t);
    var x := w.txns[t];
    assert EntryOk(w, t, x.undo[|x.undo| - 1]);
    StepBackRows(w, t, u);
    RemainingRows(x, w'.txns[t], u);
  }

  lemma PopApart(w: World, w': World, t: Xid, u: Owed)
    requires Inv(w) && Owns(w, t) && PopShape(w, w', t, u)
    ensures LogApart(w'.txns[t])
  {
    hide Inv, KeysOk, StatementOk, EntryOk, PopShape, CreatedAt, MarkedAt;
    PopRows(w, w', t, u);
    OwnerAt(w, t);
  }

  /** An older entry neither created what the popped one created, nor marked what it marked or created. */
  lemma PopDisjoint(x: Txn, i: nat, last: nat)
    requires LogApart(x) && i < last < |x.undo|
    ensures NewRows(x.undo[i]) !! NewRows(x.undo[last])
    ensures OldRows(x.undo[i]) !! OldRows(x.undo[last]) && OldRows(x.undo[i]) !! NewRows(x.undo[last])
  {
    forall r
      ensures !(r in NewRows(x.undo[i]) && r in NewRows(x.undo[last]))
      ensures !(r in OldRows(x.undo[i]) && (r in OldRows(x.undo[last]) || r in NewRows(x.undo[last])))
    {
      assert CreatedAt(x, i, r) && CreatedAt(x, last, r) ==> i == last;
      assert MarkedAt(x, i, r) && MarkedAt(x, last, r) ==> i == last;
      assert MarkedAt(x, i, r) && CreatedAt(x, last, r) ==> last < i;
    }
  }

  lemma EntryOutlivesPop(w: World, w': World, t: Xid, e: Owed, u: Owed)
    requires EntryOk(w, t, e) && EntryOk(w, t, u) && Whole(e) && w'.heap == StepBack(w.heap, u)
    requires NewRows(e) !! NewRows(u) && OldRows(e) !! OldRows(u) && OldRows(e) !! NewRows(u)
    ensures EntryOk(w', t, e)
  {
  }

  lemma PopKeepsEntry(w: World, w': World, t: Xid, u: Owed, i: nat)
    requires Inv(w) && Owns(w, t) && PopShape(w, w', t, u) && i < |w.txns[t].undo| - 1
    ensures w'.txns[t].undo[i] == w.txns[t].undo[i] && Whole(w.txns[t].undo[i]) && EntryOk(w', t, w.txns[t].undo[i])
  {
    hide Inv, KeysOk, StatementOk, LogApart, EntryOk, StepBack;
    OwnerAt(w, t);
    var x, last := w.txns[t], |w.txns[t].undo| - 1;
    assert EntryOk(w, t, x.undo[i]) && EntryOk(w, t, x.undo[last]);
    PopDisjoint(x, i, last);
    EntryOutlivesPop(w, w', t, x.undo[i], u);
  }

  /** What is left of the entry describes the heap as it is now. */
  lemma RemainingOk(w: World, w': World, t: Xid, u: Owed)
    requires Inv(w) && Owns(w, t) && PopShape(w, w', t, u) && Remaining(u) != []
    ensures EntryOk(w', t, Remaining(u)[0])
  {
    hide Inv, KeysOk, StatementOk, LogApart;
    OwnerAt(w, t);
    PhaseAt(w, t);
    assert EntryOk(w, t, w.txns[t].undo[|w.txns[t].undo| - 1]);
    match u {
      case OweInsert(r, row) => VersionAt(w, r);
      case OweUpdate(r, n, row, d, p) => VersionAt(w, n);
      case _ =>
    }
  }

  lemma PopEntries(w: World, w': World, t: Xid, u: Owed)
    requires Inv(w) && Owns(w, t) && PopShape(w, w', t, u)
    ensures forall i :: 0 <= i < |w'.txns[t].undo| ==> EntryOk(w', t, w'.txns[t].undo[i])
    ensures WholeBelow(w'.txns[t])
  {
    hide Inv, EntryOk, StepBack;
    var x, x' := w.txns[t], w'.txns[t];
    forall i | 0 <= i < |x'.undo|
      ensures EntryOk(w', t, x'.undo[i]) && (i < |x.undo| - 1 ==> Whole(x'.undo[i]))
    {
      if i < |x.undo| - 1 {
        PopKeepsEntry(w, w', t, u, i);
      } else {
        RemainingOk(w, w', t, u);
      }
    }
  }

  lemma PopLog(w: World, w': World, t: Xid, u: Owed)
    requires Inv(w) && Owns(w, t) && PopShape(w, w', t, u)
    ensures LogOk(w', t)
  {
    hide Inv, KeysOk, StatementOk, EntryOk, LogApart, StepBack, WholeBelow, CreatedAt, MarkedAt;
    PopRows(w, w', t, u);
    PopApart(w, w', t, u);
    PopEntries(w, w', t, u);
    OwnerAt(w, t);
    PhaseAt(w, t);
    var x, x' := w.txns[t], w'.txns[t];
    forall s | s in w'.heap && w'.heap[s].creator == t
      ensures exists i :: CreatedAt(x', i, s)
    {
      var i :| CreatedAt(x, i, s);
      assert CreatedAt(x', i, s);
    }
    forall s | s in w'.heap && w'.heap[s].deleter == t
      ensures exists i :: MarkedAt(x', i, s)
    {
      var i :| MarkedAt(x, i, s);
      assert MarkedAt(x', i, s);
    }
  }

  lemma PopKeys(w: World, w': World, t: Xid, u: Owed)
    requires Inv(w) && Owns(w, t) && PopShape(w, w', t, u)
    ensures KeysOk(w', t)
  {
    hide Inv, StatementOk, LogOk, EntryOk, StepBack, CreatedAt, MarkedAt;
    PopRows(w, w', t, u);
    OwnerAt(w, t);
    PhaseAt(w, t);
    var x, x' := w.txns[t], w'.txns[t];
    forall a, b, j | w'.clean && CreatedAt(x', j, b) && SameKey(w'.heap, a, b)
      ensures Settled(w', t, a, j)
    {
      assert CreatedAt(x, j, b) && SameKey(w.heap, a, b);
      assert Settled(w, t, a, j);
      PopSettled(w, w', t, u, a, j);
    }
  }

  lemma PopSettled(w: World, w': World, t: Xid, u: Owed, a: Rid, j: int)
    requires Inv(w) && Owns(w, t) && PopShape(w, w', t, u) && a in w.heap && a in w'.heap && Settled(w, t, a, j)
    requires exists b :: CreatedAt(w'.txns[t], j, b)
    ensures Settled(w', t, a, j)
  {
    hide Inv, EntryOk, StepBack;
    PopRows(w, w', t, u);
    PhaseAt(w, t);
    var x, x' := w.txns[t], w'.txns[t];
    assert j < |x.undo| - 1 by { CreatedEarlier(x, x', u, j); }
    if i :| i <= j && MarkedAt(x, i, a) {
      assert MarkedAt(x', i, a);
    } else if i :| j < i && CreatedAt(x, i, a) {
      assert CreatedAt(x', i, a);
    } else {
      MarkedByEntry(w, t, u, a);
    }
  }

  lemma CreatedEarlier(x: Txn, x': Txn, u: Owed, j: int)
    requires x.undo != [] && x'.undo == x.undo[..|x.undo| - 1] + Remaining(u) && exists b :: CreatedAt(x', j, b)
    ensures j < |x.undo| - 1
  {
  }

  lemma MarkedByEntry(w: World, t: Xid, u: Owed, a: Rid)
    requires EntryOk(w, t, u) && a in w.heap
    ensures a in OldRows(u) || a in Cleared(u) ==> w.heap[a].deleter == t
  {
  }

  predicate Writing(a: Action) {
    a.Insert? || a.StoreNew? || a.MarkDeleted? || a.MarkUpdated? || a.TakeBack?
  }

  lemma MarkStep(w: World, a: Action)
    requires Inv(w) && Enabled(w, a) && Marking(a)
    ensures a.t in Next(w, a).txns && OwnerOk(Next(w, a), a.t)
  {
    MarkHasShape(w, a);
    var w', t, r, u := Next(w, a), a.t, MarkedRid(w, a), MarkEntry(w, a);
    assert Storing(w.txns[t].pc) && Owns(w, t);
    hide Inv, Next, Enabled, LogOk, KeysOk, StatementOk;
    MarkLog(w, w', t, r, u);
    MarkKeys(w, w', t, r, u);
    MarkStatement(w, w', t, r, u);
  }

  lemma Resting(w: World, t: Xid)
    requires t in w.txns && (w.txns[t].pc.Undoing? || w.txns[t].pc.Aborting?)
    ensures StatementOk(w, t)
  {
  }

  lemma TakeBackStep(w: World, t: Xid)
    requires Inv(w) && Enabled(w, TakeBack(t))
    ensures t in Next(w, TakeBack(t)).txns && OwnerOk(Next(w, TakeBack(t)), t)
  {
    hide Inv, Next, Enabled, LogOk, KeysOk, StatementOk, StepBack;
    TakeBackHasShape(w, t);
    var w', u := Next(w, TakeBack(t)), LastOwed(w, t);
    Resting(w', t);
    PopLog(w, w', t, u);
    PopKeys(w, w', t, u);
  }

  lemma WriteStep(w: World, a: Action)
    requires Inv(w) && Enabled(w, a) && Writing(a)
    ensures a.t in Next(w, a).txns && OwnerOk(Next(w, a), a.t)
  {
    hide Inv, LogOk, KeysOk, StatementOk;
    match a {
      case Insert(t, r) =>
        InsertLog(w, t, r);
        InsertKeys(w, t, r);
        InsertStatement(w, t, r);
      case StoreNew(t, n) =>
        StoreNewLog(w, t, n);
        StoreNewKeys(w, t, n);
        StoreNewStatement(w, t, n);
      case TakeBack(t) => TakeBackStep(w, t);
      case _ => MarkStep(w, a);
    }
  }
}
