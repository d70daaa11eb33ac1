/**
 Vacuum drops dead versions, clears the marks of failed transactions and then
 freezes every id handed out so far as committed, aborted ones included.
 */
module Vacuum {
  import opened Heap
  import opened Clog
  import opened TxnManager
  import opened ReadCommitted

  /** All ids are decided, and the heap mentions no others. */
  ghost predicate Quiescent(tm: Tm, h: Versions) {
    && tm.open == {} && tm.next > 0 && tm.status.base <= tm.next
    && (forall x :: x in tm.status.marked ==> x < tm.next)
    && (forall r :: r in h ==> h[r].creator < tm.next && h[r].deleter < tm.next)
  }

  /** The state of the manager some time later: further ids handed out, some of them committed. */
  ghost predicate LaterThan(tm: Tm, tm': Tm) {
    && tm.next <= tm'.next && tm.status.base == tm'.status.base
    && (forall x :: x in tm'.open ==> tm.next <= x)
    && (forall x :: x < tm.next ==> (x in tm.status.marked <==> x in tm'.status.marked))
  }

  /** A reader that started after the vacuum: its own id and its snapshot's in-flight ids are all new. */
  ghost predicate LaterReader(tm: Tm, id: Xid, snap: Snapshot) {
    && tm.next <= snap.xmax && (forall x :: x in snap.xip ==> tm.next <= x)
    && (id == 0 || tm.next <= id)
  }

  /** The same later manager state, had the vacuum frozen everything below `next` first. */
  ghost function Frozen(tm: Tm, tm': Tm): Tm {
    tm'.(status := Status(tm.next, set x | x in tm'.status.marked && tm.next <= x))
  }

  /** The reader gets the same answer for row `r` from the heap before and after the vacuum. */
  ghost predicate SameAnswer(tm: Tm, tm': Tm, h: Versions, id: Xid, snap: Snapshot, r: Rid)
    requires r in h
  {
    var h' := Vacuumed(tm.status, h);
    && (tm'.Visible(id, snap, h[r]) <==> r in h' && Frozen(tm, tm').Visible(id, snap, h'[r]))
    && (r in h' ==> h'[r].row == h[r].row)
  }

  /**
   A later reader sees the same rows, for every version whose creator is a real
   transaction; a version with creator 0 is kept exactly when it was invisible.
   */
  lemma VacuumKeepsVisibleRows(tm: Tm, tm': Tm, h: Versions, id: Xid, snap: Snapshot, r: Rid)
    requires Quiescent(tm, h) && LaterThan(tm, tm') && LaterReader(tm, id, snap) && r in h
    ensures SameAnswer(tm, tm', h, id, snap, r) <==> (h[r].creator == 0 ==> !tm'.Visible(id, snap, h[r]))
  {
    forall x | 0 < x < tm.next
      ensures tm'.CommittedBefore(snap, x) == tm.Committed(x)
      ensures Frozen(tm, tm').CommittedBefore(snap, x)
    {
      assert x in tm'.status.marked <==> x in tm.status.marked;
    }
  }

  /** Sentinel-created rows are the exception: readers see them, vacuum deletes them. */
  lemma VacuumDropsSentinelRows()
    ensures var tm, h := Tm(1, {}, Status(0, {})), map[7 := Version(0, 0, 0, [])];
            && Quiescent(tm, h) && LaterThan(tm, tm) && LaterReader(tm, 0, Snapshot(1, {}))
            && tm.Visible(0, Snapshot(1, {}), h[7]) && 7 !in Vacuumed(tm.status, h)
  {
  }

  /** Nothing that survives is still marked or linked forward. */
  lemma SurvivorsAreUnmarked(tm: Tm, h: Versions, r: Rid)
    requires r in Vacuumed(tm.status, h) && (h[r].deleter == 0 ==> h[r].next == 0)
    ensures Vacuumed(tm.status, h)[r].deleter == 0 && Vacuumed(tm.status, h)[r].next == 0
    ensures tm.Committed(h[r].creator)
  {
  }
}
