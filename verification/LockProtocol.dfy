/**
 Whole runs of sessions over the lock table. A session asks for one lock at a
 time; while it waits it may be granted the lock, spend its one deadlock check,
 or time out, in any order with what the other sessions do.
 */
module LockProtocol {
  import opened Options
  import opened Graphs
  import opened LockManager

  /** `checked`: owners that have spent the deadlock check of their current wait. */
  datatype World = World(table: Table, checked: set<Owner>)

  const START: World := World(EMPTY, {})

  datatype Action =
    | Ask(o: Owner, key: Key)
    | Wake(o: Owner)
    | Check(o: Owner)
    | TimeOut(o: Owner)
    | Unlock(o: Owner)

  ghost predicate Blocked(t: Table, o: Owner) {
    o in t.waiting && !t.Holds(o, t.waiting[o])
  }

  ghost predicate Enabled(w: World, a: Action) {
    match a
    case Ask(o, _) => o !in w.table.waiting
    case Wake(o) => o in w.table.waiting && w.table.Holds(o, w.table.waiting[o])
    case Check(o) => Blocked(w.table, o) && o !in w.checked
    case TimeOut(o) => Blocked(w.table, o)
    case Unlock(o) => o !in w.table.waiting
  }

  ghost function Next(w: World, a: Action): World
    requires Enabled(w, a)
  {
    match a
    case Ask(o, key) => World(w.table.Request(o, key), w.checked - {o})
    case Wake(o) => w.(table := w.table.Wake(o))
    case Check(o) =>
      if OnCycle(w.table.WaitsFor(), o) then w.(table := w.table.GiveUp(o, w.table.waiting[o]))
      else w.(checked := w.checked + {o})
    case TimeOut(o) => w.(table := w.table.GiveUp(o, w.table.waiting[o]))
    case Unlock(o) => w.(table := w.table.UnlockAll(o))
  }

  ghost predicate Steps(w: World, acts: seq<Action>, w': World)
    decreases |acts|
  {
    if acts == [] then w == w'
    else Enabled(w, acts[0]) && Steps(Next(w, acts[0]), acts[1..], w')
  }

  // ------------------------------------------------------------------ invariant

  ghost predicate EntryOk(e: Entry) {
    e.holder.Some? && e.holder.value !in e.waiters && Distinct(e.waiters)
  }

  ghost predicate TableOk(t: Table) {
    && (forall k :: k in t.locks ==> EntryOk(t.locks[k]))
    && (forall o: Owner, k :: (o, k) in t.held <==> t.Holds(o, k))
    && (forall k, o :: k in t.locks && o in t.locks[k].waiters ==> o in t.waiting && t.waiting[o] == k)
    && (forall o :: o in t.waiting ==>
          t.waiting[o] in t.locks && (o in t.locks[t.waiting[o]].waiters || t.Holds(o, t.waiting[o])))
  }

  /** Every wait-for cycle has a member whose check is still to come. */
  ghost predicate Inv(w: World) {
    TableOk(w.table) && Acyclic(Within(w.table.WaitsFor(), w.checked))
  }

  // ------------------------------------------------------------------ the table stays consistent

  lemma AskOk(t: Table, o: Owner, k: Key)
    requires TableOk(t) && o !in t.waiting
    ensures TableOk(t.Request(o, k))
  {
  }

  lemma {:induction false} DropDistinct(s: seq<Owner>, o: Owner)
    requires Distinct(s)
    ensures Distinct(Drop(s, o))
  {
    if s != [] {
      DropDistinct(s[1..], o);
      forall i | 0 <= i < |Drop(s[1..], o)|
        ensures Drop(s[1..], o)[i] != s[0]
      {
        assert Drop(s[1..], o)[i] in s[1..];
      }
    }
  }

  lemma GiveUpOk(t: Table, o: Owner)
    requires TableOk(t) && Blocked(t, o)
    ensures TableOk(t.GiveUp(o, t.waiting[o]))
  {
    DropDistinct(t.locks[t.waiting[o]].waiters, o);
  }

  lemma UnlockOk(t: Table, o: Owner)
    requires TableOk(t) && o !in t.waiting
    ensures TableOk(t.UnlockAll(o))
  {
    var t' := t.UnlockAll(o);
    KeysOfHolder(t, o);
    forall k | k in t'.locks
      ensures EntryOk(t'.locks[k])
    {
      assert EntryOk(t.locks[k]);
    }
  }

  lemma KeysOfHolder(t: Table, o: Owner)
    requires TableOk(t)
    ensures forall k :: k in t.KeysOf(o) <==> t.Holds(o, k)
  {
    forall k
      ensures k in t.KeysOf(o) <==> t.Holds(o, k)
    {
      assert k in t.KeysOf(o) <==> (o, k) in t.held;
    }
  }

  lemma StepTable(w: World, a: Action)
    requires TableOk(w.table) && Enabled(w, a)
    ensures TableOk(Next(w, a).table)
  {
    match a {
      case Ask(o, key) => AskOk(w.table, o, key);
      case Wake(o) =>
      case Check(o) => GiveUpOk(w.table, o);
      case TimeOut(o) => GiveUpOk(w.table, o);
      case Unlock(o) => UnlockOk(w.table, o);
    }
  }

  // ------------------------------------------------------------------ cycles

  /** Handing locks on redirects waiters only to owners that wait for nobody. */
  lemma HandOffEdges(t: Table, o: Owner)
    requires TableOk(t) && o !in t.waiting
    ensures var after := t.UnlockAll(o).WaitsFor();
            forall e :: e in after && e !in t.WaitsFor() ==> forall x :: (e.1, x) !in after
  {
    KeysOfHolder(t, o);
    var after := t.UnlockAll(o).WaitsFor();
    forall e, x | e in after && e !in t.WaitsFor()
      ensures (e.1, x) !in after
    {
      var k := t.waiting[e.0];
      assert t.Holds(o, k);
      assert e.1 == t.locks[k].waiters[0];
      assert t.waiting[e.1] == k;
    }
  }

  /** A hand-off never creates a wait-for cycle. */
  lemma HandOffMakesNoCycle(t: Table, o: Owner, p: seq<Owner>)
    requires TableOk(t) && o !in t.waiting
    requires Cycle(t.UnlockAll(o).WaitsFor(), p)
    ensures Cycle(t.WaitsFor(), p)
  {
    var before, after := t.WaitsFor(), t.UnlockAll(o).WaitsFor();
    HandOffEdges(t, o);
    forall i: nat | i + 1 < |p|
      ensures Hop(before, p, i)
    {
      assert Hop(after, p, i);
      if i + 2 < |p| {
        assert Hop(after, p, i + 1);
      } else {
        assert Hop(after, p, 0);
      }
    }
  }

  /** Only joining a queue adds an edge, and then only one that leaves the newcomer. */
  lemma StepEdges(w: World, a: Action)
    requires TableOk(w.table) && Enabled(w, a) && !a.Unlock?
    ensures forall e :: e in Next(w, a).table.WaitsFor() ==> e in w.table.WaitsFor() || (a.Ask? && e.0 == a.o)
  {
  }

  lemma CheckKeepsAcyclic(edges: Edges, checked: set<Owner>, o: Owner)
    requires Acyclic(Within(edges, checked)) && !OnCycle(edges, o)
    ensures Acyclic(Within(edges, checked + {o}))
  {
    var before, after := Within(edges, checked), Within(edges, checked + {o});
    forall p
      ensures !Cycle(after, p)
    {
      if Cycle(after, p) {
        if i: nat :| i < |p| && p[i] == o {
          RotateCycle(after, p, i);
          WalkSubset(after, edges, p[i..] + p[1..i + 1]);
          assert Cycle(edges, p[i..] + p[1..i + 1]);
        } else {
          forall i: nat | i + 1 < |p|
            ensures Hop(before, p, i)
          {
            assert Hop(after, p, i) && p[i] != o && p[i + 1] != o;
          }
          assert Cycle(before, p);
        }
      }
    }
  }

  lemma UnlockKeepsAcyclic(w: World, o: Owner)
    requires Inv(w) && o !in w.table.waiting
    ensures Acyclic(Within(w.table.UnlockAll(o).WaitsFor(), w.checked))
  {
    var before, after := w.table.WaitsFor(), w.table.UnlockAll(o).WaitsFor();
    forall p
      ensures !Cycle(Within(after, w.checked), p)
    {
      if Cycle(Within(after, w.checked), p) {
        WalkSubset(Within(after, w.checked), after, p);
        HandOffMakesNoCycle(w.table, o, p);
        forall i: nat | i + 1 < |p|
          ensures Hop(Within(before, w.checked), p, i)
        {
          assert Hop(Within(after, w.checked), p, i) && Hop(before, p, i);
        }
        assert Cycle(Within(before, w.checked), p);
      }
    }
  }

  lemma StepInv(w: World, a: Action)
    requires Inv(w) && Enabled(w, a)
    ensures Inv(Next(w, a))
  {
    StepTable(w, a);
    var w' := Next(w, a);
    if a.Unlock? {
      UnlockKeepsAcyclic(w, a.o);
    } else if a.Check? && !OnCycle(w.table.WaitsFor(), a.o) {
      CheckKeepsAcyclic(w.table.WaitsFor(), w.checked, a.o);
    } else {
      StepEdges(w, a);
      AcyclicSubset(Within(w'.table.WaitsFor(), w'.checked), Within(w.table.WaitsFor(), w.checked));
    }
  }

  lemma {:induction false} RunInv(w: World, acts: seq<Action>, w': World)
    requires Inv(w) && Steps(w, acts, w')
    ensures Inv(w')
    decreases |acts|
  {
    if acts != [] {
      StepInv(w, acts[0]);
      RunInv(Next(w, acts[0]), acts[1..], w');
    }
  }

  lemma StartInv()
    ensures Inv(START)
  {
    assert Within(EMPTY.WaitsFor(), {}) == {};
    EmptyAcyclic();
  }

  // ------------------------------------------------------------------ what every run guarantees

  /**
   Exclusive locks: in every run each key has one holder, on record exactly as held, and no owner both holds
   and queues.
   */
  lemma LocksStayExclusive(acts: seq<Action>, w: World)
    requires Steps(START, acts, w)
    ensures TableOk(w.table)
    ensures forall o, o', k :: (o, k) in w.table.held && (o', k) in w.table.held ==> o == o'
  {
    StartInv();
    RunInv(START, acts, w);
  }

  /** No deadlock goes unnoticed: each one has a member whose single check is still to come and will abort it. */
  lemma DeadlockHasPendingCheck(acts: seq<Action>, w: World, p: seq<Owner>) returns (o: Owner)
    requires Steps(START, acts, w) && Cycle(w.table.WaitsFor(), p)
    ensures o in p && Enabled(w, Check(o)) && OnCycle(w.table.WaitsFor(), o)
    ensures o !in Next(w, Check(o)).table.waiting
  {
    StartInv();
    RunInv(START, acts, w);
    var edges := w.table.WaitsFor();
    if forall i: nat :: i < |p| ==> p[i] in w.checked {
      assert Cycle(Within(edges, w.checked), p) by {
        forall i: nat | i + 1 < |p|
          ensures Hop(Within(edges, w.checked), p, i)
        {
          assert Hop(edges, p, i) && p[i] in w.checked && p[i + 1] in w.checked;
        }
      }
      assert false;
    }
    var i: nat :| i < |p| && p[i] !in w.checked;
    o := p[i];
    RotateCycle(edges, p, i);
    assert Hop(edges, p[i..] + p[1..i + 1], 0);
  }

  ghost predicate Before(s: seq<Owner>, a: Owner, b: Owner) {
    exists i, j :: 0 <= i < j < |s| && s[i] == a && s[j] == b
  }

  /** `b`, queued behind `a`, was not served; it is still queued behind `a`, or it gave up itself. */
  ghost predicate Fair(t: Table, act: Action, k: Key, a: Owner, b: Owner) {
    && k in t.locks && !t.Holds(b, k)
    && (a in t.locks[k].waiters && b in t.locks[k].waiters ==> Before(t.locks[k].waiters, a, b))
    && (b in t.locks[k].waiters || (act.o == b && (act.Check? || act.TimeOut?)))
  }

  lemma AskFair(w: World, act: Action, k: Key, a: Owner, b: Owner)
    requires Inv(w) && Enabled(w, act) && act.Ask?
    requires k in w.table.locks && Before(w.table.locks[k].waiters, a, b)
    ensures Fair(Next(w, act).table, act, k, a, b)
  {
    var t, t' := w.table, Next(w, act).table;
    var s := t.locks[k].waiters;
    var i, j :| 0 <= i < j < |s| && s[i] == a && s[j] == b;
    assert EntryOk(t.locks[k]);
    assert t'.locks[k].waiters[..|s|] == s;
    assert t'.locks[k].waiters[i] == a && t'.locks[k].waiters[j] == b;
  }

  lemma UnlockFair(w: World, act: Action, k: Key, a: Owner, b: Owner)
    requires Inv(w) && Enabled(w, act) && act.Unlock?
    requires k in w.table.locks && Before(w.table.locks[k].waiters, a, b)
    ensures Fair(Next(w, act).table, act, k, a, b)
  {
    var t, t' := w.table, Next(w, act).table;
    var s := t.locks[k].waiters;
    var i, j :| 0 <= i < j < |s| && s[i] == a && s[j] == b;
    assert EntryOk(t.locks[k]);
    KeysOfHolder(t, act.o);
    if t.Holds(act.o, k) {
      assert t'.locks[k].waiters == s[1..];
      assert s[1..][j - 1] == b;
      if a in s[1..] {
        assert s[1..][i - 1] == a;
      }
    }
  }

  lemma DropFair(w: World, act: Action, k: Key, a: Owner, b: Owner)
    requires Inv(w) && Enabled(w, act) && !act.Ask? && !act.Unlock?
    requires k in w.table.locks && Before(w.table.locks[k].waiters, a, b)
    ensures Fair(Next(w, act).table, act, k, a, b)
  {
    var t, t' := w.table, Next(w, act).table;
    var s := t.locks[k].waiters;
    var i, j :| 0 <= i < j < |s| && s[i] == a && s[j] == b;
    assert EntryOk(t.locks[k]);
    if t'.locks[k].waiters != s && act.o != a && act.o != b {
      DropKeepsOrder(s, act.o, a, b);
    }
  }

  /** First come, first served: nobody is granted a key past an owner queued ahead, and queue order is kept. */
  lemma NoOvertaking(w: World, act: Action, k: Key, a: Owner, b: Owner)
    requires Inv(w) && Enabled(w, act)
    requires k in w.table.locks && Before(w.table.locks[k].waiters, a, b)
    ensures Fair(Next(w, act).table, act, k, a, b)
  {
    hide Inv, Enabled, Next, Before, Fair;
    match act {
      case Ask(_, _) => AskFair(w, act, k, a, b);
      case Unlock(_) => UnlockFair(w, act, k, a, b);
      case _ => DropFair(w, act, k, a, b);
    }
  }

  lemma {:induction false} DropKeepsOrder(s: seq<Owner>, o: Owner, a: Owner, b: Owner)
    requires Before(s, a, b) && o != a && o != b
    ensures Before(Drop(s, o), a, b)
  {
    var i, j :| 0 <= i < j < |s| && s[i] == a && s[j] == b;
    if i == 0 {
      assert b in s[1..] by { assert s[1..][j - 1] == b; }
      var r := Drop(s, o);
      var k :| 0 <= k < |r[1..]| && r[1..][k] == b;
      assert r[0] == a && r[k + 1] == b;
    } else {
      assert s[1..][i - 1] == a && s[1..][j - 1] == b;
      DropKeepsOrder(s[1..], o, a, b);
      var r := Drop(s[1..], o);
      var x, y :| 0 <= x < y < |r| && r[x] == a && r[y] == b;
      if s[0] != o {
        assert ([s[0]] + r)[x + 1] == a && ([s[0]] + r)[y + 1] == b;
      }
    }
  }
}
