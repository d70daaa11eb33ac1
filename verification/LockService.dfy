/** What releasing and asking do for the owners concerned: keys are handed on, and a queue moves. */
module LockService {
  import opened Options
  import opened Graphs
  import opened LockManager
  import opened LockProtocol

  /** Holder and queue of a key are the same in both tables. */
  ghost predicate SameLock(t: Table, t': Table, k: Key) {
    (k in t'.locks <==> k in t.locks) && (k in t.locks ==> t'.locks[k] == t.locks[k])
  }

  /**
   After releasing everything an owner holds nothing. Each key it held belongs to its first waiter, or is
   free if nobody waited; no other key is touched.
   */
  lemma UnlockHandsOn(t: Table, o: Owner)
    requires TableOk(t)
    ensures var t' := t.UnlockAll(o);
            && (forall k :: !t'.Holds(o, k))
            && (forall k :: t.Holds(o, k) && t.locks[k].waiters == [] ==> k !in t'.locks)
            && (forall k :: t.Holds(o, k) && t.locks[k].waiters != [] ==>
                  t'.Holds(t.locks[k].waiters[0], k) && t'.locks[k].waiters == t.locks[k].waiters[1..])
            && (forall k :: !t.Holds(o, k) ==> SameLock(t, t', k))
            && t'.waiting == t.waiting
  {
    var t' := t.UnlockAll(o);
    KeysOfHolder(t, o);
    forall k
      ensures !t'.Holds(o, k)
    {
      if k in t.locks {
        assert EntryOk(t.locks[k]);
      }
    }
  }

  /** Asking for a free key grants it; asking for a key in use puts the owner at the end of its queue. */
  lemma AskTakesOrQueues(t: Table, o: Owner, k: Key)
    requires TableOk(t)
    ensures var t' := t.Request(o, k);
            && (k !in t.locks ==> t'.Holds(o, k) && t'.locks[k].waiters == [] && t'.waiting == t.waiting)
            && (t.Holds(o, k) ==> t' == t)
            && (k in t.locks && !t.Holds(o, k) ==>
                  && t'.locks[k].holder == t.locks[k].holder && t'.locks[k].waiters == t.locks[k].waiters + [o]
                  && o in t'.waiting && t'.waiting[o] == k)
            && (forall l :: l != k ==> SameLock(t, t', l))
  {
    if k in t.locks {
      assert EntryOk(t.locks[k]);
    }
  }

  /** In every run, a released key goes to its first waiter, who can go on; without one, to whoever asks next. */
  lemma ReleasedKeyIsGranted(acts: seq<Action>, w: World, o: Owner, k: Key)
    requires Steps(START, acts, w) && Enabled(w, Unlock(o)) && w.table.Holds(o, k)
    ensures var w' := Next(w, Unlock(o)); var queue := w.table.locks[k].waiters;
            && (queue != [] ==>
                  && w'.table.Holds(queue[0], k) && Enabled(w', Wake(queue[0]))
                  && Next(w', Wake(queue[0])).table.Holds(queue[0], k)
                  && queue[0] !in Next(w', Wake(queue[0])).table.waiting)
            && (queue == [] ==>
                  forall p: Owner :: p !in w'.table.waiting ==>
                    Enabled(w', Ask(p, k)) && Next(w', Ask(p, k)).table.Holds(p, k))
  {
    LocksStayExclusive(acts, w);
    UnlockHandsOn(w.table, o);
  }

  // ------------------------------------------------------------------ a queue moves

  ghost function Place(s: seq<Owner>, o: Owner): (i: nat)
    requires o in s
    ensures i < |s| && s[i] == o && forall j :: 0 <= j < i ==> s[j] != o
  {
    if s[0] == o then 0 else 1 + Place(s[1..], o)
  }

  predicate Queued(t: Table, o: Owner, k: Key) {
    k in t.locks && o in t.locks[k].waiters
  }

  ghost predicate HandsOn(t: Table, a: Action, k: Key) {
    a.Unlock? && t.Holds(a.o, k)
  }

  /** How often the key changes hands during a run. */
  ghost function HandOffs(w: World, acts: seq<Action>, k: Key): nat
    decreases |acts|
  {
    if acts == [] || !Enabled(w, acts[0]) then 0
    else (if HandsOn(w.table, acts[0], k) then 1 else 0) + HandOffs(Next(w, acts[0]), acts[1..], k)
  }

  ghost predicate Asleep(acts: seq<Action>, o: Owner) {
    forall i :: 0 <= i < |acts| ==> acts[i].o != o
  }

  lemma DropPlace(s: seq<Owner>, x: Owner, o: Owner)
    requires o in s && o != x
    ensures o in Drop(s, x) && Place(Drop(s, x), o) <= Place(s, o)
  {
    if s[0] != o && s[0] != x {
      DropPlace(s[1..], x, o);
      var r := Drop(s[1..], x);
      assert ([s[0]] + r)[1..] == r;
    } else if s[0] == x {
      DropPlace(s[1..], x, o);
    }
  }

  lemma {:induction false} PlaceInFront(s: seq<Owner>, x: Owner, o: Owner)
    requires o in s
    ensures o in s + [x] && Place(s + [x], o) == Place(s, o)
  {
    if s[0] != o {
      PlaceInFront(s[1..], x, o);
      assert (s + [x])[1..] == s[1..] + [x];
    }
  }

  /** One step of another session moves a sleeping owner forward by the hand-offs it makes, or serves it. */
  lemma StepMovesQueue(w: World, a: Action, o: Owner, k: Key)
    requires Inv(w) && Enabled(w, a) && a.o != o && Queued(w.table, o, k)
    ensures var t, t' := w.table, Next(w, a).table;
            if t'.Holds(o, k) then HandsOn(t, a, k)
            else && Queued(t', o, k)
                 && Place(t'.locks[k].waiters, o) + (if HandsOn(t, a, k) then 1 else 0) <= Place(t.locks[k].waiters, o)
  {
    var t, t' := w.table, Next(w, a).table;
    var s := t.locks[k].waiters;
    assert EntryOk(t.locks[k]);
    match a {
      case Ask(p, l) =>
        if l == k && t'.locks[k].waiters != s {
          PlaceInFront(s, p, o);
        }
      case Wake(_) =>
      case Check(p) =>
        if t.waiting[p] == k {
          DropPlace(s, p, o);
        }
      case TimeOut(p) =>
        if t.waiting[p] == k {
          DropPlace(s, p, o);
        }
      case Unlock(p) =>
        UnlockHandsOn(t, p);
        assert t.Holds(p, k) && s[0] != o ==> s[1..] == t'.locks[k].waiters && o in s[1..];
    }
  }

  lemma StepKeepsHolder(w: World, a: Action, o: Owner, k: Key)
    requires Inv(w) && Enabled(w, a) && a.o != o && w.table.Holds(o, k)
    ensures Next(w, a).table.Holds(o, k) && !HandsOn(w.table, a, k)
  {
    if a.Unlock? {
      UnlockHandsOn(w.table, a.o);
    }
  }

  lemma {:induction false} HolderStays(w: World, acts: seq<Action>, w': World, o: Owner, k: Key)
    requires Inv(w) && Steps(w, acts, w') && Asleep(acts, o) && w.table.Holds(o, k)
    ensures w'.table.Holds(o, k) && HandOffs(w, acts, k) == 0
    decreases |acts|
  {
    hide Inv, Enabled, Next;
    if acts != [] {
      assert acts[0].o != o;
      StepKeepsHolder(w, acts[0], o, k);
      StepInv(w, acts[0]);
      assert Asleep(acts[1..], o);
      HolderStays(Next(w, acts[0]), acts[1..], w', o, k);
    }
  }

  /**
   First come, first served, over whole runs: an owner that sleeps in a queue with `n` ahead of it holds the
   key after at most `n + 1` hand-offs, and until then is queued with that many fewer ahead.
   */
  lemma {:induction false} ServedInTurn(w: World, acts: seq<Action>, w': World, o: Owner, k: Key)
    requires Inv(w) && Steps(w, acts, w') && Asleep(acts, o) && Queued(w.table, o, k)
    ensures HandOffs(w, acts, k) <= Place(w.table.locks[k].waiters, o) + 1
    ensures HandOffs(w, acts, k) > Place(w.table.locks[k].waiters, o) ==> w'.table.Holds(o, k)
    ensures !w'.table.Holds(o, k) ==>
              && Queued(w'.table, o, k)
              && Place(w'.table.locks[k].waiters, o) + HandOffs(w, acts, k) <= Place(w.table.locks[k].waiters, o)
    decreases |acts|
  {
    hide Inv, Enabled, Next, HandsOn;
    if acts == [] {
      QueuedHoldsNot(w, o, k);
    } else {
      assert acts[0].o != o;
      var one := Next(w, acts[0]);
      StepMovesQueue(w, acts[0], o, k);
      StepInv(w, acts[0]);
      assert Asleep(acts[1..], o);
      if one.table.Holds(o, k) {
        HolderStays(one, acts[1..], w', o, k);
      } else {
        ServedInTurn(one, acts[1..], w', o, k);
      }
    }
  }

  lemma QueuedHoldsNot(w: World, o: Owner, k: Key)
    requires Inv(w) && Queued(w.table, o, k)
    ensures !w.table.Holds(o, k)
  {
    assert EntryOk(w.table.locks[k]);
  }
}
