/**
 The row-lock table: exclusive locks with first-come first-served hand-off and
 a bounded walk of the wait-for chain. Each method is one critical section of
 the manager's mutex; waiting itself is the gap between two of them.
 */
module LockManager {
  import opened Options
  import opened Graphs

  type Owner = Node

  datatype Key = Key(table: string, page: nat, slot: nat)

  datatype Entry = Entry(holder: Option<Owner>, waiters: seq<Owner>)

  function At(held: map<Owner, set<Key>>, o: Owner): set<Key> {
    if o in held then held[o] else {}
  }

  function Drop(s: seq<Owner>, o: Owner): (r: seq<Owner>)
    ensures o !in r && |r| <= |s|
    ensures forall w :: w != o ==> (w in r <==> w in s)
  {
    if s == [] then [] else if s[0] == o then Drop(s[1..], o) else [s[0]] + Drop(s[1..], o)
  }

  /** The state as the outside sees it; `held` is the set of (owner, key) pairs on record. */
  datatype Table = Table(locks: map<Key, Entry>, held: set<(Owner, Key)>, waiting: map<Owner, Key>) {

    predicate Holds(o: Owner, k: Key) {
      k in locks && locks[k].holder == Some(o)
    }

    function Grant(o: Owner, k: Key, waiters: seq<Owner>): Table {
      this.(locks := locks[k := Entry(Some(o), waiters)], held := held + {(o, k)})
    }

    /** First section of an acquire: take a free key, keep one already held, otherwise join the queue. */
    function Request(o: Owner, k: Key): Table {
      if k !in locks then Grant(o, k, [])
      else match locks[k].holder
        case None => Grant(o, k, locks[k].waiters)
        case Some(h) =>
          if h == o then this
          else this.(locks := locks[k := Entry(Some(h), locks[k].waiters + [o])], waiting := waiting[o := k])
    }

    /** A queued owner finds itself the holder and goes on. */
    function Wake(o: Owner): Table {
      this.(waiting := waiting - {o})
    }

    /** A queued owner gives up. */
    function GiveUp(o: Owner, k: Key): Table {
      this.(locks := if k in locks then locks[k := locks[k].(waiters := Drop(locks[k].waiters, o))] else locks,
            waiting := waiting - {o})
    }

    /** The pairs that hand-off of `keys` puts on record. */
    ghost function Heirs(keys: set<Key>): set<(Owner, Key)> {
      set k | k in keys && k in locks && locks[k].waiters != [] :: (locks[k].waiters[0], k)
    }

    /** Every key of `keys` handed to its first waiter, or freed when nobody waits. */
    ghost function Released(keys: set<Key>): Table {
      this.(locks := map k | k in locks && !(k in keys && locks[k].waiters == []) ::
                         if k in keys then Entry(Some(locks[k].waiters[0]), locks[k].waiters[1..]) else locks[k],
            held := held + Heirs(keys))
    }

    ghost function KeysOf(o: Owner): set<Key> {
      set e | e in held && e.0 == o :: e.1
    }

    ghost function UnlockAll(o: Owner): Table {
      this.(held := set e | e in held && e.0 != o).Released(KeysOf(o))
    }

    /** `o -> h`: `o` is queued behind the holder `h`. A woken but not yet running holder waits for nobody. */
    ghost function WaitsFor(): Edges {
      set o | o in waiting && waiting[o] in locks && locks[waiting[o]].holder.Some?
              && locks[waiting[o]].holder.value != o :: (o, locks[waiting[o]].holder.value)
    }
  }

  const EMPTY: Table := Table(map[], {}, map[])

  ghost function Pairs(held: map<Owner, set<Key>>): set<(Owner, Key)> {
    set o, k | o in held && k in held[o] :: (o, k)
  }

  class LockTable {
    var locks: map<Key, Entry>
    var held: map<Owner, set<Key>>
    var waiting: map<Owner, Key>

    ghost function View(): Table
      reads this
    {
      Table(locks, Pairs(held), waiting)
    }

    constructor ()
      ensures View() == EMPTY
    {
      locks, held, waiting := map[], map[], map[];
    }

    /** Returns whether the key is held on return; `false` means the owner now waits in the queue. */
    method Request(owner: Owner, key: Key) returns (granted: bool)
      modifies this
      ensures View() == old(View()).Request(owner, key)
      ensures granted <==> View().Holds(owner, key)
    {
      if key !in locks {
        locks := locks[key := Entry(Some(owner), [])];
        PairsAdd(held, owner, key);
        held := held[owner := At(held, owner) + {key}];
        return true;
      }
      var entry := locks[key];
      match entry.holder {
        case None =>
          locks := locks[key := entry.(holder := Some(owner))];
          PairsAdd(held, owner, key);
          held := held[owner := At(held, owner) + {key}];
          return true;
        case Some(h) =>
          if h == owner {
            return true;
          }
          locks := locks[key := entry.(waiters := entry.waiters + [owner])];
          waiting := waiting[owner := key];
          return false;
      }
    }

    /** One turn of the waiting loop: done when the key has been handed over. */
    method Poll(owner: Owner, key: Key) returns (granted: bool)
      modifies this
      ensures granted <==> old(View()).Holds(owner, key)
      ensures View() == if granted then old(View()).Wake(owner) else old(View())
    {
      granted := key in locks && locks[key].holder == Some(owner);
      if granted {
        waiting := waiting - {owner};
      }
    }

    method GiveUp(owner: Owner, key: Key)
      modifies this
      ensures View() == old(View()).GiveUp(owner, key)
    {
      if key in locks {
        locks := locks[key := locks[key].(waiters := Drop(locks[key].waiters, owner))];
      }
      waiting := waiting - {owner};
    }

    method ReleaseKey(key: Key)
      modifies this
      ensures View() == old(View()).Released({key})
    {
      if key in locks {
        var entry := locks[key];
        if entry.waiters != [] {
          var next := entry.waiters[0];
          locks := locks[key := Entry(Some(next), entry.waiters[1..])];
          PairsAdd(held, next, key);
          held := held[next := At(held, next) + {key}];
        } else {
          locks := locks - {key};
        }
      }
      assert View().locks == old(View()).Released({key}).locks;
      assert View().held == old(View()).Released({key}).held;
    }

    /** Hands over everything the owner holds; the order of the hand-offs does not matter. */
    method UnlockAll(owner: Owner)
      modifies this
      ensures View() == old(View()).UnlockAll(owner)
    {
      PairsOf(View(), held, owner);
      if owner !in held {
        ReleasedNone(View());
        assert View().held == set e | e in View().held && e.0 != owner;
        return;
      }
      var keys := held[owner];
      held := held - {owner};
      assert View() == old(View()).(held := set e | e in old(View()).held && e.0 != owner);
      ghost var start, done: set<Key> := View(), {};
      ReleasedNone(start);
      while keys != {}
        invariant done !! keys && done + keys == old(held)[owner]
        invariant View() == start.Released(done)
        decreases keys
      {
        var key :| key in keys;
        ReleasedOne(start, done, key);
        ReleaseKey(key);
        keys, done := keys - {key}, done + {key};
      }
    }

    /**
     Follows waiter -> holder at most one step more than there are waiters.
     Callers have just seen that `start` is not the holder it waits for.
     */
    method InCycle(start: Owner) returns (found: bool)
      requires !(start in waiting && View().Holds(start, waiting[start]))
      ensures found <==> OnCycle(View().WaitsFor(), start)
    {
      ghost var edges := View().WaitsFor();
      var limit := |waiting| + 1;
      var cur := start;
      ghost var trail := [start];
      for i := 0 to limit
        invariant Trail(edges, trail, start) && trail[|trail| - 1] == cur
        invariant |trail| == i + 1 || (cur in waiting && View().Holds(cur, waiting[cur]))
      {
        if cur !in waiting || waiting[cur] !in locks || locks[waiting[cur]].holder.None? {
          DeadEnd(View(), trail, start);
          return false;
        }
        var holder := locks[waiting[cur]].holder.value;
        if holder == start {
          assert (cur, start) in edges;
          TrailCloses(edges, trail, start);
          return true;
        }
        if holder != cur {
          assert (cur, holder) in edges;
          TrailExtends(edges, trail, start, holder);
          trail := trail + [holder];
        }
        cur := holder;
      }
      if |trail| == limit + 1 {
        LongTrail(View(), trail, start);
      } else {
        DeadEnd(View(), trail, start);
      }
      return false;
    }
  }

  lemma PairsAdd(held: map<Owner, set<Key>>, o: Owner, k: Key)
    ensures Pairs(held[o := At(held, o) + {k}]) == Pairs(held) + {(o, k)}
  {
    forall e
      ensures e in Pairs(held[o := At(held, o) + {k}]) <==> e in Pairs(held) || e == (o, k)
    {
    }
  }

  lemma PairsOf(t: Table, held: map<Owner, set<Key>>, o: Owner)
    requires t.held == Pairs(held)
    ensures t.KeysOf(o) == At(held, o)
  {
    forall k | k in At(held, o)
      ensures k in t.KeysOf(o)
    {
      assert (o, k) in t.held;
    }
  }

  lemma ReleasedNone(t: Table)
    ensures t.Released({}) == t
  {
    assert t.Heirs({}) == {};
  }

  lemma ReleasedOne(t: Table, done: set<Key>, key: Key)
    requires key !in done
    ensures t.Released(done).Released({key}) == t.Released(done + {key})
  {
    var a, b := t.Released(done).Released({key}), t.Released(done + {key});
    assert a.locks == b.locks;
    assert t.Released(done).Heirs({key}) == t.Heirs({key});
    assert t.Heirs(done + {key}) == t.Heirs(done) + t.Heirs({key});
  }

  // ------------------------------------------------------------------ the wait-for walk

  /** A walk from `start` that has not come back to it. */
  ghost predicate Trail(edges: Edges, p: seq<Owner>, start: Owner) {
    && Walk(edges, p) && p[0] == start
    && forall i :: 0 < i < |p| ==> p[i] != start
  }

  lemma TrailExtends(edges: Edges, p: seq<Owner>, start: Owner, next: Owner)
    requires Trail(edges, p, start) && (p[|p| - 1], next) in edges && next != start
    ensures Trail(edges, p + [next], start)
  {
    AppendHop(edges, p, next);
  }

  lemma TrailCloses(edges: Edges, p: seq<Owner>, start: Owner)
    requires Trail(edges, p, start) && (p[|p| - 1], start) in edges
    ensures OnCycle(edges, start)
  {
    AppendHop(edges, p, start);
    assert Cycle(edges, p + [start]);
  }

  lemma AppendHop(edges: Edges, p: seq<Owner>, next: Owner)
    requires Walk(edges, p) && (p[|p| - 1], next) in edges
    ensures Walk(edges, p + [next])
  {
    var q := p + [next];
    forall i: nat | i + 1 < |q|
      ensures Hop(edges, q, i)
    {
      if i + 1 < |p| {
        assert Hop(edges, p, i);
      }
    }
  }

  /** Each owner waits for one holder, so a cycle from `start` runs along the trail. */
  lemma {:induction false} CycleFollowsTrail(t: Table, p: seq<Owner>, c: seq<Owner>, i: nat)
    requires Walk(t.WaitsFor(), p) && Walk(t.WaitsFor(), c) && p[0] == c[0]
    requires i < |p| && i < |c|
    ensures p[i] == c[i]
  {
    if i > 0 {
      CycleFollowsTrail(t, p, c, i - 1);
      assert Hop(t.WaitsFor(), p, i - 1) && Hop(t.WaitsFor(), c, i - 1);
    }
  }

  lemma DeadEnd(t: Table, p: seq<Owner>, start: Owner)
    requires Trail(t.WaitsFor(), p, start)
    requires forall e :: e in t.WaitsFor() ==> e.0 != p[|p| - 1]
    ensures !OnCycle(t.WaitsFor(), start)
  {
    forall c | Cycle(t.WaitsFor(), c) && c[0] == start
      ensures false
    {
      if |c| > |p| {
        assert Hop(t.WaitsFor(), c, |p| - 1);
        CycleFollowsTrail(t, p, c, |p| - 1);
      } else {
        CycleFollowsTrail(t, p, c, |c| - 1);
      }
    }
  }

  lemma LongTrail(t: Table, p: seq<Owner>, start: Owner)
    requires Trail(t.WaitsFor(), p, start) && |p| == |t.waiting| + 2
    ensures !OnCycle(t.WaitsFor(), start)
  {
    if OnCycle(t.WaitsFor(), start) {
      var c :| Cycle(t.WaitsFor(), c) && c[0] == start;
      var d := SimpleCycle(t.WaitsFor(), c);
      CycleLength(t, d);
      CycleFollowsTrail(t, p, d, |d| - 1);
    }
  }

  ghost predicate Distinct(p: seq<Owner>) {
    forall i, j :: 0 <= i < j < |p| ==> p[i] != p[j]
  }

  /** Cutting out every detour leaves a cycle that visits no node twice. */
  lemma {:induction false} SimpleCycle(edges: Edges, c: seq<Owner>) returns (d: seq<Owner>)
    requires Cycle(edges, c)
    ensures Cycle(edges, d) && d[0] == c[0] && Distinct(d[..|d| - 1])
    decreases |c|
  {
    d := c;
    if i, j :| 0 <= i < j < |c| - 1 && c[i] == c[j] {
      var cut := c[..i] + c[j..];
      forall k: nat | k + 1 < |cut|
        ensures Hop(edges, cut, k)
      {
        if k + 1 < i {
          assert Hop(edges, c, k);
        } else if k + 1 == i {
          assert Hop(edges, c, k) && cut[k + 1] == c[j];
        } else {
          assert Hop(edges, c, k - i + j);
        }
      }
      d := SimpleCycle(edges, cut);
    }
  }

  lemma CycleLength(t: Table, d: seq<Owner>)
    requires Cycle(t.WaitsFor(), d) && Distinct(d[..|d| - 1])
    ensures |d| - 1 <= |t.waiting|
  {
    var body := d[..|d| - 1];
    forall i: nat | i < |body|
      ensures body[i] in t.waiting.Keys
    {
      assert Hop(t.WaitsFor(), d, i);
    }
    DistinctFits(body, t.waiting.Keys);
  }

  lemma {:induction false} DistinctFits(p: seq<Owner>, all: set<Owner>)
    requires Distinct(p) && forall i: nat :: i < |p| ==> p[i] in all
    ensures |p| <= |all|
  {
    if p != [] {
      var last := p[|p| - 1];
      DistinctFits(p[..|p| - 1], all - {last});
    }
  }
}
