/**
 Transaction ids, the open set and snapshots. A snapshot is an upper bound and
 the ids in flight, read one after the other while other transactions begin and
 end; visibility then consults the shared, still changing commit status.
 */
module TxnManager {
  import opened Clog
  import opened Heap

  /** Ids from `xmax` on, and those in `xip`, are invisible to the snapshot. */
  datatype Snapshot = Snapshot(xmax: Xid, xip: set<Xid>)

  datatype Tm = Tm(next: Xid, open: set<Xid>, status: Status) {

    predicate Committed(x: Xid) {
      status.Committed(x)
    }

    /** `x` had committed when the snapshot was taken. */
    predicate CommittedBefore(snap: Snapshot, x: Xid) {
      x < snap.xmax && x !in snap.xip && Committed(x)
    }

    /** Visibility of a version to transaction `id` under `snap`. */
    predicate Visible(id: Xid, snap: Snapshot, v: Version) {
      && (v.creator == 0 || v.creator == id || CommittedBefore(snap, v.creator))
      && !(v.deleter != 0 && (v.deleter == id || CommittedBefore(snap, v.deleter)))
    }

    function Begin(): Tm {
      this.(next := next + 1, open := open + {next})
    }

    function Mark(id: Xid): Tm {
      this.(status := status.Mark(id))
    }

    function Leave(id: Xid): Tm {
      this.(open := open - {id})
    }

    function Freeze(): Tm {
      this.(status := status.Advance(next))
    }
  }

  class TransactionManager {
    var nextId: Xid
    var commits: nat
    var open: set<Xid>
    const committed: CommitStatus

    ghost function View(): Tm
      reads this, committed
    {
      Tm(nextId, open, committed.View())
    }

    constructor (next: Xid, base: nat, ids: seq<Xid>)
      ensures committed.Valid() && fresh(committed)
      ensures View() == Tm(next, {}, Status(base, set x | x in ids && base <= x)) && commits == 0
    {
      committed := new CommitStatus.Reload(base, ids);
      nextId, commits, open := next, 0, {};
    }

    /** Reserves an id and enters it in the open set in one section. */
    method BeginOpen() returns (id: Xid)
      modifies this
      ensures View() == old(View()).Begin() && id == old(nextId)
    {
      id := nextId;
      nextId := nextId + 1;
      open := open + {id};
    }

    method Commit(id: Xid)
      requires committed.Valid()
      modifies this, committed
      ensures committed.Valid() && View() == old(View()).Mark(id).Leave(id) && commits == old(commits) + 1
    {
      commits := commits + 1;
      committed.MarkCommitted(id);
      open := open - {id};
    }

    method RemoveOpen(id: Xid)
      modifies this
      ensures View() == old(View()).Leave(id)
    {
      open := open - {id};
    }

    method AdvanceHorizon() returns (base: nat)
      requires committed.Valid()
      modifies committed
      ensures committed.Valid() && View() == old(View()).Freeze() && base == committed.base
    {
      base := committed.AdvanceBase(nextId);
    }

    /** The next id first, then the open set in ascending order. */
    method TakeSnapshot() returns (xmax: Xid, xip: seq<Xid>)
      ensures xmax == nextId && Ascending(xip) && (set x | x in xip) == open
    {
      xmax := nextId;
      xip := [];
      var rest := open;
      while rest != {}
        invariant rest <= open && Ascending(xip)
        invariant forall x :: x in xip <==> x in open - rest
        invariant forall x, y :: x in xip && y in rest ==> x < y
        decreases rest
      {
        var least := Least(rest);
        AscendingAppend(xip, least);
        xip := xip + [least];
        rest := rest - {least};
      }
    }

    /** Whether `xid` had committed at the snapshot; `xip` is searched by halving. */
    method CommittedBefore(xmax: Xid, xip: seq<Xid>, xid: Xid) returns (yes: bool)
      requires Ascending(xip)
      ensures yes == View().CommittedBefore(Snapshot(xmax, set x | x in xip), xid)
    {
      if xid >= xmax {
        return false;
      }
      var inFlight := BinarySearch(xip, xid);
      if inFlight {
        return false;
      }
      yes := committed.IsCommitted(xid);
    }
  }

  method Least(s: set<Xid>) returns (m: Xid)
    requires s != {}
    ensures m in s && forall x :: x in s ==> m <= x
  {
    m :| m in s;
    var rest := s - {m};
    while rest != {}
      invariant rest <= s && m in s && forall x :: x in s && x !in rest ==> m <= x
      decreases rest
    {
      var x :| x in rest;
      if x < m {
        m := x;
      }
      rest := rest - {x};
    }
  }

  method BinarySearch(s: seq<Xid>, x: Xid) returns (found: bool)
    requires Ascending(s)
    ensures found <==> x in s
  {
    var lo, hi := 0, |s|;
    while lo < hi
      invariant 0 <= lo <= hi <= |s|
      invariant forall i :: 0 <= i < lo ==> s[i] < x
      invariant forall i :: hi <= i < |s| ==> x < s[i]
    {
      var mid := (lo + hi) / 2;
      if s[mid] == x {
        return true;
      } else if s[mid] < x {
        lo := mid + 1;
      } else {
        hi := mid;
      }
    }
    return false;
  }
}

/** Snapshots taken in two reads, in every interleaving with begins, commits, aborts and vacuum. */
module SnapshotProtocol {
  import opened Clog
  import opened Heap
  import opened TxnManager

  /** `frozen`: what had finished committing when the second read was made. */
  datatype Observer = Half(xmax: Xid) | Full(snap: Snapshot, frozen: set<Xid>)

  datatype World = World(tm: Tm, observers: map<nat, Observer>, finished: set<Xid>)

  datatype Action =
    | Begin
    | Mark(id: Xid)
    | Finish(id: Xid)
    | Abort(id: Xid)
    | ReadNext(o: nat)
    | ReadOpen(o: nat)
    | Release(o: nat)
    | Vacuum

  /** The ids whose commit is complete: marked and out of the open set, or below the horizon. */
  ghost function Finished(w: World, xmax: Xid): set<Xid> {
    set x | 0 < x < xmax && x !in w.tm.open && (x < w.tm.status.base || x in w.finished)
  }

  ghost predicate Enabled(w: World, a: Action) {
    match a
    case Begin => true
    case Mark(id) => id in w.tm.open
    case Finish(id) => id in w.tm.open && w.tm.Committed(id)
    case Abort(id) => id in w.tm.open && !w.tm.Committed(id)
    case ReadNext(o) => o !in w.observers
    case ReadOpen(o) => o in w.observers && w.observers[o].Half?
    case Release(o) => o in w.observers
    // vacuum holds the database exclusively: no snapshot is in use, and only its own transaction may be open
    case Vacuum => w.observers == map[] && |w.tm.open| <= 1
  }

  ghost function Next(w: World, a: Action): World
    requires Enabled(w, a)
  {
    match a
    case Begin => w.(tm := w.tm.Begin())
    case Mark(id) => w.(tm := w.tm.Mark(id))
    case Finish(id) => w.(tm := w.tm.Leave(id), finished := w.finished + {id})
    case Abort(id) => w.(tm := w.tm.Leave(id))
    case ReadNext(o) => w.(observers := w.observers[o := Half(w.tm.next)])
    case ReadOpen(o) =>
      var xmax := w.observers[o].xmax;
      w.(observers := w.observers[o := Full(Snapshot(xmax, w.tm.open), Finished(w, xmax))])
    case Release(o) => w.(observers := w.observers - {o})
    case Vacuum => w.(tm := w.tm.Freeze())
  }

  ghost predicate Steps(w: World, acts: seq<Action>, w': World)
    decreases |acts|
  {
    if acts == [] then w == w'
    else Enabled(w, acts[0]) && Steps(Next(w, acts[0]), acts[1..], w')
  }

  ghost predicate IdsOk(w: World) {
    && w.tm.next > 0 && w.tm.status.base <= w.tm.next
    && (forall x :: x in w.tm.open ==> 0 < x < w.tm.next)
    && (forall x :: x in w.tm.status.marked ==> w.tm.status.base <= x < w.tm.next)
    && (forall x :: x in w.tm.status.marked && x !in w.tm.open ==> x in w.finished)
    && (forall x :: x in w.finished ==> 0 < x < w.tm.next && w.tm.Committed(x) && x !in w.tm.open)
  }

  ghost predicate ObserverOk(w: World, ob: Observer) {
    match ob
    case Half(xmax) => xmax <= w.tm.next
    case Full(snap, frozen) =>
      && snap.xmax <= w.tm.next
      && (forall x :: x in w.tm.open && x < snap.xmax ==> x in snap.xip)
      && (forall x :: w.tm.CommittedBefore(snap, x) <==> x in frozen)
  }

  ghost predicate Inv(w: World) {
    IdsOk(w) && forall o :: o in w.observers ==> ObserverOk(w, w.observers[o])
  }

  ghost predicate Init(w: World) {
    && w.tm.open == {} && w.observers == map[]
    && w.tm.next > 0 && w.tm.status.base <= w.tm.next
    && (forall x :: x in w.tm.status.marked ==> 0 < x && w.tm.status.base <= x < w.tm.next)
    && w.finished == w.tm.status.marked
  }

  lemma StepInv(w: World, a: Action)
    requires Inv(w) && Enabled(w, a)
    ensures Inv(Next(w, a))
  {
    var w' := Next(w, a);
    forall o | o in w'.observers
      ensures ObserverOk(w', w'.observers[o])
    {
      if o in w.observers {
        assert ObserverOk(w, w.observers[o]);
      }
    }
  }

  lemma {:induction false} RunInv(w: World, acts: seq<Action>, w': World)
    requires Inv(w) && Steps(w, acts, w')
    ensures Inv(w')
    decreases |acts|
  {
    if acts != [] {
      StepInv(w, acts[0]);
      RunInv(Next(w, acts[0]), acts[1..], w');
    }
  }

  /**
   However the two reads interleave with other sessions, and however many
   transactions end afterwards, a snapshot treats as committed exactly the ids
   below its bound whose commit had finished by its second read.
   */
  lemma SnapshotIsFrozen(start: World, acts: seq<Action>, w: World, o: nat)
    requires Init(start) && Steps(start, acts, w)
    requires o in w.observers && w.observers[o].Full?
    ensures forall x :: w.tm.CommittedBefore(w.observers[o].snap, x) <==> x in w.observers[o].frozen
  {
    RunInv(start, acts, w);
    assert ObserverOk(w, w.observers[o]);
  }

  // ------------------------------------------------------------------ finished, from the run

  lemma {:induction false} FinishedMeans(w: World, acts: seq<Action>, w': World, x: Xid)
    requires Steps(w, acts, w')
    ensures x in w'.finished <==> x in w.finished || Finish(x) in acts
    decreases |acts|
  {
    if acts != [] {
      FinishedMeans(Next(w, acts[0]), acts[1..], w', x);
      assert acts == [acts[0]] + acts[1..];
    }
  }

  lemma {:induction false} Then(w: World, acts: seq<Action>, w1: World, a: Action)
    requires Steps(w, acts, w1) && Enabled(w1, a)
    ensures Steps(w, acts + [a], Next(w1, a))
    decreases |acts|
  {
    hide Enabled, Next;
    if acts == [] {
      assert (acts + [a])[1..] == [] && Steps(Next(w1, a), [], Next(w1, a));
    } else {
      Then(Next(w, acts[0]), acts[1..], w1, a);
      assert (acts + [a])[1..] == acts[1..] + [a];
    }
  }

  /** A transaction can always begin and commit, and a snapshot can always be taken; one taken later counts it. */
  lemma CommitIsSeen(w: World, o: nat) returns (acts: seq<Action>, w': World)
    requires Inv(w) && o !in w.observers
    ensures Steps(w, acts, w') && o in w'.observers && w'.observers[o].Full?
    ensures w'.tm.CommittedBefore(w'.observers[o].snap, w.tm.next)
  {
    hide Steps;
    var id := w.tm.next;
    acts := [Begin] + [Mark(id)] + [Finish(id)] + [ReadNext(o)] + [ReadOpen(o)];
    assert Steps(w, [], w) by { Stays(w); }
    Then(w, [], w, Begin);
    assert [] + [Begin] == [Begin];
    var w1 := Next(w, Begin);
    Then(w, [Begin], w1, Mark(id));
    var w2 := Next(w1, Mark(id));
    Then(w, [Begin] + [Mark(id)], w2, Finish(id));
    var w3 := Next(w2, Finish(id));
    Then(w, [Begin] + [Mark(id)] + [Finish(id)], w3, ReadNext(o));
    var w4 := Next(w3, ReadNext(o));
    Then(w, [Begin] + [Mark(id)] + [Finish(id)] + [ReadNext(o)], w4, ReadOpen(o));
    w' := Next(w4, ReadOpen(o));
  }

  lemma Stays(w: World)
    ensures Steps(w, [], w)
  {
  }
}
