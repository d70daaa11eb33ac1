/** The check at commit refuses nobody without reason: what stops a transaction is a cycle of real antidependencies. */
module SsiExact {
  import opened Graphs
  import opened Ssi
  import opened SsiProtocol

  /** The antidependencies between transactions that have not been aborted. */
  ghost function LiveDependencies(w: World): Edges {
    set r, x | r in Live(w) && x in Live(w) && Antidependency(w, r, x) :: (r, x)
  }

  /** No edge on record touches an aborted transaction. */
  ghost predicate EdgesLive(w: World) {
    forall e :: e in OutEdges(w.tracker.out) ==> e.0 in Live(w) && e.1 in Live(w)
  }

  lemma NotedEdgesLive(w: World, a: Action)
    requires ActiveOk(w) && EdgesLive(w) && Enabled(w, a) && (a.Read? || a.Write?)
    ensures EdgesLive(Next(w, a))
  {
    hide OutEdges, LateReaders, LateWriters;
    assert Live(Next(w, a)) == Live(w);
    if a.Read? {
      NoteReadEdges(w.tracker, a.id, a.table);
    } else {
      NoteWriteEdges(w.tracker, a.id, a.table);
    }
  }

  lemma EndedEdgesLive(w: World, a: Action)
    requires EdgesLive(w) && Enabled(w, a) && (a.Drop? || a.Abort?)
    ensures EdgesLive(Next(w, a))
  {
    hide OutEdges;
    assert forall n :: n in Live(Next(w, a)) <==> n in Live(w) && !(a.Abort? && n == a.id);
    if a.Drop? {
      CommitEdges(w.tracker, a.id);
    } else {
      AbortEdges(w.tracker, a.id);
    }
  }

  lemma StepEdgesLive(w: World, a: Action)
    requires Inv(w) && EdgesLive(w) && Enabled(w, a)
    ensures EdgesLive(Next(w, a))
  {
    if a.Read? || a.Write? {
      NotedEdgesLive(w, a);
    } else if a.Drop? || a.Abort? {
      EndedEdgesLive(w, a);
    } else {
      hide OutEdges, Inv;
      assert Live(w) <= Live(Next(w, a));
    }
  }

  lemma {:induction false} RunEdgesLive(w: World, acts: seq<Action>, w': World)
    requires Inv(w) && EdgesLive(w) && Steps(w, acts, w')
    ensures EdgesLive(w')
    decreases |acts|
  {
    hide Inv, EdgesLive, Enabled, Next;
    if acts != [] {
      StepInv(w, acts[0]);
      StepEdgesLive(w, acts[0]);
      RunEdgesLive(Next(w, acts[0]), acts[1..], w');
    }
  }

  /** Every edge on record is an antidependency between transactions that still count. */
  lemma RecordedIsReal(acts: seq<Action>, w: World)
    requires Steps(START, acts, w)
    ensures OutEdges(w.tracker.out) <= LiveDependencies(w)
  {
    StartInv();
    RunInv(START, acts, w);
    RunRecorded(START, acts, w);
    RunEdgesLive(START, acts, w);
    forall e | e in OutEdges(w.tracker.out)
      ensures e in LiveDependencies(w)
    {
      assert e.0 in Live(w) && e.1 in Live(w) && e in w.ever;
      assert Antidependency(w, e.0, e.1);
    }
  }

  /** In every run, a transaction that fails its check is on a cycle of real antidependencies. */
  lemma RefusalIsReal(acts: seq<Action>, w: World, id: Node)
    requires Steps(START, acts, w) && In(w, id, Open) && !Enabled(w, Check(id))
    ensures OnCycle(LiveDependencies(w), id)
  {
    RecordedIsReal(acts, w);
    var p :| Cycle(OutEdges(w.tracker.out), p) && p[0] == id;
    WalkSubset(OutEdges(w.tracker.out), LiveDependencies(w), p);
  }

  /** As long as no access was late, a transaction passes its check if and only if it is on no such cycle. */
  lemma CheckIsExact(acts: seq<Action>, w: World, id: Node)
    requires Steps(START, acts, w) && AccessesInTime(START, acts) && In(w, id, Open)
    ensures Enabled(w, Check(id)) <==> !OnCycle(LiveDependencies(w), id)
  {
    if !Enabled(w, Check(id)) {
      RefusalIsReal(acts, w, id);
    }
    if OnCycle(LiveDependencies(w), id) {
      StartInv();
      RunInv(START, acts, w);
      RunRecorded(START, acts, w);
      LateMeansLateAccess(START, acts, w);
      var p :| Cycle(LiveDependencies(w), p) && p[0] == id;
      assert LiveDependencies(w) <= Within(w.ever, Live(w));
      WalkSubset(LiveDependencies(w), Within(w.ever, Live(w)), p);
      CycleIsRecorded(w, id, p);
    }
  }
}
