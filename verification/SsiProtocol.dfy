/**
 Whole runs of serializable transactions over the conflict tracker. The commit
 protocol is three separate critical sections (cycle check, commit-status mark,
 tracker drop), and other sessions may act between any two of them.
 */
module SsiProtocol {
  import opened Graphs
  import opened Ssi

  /** Open -> Checked -> Marked -> Dropped, or Aborted from either of the first two. */
  datatype Phase = Open | Checked | Marked | Dropped | Aborted

  datatype Action =
    | Begin(id: Node)
    | Read(id: Node, table: Table)
    | Write(id: Node, table: Table)
    | Check(id: Node)
    | Mark(id: Node)
    | Drop(id: Node)
    | Abort(id: Node)

  /**
   The tracker plus history: every edge ever recorded, what was read and written,
   who ran concurrently, and how often the graph has been discarded wholesale.
   */
  datatype World = World(
    tracker: Tracker,
    phase: map<Node, Phase>,
    ever: Edges,
    readLog: set<(Node, Table)>,
    writeLog: set<(Node, Table)>,
    overlap: Edges,
    late: Edges,
    born: map<Node, nat>,
    discards: nat
  )

  const START: World := World(EMPTY, map[], {}, {}, {}, {}, {}, map[], 0)

  ghost predicate In(w: World, id: Node, p: Phase) {
    id in w.phase && w.phase[id] == p
  }

  ghost predicate Enabled(w: World, a: Action) {
    match a
    case Begin(id) => id !in w.phase
    case Read(id, _) => In(w, id, Open)
    case Write(id, _) => In(w, id, Open)
    case Check(id) => In(w, id, Open) && !OnCycle(OutEdges(w.tracker.out), id)
    case Mark(id) => In(w, id, Checked)
    case Drop(id) => In(w, id, Marked)
    case Abort(id) => In(w, id, Open) || In(w, id, Checked)
  }

  /** Dropped transactions that ran beside `id` and wrote `table`: a read of it now is too late to meet them. */
  ghost function LateWriters(w: World, id: Node, table: Table): set<Node> {
    set e | e in w.writeLog && e.1 == table && In(w, e.0, Dropped) && (id, e.0) in w.overlap :: e.0
  }

  ghost function LateReaders(w: World, id: Node, table: Table): set<Node> {
    set e | e in w.readLog && e.1 == table && In(w, e.0, Dropped) && (e.0, id) in w.overlap :: e.0
  }

  ghost function WithTracker(w: World, t: Tracker): World {
    w.(tracker := t, ever := w.ever + OutEdges(t.out))
  }

  ghost function End(w: World, id: Node, t: Tracker, p: Phase): World {
    WithTracker(w, t).(phase := w.phase[id := p],
                       discards := if t.active == {} then w.discards + 1 else w.discards)
  }

  ghost function Next(w: World, a: Action): World
    requires Enabled(w, a)
  {
    match a
    case Begin(id) =>
      WithTracker(w, w.tracker.Begin(id)).(
        phase := w.phase[id := Open],
        born := w.born[id := w.discards],
        overlap := w.overlap + (set o | o in w.tracker.active :: (id, o)) + (set o | o in w.tracker.active :: (o, id)))
    case Read(id, table) =>
      WithTracker(w, w.tracker.NoteRead(id, table)).(
        readLog := w.readLog + {(id, table)},
        late := w.late + (set o | o in LateWriters(w, id, table) :: (id, o)))
    case Write(id, table) =>
      WithTracker(w, w.tracker.NoteWrite(id, table)).(
        writeLog := w.writeLog + {(id, table)},
        late := w.late + (set o | o in LateReaders(w, id, table) :: (o, id)))
    case Check(id) => w.(phase := w.phase[id := Checked])
    case Mark(id) => w.(phase := w.phase[id := Marked])
    case Drop(id) => End(w, id, w.tracker.Commit(id), Dropped)
    case Abort(id) => End(w, id, w.tracker.Abort(id), Aborted)
  }

  /** `acts`, performed in order, lead from `w` to `w'`. */
  ghost predicate Steps(w: World, acts: seq<Action>, w': World)
    decreases |acts|
  {
    if acts == [] then w == w'
    else Enabled(w, acts[0]) && Steps(Next(w, acts[0]), acts[1..], w')
  }

  ghost function Committed(w: World): set<Node> {
    set id | id in w.phase && (w.phase[id].Marked? || w.phase[id].Dropped?)
  }

  ghost function Validated(w: World): set<Node> {
    set id | id in w.phase && !w.phase[id].Open? && !w.phase[id].Aborted?
  }

  ghost function Live(w: World): set<Node> {
    set id | id in w.phase && !w.phase[id].Aborted?
  }

  // ------------------------------------------------------------------ invariant

  ghost predicate ActiveOk(w: World) {
    && (forall id :: id in w.tracker.active <==>
                     id in w.phase && !w.phase[id].Dropped? && !w.phase[id].Aborted?)
    && MembersOk(w)
  }

  ghost predicate MembersOk(w: World) {
    && (forall table, id :: id in At(w.tracker.readers, table) <==> id in w.tracker.active && (id, table) in w.readLog)
    && (forall table, id :: id in At(w.tracker.writers, table) <==> id in w.tracker.active && (id, table) in w.writeLog)
  }

  ghost predicate LogsOk(w: World) {
    && (forall a, b :: a in w.tracker.active && b in w.tracker.active && a != b ==> (a, b) in w.overlap)
    && (forall e :: e in w.overlap || e in w.late ==> e.0 in w.phase && e.1 in w.phase)
    && (forall e :: e in w.readLog || e in w.writeLog ==> e.0 in w.phase)
  }

  ghost predicate BornOk(w: World) {
    && w.born.Keys == w.phase.Keys
    && (forall id :: id in w.born ==> w.born[id] <= w.discards)
    && (forall id :: id in w.tracker.active ==> id in w.born && w.born[id] == w.discards)
  }

  /** An edge joins two transactions of the same generation, and is kept while that generation lasts. */
  ghost predicate EdgesOk(w: World) {
    && OutEdges(w.tracker.out) <= w.ever
    && (forall e :: e in w.ever ==> e.0 in w.born && e.1 in w.born && w.born[e.0] == w.born[e.1])
    && (forall e :: e in w.ever && e.0 in Live(w) && e.1 in Live(w) && w.born[e.0] == w.discards
                    ==> e in OutEdges(w.tracker.out))
  }

  ghost predicate Inv(w: World) {
    ActiveOk(w) && LogsOk(w) && BornOk(w) && EdgesOk(w) && Acyclic(Within(w.ever, Validated(w)))
  }

  // ------------------------------------------------------------------ edges added by a step

  lemma NoteReadEdges(t: Tracker, id: Node, table: Table)
    requires id in t.active
    ensures OutEdges(t.NoteRead(id, table).out) ==
            OutEdges(t.out) + (set o | o in At(t.writers, table) - {id} :: (id, o))
  {
    var t' := t.NoteRead(id, table);
    forall e
      ensures e in OutEdges(t'.out) <==>
              e in OutEdges(t.out) || (e.0 == id && e.1 in At(t.writers, table) - {id})
    {
    }
  }

  lemma NoteWriteEdges(t: Tracker, id: Node, table: Table)
    requires id in t.active
    ensures OutEdges(t.NoteWrite(id, table).out) ==
            OutEdges(t.out) + (set o | o in At(t.readers, table) - {id} :: (o, id))
  {
    var t' := t.NoteWrite(id, table);
    forall e
      ensures e in OutEdges(t'.out) <==>
              e in OutEdges(t.out) || (e.1 == id && e.0 in At(t.readers, table) - {id})
    {
    }
  }

  lemma AbortEdges(t: Tracker, id: Node)
    ensures OutEdges(t.Abort(id).out) ==
            if t.active - {id} == {} then {} else set e | e in OutEdges(t.out) && e.0 != id && e.1 != id
  {
    var t' := t.Abort(id);
    forall e
      ensures e in OutEdges(t'.out) <==>
              t.active - {id} != {} && e in OutEdges(t.out) && e.0 != id && e.1 != id
    {
    }
  }

  lemma CommitEdges(t: Tracker, id: Node)
    ensures OutEdges(t.Commit(id).out) == if t.active - {id} == {} then {} else OutEdges(t.out)
  {
  }

  // ------------------------------------------------------------------ the invariant is kept

  lemma WithoutMembers(m: map<Table, set<Node>>, id: Node)
    ensures forall table, n :: n in At(Without(m, id), table) <==> n in At(m, table) && n != id
  {
  }

  lemma NoteMembers(m: map<Table, set<Node>>, id: Node, table: Table)
    ensures forall tb, n :: n in At(m[table := At(m, table) + {id}], tb) <==>
                            n in At(m, tb) || (n == id && tb == table)
  {
  }

  lemma StepMembersNote(w: World, a: Action)
    requires ActiveOk(w) && Enabled(w, a) && (a.Read? || a.Write?)
    ensures MembersOk(Next(w, a))
  {
    hide OutEdges, LateReaders, LateWriters, At;
    if a.Read? {
      NoteMembers(w.tracker.readers, a.id, a.table);
    } else {
      NoteMembers(w.tracker.writers, a.id, a.table);
    }
  }

  lemma StepMembersEnd(w: World, a: Action)
    requires ActiveOk(w) && Enabled(w, a) && (a.Drop? || a.Abort?)
    ensures MembersOk(Next(w, a))
  {
    hide OutEdges, At, Without;
    WithoutMembers(w.tracker.readers, a.id);
    WithoutMembers(w.tracker.writers, a.id);
  }

  lemma StepActive(w: World, a: Action)
    requires ActiveOk(w) && LogsOk(w) && Enabled(w, a)
    ensures ActiveOk(Next(w, a))
  {
    hide OutEdges, LateReaders, LateWriters, At, Without;
    if a.Read? || a.Write? {
      StepMembersNote(w, a);
    } else if a.Drop? || a.Abort? {
      StepMembersEnd(w, a);
    }
  }

  lemma StepLogs(w: World, a: Action)
    requires Inv(w) && Enabled(w, a)
    ensures LogsOk(Next(w, a))
  {
  }

  lemma StepBorn(w: World, a: Action)
    requires Inv(w) && Enabled(w, a)
    ensures BornOk(Next(w, a))
  {
  }

  lemma GrowEdges(w: World, w': World, added: Edges)
    requires Inv(w) && w'.born == w.born && w'.discards == w.discards && Live(w') == Live(w)
    requires OutEdges(w'.tracker.out) == OutEdges(w.tracker.out) + added
    requires w'.ever == w.ever + OutEdges(w'.tracker.out)
    requires forall e :: e in added ==> e.0 in w.tracker.active && e.1 in w.tracker.active
    ensures EdgesOk(w')
  {
    hide OutEdges, Acyclic, LogsOk, ActiveOk, Live;
  }

  lemma StepEdgesNote(w: World, a: Action)
    requires Inv(w) && Enabled(w, a) && (a.Read? || a.Write?)
    ensures EdgesOk(Next(w, a))
  {
    hide OutEdges, Acyclic, LogsOk, EdgesOk, BornOk, LateReaders, LateWriters;
    if a.Read? {
      NoteReadEdges(w.tracker, a.id, a.table);
      GrowEdges(w, Next(w, a), set o | o in At(w.tracker.writers, a.table) - {a.id} :: (a.id, o));
    } else {
      NoteWriteEdges(w.tracker, a.id, a.table);
      GrowEdges(w, Next(w, a), set o | o in At(w.tracker.readers, a.table) - {a.id} :: (o, a.id));
    }
  }

  lemma StepEdgesEnd(w: World, a: Action)
    requires Inv(w) && Enabled(w, a) && (a.Drop? || a.Abort?)
    ensures EdgesOk(Next(w, a))
  {
    if a.Drop? {
      CommitEdges(w.tracker, a.id);
    } else {
      AbortEdges(w.tracker, a.id);
    }
    hide OutEdges, Acyclic, LogsOk;
    assert forall n :: n in Live(Next(w, a)) <==> n in Live(w) && !(a.Abort? && n == a.id);
  }

  lemma StepEdges(w: World, a: Action)
    requires Inv(w) && Enabled(w, a)
    ensures EdgesOk(Next(w, a))
  {
    hide Acyclic, LateReaders, LateWriters;
    if a.Read? || a.Write? {
      StepEdgesNote(w, a);
    } else if a.Drop? || a.Abort? {
      StepEdgesEnd(w, a);
    } else {
      assert Live(Next(w, a)) <= Live(w) + {a.id};
    }
  }

  /** Outside a successful check no edge between validated transactions appears. */
  lemma StepKeepsValidatedEdges(w: World, a: Action)
    requires Inv(w) && Enabled(w, a) && !a.Check?
    ensures Within(Next(w, a).ever, Validated(Next(w, a))) <= Within(w.ever, Validated(w))
  {
    match a {
      case Read(id, table) => NoteReadEdges(w.tracker, id, table);
      case Write(id, table) => NoteWriteEdges(w.tracker, id, table);
      case Drop(id) => CommitEdges(w.tracker, id);
      case Abort(id) => AbortEdges(w.tracker, id);
      case _ =>
    }
  }

  /** All of a cycle through an open transaction belongs to the current generation, so all of it is still recorded. */
  lemma CycleIsRecorded(w: World, id: Node, p: seq<Node>)
    requires Inv(w) && id in w.tracker.active
    requires Cycle(Within(w.ever, Live(w)), p) && p[0] == id
    ensures OnCycle(OutEdges(w.tracker.out), id)
  {
    var edges, current := Within(w.ever, Live(w)), set n | n in w.born && w.born[n] == w.discards;
    forall i: nat | i + 1 < |p|
      ensures Hop(OutEdges(w.tracker.out), p, i)
    {
      WalkCarries(edges, p, current, i);
      assert Hop(edges, p, i);
    }
    assert Cycle(OutEdges(w.tracker.out), p);
  }

  lemma StepCheck(w: World, id: Node)
    requires Inv(w) && Enabled(w, Check(id))
    ensures Acyclic(Within(w.ever, Validated(Next(w, Check(id)))))
  {
    var w' := Next(w, Check(id));
    var before, after := Within(w.ever, Validated(w)), Within(w.ever, Validated(w'));
    forall p
      ensures !Cycle(after, p)
    {
      if Cycle(after, p) {
        if i: nat :| i < |p| && p[i] == id {
          RotateCycle(after, p, i);
          var q := p[i..] + p[1..i + 1];
          assert after <= Within(w.ever, Live(w));
          WalkSubset(after, Within(w.ever, Live(w)), q);
          CycleIsRecorded(w, id, q);
        } else {
          forall i: nat | i + 1 < |p|
            ensures Hop(before, p, i)
          {
            assert Hop(after, p, i) && p[i] != id && p[i + 1] != id;
          }
          assert Cycle(before, p);
        }
      }
    }
  }

  lemma StepInv(w: World, a: Action)
    requires Inv(w) && Enabled(w, a)
    ensures Inv(Next(w, a))
  {
    StepActive(w, a);
    StepLogs(w, a);
    StepBorn(w, a);
    StepEdges(w, a);
    if a.Check? {
      StepCheck(w, a.id);
    } else {
      StepKeepsValidatedEdges(w, a);
      AcyclicSubset(Within(Next(w, a).ever, Validated(Next(w, a))), Within(w.ever, Validated(w)));
    }
  }

  lemma {:induction false} RunInv(w: World, acts: seq<Action>, w': World)
    requires Inv(w) && Steps(w, acts, w')
    ensures Inv(w')
    decreases |acts|
  {
    if acts != [] {
      StepInv(w, acts[0]);
      RunInv(Next(w, acts[0]), acts[1..], w');
    }
  }

  lemma StartInv()
    ensures Inv(START)
  {
    assert Within(START.ever, Validated(START)) == {};
    EmptyAcyclic();
  }

  /**
   In every run, the antidependency edges ever recorded between committed
   transactions form no cycle, whatever happened between a transaction's check
   and its commit and although old edges were discarded on the way.
   */
  lemma CommittedEdgesAcyclic(acts: seq<Action>, w: World)
    requires Steps(START, acts, w)
    ensures Acyclic(Within(w.ever, Committed(w)))
  {
    StartInv();
    RunInv(START, acts, w);
    AcyclicSubset(Within(w.ever, Committed(w)), Within(w.ever, Validated(w)));
  }

  // ------------------------------------------------------------------ recorded against real

  /** `r` read a table that `w` wrote while the two were open together. */
  ghost predicate Antidependency(world: World, r: Node, w: Node) {
    && r != w && (r, w) in world.overlap
    && exists table :: (r, table) in world.readLog && (w, table) in world.writeLog
  }

  ghost predicate RecordedOrLate(w: World) {
    forall a, b :: a in Live(w) && b in Live(w) ==>
      (Antidependency(w, a, b) <==> (a, b) in w.ever || (a, b) in w.late)
  }

  lemma StepRecordedRead(w: World, id: Node, table: Table)
    requires Inv(w) && RecordedOrLate(w) && Enabled(w, Read(id, table))
    ensures RecordedOrLate(Next(w, Read(id, table)))
  {
    hide OutEdges, Acyclic, BornOk;
    var w' := Next(w, Read(id, table));
    NoteReadEdges(w.tracker, id, table);
    forall r, x | r in Live(w') && x in Live(w')
      ensures Antidependency(w', r, x) <==> (r, x) in w'.ever || (r, x) in w'.late
    {
      if r != id {
        assert Antidependency(w', r, x) <==> Antidependency(w, r, x);
      } else if (x, table) in w.writeLog {
        assert (id, table) in w'.readLog;
      } else {
        assert Antidependency(w', r, x) <==> Antidependency(w, r, x);
      }
    }
  }

  lemma StepRecordedWrite(w: World, id: Node, table: Table)
    requires Inv(w) && RecordedOrLate(w) && Enabled(w, Write(id, table))
    ensures RecordedOrLate(Next(w, Write(id, table)))
  {
    hide OutEdges, Acyclic, BornOk;
    var w' := Next(w, Write(id, table));
    NoteWriteEdges(w.tracker, id, table);
    forall r, x | r in Live(w') && x in Live(w')
      ensures Antidependency(w', r, x) <==> (r, x) in w'.ever || (r, x) in w'.late
    {
      if x != id {
        assert Antidependency(w', r, x) <==> Antidependency(w, r, x);
      } else if (r, table) in w.readLog {
        assert (id, table) in w'.writeLog;
      } else {
        assert Antidependency(w', r, x) <==> Antidependency(w, r, x);
      }
    }
  }

  lemma StepRecordedOther(w: World, a: Action)
    requires Inv(w) && RecordedOrLate(w) && Enabled(w, a) && !a.Read? && !a.Write?
    ensures RecordedOrLate(Next(w, a))
  {
    hide OutEdges, Acyclic;
    var w' := Next(w, a);
    CommitEdges(w.tracker, a.id);
    AbortEdges(w.tracker, a.id);
    assert w'.ever == w.ever;
    forall r, x | r in Live(w') && x in Live(w')
      ensures Antidependency(w', r, x) <==> (r, x) in w'.ever || (r, x) in w'.late
    {
      assert Antidependency(w', r, x) <==> Antidependency(w, r, x);
    }
  }

  lemma StepRecorded(w: World, a: Action)
    requires Inv(w) && RecordedOrLate(w) && Enabled(w, a)
    ensures RecordedOrLate(Next(w, a))
  {
    match a {
      case Read(id, table) => StepRecordedRead(w, id, table);
      case Write(id, table) => StepRecordedWrite(w, id, table);
      case _ => StepRecordedOther(w, a);
    }
  }

  lemma {:induction false} RunRecorded(w: World, acts: seq<Action>, w': World)
    requires Inv(w) && RecordedOrLate(w) && Steps(w, acts, w')
    ensures RecordedOrLate(w')
    decreases |acts|
  {
    if acts != [] {
      StepInv(w, acts[0]);
      StepRecorded(w, acts[0]);
      RunRecorded(Next(w, acts[0]), acts[1..], w');
    }
  }

  /** The antidependencies between committed transactions, whether or not the tracker saw them. */
  ghost function CommittedDependencies(w: World): Edges {
    set r, x | r in Committed(w) && x in Committed(w) && Antidependency(w, r, x) :: (r, x)
  }

  /**
   Exactly which antidependencies the tracker misses: those whose second access
   came after the other transaction had been dropped.
   */
  lemma MissedExactlyWhenLate(acts: seq<Action>, w: World)
    requires Steps(START, acts, w)
    ensures CommittedDependencies(w) == Within(w.ever + w.late, Committed(w))
    ensures CommittedDependencies(w) <= w.ever <==> Within(w.late, Committed(w)) <= w.ever
  {
    StartInv();
    RunRecorded(START, acts, w);
    assert Committed(w) <= Live(w);
    forall e
      ensures e in CommittedDependencies(w) <==> e in Within(w.ever + w.late, Committed(w))
    {
      var (r, x) := e;
      assert r in Live(w) && x in Live(w) ==> (Antidependency(w, r, x) <==> (r, x) in w.ever || (r, x) in w.late);
    }
  }

  /** As long as no antidependency between committed transactions is missed, there is no cycle of them. */
  lemma SerializableUnlessMissed(acts: seq<Action>, w: World)
    requires Steps(START, acts, w) && Within(w.late, Committed(w)) <= w.ever
    ensures Acyclic(CommittedDependencies(w))
  {
    MissedExactlyWhenLate(acts, w);
    CommittedEdgesAcyclic(acts, w);
    AcyclicSubset(CommittedDependencies(w), Within(w.ever, Committed(w)));
  }

  /** The access meets nobody who ran beside the transaction, touched the table the other way and has ended since. */
  ghost predicate AccessInTime(w: World, a: Action) {
    (a.Read? ==> LateWriters(w, a.id, a.table) == {}) && (a.Write? ==> LateReaders(w, a.id, a.table) == {})
  }

  ghost predicate AccessesInTime(w: World, acts: seq<Action>)
    decreases |acts|
  {
    acts != [] ==> Enabled(w, acts[0]) && AccessInTime(w, acts[0]) && AccessesInTime(Next(w, acts[0]), acts[1..])
  }

  lemma StepLate(w: World, a: Action)
    requires Enabled(w, a)
    ensures Next(w, a).late == {} <==> w.late == {} && AccessInTime(w, a)
  {
    hide LateReaders, LateWriters, OutEdges;
    if a.Read? && LateWriters(w, a.id, a.table) != {} {
      var o :| o in LateWriters(w, a.id, a.table);
      assert (a.id, o) in Next(w, a).late;
    } else if a.Write? && LateReaders(w, a.id, a.table) != {} {
      var o :| o in LateReaders(w, a.id, a.table);
      assert (o, a.id) in Next(w, a).late;
    }
  }

  /** No access of a run is late exactly when the tracker misses nothing at all. */
  lemma {:induction false} LateMeansLateAccess(w: World, acts: seq<Action>, w': World)
    requires Steps(w, acts, w')
    ensures w'.late == {} <==> w.late == {} && AccessesInTime(w, acts)
    decreases |acts|
  {
    hide Enabled, Next, AccessInTime;
    if acts != [] {
      StepLate(w, acts[0]);
      LateMeansLateAccess(Next(w, acts[0]), acts[1..], w');
    }
  }

  /**
   If no access comes after an overlapping transaction that touched the table the other way has ended, the
   committed transactions really are free of antidependency cycles.
   */
  lemma SerializableUnlessLate(acts: seq<Action>, w: World)
    requires Steps(START, acts, w) && AccessesInTime(START, acts)
    ensures Acyclic(CommittedDependencies(w)) && CommittedDependencies(w) <= w.ever
  {
    LateMeansLateAccess(START, acts, w);
    MissedExactlyWhenLate(acts, w);
    SerializableUnlessMissed(acts, w);
  }

  lemma PrependStep(w: World, a: Action, acts: seq<Action>, w': World)
    requires Enabled(w, a) && Steps(Next(w, a), acts, w')
    ensures Steps(w, [a] + acts, w')
  {
    assert ([a] + acts)[1..] == acts;
  }

  lemma {:induction false} JoinSteps(w: World, acts: seq<Action>, mid: World, more: seq<Action>, w': World)
    requires Steps(w, acts, mid) && Steps(mid, more, w')
    ensures Steps(w, acts + more, w')
    decreases |acts|
  {
    hide Next, Enabled;
    if acts == [] {
      assert acts + more == more;
    } else {
      assert (acts + more)[0] == acts[0];
      JoinSteps(Next(w, acts[0]), acts[1..], mid, more, w');
      assert (acts + more)[1..] == acts[1..] + more;
    }
  }

  // The skew run, state by state: 1 reads `a` and writes `b`, 2 reads `b` and writes `a`.

  const BOTH_OPEN: World := World(
    Tracker({1, 2}, map[], map[], map[]), map[1 := Open, 2 := Open], {},
    {}, {}, {(1, 2), (2, 1)}, {}, map[1 := 0, 2 := 0], 0)

  const ONE_READ: World :=
    BOTH_OPEN.(tracker := Tracker({1, 2}, map["a" := {1}], map[], map[]), readLog := {(1, "a")})

  const BOTH_READ: World :=
    BOTH_OPEN.(tracker := Tracker({1, 2}, map["a" := {1}, "b" := {2}], map[], map[]), readLog := {(1, "a"), (2, "b")})

  const ONE_WROTE: World :=
    BOTH_READ.(tracker := Tracker({1, 2}, map["a" := {1}, "b" := {2}], map["b" := {1}], map[2 := {1}]),
               ever := {(2, 1)}, writeLog := {(1, "b")})

  const ONE_DONE: World :=
    ONE_WROTE.(tracker := Tracker({2}, map["b" := {2}], map[], map[2 := {1}]), phase := map[1 := Dropped, 2 := Open])

  const TWO_WROTE: World :=
    ONE_DONE.(tracker := Tracker({2}, map["b" := {2}], map["a" := {2}], map[2 := {1}]),
              writeLog := {(1, "b"), (2, "a")}, late := {(1, 2)})

  const SKEW: World := TWO_WROTE.(tracker := EMPTY, phase := map[1 := Dropped, 2 := Dropped], discards := 1)

  lemma SkewBegins()
    ensures Steps(START, [Begin(1), Begin(2)], BOTH_OPEN)
  {
    var w1 := Next(START, Begin(1));
    assert OutEdges(map[]) == {};
    assert Next(w1, Begin(2)) == BOTH_OPEN;
    PrependStep(w1, Begin(2), [], BOTH_OPEN);
    PrependStep(START, Begin(1), [Begin(2)], BOTH_OPEN);
  }

  lemma SkewRead1()
    ensures Enabled(BOTH_OPEN, Read(1, "a")) && Next(BOTH_OPEN, Read(1, "a")) == ONE_READ
  {
    assert LateWriters(BOTH_OPEN, 1, "a") == {} && At(BOTH_OPEN.tracker.writers, "a") - {1} == {};
    assert At(BOTH_OPEN.tracker.readers, "a") + {1} == {1} && OutEdges(map[]) == {};
    assert BOTH_OPEN.tracker.NoteRead(1, "a") == ONE_READ.tracker;
  }

  lemma SkewRead2()
    ensures Enabled(ONE_READ, Read(2, "b")) && Next(ONE_READ, Read(2, "b")) == BOTH_READ
  {
    assert LateWriters(ONE_READ, 2, "b") == {} && At(ONE_READ.tracker.writers, "b") - {2} == {};
    assert At(ONE_READ.tracker.readers, "b") + {2} == {2} && OutEdges(map[]) == {};
    assert ONE_READ.tracker.NoteRead(2, "b") == BOTH_READ.tracker;
  }

  lemma SkewWrite1()
    ensures Enabled(BOTH_READ, Write(1, "b")) && Next(BOTH_READ, Write(1, "b")) == ONE_WROTE
  {
    assert LateReaders(BOTH_READ, 1, "b") == {} && At(BOTH_READ.tracker.readers, "b") - {1} == {2};
    assert At(BOTH_READ.tracker.writers, "b") + {1} == {1} && AddEdgesTo(map[], {2}, 1) == map[2 := {1}];
    assert OutEdges(map[2 := {1}]) == {(2, 1)};
    assert BOTH_READ.tracker.NoteWrite(1, "b") == ONE_WROTE.tracker;
  }

  lemma SkewWrite2()
    ensures Enabled(ONE_DONE, Write(2, "a")) && Next(ONE_DONE, Write(2, "a")) == TWO_WROTE
  {
    assert (1, "a") in ONE_DONE.readLog && LateReaders(ONE_DONE, 2, "a") == {1};
    assert At(ONE_DONE.tracker.readers, "a") - {2} == {} && At(ONE_DONE.tracker.writers, "a") + {2} == {2};
    assert AddEdgesTo(map[2 := {1}], {}, 2) == map[2 := {1}] && OutEdges(map[2 := {1}]) == {(2, 1)};
    assert ONE_DONE.tracker.NoteWrite(2, "a") == TWO_WROTE.tracker;
  }

  lemma CommitSteps(w: World, id: Node)
    requires Enabled(w, Check(id))
    ensures Steps(w, [Check(id), Mark(id), Drop(id)], End(w, id, w.tracker.Commit(id), Dropped))
  {
    var w1 := Next(w, Check(id));
    var w2 := Next(w1, Mark(id));
    var w3 := Next(w2, Drop(id));
    assert w3.phase == w.phase[id := Dropped];
    PrependStep(w2, Drop(id), [], w3);
    PrependStep(w1, Mark(id), [Drop(id)], w3);
    PrependStep(w, Check(id), [Mark(id), Drop(id)], w3);
  }

  lemma SkewCommit1()
    ensures Steps(ONE_WROTE, [Check(1), Mark(1), Drop(1)], ONE_DONE)
  {
    assert OutEdges(map[2 := {1}]) == {(2, 1)};
    ClosedSetExcludesCycle({(2, 1)}, 1, {1});
    CommitSteps(ONE_WROTE, 1);
    assert Without(map["a" := {1}, "b" := {2}], 1) == map["b" := {2}] by {
      assert {1} - {1} == {} && {2} - {1} == {2};
    }
    assert Without(map["b" := {1}], 1) == map[];
    assert ONE_WROTE.tracker.Commit(1) == ONE_DONE.tracker;
    assert ONE_WROTE.phase[1 := Dropped] == ONE_DONE.phase;
  }

  lemma SkewCommit2()
    ensures Steps(TWO_WROTE, [Check(2), Mark(2), Drop(2)], SKEW)
  {
    assert OutEdges(map[2 := {1}]) == {(2, 1)} && OutEdges(map[]) == {};
    ClosedSetExcludesCycle({(2, 1)}, 2, {1, 2});
    CommitSteps(TWO_WROTE, 2);
    assert TWO_WROTE.tracker.Commit(2) == EMPTY;
    assert TWO_WROTE.phase[2 := Dropped] == SKEW.phase;
  }

  /**
   The guarantee does not extend to late accesses. Two transactions each read
   the table the other writes; one commits before the other's write, its read is
   forgotten with it, and both commit although they depend on each other.
   */
  lemma CrossTableWriteSkewCommits() returns (acts: seq<Action>)
    ensures Steps(START, acts, SKEW) && Committed(SKEW) == {1, 2}
    ensures Antidependency(SKEW, 1, 2) && Antidependency(SKEW, 2, 1)
    ensures !Acyclic(CommittedDependencies(SKEW))
  {
    acts := SkewRun();
    assert Committed(SKEW) == {1, 2};
    assert (1, "a") in SKEW.readLog && (2, "a") in SKEW.writeLog;
    assert (2, "b") in SKEW.readLog && (1, "b") in SKEW.writeLog;
    var p, edges := [1, 2, 1], CommittedDependencies(SKEW);
    assert Hop(edges, p, 0) && Hop(edges, p, 1);
    assert Cycle(edges, p);
  }

  lemma SkewRun() returns (acts: seq<Action>)
    ensures Steps(START, acts, SKEW)
  {
    SkewWrite2();
    SkewCommit2();
    PrependStep(ONE_DONE, Write(2, "a"), [Check(2), Mark(2), Drop(2)], SKEW);
    SkewCommit1();
    SkewRead1();
    SkewRead2();
    SkewWrite1();
    SkewBegins();
    hide Steps, Enabled, Next;
    var tail := [Write(2, "a")] + [Check(2), Mark(2), Drop(2)];
    JoinSteps(ONE_WROTE, [Check(1), Mark(1), Drop(1)], ONE_DONE, tail, SKEW);
    tail := [Check(1), Mark(1), Drop(1)] + tail;
    PrependStep(BOTH_READ, Write(1, "b"), tail, SKEW);
    PrependStep(ONE_READ, Read(2, "b"), [Write(1, "b")] + tail, SKEW);
    PrependStep(BOTH_OPEN, Read(1, "a"), [Read(2, "b")] + ([Write(1, "b")] + tail), SKEW);
    acts := [Begin(1), Begin(2)] + ([Read(1, "a")] + ([Read(2, "b")] + ([Write(1, "b")] + tail)));
    JoinSteps(START, [Begin(1), Begin(2)], BOTH_OPEN, acts[2..], SKEW);
  }
}
