/** What every run of the read-committed system guarantees. */
module ReadCommittedTheorems {
  import opened Options
  import opened Heap
  import opened Clog
  import opened TxnManager
  import opened ReadCommitted
  import opened ReadCommittedInv
  import opened ReadCommittedSteps
  import opened ReadCommittedWrites
  import opened ReadCommittedRun
  import opened Vacuum

  // ------------------------------------------------------------------ writes, as the rest of the system sees them

  /** `t` changes only its own record and rows that are its own to change. */
  ghost predicate WriteShape(w: World, w': World, t: Xid) {
    && w'.tm == w.tm && w'.rowLocks == w.rowLocks && w'.keyLocks == w.keyLocks && w'.claims == w.claims
    && (w'.clean ==> w.clean)
    && Owns(w, t) && Owns(w', t) && (w.txns[t].pc.Aborting? ==> w'.txns[t].pc.Aborting?)
    && (forall x :: x != t ==> (x in w.txns <==> x in w'.txns) && (x in w.txns ==> w'.txns[x] == w.txns[x]))
  }

  lemma StoreHasShape(w: World, a: Action)
    requires Inv(w) && Enabled(w, a) && (a.Insert? || a.StoreNew?)
    ensures WriteShape(w, Next(w, a), a.t)
  {
    hide Inv, Unlinked;
  }

  lemma RemarkHasShape(w: World, a: Action)
    requires Inv(w) && Enabled(w, a) && Marking(a)
    ensures WriteShape(w, Next(w, a), a.t)
  {
    hide Inv, SetMark;
  }

  lemma UndoHasShape(w: World, a: Action)
    requires Inv(w) && Enabled(w, a) && a.TakeBack?
    ensures WriteShape(w, Next(w, a), a.t)
  {
    hide Inv, StepBack, Remaining, DroppedEntry;
  }

  lemma WriteHasShape(w: World, a: Action)
    requires Inv(w) && Enabled(w, a) && Writing(a)
    ensures WriteShape(w, Next(w, a), a.t)
  {
    hide Inv, Enabled, Next, WriteShape;
    if a.TakeBack? {
      UndoHasShape(w, a);
    } else if Marking(a) {
      RemarkHasShape(w, a);
    } else {
      StoreHasShape(w, a);
    }
  }

  lemma WriteIds(w: World, w': World, t: Xid)
    requires Inv(w) && WriteShape(w, w', t)
    ensures IdsOk(w')
  {
    hide HeapOk, OwnersOk, UniqueOk, ClaimsOk;
    forall x | x in w'.txns
      ensures PhaseOk(w', x)
    {
      assert PhaseOk(w, x);
    }
  }

  lemma WriteQuiet(w: World, w': World, t: Xid)
    requires WriteShape(w, w', t) && forall r :: RowQuiet(w, w', t, r)
    ensures Quiet(w, w', t)
  {
    hide RowQuiet;
  }

  /** Marks and removals concern only versions that are not live or stay live. */
  lemma WriteUnique(w: World, w': World, t: Xid)
    requires Inv(w) && WriteShape(w, w', t) && forall r :: RowQuiet(w, w', t, r)
    ensures UniqueOk(w')
  {
    PhaseAt(w, t);
    forall a, b | w'.clean && SameKey(w'.heap, a, b)
      ensures !(Live(w', a) && Live(w', b))
    {
      assert RowQuiet(w, w', t, a) && RowQuiet(w, w', t, b);
      assert Live(w', a) && Live(w', b) ==> SameKey(w.heap, a, b) && Live(w, a) && Live(w, b);
    }
  }

  // ------------------------------------------------------------------ stored versions

  lemma StoreRows(w: World, w': World, t: Xid, r: Rid, row: Row)
    requires Inv(w) && WriteShape(w, w', t) && Stored(w, w', t, r, row)
    requires KeyOf(row).Some? ==> HoldsKey(w, t, KeyOf(row).value)
    requires w'.clean ==> Unlinked(w.heap, r)
    ensures forall s :: RowQuiet(w, w', t, s)
    ensures HeapOk(w')
  {
    hide OwnersOk, UniqueOk, ClaimsOk, HeapOk, IndexOk;
    PhaseAt(w, t);
    ZeroIsNoRow(w);
    forall s | s in w'.heap
      ensures VersionOk(w', s)
    {
      if s != r {
        VersionAt(w, s);
      }
    }
    AllVersions(w');
  }

  lemma StoreClaims(w: World, w': World, t: Xid, r: Rid, row: Row)
    requires Inv(w) && WriteShape(w, w', t) && Stored(w, w', t, r, row)
    requires w'.birth == w.birth[r := w.births] && w'.births == w.births + 1
    ensures ClaimsOk(w')
  {
    hide IdsOk, HeapOk, OwnersOk, UniqueOk;
    forall c, s | c in w'.claims && s in w'.heap && w'.birth[s] == c.0
      ensures w'.heap[s].deleter == c.1
    {
      assert s != r;
    }
  }

  lemma StoreKeyHeld(w: World, a: Action)
    requires Inv(w) && Enabled(w, a) && (a.Insert? || a.StoreNew?)
    ensures var row := if a.Insert? then w.txns[a.t].pc.row else w.txns[a.t].plan[0].row;
            && Stored(w, Next(w, a), a.t, a.r, row)
            && (KeyOf(row).Some? ==> HoldsKey(w, a.t, KeyOf(row).value))
            && Next(w, a).birth == w.birth[a.r := w.births] && Next(w, a).births == w.births + 1
            && (Next(w, a).clean ==> Unlinked(w.heap, a.r))
            && Next(w, a).index == w.index && Entering(Next(w, a).txns[a.t].pc, a.r) &&
               forall r :: !Entering(w.txns[a.t].pc, r)
  {
    hide Inv, LogOk, KeysOk, SeenOk;
    OwnerAt(w, a.t);
    var x := w.txns[a.t];
    if a.StoreNew? {
      assert PlanOk(w, a.t, x.snap, x.plan[0]);
    }
  }

  lemma StoreIndex(w: World, w': World, t: Xid, r: Rid, row: Row)
    requires Inv(w) && WriteShape(w, w', t) && Stored(w, w', t, r, row) && w'.index == w.index
    requires Entering(w'.txns[t].pc, r) && forall s :: !Entering(w.txns[t].pc, s)
    ensures IndexOk(w')
  {
    hide IdsOk, HeapOk, OwnersOk, UniqueOk, ClaimsOk, Entering;
  }

  // ------------------------------------------------------------------ marks

  lemma MarkIndex(w: World, w': World, t: Xid, r: Rid, u: Owed)
    requires IndexOk(w) && WriteShape(w, w', t) && MarkShape(w, w', t, r, u) && w'.index == w.index
    requires u.OweMark? ==> forall s :: !Entering(w.txns[t].pc, s)
    ensures IndexOk(w')
  {
    forall s | s in w'.heap && KeyOf(w'.heap[s].row).Some?
      ensures (KeyOf(w'.heap[s].row).value, s) in w'.index
              || (w'.heap[s].creator in w'.txns && Entering(w'.txns[w'.heap[s].creator].pc, s))
    {
      assert w'.heap[s].row == w.heap[s].row && w'.heap[s].creator == w.heap[s].creator;
    }
  }

  /** What a mark does not touch. */
  lemma MarkKeeps(w: World, a: Action)
    requires Enabled(w, a) && Marking(a)
    ensures Next(w, a).birth == w.birth && Next(w, a).births == w.births && Next(w, a).index == w.index
    ensures MarkEntry(w, a).OweMark? ==> forall s :: !Entering(w.txns[a.t].pc, s)
  {
    hide SetMark;
  }

  lemma MarkRows(w: World, w': World, t: Xid, r: Rid, u: Owed)
    requires Inv(w) && WriteShape(w, w', t) && MarkShape(w, w', t, r, u)
    ensures forall s :: RowQuiet(w, w', t, s)
    ensures HeapOk(w')
  {
    hide OwnersOk, UniqueOk, ClaimsOk, HeapOk, IndexOk;
    PhaseAt(w, t);
    ZeroIsNoRow(w);
    forall s | s in w'.heap
      ensures VersionOk(w', s)
    {
      VersionAt(w, s);
    }
    AllVersions(w');
  }

  /** A mark put on, or taken off, by an undecided transaction touches no claimed version. */
  lemma RemarkClaims(w: World, w': World, t: Xid)
    requires Inv(w) && WriteShape(w, w', t) && w'.birth == w.birth && w'.births == w.births
    requires forall s :: s in w'.heap ==> s in w.heap
    requires forall s :: s in w'.heap && w'.heap[s].deleter != w.heap[s].deleter ==>
             w.heap[s].deleter == 0 || w.heap[s].deleter == t
    ensures ClaimsOk(w')
  {
    hide HeapOk, OwnersOk, UniqueOk;
    assert PhaseOk(w, t);
    forall c, s | c in w'.claims && s in w'.heap && w'.birth[s] == c.0
      ensures w'.heap[s].deleter == c.1
    {
      assert w.heap[s].deleter == c.1 && Committed(w, c.1);
    }
  }

  // ------------------------------------------------------------------ taking back

  /**
   As long as stores avoid linked slots, a link to a row of an undecided transaction belongs to its own undo
   entry.
   */
  lemma PointerBelongsToEntry(w: World, t: Xid, s: Rid)
    requires Inv(w) && w.clean && Owns(w, t) && s in w.heap && Made(w.heap, t, w.heap[s].next)
    ensures exists i :: 0 <= i < |w.txns[t].undo| && w.txns[t].undo[i].OweUpdate? &&
                        w.txns[t].undo[i].rid == s && w.txns[t].undo[i].newRid == w.heap[s].next
  {
    hide Inv, KeysOk, StatementOk;
    OwnerAt(w, t);
    VersionAt(w, s);
    VersionAt(w, w.heap[s].next);
    var i :| MarkedAt(w.txns[t], i, s);
    assert EntryOk(w, t, w.txns[t].undo[i]);
  }

  lemma ZeroIsNobody(w: World)
    requires Inv(w)
    ensures 0 !in w.txns
  {
    assert 0 in w.txns ==> PhaseOk(w, 0);
  }

  lemma PopVersion(w: World, w': World, t: Xid, u: Owed, s: Rid)
    requires Inv(w) && WriteShape(w, w', t) && PopShape(w, w', t, u) && s in w'.heap
    ensures VersionOk(w', s)
  {
    hide Inv, PopShape, EntryOk, CreatedAt, MarkedAt;
    assert w'.clean == w.clean by { PopClean(w, w', t, u); }
    assert 0 !in w.txns by {
      ZeroIsNobody(w);
    }
    assert 0 !in w.heap by {
      ZeroIsNoRow(w);
    }
    PopRows(w, w', t, u);
    VersionAt(w, s);
  }

  lemma PopClean(w: World, w': World, t: Xid, u: Owed)
    requires PopShape(w, w', t, u)
    ensures w'.clean == w.clean
  {
    hide StepBack;
  }

  lemma ZeroIsNoRow(w: World)
    requires Inv(w)
    ensures 0 !in w.heap
  {
    hide Inv;
    if 0 in w.heap {
      VersionAt(w, 0);
    }
  }

  lemma PopIndex(w: World, w': World, t: Xid, u: Owed)
    requires Inv(w) && WriteShape(w, w', t) && PopShape(w, w', t, u)
    ensures IndexOk(w')
  {
    PopRows(w, w', t, u);
    hide Inv, CreatedAt, MarkedAt, StepBack;
    IndexOf(w);
    forall r | r in w'.heap && KeyOf(w'.heap[r].row).Some?
      ensures (KeyOf(w'.heap[r].row).value, r) in w'.index
              || (w'.heap[r].creator in w'.txns && Entering(w'.txns[w'.heap[r].creator].pc, r))
    {
      assert (KeyOf(w'.heap[r].row).value, r) !in DroppedEntry(u);
    }
  }

  lemma PopQuiet(w: World, w': World, t: Xid, u: Owed)
    requires Inv(w) && WriteShape(w, w', t) && PopShape(w, w', t, u)
    ensures forall s :: RowQuiet(w, w', t, s)
  {
    PopRows(w, w', t, u);
    hide Inv, PopShape;
    forall s
      ensures RowQuiet(w, w', t, s)
    {
      if s in w.heap {
        VersionAt(w, s);
      }
    }
  }

  lemma PopHeap(w: World, w': World, t: Xid, u: Owed)
    requires Inv(w) && WriteShape(w, w', t) && PopShape(w, w', t, u)
    ensures HeapOk(w')
  {
    hide Inv, WriteShape, PopShape, VersionOk, HeapOk;
    forall s | s in w'.heap
      ensures VersionOk(w', s)
    {
      PopVersion(w, w', t, u, s);
    }
    AllVersions(w');
  }

  lemma StoreInv(w: World, a: Action)
    requires Inv(w) && Enabled(w, a) && (a.Insert? || a.StoreNew?)
    ensures Inv(Next(w, a))
  {
    hide Enabled, Next, HeapOk, OwnersOk, UniqueOk, ClaimsOk, IdsOk, IndexOk, OwnerOk, WriteShape, Quiet, RowQuiet;
    var w', t := Next(w, a), a.t;
    var row := StoredRow(w, a);
    WriteHasShape(w, a);
    StoreKeyHeld(w, a);
    StoreRows(w, w', t, a.r, row);
    StoreClaims(w, w', t, a.r, row);
    StoreIndex(w, w', t, a.r, row);
    WriteIds(w, w', t);
    WriteQuiet(w, w', t);
    WriteUnique(w, w', t);
    WriteStep(w, a);
    OthersOk(w, w', t);
  }

  ghost function StoredRow(w: World, a: Action): Row
    requires Enabled(w, a) && (a.Insert? || a.StoreNew?)
  {
    if a.Insert? then w.txns[a.t].pc.row else w.txns[a.t].plan[0].row
  }

  lemma MarkInv(w: World, a: Action)
    requires Inv(w) && Enabled(w, a) && Marking(a)
    ensures Inv(Next(w, a))
  {
    hide Enabled, Next, HeapOk, OwnersOk, UniqueOk, ClaimsOk, IdsOk, IndexOk, OwnerOk, WriteShape, Quiet, RowQuiet;
    hide MarkShape, MarkedRid, MarkEntry, Entering;
    var w', t, r, u := Next(w, a), a.t, MarkedRid(w, a), MarkEntry(w, a);
    MarkKeeps(w, a);
    WriteHasShape(w, a);
    MarkHasShape(w, a);
    MarkRows(w, w', t, r, u);
    MarkIndex(w, w', t, r, u);
    assert forall s :: s in w'.heap ==>
           s in w.heap && (w'.heap[s].deleter != w.heap[s].deleter ==> w.heap[s].deleter == 0) by {
      MarkHeap(w, w', t, r, u);
    }
    RemarkClaims(w, w', t);
    WriteIds(w, w', t);
    WriteQuiet(w, w', t);
    WriteUnique(w, w', t);
    WriteStep(w, a);
    OthersOk(w, w', t);
  }

  lemma MarkHeap(w: World, w': World, t: Xid, r: Rid, u: Owed)
    requires MarkShape(w, w', t, r, u)
    ensures forall s :: s in w'.heap ==>
            s in w.heap && (w'.heap[s].deleter != w.heap[s].deleter ==> w.heap[s].deleter == 0)
  {
  }

  lemma TakeBackInv(w: World, t: Xid)
    requires Inv(w) && Enabled(w, TakeBack(t))
    ensures Inv(Next(w, TakeBack(t)))
  {
    hide Enabled, Next, HeapOk, OwnersOk, UniqueOk, ClaimsOk, IdsOk, IndexOk, OwnerOk, WriteShape, Quiet, RowQuiet;
    hide PopShape, EntryOk, CreatedAt, MarkedAt;
    var a := TakeBack(t);
    UndoHasShape(w, a);
    TakeBackHasShape(w, t);
    var w', u := Next(w, a), LastOwed(w, t);
    UndoKeepsBirths(w, t);
    PopRows(w, w', t, u);
    PopHeap(w, w', t, u);
    PopQuiet(w, w', t, u);
    PopIndex(w, w', t, u);
    forall s | s in w'.heap && w'.heap[s].deleter != w.heap[s].deleter
      ensures w.heap[s].deleter == t
    {
      MarkedByEntry(w, t, u, s);
    }
    RemarkClaims(w, w', t);
    WriteIds(w, w', t);
    WriteQuiet(w, w', t);
    WriteUnique(w, w', t);
    WriteStep(w, a);
    OthersOk(w, w', t);
  }

  lemma UndoKeepsBirths(w: World, t: Xid)
    requires Enabled(w, TakeBack(t))
    ensures Next(w, TakeBack(t)).birth == w.birth && Next(w, TakeBack(t)).births == w.births
  {
    hide StepBack, Remaining, DroppedEntry;
  }

  // ------------------------------------------------------------------ vacuum

  /** Survivors were live, and come out unmarked. */
  lemma VacuumRow(w: World, r: Rid)
    requires Inv(w) && Enabled(w, Vacuum) && r in Next(w, Vacuum).heap
    ensures r in w.heap && Live(w, r) && Next(w, Vacuum).heap[r] == w.heap[r].(deleter := 0, next := 0)
    ensures r != 0 && 0 < w.heap[r].creator < w.tm.next
  {
    VersionAt(w, r);
  }

  lemma VacuumHeap(w: World)
    requires Inv(w) && Enabled(w, Vacuum)
    ensures HeapOk(Next(w, Vacuum))
  {
    hide Inv, Enabled, Next, HeapOk;
    var w' := Next(w, Vacuum);
    VacuumStatus(w);
    forall r | r in w'.heap
      ensures VersionOk(w', r)
    {
      VacuumRow(w, r);
      if 0 in w'.heap {
        VacuumRow(w, 0);
      }
    }
    AllVersions(w');
  }

  lemma VacuumStatus(w: World)
    requires Inv(w) && Enabled(w, Vacuum)
    ensures var w' := Next(w, Vacuum);
            && IdsOk(w') && (forall t :: !Owns(w', t)) && w'.clean == w.clean
            && (forall x: Xid :: Committed(w', x) <==> 0 < x < w.tm.next)
  {
    hide HeapOk, OwnersOk, UniqueOk, ClaimsOk, IndexOk, Vacuumed, DeadEntries;
    var w' := Next(w, Vacuum);
    forall t | t in w'.txns
      ensures PhaseOk(w', t) && !Owns(w', t)
    {
      assert PhaseOk(w, t);
    }
  }

  lemma VacuumUnique(w: World)
    requires Inv(w) && Enabled(w, Vacuum)
    ensures UniqueOk(Next(w, Vacuum))
  {
    hide Enabled, Next, HeapOk, OwnersOk, ClaimsOk, IndexOk, IdsOk;
    VacuumStatus(w);
    var w' := Next(w, Vacuum);
    forall a, b | w'.clean && a in w'.heap && b in w'.heap
      ensures !SameKey(w'.heap, a, b)
    {
      VacuumRow(w, a);
      VacuumRow(w, b);
      assert SameKey(w'.heap, a, b) ==> SameKey(w.heap, a, b);
    }
  }

  lemma VacuumInv(w: World)
    requires Inv(w) && Enabled(w, Vacuum)
    ensures Inv(Next(w, Vacuum))
  {
    hide Enabled, Next, HeapOk, OwnersOk, ClaimsOk, IndexOk, IdsOk, UniqueOk;
    VacuumStatus(w);
    NoOwners(Next(w, Vacuum));
    VacuumHeap(w);
    VacuumUnique(w);
    VacuumClaims(w);
    VacuumIndex(w);
  }

  lemma VacuumIndex(w: World)
    requires Inv(w) && Enabled(w, Vacuum)
    ensures IndexOk(Next(w, Vacuum))
  {
    hide IdsOk, HeapOk, OwnersOk, UniqueOk, ClaimsOk;
    var w' := Next(w, Vacuum);
    forall r | r in w'.heap && KeyOf(w'.heap[r].row).Some?
      ensures (KeyOf(w'.heap[r].row).value, r) in w'.index
    {
      assert (KeyOf(w.heap[r].row).value, r) in w.index;
    }
  }

  lemma NoOwners(w: World)
    requires forall t :: !Owns(w, t)
    ensures OwnersOk(w)
  {
  }

  lemma VacuumClaims(w: World)
    requires Inv(w) && Enabled(w, Vacuum)
    ensures ClaimsOk(Next(w, Vacuum))
  {
    hide OwnersOk, UniqueOk, AfterRead, AfterChoose, AfterKey, AfterStore, AfterRow, AfterUndo, AfterEnd;
    var w' := Next(w, Vacuum);
    forall c, r | c in w'.claims && r in w'.heap && w'.birth[r] == c.0
      ensures w'.heap[r].deleter == c.1
    {
      assert w.heap[r].deleter == c.1 && Committed(w, c.1);
    }
  }

  // ------------------------------------------------------------------ runs

  lemma StepInv(w: World, a: Action)
    requires Inv(w) && Enabled(w, a)
    ensures Inv(Next(w, a))
  {
    hide Inv, Enabled, Next;
    match a {
      case Begin => BeginInv(w);
      case Insert(_, _) => StoreInv(w, a);
      case StoreNew(_, _) => StoreInv(w, a);
      case MarkDeleted(_) => MarkInv(w, a);
      case MarkUpdated(_) => MarkInv(w, a);
      case TakeBack(t) => TakeBackInv(w, t);
      case MarkCommit(t) => CommitInv(w, t);
      case LeaveAborted(_) => LeaveInv(w, a);
      case LeaveCommitted(_) => LeaveInv(w, a);
      case AbortEnd(_) => ReleaseInv(w, a);
      case Close(_) => ReleaseInv(w, a);
      case Vacuum => VacuumInv(w);
      case _ =>
        if Releasing(a) {
          ReleaseInv(w, a);
        } else {
          MoveInv(w, a);
        }
    }
  }

  lemma {:induction false} RunInv(w: World, acts: seq<Action>, w': World)
    requires Inv(w) && Steps(w, acts, w')
    ensures Inv(w')
    decreases |acts|
  {
    hide Inv, Enabled, Next;
    if acts != [] {
      StepInv(w, acts[0]);
      RunInv(Next(w, acts[0]), acts[1..], w');
    }
  }

  /** A fresh start: nobody is running, and the stored versions form a consistent committed state. */
  ghost predicate Init(w: World) {
    && w.tm.open == {} && w.txns == map[] && w.claims == {} && w.clean
    && w.tm.next > 0 && w.tm.status.base <= w.tm.next && (forall x :: x in w.tm.status.marked ==> x < w.tm.next)
    && (forall r :: r in w.heap ==>
          && r != 0 && r in w.birth && w.birth[r] < w.births
          && Committed(w, w.heap[r].creator) && (w.heap[r].deleter == 0 || Committed(w, w.heap[r].deleter))
          && (w.heap[r].deleter == 0 ==> w.heap[r].next == 0)
          && (w.heap[r].next != 0 ==> w.heap[r].next in w.heap && w.heap[w.heap[r].next].creator == w.heap[r].deleter))
    && (forall r, s :: r in w.heap && s in w.heap && r != s ==> w.birth[r] != w.birth[s])
    && (forall r :: r in w.heap ==> EntriesOf(r, w.heap[r].row) <= w.index)
    && UniqueOk(w)
  }

  lemma InitInv(w: World)
    requires Init(w)
    ensures Inv(w)
  {
    NoOwners(w);
    hide OwnersOk;
  }

  /**
   A delete mark left by a committed transaction is never overwritten or
   removed: in every reachable state, every step but vacuum leaves it in place.
   */
  lemma CommittedMarkIsNeverOverwritten(start: World, acts: seq<Action>, w: World, a: Action, r: Rid)
    requires Init(start) && Steps(start, acts, w) && Enabled(w, a) && !a.Vacuum?
    requires r in w.heap && Committed(w, w.heap[r].deleter)
    ensures r in Next(w, a).heap && Next(w, a).heap[r] == w.heap[r]
  {
    hide Inv, Enabled, Next, Init;
    InitInv(start);
    RunInv(start, acts, w);
    if Writing(a) {
      WriteMissesCommitted(w, a, r);
    } else {
      OnlyWritesChangeTheHeap(w, a);
    }
  }

  lemma OnlyWritesChangeTheHeap(w: World, a: Action)
    requires Inv(w) && Enabled(w, a) && !Writing(a) && !a.Vacuum?
    ensures Next(w, a).heap == w.heap
  {
    hide Inv, Enabled, Next;
    if Move(a) {
      MoveShape(w, a);
    } else if Releasing(a) {
      ReleaseShape(w, a);
    } else if Leaving(a) {
      LeaveShape(w, a);
    } else if a.Begin? {
      BeginShape(w);
    } else {
      CommitShape(w, a.t);
    }
  }

  lemma TakeBackMissesCommitted(w: World, t: Xid, r: Rid)
    requires Inv(w) && Enabled(w, TakeBack(t)) && r in w.heap && Committed(w, w.heap[r].deleter)
    ensures r in Next(w, TakeBack(t)).heap && Next(w, TakeBack(t)).heap[r] == w.heap[r]
  {
    hide Inv, Enabled, Next, PopShape, EntryOk, CreatedAt, MarkedAt;
    TakeBackHasShape(w, t);
    var w', u := Next(w, TakeBack(t)), LastOwed(w, t);
    PhaseAt(w, t);
    PopRows(w, w', t, u);
    MarkedByEntry(w, t, u, r);
    CreatedByEntry(w, t, u, r);
    VersionAt(w, r);
  }

  lemma WriteMissesCommitted(w: World, a: Action, r: Rid)
    requires Inv(w) && Enabled(w, a) && Writing(a) && r in w.heap && Committed(w, w.heap[r].deleter)
    ensures r in Next(w, a).heap && Next(w, a).heap[r] == w.heap[r]
  {
    hide Inv, Enabled, Next;
    match a {
      case TakeBack(t) => TakeBackMissesCommitted(w, t, r);
      case Insert(_, _) => StoreKeyHeld(w, a);
      case StoreNew(_, _) => StoreKeyHeld(w, a);
      case _ => MarkHasShape(w, a);
    }
  }

  lemma CreatedByEntry(w: World, t: Xid, u: Owed, a: Rid)
    requires EntryOk(w, t, u) && a in w.heap
    ensures a in NewRows(u) ==> w.heap[a].creator == t
  {
  }

  /** Hence no version is ever deleted or superseded by two committed transactions. */
  lemma OneCommittedDeleterPerVersion(start: World, acts: seq<Action>, w: World, birth: nat, x: Xid, y: Xid)
    requires Init(start) && Steps(start, acts, w) && (birth, x) in w.claims && (birth, y) in w.claims
    ensures x == y
  {
    InitInv(start);
    RunInv(start, acts, w);
  }

  /** Every store of the run took a slot that no stored row was linked to. */
  ghost predicate StoresUnlinked(w: World, acts: seq<Action>)
    decreases |acts|
  {
    acts != [] ==>
      && Enabled(w, acts[0])
      && (acts[0].Insert? || acts[0].StoreNew? ==> Unlinked(w.heap, acts[0].r))
      && StoresUnlinked(Next(w, acts[0]), acts[1..])
  }

  lemma StoreClean(w: World, a: Action)
    requires Enabled(w, a) && IsStore(a)
    ensures Next(w, a).clean <==> w.clean && (a.Insert? || a.StoreNew? ==> Unlinked(w.heap, a.r))
  {
    hide Unlinked, EntriesOf;
  }

  lemma StatementClean(w: World, a: Action)
    requires Enabled(w, a) && (IsRead(a) || IsChoose(a) || IsKey(a))
    ensures Next(w, a).clean == w.clean
  {
    hide Passes, WithKey, PlannedRids, Claimed, Free, KeyOf, AfterStore, AfterRow, AfterUndo, AfterEnd;
  }

  lemma RowClean(w: World, a: Action)
    requires Enabled(w, a) && (IsRow(a) || IsUndo(a))
    ensures Next(w, a).clean == w.clean
  {
    hide SetMark, StepBack, Remaining, DroppedEntry, Unlocked, Conflicting, Free;
  }

  lemma EndClean(w: World, a: Action)
    requires Enabled(w, a) && (IsEnd(a) || a.Begin? || a.Vacuum?)
    ensures Next(w, a).clean == w.clean
  {
    hide Vacuumed, DeadEntries, Claims, Unlocked, AfterRead, AfterChoose, AfterKey, AfterStore, AfterRow, AfterUndo;
  }

  lemma StepClean(w: World, a: Action)
    requires Enabled(w, a)
    ensures Next(w, a).clean <==> w.clean && (a.Insert? || a.StoreNew? ==> Unlinked(w.heap, a.r))
  {
    hide Enabled, Next, Unlinked;
    if IsStore(a) {
      StoreClean(w, a);
    } else if IsRead(a) || IsChoose(a) || IsKey(a) {
      StatementClean(w, a);
    } else if IsRow(a) || IsUndo(a) {
      RowClean(w, a);
    } else {
      EndClean(w, a);
    }
  }

  /** The history bit says exactly that. */
  lemma {:induction false} CleanMeansUnlinked(w: World, acts: seq<Action>, w': World)
    requires w.clean && Steps(w, acts, w')
    ensures w'.clean <==> StoresUnlinked(w, acts)
    decreases |acts|
  {
    hide Enabled, Next, Unlinked;
    if acts != [] {
      StepClean(w, acts[0]);
      if Next(w, acts[0]).clean {
        CleanMeansUnlinked(Next(w, acts[0]), acts[1..], w');
      } else {
        NeverCleanAgain(Next(w, acts[0]), acts[1..], w');
      }
    }
  }

  lemma {:induction false} NeverCleanAgain(w: World, acts: seq<Action>, w': World)
    requires !w.clean && Steps(w, acts, w')
    ensures !w'.clean
    decreases |acts|
  {
    hide Enabled, Next, Unlinked;
    if acts != [] {
      StepClean(w, acts[0]);
      NeverCleanAgain(Next(w, acts[0]), acts[1..], w');
    }
  }

  /**
   The unique index holds over the committed state, in every run whose stores avoid slots that a stored
   row is still linked to: no two live versions share a key.
   */
  lemma UniqueKeysHold(start: World, acts: seq<Action>, w: World, a: Rid, b: Rid)
    requires Init(start) && Steps(start, acts, w) && StoresUnlinked(start, acts) && SameKey(w.heap, a, b)
    ensures !(Live(w, a) && Live(w, b))
  {
    hide Enabled, Next;
    InitInv(start);
    RunInv(start, acts, w);
    CleanMeansUnlinked(start, acts, w);
  }

  /** A transaction that ended without committing has left no trace in the heap. */
  lemma AbortLeavesNoTrace(start: World, acts: seq<Action>, w: World, t: Xid)
    requires Init(start) && Steps(start, acts, w)
    requires t in w.txns && w.txns[t].pc.Ended? && !Committed(w, t)
    ensures OwnsNothing(w, t)
  {
    InitInv(start);
    RunInv(start, acts, w);
    forall r | r in w.heap
      ensures w.heap[r].creator != t && w.heap[r].deleter != t
    {
      VersionAt(w, r);
      PhaseAt(w, t);
    }
  }

  lemma VacuumFindsNothingOpen(w: World)
    requires Inv(w) && Enabled(w, Vacuum)
    ensures Quiescent(w.tm, w.heap)
  {
    hide OwnersOk, UniqueOk, ClaimsOk, IndexOk, HeapOk, PhaseOk;
    forall s | s in w.heap
      ensures w.heap[s].creator < w.tm.next && w.heap[s].deleter < w.tm.next && w.heap[s].creator != 0
    {
      VersionAt(w, s);
    }
  }

  /** Vacuum at any moment it may run leaves every later reader's rows as they were, unmarked and unlinked. */
  lemma VacuumIsInvisible(start: World, acts: seq<Action>, w: World, later: Tm, id: Xid, snap: Snapshot, r: Rid)
    requires Init(start) && Steps(start, acts, w) && Enabled(w, Vacuum) && r in w.heap
    requires LaterThan(w.tm, later) && LaterReader(w.tm, id, snap)
    ensures SameAnswer(w.tm, later, w.heap, id, snap, r)
    ensures r in Next(w, Vacuum).heap ==> Next(w, Vacuum).heap[r].deleter == 0 && Next(w, Vacuum).heap[r].next == 0
  {
    hide Inv, SameAnswer, Vacuumed, Init, Steps;
    InitInv(start);
    RunInv(start, acts, w);
    VacuumFindsNothingOpen(w);
    VersionAt(w, r);
    VacuumKeepsVisibleRows(w.tm, later, w.heap, id, snap, r);
    if r in Vacuumed(w.tm.status, w.heap) {
      SurvivorsAreUnmarked(w.tm, w.heap, r);
    }
  }
}
