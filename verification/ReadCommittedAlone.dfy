/** What a session does when it is left alone: its statements can be carried out, and what they leave behind. */
module ReadCommittedAlone {
  import opened Options
  import opened Heap
  import opened TxnManager
  import opened ReadCommitted
  import opened ReadCommittedInv
  import opened ReadCommittedWrites
  import opened ReadCommittedRun
  import opened ReadCommittedTheorems

  lemma First(w: World, a: Action, w': World)
    requires Enabled(w, a) && Next(w, a) == w'
    ensures Steps(w, [a], w')
  {
    hide Enabled, Next;
    assert [a][1..] == [];
  }

  /** One more step at the end of a run. */
  lemma {:induction false} Then(w: World, acts: seq<Action>, w1: World, a: Action, w': World)
    requires Steps(w, acts, w1) && Enabled(w1, a) && Next(w1, a) == w'
    ensures Steps(w, acts + [a], w')
    decreases |acts|
  {
    hide Enabled, Next;
    if acts == [] {
      assert [a][1..] == [];
      assert Steps(w', [], w');
    } else {
      Then(Next(w, acts[0]), acts[1..], w1, a, w');
      assert (acts + [a])[1..] == acts[1..] + [a];
    }
  }

  lemma {:induction false} Join(w: World, xs: seq<Action>, w1: World, ys: seq<Action>, w': World)
    requires Steps(w, xs, w1) && Steps(w1, ys, w')
    ensures Steps(w, xs + ys, w')
    decreases |xs|
  {
    hide Enabled, Next;
    if xs == [] {
      assert xs + ys == ys;
    } else {
      Join(Next(w, xs[0]), xs[1..], w1, ys, w');
      assert (xs + ys)[1..] == xs[1..] + ys;
    }
  }

  lemma PutTwice(w: World, t: Xid, x: Txn, y: Txn)
    ensures Put(Put(w, t, x), t, y) == Put(w, t, y)
  {
    assert w.txns[t := x][t := y] == w.txns[t := y];
  }

  // ------------------------------------------------------------------ what sessions do

  const IDLE: Txn := Txn(Idle, Snapshot(0, {}), {}, [], [], 0)

  /** A new transaction with a snapshot. */
  function Started(w: World): World {
    var t := w.tm.next;
    Put(w.(tm := w.tm.Begin()), t, Txn(Running, Snapshot(t + 1, w.tm.open + {t}), {}, [], [], 0))
  }

  lemma Opens(w: World)
    ensures Steps(w, [Begin], Put(w.(tm := w.tm.Begin()), w.tm.next, IDLE))
  {
    hide Steps, AfterRead, AfterChoose, AfterKey, AfterStore, AfterRow, AfterUndo, AfterEnd;
    assert Next(w, Begin) == Put(w.(tm := w.tm.Begin()), w.tm.next, IDLE);
    First(w, Begin, Next(w, Begin));
  }

  lemma Snaps(w: World, t: Xid)
    requires t in w.txns && w.txns[t] == IDLE
    ensures Steps(w, [ReadNext(t)] + [ReadOpen(t)],
                  Put(w, t, Txn(Running, Snapshot(w.tm.next, w.tm.open), {}, [], [], 0)))
  {
    hide Steps;
    var half := IDLE.(pc := HalfSnapshot(w.tm.next));
    var w1, w2 := Put(w, t, half), Put(w, t, Txn(Running, Snapshot(w.tm.next, w.tm.open), {}, [], [], 0));
    assert Next(w, ReadNext(t)) == w1;
    assert Next(w1, ReadOpen(t)) == w2 by { PutTwice(w, t, half, w2.txns[t]); }
    First(w, ReadNext(t), w1);
    Then(w, [ReadNext(t)], w1, ReadOpen(t), w2);
  }

  lemma StartedIs(w: World)
    ensures var t := w.tm.next; var w1 := Put(w.(tm := w.tm.Begin()), t, IDLE);
            && t in w1.txns && w1.txns[t] == IDLE
            && Started(w) == Put(w1, t, Txn(Running, Snapshot(w1.tm.next, w1.tm.open), {}, [], [], 0))
  {
    var t := w.tm.next;
    PutTwice(w.(tm := w.tm.Begin()), t, IDLE, Txn(Running, Snapshot(t + 1, w.tm.open + {t}), {}, [], [], 0));
  }

  lemma Starts(w: World)
    ensures Steps(w, [Begin] + ([ReadNext(w.tm.next)] + [ReadOpen(w.tm.next)]), Started(w))
  {
    hide Enabled, Next, Steps, Put, Started;
    var t := w.tm.next;
    var w1 := Put(w.(tm := w.tm.Begin()), t, IDLE);
    StartedIs(w);
    Opens(w);
    Snaps(w1, t);
    Join(w, [Begin], w1, [ReadNext(t)] + [ReadOpen(t)], Started(w));
  }

  /** The transaction has chosen a new row for `r`, holds its key and has searched the index. */
  function Searched(w: World, t: Xid, r: Rid, row: Row): World
    requires t in w.txns && KeyOf(row).Some?
  {
    var k := KeyOf(row).value;
    Put(w, t, w.txns[t].(pc := CheckKey(Some(r), row, WithKey(w.index, k)), seen := {r}))
    .(keyLocks := w.keyLocks[k := t])
  }

  lemma Chooses(w: World, t: Xid, r: Rid, row: Row)
    requires t in w.txns && w.txns[t].pc.Running? && w.txns[t].plan == [] && w.txns[t].seen == {}
    requires r in w.heap && w.tm.Visible(t, w.txns[t].snap, w.heap[r]) && KeyOf(row).Some?
    ensures Steps(w, [See(t, r)] + [ChooseUpdate(t, r, row)],
                  Put(w, t, w.txns[t].(pc := AskKey(Some(r), row), seen := {r})))
  {
    hide Steps;
    var w1 := Next(w, See(t, r));
    assert w1.txns[t].seen == {r};
    var w2 := Next(w1, ChooseUpdate(t, r, row));
    assert w2.txns == w.txns[t := w.txns[t].(pc := AskKey(Some(r), row), seen := {r})];
    First(w, See(t, r), w1);
    Then(w, [See(t, r)], w1, ChooseUpdate(t, r, row), w2);
  }

  /** The transaction gets the lock of the key it wants and searches the index for it. */
  lemma AsksKey(w: World, t: Xid)
    requires t in w.txns && w.txns[t].pc.AskKey? && KeyOf(w.txns[t].pc.row).Some?
    requires Free(w.keyLocks, KeyOf(w.txns[t].pc.row).value, t)
    ensures var pc := w.txns[t].pc; var k := KeyOf(pc.row).value;
            Steps(w, [LockKey(t)] + [Search(t)],
                  Goto(w, t, CheckKey(pc.target, pc.row, WithKey(w.index, k))).(keyLocks := w.keyLocks[k := t]))
  {
    hide Steps, WithKey, KeyOf;
    var w1 := Next(w, LockKey(t));
    var w2 := Next(w1, Search(t));
    var pc := w.txns[t].pc;
    assert w2.txns == Goto(w, t, CheckKey(pc.target, pc.row, WithKey(w.index, KeyOf(pc.row).value))).txns;
    First(w, LockKey(t), w1);
    Then(w, [LockKey(t)], w1, Search(t), w2);
  }

  lemma Searches(w: World, t: Xid, r: Rid, row: Row)
    requires t in w.txns && w.txns[t].pc.Running? && w.txns[t].plan == [] && w.txns[t].seen == {}
    requires r in w.heap && w.tm.Visible(t, w.txns[t].snap, w.heap[r])
    requires KeyOf(row).Some? && Free(w.keyLocks, KeyOf(row).value, t)
    ensures Steps(w, [See(t, r)] + [ChooseUpdate(t, r, row)] + ([LockKey(t)] + [Search(t)]), Searched(w, t, r, row))
  {
    hide Steps, Enabled, Next, WithKey, KeyOf;
    var w1 := Put(w, t, w.txns[t].(pc := AskKey(Some(r), row), seen := {r}));
    Chooses(w, t, r, row);
    AsksKey(w1, t);
    PutTwice(w, t, w1.txns[t], Searched(w, t, r, row).txns[t]);
    Join(w, [See(t, r)] + [ChooseUpdate(t, r, row)], w1, [LockKey(t)] + [Search(t)], Searched(w, t, r, row));
  }

  /** The planned update of row `r` is applied, with the new version in slot `n`. */
  function Updated(w: World, t: Xid, r: Rid, row: Row, n: Rid): World
    requires t in w.txns && r in w.heap && r != n
  {
    w.(txns := w.txns[t := w.txns[t].(pc := Idle, plan := [], undo := w.txns[t].undo + [OweUpdate(r, n, row, 0, 0)])],
       heap := SetMark(w.heap[n := Version(t, 0, 0, row)], r, t, n), index := w.index + EntriesOf(n, row),
       birth := w.birth[n := w.births], births := w.births + 1,
       clean := w.clean && Unlinked(w.heap, n))
  }

  lemma LocksPlanned(w: World, t: Xid)
    requires t in w.txns && w.txns[t].pc.Running? && |w.txns[t].plan| == 1
    requires Free(w.rowLocks, w.txns[t].plan[0].rid, t)
    ensures Steps(w, [StartApply(t)] + [LockRow(t)],
                  Goto(w, t, RowLocked).(rowLocks := w.rowLocks[w.txns[t].plan[0].rid := t]))
  {
    hide Steps, AfterRead, AfterChoose, AfterKey, AfterStore, AfterUndo, AfterEnd;
    var w1 := Next(w, StartApply(t));
    var w2 := Next(w1, LockRow(t));
    assert w2.txns == w.txns[t := w.txns[t].(pc := RowLocked)];
    First(w, StartApply(t), w1);
    Then(w, [StartApply(t)], w1, LockRow(t), w2);
  }

  lemma Locks(w: World, t: Xid)
    requires t in w.txns && w.txns[t].pc.Running? && |w.txns[t].plan| == 1
    requires var r := w.txns[t].plan[0].rid; r in w.heap && w.heap[r].deleter == 0 && Free(w.rowLocks, r, t)
    ensures Steps(w, [StartApply(t)] + [LockRow(t)] + [PassRow(t)],
                  Put(w, t, w.txns[t].(pc := RowClear)).(rowLocks := w.rowLocks[w.txns[t].plan[0].rid := t]))
  {
    hide Steps, AfterRead, AfterChoose, AfterKey, AfterStore, AfterUndo, AfterEnd;
    LocksPlanned(w, t);
    var w2 := Goto(w, t, RowLocked).(rowLocks := w.rowLocks[w.txns[t].plan[0].rid := t]);
    var w3 := Next(w2, PassRow(t));
    assert w3.txns == w.txns[t := w.txns[t].(pc := RowClear)];
    Then(w, [StartApply(t)] + [LockRow(t)], w2, PassRow(t), w3);
  }

  lemma Enters(w: World, t: Xid, r: Rid, row: Row)
    requires t in w.txns && w.txns[t].plan == [] && w.txns[t].pc in {IndexInsert(r, row), IndexUpdate(r, row)}
    ensures Steps(w, [AddEntry(t)] + [EndStatement(t)], Goto(w, t, Idle).(index := w.index + EntriesOf(r, row)))
  {
    hide Steps, EntriesOf;
    var w1 := Next(w, AddEntry(t));
    var w2 := Next(w1, EndStatement(t));
    assert w2.txns == w.txns[t := w.txns[t].(pc := Idle)];
    First(w, AddEntry(t), w1);
    Then(w, [AddEntry(t)], w1, EndStatement(t), w2);
  }

  lemma StoresOne(w: World, t: Xid, n: Rid)
    requires t in w.txns && w.txns[t].pc.RowClear? && |w.txns[t].plan| == 1 && w.txns[t].plan[0].Update?
    requires w.txns[t].plan[0].rid in w.heap && FreshRid(w, n)
    ensures Steps(w, [StoreNew(t, n)], Goto(StoreVersion(w, t, n, w.txns[t].plan[0].row), t, NewStored(n)))
  {
    hide Steps, Unlinked;
    First(w, StoreNew(t, n), Next(w, StoreNew(t, n)));
  }

  lemma MarksOne(w: World, t: Xid, r: Rid, row: Row, n: Rid)
    requires t in w.txns && w.txns[t].pc == NewStored(n) && w.txns[t].plan == [Update(r, row)]
    requires r in w.heap && w.heap[r].deleter == 0 && w.heap[r].next == 0
    ensures Steps(w, [MarkUpdated(t)],
                  Put(w, t, w.txns[t].(pc := IndexUpdate(n, row), plan := [],
                                       undo := w.txns[t].undo + [OweUpdate(r, n, row, 0, 0)]))
                  .(heap := SetMark(w.heap, r, t, n)))
  {
    hide Steps;
    assert w.txns[t].plan[1..] == [];
    First(w, MarkUpdated(t), Next(w, MarkUpdated(t)));
  }

  lemma Replaces(w: World, t: Xid, r: Rid, row: Row, n: Rid)
    requires t in w.txns && w.txns[t].pc.RowClear? && w.txns[t].plan == [Update(r, row)] && r != n
    requires r in w.heap && w.heap[r].deleter == 0 && w.heap[r].next == 0 && FreshRid(w, n)
    ensures Steps(w, [StoreNew(t, n)] + [MarkUpdated(t)],
                  Goto(Updated(w, t, r, row, n), t, IndexUpdate(n, row)).(index := w.index))
  {
    hide Steps, Enabled, Next, EntriesOf, Unlinked;
    var w1 := Goto(StoreVersion(w, t, n, row), t, NewStored(n));
    var w2 := Goto(Updated(w, t, r, row, n), t, IndexUpdate(n, row)).(index := w.index);
    StoresOne(w, t, n);
    MarksOne(w1, t, r, row, n);
    assert w2.txns == w1.txns[t := w2.txns[t]];
    Join(w, [StoreNew(t, n)], w1, [MarkUpdated(t)], w2);
  }

  lemma Stores(w: World, t: Xid, r: Rid, row: Row, n: Rid)
    requires t in w.txns && w.txns[t].pc.RowClear? && w.txns[t].plan == [Update(r, row)] && r != n
    requires r in w.heap && w.heap[r].deleter == 0 && w.heap[r].next == 0 && FreshRid(w, n)
    ensures Steps(w, [StoreNew(t, n)] + [MarkUpdated(t)] + ([AddEntry(t)] + [EndStatement(t)]),
                  Updated(w, t, r, row, n))
  {
    hide Enabled, Next, Steps, EntriesOf, Unlinked;
    var w1 := Goto(Updated(w, t, r, row, n), t, IndexUpdate(n, row)).(index := w.index);
    Replaces(w, t, r, row, n);
    Enters(w1, t, n, row);
    assert Goto(w1, t, Idle).txns == Updated(w, t, r, row, n).txns;
    Join(w, [StoreNew(t, n)] + [MarkUpdated(t)], w1, [AddEntry(t)] + [EndStatement(t)], Updated(w, t, r, row, n));
  }

  /** A row inserted into slot `n`. */
  function Inserted(w: World, t: Xid, row: Row, n: Rid): World
    requires t in w.txns
  {
    w.(txns := w.txns[t := w.txns[t].(pc := Idle, undo := w.txns[t].undo + [OweInsert(n, row)])],
       heap := w.heap[n := Version(t, 0, 0, row)], index := w.index + EntriesOf(n, row),
       birth := w.birth[n := w.births], births := w.births + 1, clean := w.clean && Unlinked(w.heap, n))
  }

  lemma Checks(w: World, t: Xid, row: Row)
    requires t in w.txns && w.txns[t].pc.Running? && w.txns[t].plan == []
    requires KeyOf(row).Some? && Free(w.keyLocks, KeyOf(row).value, t) && WithKey(w.index, KeyOf(row).value) == {}
    ensures Steps(w, [ChooseInsert(t, row)] + ([LockKey(t)] + [Search(t)]) + [KeyDone(t)],
                  Put(w, t, w.txns[t].(pc := InsertNow(row))).(keyLocks := w.keyLocks[KeyOf(row).value := t]))
  {
    hide Steps, WithKey, KeyOf;
    var w1 := Goto(w, t, AskKey(None, row));
    var w3 := Goto(w, t, CheckKey(None, row, {})).(keyLocks := w.keyLocks[KeyOf(row).value := t]);
    First(w, ChooseInsert(t, row), w1);
    AsksKey(w1, t);
    PutTwice(w, t, w1.txns[t], w3.txns[t]);
    Join(w, [ChooseInsert(t, row)], w1, [LockKey(t)] + [Search(t)], w3);
    PutTwice(w, t, w3.txns[t], w.txns[t].(pc := InsertNow(row)));
    Then(w, [ChooseInsert(t, row)] + ([LockKey(t)] + [Search(t)]), w3, KeyDone(t), Next(w3, KeyDone(t)));
  }

  lemma InsertsNext(w: World, t: Xid, row: Row, n: Rid)
    requires t in w.txns && w.txns[t].pc == InsertNow(row) && w.txns[t].plan == [] && FreshRid(w, n)
    ensures Enabled(w, Insert(t, n))
    ensures Next(w, Insert(t, n)) == Goto(Inserted(w, t, row, n), t, IndexInsert(n, row)).(index := w.index)
  {
    hide EntriesOf, Unlinked, AfterRead, AfterChoose, AfterKey, AfterRow, AfterUndo, AfterEnd;
    assert Next(w, Insert(t, n)).txns == Goto(Inserted(w, t, row, n), t, IndexInsert(n, row)).txns;
  }

  lemma Inserts(w: World, t: Xid, row: Row, n: Rid)
    requires t in w.txns && w.txns[t].pc == InsertNow(row) && w.txns[t].plan == [] && FreshRid(w, n)
    ensures Steps(w, [Insert(t, n)], Goto(Inserted(w, t, row, n), t, IndexInsert(n, row)).(index := w.index))
  {
    hide Steps;
    InsertsNext(w, t, row, n);
    hide Enabled, Next;
    First(w, Insert(t, n), Next(w, Insert(t, n)));
  }

  lemma InsertsRow(w: World, t: Xid, row: Row, n: Rid)
    requires t in w.txns && w.txns[t].pc == InsertNow(row) && w.txns[t].plan == [] && FreshRid(w, n)
    ensures Steps(w, [Insert(t, n)] + ([AddEntry(t)] + [EndStatement(t)]), Inserted(w, t, row, n))
  {
    hide Enabled, Next, Steps, EntriesOf, Unlinked;
    var w1 := Goto(Inserted(w, t, row, n), t, IndexInsert(n, row)).(index := w.index);
    Inserts(w, t, row, n);
    Enters(w1, t, n, row);
    assert Goto(w1, t, Idle).txns == Inserted(w, t, row, n).txns;
    Join(w, [Insert(t, n)], w1, [AddEntry(t)] + [EndStatement(t)], Inserted(w, t, row, n));
  }

  /** Committed and gone. */
  ghost function Finished(w: World, t: Xid): World
    requires t in w.txns
  {
    ReleaseLocks(w.(txns := w.txns[t := w.txns[t].(pc := Ended)], tm := w.tm.Mark(t).Leave(t),
                    claims := w.claims + Claims(w, t)), t)
  }

  lemma CommitsOne(w: World, t: Xid)
    requires t in w.txns && w.txns[t].pc.Idle?
    ensures Steps(w, [MarkCommit(t)],
                  Goto(w, t, Committing).(tm := w.tm.Mark(t), claims := w.claims + Claims(w, t)))
  {
    hide Steps, Claims, AfterRead, AfterChoose, AfterKey, AfterStore, AfterRow, AfterUndo;
    First(w, MarkCommit(t), Next(w, MarkCommit(t)));
  }

  lemma LeavesNext(w: World, t: Xid)
    requires t in w.txns && w.txns[t].pc.Committing?
    ensures Enabled(w, LeaveCommitted(t))
    ensures Next(w, LeaveCommitted(t)) == Goto(w, t, Closing).(tm := w.tm.Leave(t))
  {
    hide AfterRead, AfterChoose, AfterKey, AfterStore, AfterRow, AfterUndo;
  }

  lemma LeavesOne(w: World, t: Xid)
    requires t in w.txns && w.txns[t].pc.Committing?
    ensures Steps(w, [LeaveCommitted(t)], Goto(w, t, Closing).(tm := w.tm.Leave(t)))
  {
    hide Steps;
    LeavesNext(w, t);
    hide Enabled, Next;
    First(w, LeaveCommitted(t), Next(w, LeaveCommitted(t)));
  }

  lemma ClosesOne(w: World, t: Xid)
    requires t in w.txns && w.txns[t].pc.Closing?
    ensures Steps(w, [Close(t)], ReleaseLocks(Goto(w, t, Ended), t))
  {
    hide Steps, Unlocked, AfterRead, AfterChoose, AfterKey, AfterStore, AfterRow, AfterUndo;
    First(w, Close(t), Next(w, Close(t)));
  }

  lemma Finishes(w: World, t: Xid)
    requires t in w.txns && w.txns[t].pc.Idle?
    ensures Steps(w, [MarkCommit(t)] + [LeaveCommitted(t)] + [Close(t)], Finished(w, t))
  {
    hide Steps, Enabled, Next, Claims, Unlocked;
    var w1 := Goto(w, t, Committing).(tm := w.tm.Mark(t), claims := w.claims + Claims(w, t));
    var w2 := Goto(w1, t, Closing).(tm := w1.tm.Leave(t));
    CommitsOne(w, t);
    LeavesOne(w1, t);
    Join(w, [MarkCommit(t)], w1, [LeaveCommitted(t)], w2);
    ClosesOne(w2, t);
    assert Goto(w2, t, Ended).txns == w.txns[t := w.txns[t].(pc := Ended)];
    Join(w, [MarkCommit(t)] + [LeaveCommitted(t)], w2, [Close(t)], Finished(w, t));
  }

  lemma Passes1(w: World, t: Xid, r: Rid)
    requires t in w.txns && w.txns[t].pc.CheckKey? && w.txns[t].pc.todo == {r} && Passes(w, t, w.txns[t].pc.target, r)
    ensures Steps(w, [PassRid(t, r)], Put(w, t, w.txns[t].(pc := w.txns[t].pc.(todo := {}))))
  {
    hide Steps, Passes;
    assert {r} - {r} == {};
    First(w, PassRid(t, r), Next(w, PassRid(t, r)));
  }

  lemma Plans(w: World, t: Xid)
    requires t in w.txns && w.txns[t].pc.CheckKey? && w.txns[t].pc.todo == {} && w.txns[t].pc.target.Some?
    requires w.txns[t].plan == []
    ensures Steps(w, [KeyDone(t)],
                  Put(w, t, w.txns[t].(pc := Running, plan := [Update(w.txns[t].pc.target.value, w.txns[t].pc.row)])))
  {
    hide Steps;
    assert [] + [Update(w.txns[t].pc.target.value, w.txns[t].pc.row)] ==
           [Update(w.txns[t].pc.target.value, w.txns[t].pc.row)];
    First(w, KeyDone(t), Next(w, KeyDone(t)));
  }

  lemma Aborts(w: World, t: Xid)
    requires t in w.txns && w.txns[t].pc.Idle? && |w.txns[t].undo| == 1 && w.txns[t].undo[0].OweUpdate?
    ensures
      var u := w.txns[t].undo[0];
      Steps(w, [StartAbort(t)] + [TakeBack(t)],
            Put(w, t, w.txns[t].(pc := Aborting, plan := [], seen := {}, undo := Remaining(u)))
            .(heap := w.heap - {u.newRid}))
  {
    hide Steps;
    var u := w.txns[t].undo[0];
    var w1 := Next(w, StartAbort(t));
    var w2 := Next(w1, TakeBack(t));
    assert w1.txns[t].undo == [u] && [u][..0] + Remaining(u) == Remaining(u);
    assert w2.txns == w.txns[t := w.txns[t].(pc := Aborting, plan := [], seen := {}, undo := Remaining(u))];
    assert w2.index == w.index;
    First(w, StartAbort(t), w1);
    Then(w, [StartAbort(t)], w1, TakeBack(t), w2);
  }

  lemma TakesBack(w: World, t: Xid, u: Owed)
    requires t in w.txns && w.txns[t].pc.Aborting? && w.txns[t].undo == [u]
    ensures Steps(w, [TakeBack(t)], Put(w, t, w.txns[t].(undo := Remaining(u))).(
                                    heap := StepBack(w.heap, u), index := w.index - DroppedEntry(u)))
  {
    hide Steps, StepBack, Remaining, DroppedEntry;
    assert [u][..0] + Remaining(u) == Remaining(u);
    First(w, TakeBack(t), Next(w, TakeBack(t)));
  }

  lemma LeavesAborted(w: World, t: Xid)
    requires t in w.txns && w.txns[t].pc.Aborting? && w.txns[t].undo == []
    ensures Steps(w, [LeaveAborted(t)] + [AbortEnd(t)], ReleaseLocks(Goto(w, t, Ended).(tm := w.tm.Leave(t)), t))
  {
    hide Steps;
    var w1 := Next(w, LeaveAborted(t));
    First(w, LeaveAborted(t), w1);
    Then(w, [LeaveAborted(t)], w1, AbortEnd(t), Next(w1, AbortEnd(t)));
  }

  // ------------------------------------------------------------------ whole statements

  /** The session at its uniqueness check, with `todo` left to look at. */
  function Checking(w: World, t: Xid, target: Option<Rid>, row: Row, todo: set<Rid>): World
    requires t in w.txns
  {
    Goto(w, t, CheckKey(target, row, todo))
  }

  lemma PassesOne(w: World, t: Xid, target: Option<Rid>, row: Row, todo: set<Rid>, r: Rid)
    requires t in w.txns && r in todo && Passes(w, t, target, r)
    ensures Steps(Checking(w, t, target, row, todo), [PassRid(t, r)], Checking(w, t, target, row, todo - {r}))
  {
    hide Steps, ChainReaches, AfterRead, AfterChoose, AfterStore, AfterRow, AfterUndo, AfterEnd;
    var w1, w2 := Checking(w, t, target, row, todo), Checking(w, t, target, row, todo - {r});
    PutTwice(w, t, w1.txns[t], w2.txns[t]);
    First(w1, PassRid(t, r), Next(w1, PassRid(t, r)));
  }

  /** Rows that make no duplicate are passed one after the other. */
  lemma {:induction false} PassesAll(w: World, t: Xid, target: Option<Rid>, row: Row, todo: set<Rid>)
    returns (acts: seq<Action>)
    requires t in w.txns && forall r :: r in todo ==> Passes(w, t, target, r)
    ensures Steps(Checking(w, t, target, row, todo), acts, Checking(w, t, target, row, {}))
    decreases todo
  {
    hide Enabled, Next, Checking, Passes;
    if todo == {} {
      acts := [];
    } else {
      var r :| r in todo;
      PassesOne(w, t, target, row, todo, r);
      var rest := PassesAll(w, t, target, row, todo - {r});
      acts := [PassRid(t, r)] + rest;
      hide Steps;
      Join(Checking(w, t, target, row, todo), [PassRid(t, r)], Checking(w, t, target, row, todo - {r}), rest,
           Checking(w, t, target, row, {}));
    }
  }

  /** The row's key, if it has one, is to be had: nobody else holds its lock, and no row found makes a duplicate. */
  ghost predicate KeyToBeHad(w: World, t: Xid, target: Option<Rid>, row: Row) {
    KeyOf(row).Some? ==>
      && Free(w.keyLocks, KeyOf(row).value, t)
      && forall r :: r in WithKey(w.index, KeyOf(row).value) ==> Passes(w, t, target, r)
  }

  function KeyLocked(w: World, t: Xid, row: Row): World {
    if KeyOf(row).Some? then w.(keyLocks := w.keyLocks[KeyOf(row).value := t]) else w
  }

  lemma KeyLockedPasses(w: World, t: Xid, target: Option<Rid>, row: Row, r: Rid)
    requires Passes(w, t, target, r)
    ensures Passes(KeyLocked(w, t, row), t, target, r)
  {
  }

  /** From wanting a key to having checked it. */
  lemma GetsKey(w: World, t: Xid, target: Option<Rid>, row: Row) returns (acts: seq<Action>)
    requires t in w.txns && KeyOf(row).Some? && KeyToBeHad(w, t, target, row)
    ensures Steps(Goto(w, t, AskKey(target, row)), acts, Checking(KeyLocked(w, t, row), t, target, row, {}))
  {
    hide Enabled, Next, Steps, Passes, WithKey, KeyOf;
    var k := KeyOf(row).value;
    var w1, locked := Goto(w, t, AskKey(target, row)), KeyLocked(w, t, row);
    AsksKey(w1, t);
    var todo := WithKey(w.index, k);
    PutTwice(w, t, w1.txns[t], w.txns[t].(pc := CheckKey(target, row, todo)));
    assert Goto(w1, t, CheckKey(target, row, todo)).(keyLocks := w1.keyLocks[k := t]) ==
           Checking(locked, t, target, row, todo);
    forall r | r in todo
      ensures Passes(locked, t, target, r)
    {
      KeyLockedPasses(w, t, target, row, r);
    }
    var rest := PassesAll(locked, t, target, row, todo);
    acts := [LockKey(t)] + [Search(t)] + rest;
    Join(w1, [LockKey(t)] + [Search(t)], Checking(locked, t, target, row, todo), rest,
         Checking(locked, t, target, row, {}));
  }

  lemma AsksToInsert(w: World, t: Xid, row: Row)
    requires At(w, t, Running) && w.txns[t].plan == []
    ensures Steps(w, [ChooseInsert(t, row)], Goto(w, t, if KeyOf(row).None? then InsertNow(row) else AskKey(None, row)))
  {
    hide Steps, AfterRead, AfterKey, AfterStore, AfterRow, AfterUndo, AfterEnd;
    First(w, ChooseInsert(t, row), Next(w, ChooseInsert(t, row)));
  }

  lemma MayInsert(w: World, t: Xid, row: Row)
    requires t in w.txns && KeyOf(row).Some?
    ensures Steps(Checking(w, t, None, row, {}), [KeyDone(t)], Goto(w, t, InsertNow(row)))
  {
    hide Steps, AfterRead, AfterChoose, AfterStore, AfterRow, AfterUndo, AfterEnd;
    var w1 := Checking(w, t, None, row, {});
    PutTwice(w, t, w1.txns[t], w.txns[t].(pc := InsertNow(row)));
    First(w1, KeyDone(t), Next(w1, KeyDone(t)));
  }

  lemma GetsToInsert(w: World, t: Xid, row: Row) returns (acts: seq<Action>)
    requires At(w, t, Running) && w.txns[t].plan == [] && KeyToBeHad(w, t, None, row)
    ensures Steps(w, acts, Goto(KeyLocked(w, t, row), t, InsertNow(row)))
  {
    hide Enabled, Next, Steps, KeyToBeHad, KeyOf, Checking, Goto;
    AsksToInsert(w, t, row);
    acts := [ChooseInsert(t, row)];
    if KeyOf(row).Some? {
      var some := GetsKey(w, t, None, row);
      var locked := KeyLocked(w, t, row);
      Join(w, acts, Goto(w, t, AskKey(None, row)), some, Checking(locked, t, None, row, {}));
      MayInsert(locked, t, row);
      Join(w, acts + some, Checking(locked, t, None, row, {}), [KeyDone(t)], Goto(locked, t, InsertNow(row)));
      acts := acts + some + [KeyDone(t)];
    }
  }

  /** A statement has changed the heap and the index, and nothing else that matters to others. */
  ghost predicate Leaves(w: World, w': World, t: Xid, heap: Versions, index: set<(int, Rid)>, owed: Owed) {
    && w'.heap == heap && w'.index == index && w'.tm == w.tm && w'.txns.Keys == w.txns.Keys
    && t in w.txns && w'.txns[t].pc.Idle? && w'.txns[t].undo == w.txns[t].undo + [owed]
    && forall x :: x in w.txns && x != t ==> w'.txns[x] == w.txns[x]
  }

  /**
   An insert whose key is to be had goes through and leaves the row, created by the transaction and unmarked,
   in the slot it was given, with its index entry.
   */
  lemma InsertAlone(w: World, t: Xid, row: Row, n: Rid) returns (acts: seq<Action>, w': World)
    requires At(w, t, Running) && w.txns[t].plan == [] && FreshRid(w, n) && KeyToBeHad(w, t, None, row)
    ensures Steps(w, acts, w')
    ensures Leaves(w, w', t, w.heap[n := Version(t, 0, 0, row)], w.index + EntriesOf(n, row), OweInsert(n, row))
  {
    hide Enabled, Next, Steps, KeyToBeHad, KeyOf, EntriesOf, Unlinked;
    acts := GetsToInsert(w, t, row);
    var w1 := Goto(KeyLocked(w, t, row), t, InsertNow(row));
    InsertsRow(w1, t, row, n);
    w' := Inserted(w1, t, row, n);
    Join(w, acts, w1, [Insert(t, n)] + ([AddEntry(t)] + [EndStatement(t)]), w');
    acts := acts + ([Insert(t, n)] + ([AddEntry(t)] + [EndStatement(t)]));
  }

  // ------------------------------------------------------------------ deleting and updating

  /** A row that is visible, unmarked and not locked by anybody else. */
  ghost predicate RowToBeHad(w: World, t: Xid, r: Rid)
    requires t in w.txns
  {
    && r in w.heap && w.tm.Visible(t, w.txns[t].snap, w.heap[r]) && w.heap[r].deleter == 0 && w.heap[r].next == 0
    && Free(w.rowLocks, r, t)
  }

  lemma PlansDelete(w: World, t: Xid, r: Rid)
    requires At(w, t, Running) && w.txns[t].plan == [] && w.txns[t].seen == {} && RowToBeHad(w, t, r)
    ensures Steps(w, [See(t, r)] + [ChooseDelete(t, r)], Put(w, t, w.txns[t].(seen := {r}, plan := [Delete(r)])))
  {
    hide Steps, AfterKey, AfterStore, AfterRow, AfterUndo, AfterEnd;
    var w1 := Next(w, See(t, r));
    assert w1.txns[t].seen == {r};
    var w2 := Next(w1, ChooseDelete(t, r));
    assert [] + [Delete(r)] == [Delete(r)];
    assert w2.txns == w.txns[t := w.txns[t].(seen := {r}, plan := [Delete(r)])];
    First(w, See(t, r), w1);
    Then(w, [See(t, r)], w1, ChooseDelete(t, r), w2);
  }

  lemma MarksRow(w: World, t: Xid, r: Rid)
    requires At(w, t, RowClear) && w.txns[t].plan == [Delete(r)] && r in w.heap
    requires w.heap[r].deleter == 0 && w.heap[r].next == 0
    ensures Steps(w, [MarkDeleted(t)],
                  Put(w, t, w.txns[t].(pc := Applying, plan := [], undo := w.txns[t].undo + [OweMark(r, 0, 0)]))
                  .(heap := SetMark(w.heap, r, t, 0)))
  {
    hide Steps, AfterRead, AfterChoose, AfterKey, AfterStore, AfterUndo, AfterEnd;
    assert w.txns[t].plan[1..] == [];
    First(w, MarkDeleted(t), Next(w, MarkDeleted(t)));
  }

  lemma MarksDeleted(w: World, t: Xid, r: Rid)
    requires At(w, t, RowClear) && w.txns[t].plan == [Delete(r)] && r in w.heap
    requires w.heap[r].deleter == 0 && w.heap[r].next == 0
    ensures Steps(w, [MarkDeleted(t)] + [EndStatement(t)],
                  Put(w, t, w.txns[t].(pc := Idle, plan := [], undo := w.txns[t].undo + [OweMark(r, 0, 0)]))
                  .(heap := SetMark(w.heap, r, t, 0)))
  {
    hide Steps, AfterRead, AfterChoose, AfterKey, AfterStore, AfterUndo;
    var x := w.txns[t].(pc := Applying, plan := [], undo := w.txns[t].undo + [OweMark(r, 0, 0)]);
    var w1 := Put(w, t, x).(heap := SetMark(w.heap, r, t, 0));
    MarksRow(w, t, r);
    PutTwice(w, t, x, x.(pc := Idle));
    Then(w, [MarkDeleted(t)], w1, EndStatement(t), Next(w1, EndStatement(t)));
  }

  /** A delete of a row that is to be had goes through and leaves the transaction's mark on it. */
  lemma DeleteAlone(w: World, t: Xid, r: Rid) returns (acts: seq<Action>, w': World)
    requires At(w, t, Running) && w.txns[t].plan == [] && w.txns[t].seen == {} && RowToBeHad(w, t, r)
    ensures Steps(w, acts, w')
    ensures Leaves(w, w', t, SetMark(w.heap, r, t, 0), w.index, OweMark(r, 0, 0))
  {
    hide Enabled, Next, Steps;
    var w1 := Put(w, t, w.txns[t].(seen := {r}, plan := [Delete(r)]));
    PlansDelete(w, t, r);
    acts := [See(t, r)] + [ChooseDelete(t, r)];
    Locks(w1, t);
    var w2 := Put(w1, t, w1.txns[t].(pc := RowClear)).(rowLocks := w1.rowLocks[r := t]);
    var lock := [StartApply(t)] + [LockRow(t)] + [PassRow(t)];
    Join(w, acts, w1, lock, w2);
    MarksDeleted(w2, t, r);
    w' := Put(w2, t, w2.txns[t].(pc := Idle, plan := [], undo := w2.txns[t].undo + [OweMark(r, 0, 0)]))
          .(heap := SetMark(w2.heap, r, t, 0));
    Join(w, acts + lock, w2, [MarkDeleted(t)] + [EndStatement(t)], w');
    acts := acts + lock + ([MarkDeleted(t)] + [EndStatement(t)]);
  }

  lemma AsksToUpdate(w: World, t: Xid, r: Rid, row: Row)
    requires At(w, t, Running) && w.txns[t].plan == [] && w.txns[t].seen == {} && RowToBeHad(w, t, r)
    ensures Steps(w, [See(t, r)] + [ChooseUpdate(t, r, row)],
                  if KeyOf(row).None? then Put(w, t, w.txns[t].(seen := {r}, plan := [Update(r, row)]))
                  else Goto(Put(w, t, w.txns[t].(seen := {r})), t, AskKey(Some(r), row)))
  {
    hide Steps, AfterKey, AfterStore, AfterRow, AfterUndo, AfterEnd;
    var w1 := Next(w, See(t, r));
    assert w1.txns[t].seen == {r};
    assert w1 == Put(w, t, w.txns[t].(seen := {r}));
    assert [] + [Update(r, row)] == [Update(r, row)];
    First(w, See(t, r), w1);
    PutTwice(w, t, w.txns[t].(seen := {r}), w.txns[t].(seen := {r}, plan := [Update(r, row)]));
    Then(w, [See(t, r)], w1, ChooseUpdate(t, r, row), Next(w1, ChooseUpdate(t, r, row)));
  }

  lemma PlansUpdate(w: World, t: Xid, r: Rid, row: Row) returns (acts: seq<Action>)
    requires At(w, t, Running) && w.txns[t].plan == [] && w.txns[t].seen == {} && RowToBeHad(w, t, r)
    requires KeyToBeHad(w, t, Some(r), row)
    ensures Steps(w, acts, Put(KeyLocked(w, t, row), t, w.txns[t].(seen := {r}, plan := [Update(r, row)])))
  {
    hide Enabled, Next, Steps, KeyToBeHad, KeyOf, RowToBeHad, Checking;
    AsksToUpdate(w, t, r, row);
    acts := [See(t, r)] + [ChooseUpdate(t, r, row)];
    if KeyOf(row).Some? {
      var seen := Put(w, t, w.txns[t].(seen := {r}));
      var locked := KeyLocked(seen, t, row);
      KeyStillToBeHad(w, seen, t, Some(r), row);
      var some := GetsKey(seen, t, Some(r), row);
      Join(w, acts, Goto(seen, t, AskKey(Some(r), row)), some, Checking(locked, t, Some(r), row, {}));
      PlansRow(locked, t, r, row);
      var w' := Put(locked, t, locked.txns[t].(plan := [Update(r, row)]));
      PutTwice(KeyLocked(w, t, row), t, w.txns[t].(seen := {r}), w'.txns[t]);
      Join(w, acts + some, Checking(locked, t, Some(r), row, {}), [KeyDone(t)], w');
      acts := acts + some + [KeyDone(t)];
    }
  }

  lemma KeyStillToBeHad(w: World, w': World, t: Xid, target: Option<Rid>, row: Row)
    requires KeyToBeHad(w, t, target, row) && w'.heap == w.heap && w'.tm == w.tm && w'.index == w.index
    requires w'.keyLocks == w.keyLocks
    ensures KeyToBeHad(w', t, target, row)
  {
    hide ChainReaches, WithKey;
  }

  lemma PlansRow(w: World, t: Xid, r: Rid, row: Row)
    requires At(w, t, Running) && w.txns[t].plan == []
    ensures Steps(Checking(w, t, Some(r), row, {}), [KeyDone(t)], Put(w, t, w.txns[t].(plan := [Update(r, row)])))
  {
    hide Steps, AfterRead, AfterChoose, AfterStore, AfterRow, AfterUndo, AfterEnd;
    var w1 := Checking(w, t, Some(r), row, {});
    assert [] + [Update(r, row)] == [Update(r, row)];
    PutTwice(w, t, w1.txns[t], w.txns[t].(plan := [Update(r, row)]));
    First(w1, KeyDone(t), Next(w1, KeyDone(t)));
  }

  /**
   An update of a row that is to be had, to a key that is to be had, goes through: the new version is stored
   and entered, the old one marked and linked to it.
   */
  lemma UpdateAlone(w: World, t: Xid, r: Rid, row: Row, n: Rid) returns (acts: seq<Action>, w': World)
    requires At(w, t, Running) && w.txns[t].plan == [] && w.txns[t].seen == {} && RowToBeHad(w, t, r)
    requires KeyToBeHad(w, t, Some(r), row) && FreshRid(w, n)
    ensures Steps(w, acts, w')
    ensures Leaves(w, w', t, SetMark(w.heap[n := Version(t, 0, 0, row)], r, t, n), w.index + EntriesOf(n, row),
                   OweUpdate(r, n, row, 0, 0))
  {
    hide Enabled, Next, Steps, KeyToBeHad, KeyOf, EntriesOf, Unlinked;
    acts := PlansUpdate(w, t, r, row);
    var w1 := Put(KeyLocked(w, t, row), t, w.txns[t].(seen := {r}, plan := [Update(r, row)]));
    Locks(w1, t);
    var w2 := Put(w1, t, w1.txns[t].(pc := RowClear)).(rowLocks := w1.rowLocks[r := t]);
    var lock := [StartApply(t)] + [LockRow(t)] + [PassRow(t)];
    Join(w, acts, w1, lock, w2);
    Stores(w2, t, r, row, n);
    var store := [StoreNew(t, n)] + [MarkUpdated(t)] + ([AddEntry(t)] + [EndStatement(t)]);
    w' := Updated(w2, t, r, row, n);
    Join(w, acts + lock, w2, store, w');
    acts := acts + lock + store;
  }

  // ------------------------------------------------------------------ aborting

  /** The heap without what `t` did to it. */
  ghost function Undone(h: Versions, t: Xid): Versions {
    map r | r in h && h[r].creator != t :: if h[r].deleter == t then h[r].(deleter := 0, next := 0) else h[r]
  }

  /** Page writes it takes to pay a debt. */
  function Weight(u: Owed): nat {
    match u
    case OweUpdate(_, _, _, _, _) => 3
    case OweInsert(_, _) => 2
    case OweUpdateEntry(_, _, _, _, _) => 2
    case _ => 1
  }

  function Debt(undo: seq<Owed>): nat {
    if undo == [] then 0 else Debt(undo[..|undo| - 1]) + Weight(undo[|undo| - 1])
  }

  lemma RemainingWeight(u: Owed)
    ensures |Remaining(u)| <= 1 && (Remaining(u) == [] <==> Weight(u) == 1)
    ensures Remaining(u) != [] ==> Weight(Remaining(u)[0]) + 1 == Weight(u)
  {
  }

  lemma DebtOf(rest: seq<Owed>, u: Owed)
    ensures Debt(rest + [u]) == Debt(rest) + Weight(u)
  {
    assert (rest + [u])[..|rest|] == rest;
  }

  lemma DebtPaid(undo: seq<Owed>)
    requires undo != []
    ensures var u := undo[|undo| - 1]; Debt(undo[..|undo| - 1] + Remaining(u)) + 1 == Debt(undo)
  {
    hide Remaining, Weight, Debt;
    var u, rest := undo[|undo| - 1], undo[..|undo| - 1];
    assert undo == rest + [u];
    DebtOf(rest, u);
    RemainingWeight(u);
    if Remaining(u) == [] {
      assert rest + [] == rest;
    } else {
      assert Remaining(u) == [Remaining(u)[0]];
      DebtOf(rest, Remaining(u)[0]);
    }
  }

  lemma TakeBackRows(w: World, t: Xid)
    requires Inv(w) && Enabled(w, TakeBack(t))
    ensures Undone(Next(w, TakeBack(t)).heap, t) == Undone(w.heap, t)
  {
    hide Inv, Enabled, Next, EntryOk, PopShape, CreatedAt, MarkedAt;
    TakeBackHasShape(w, t);
    var w', u := Next(w, TakeBack(t)), LastOwed(w, t);
    PopRows(w, w', t, u);
    forall r | r in w.heap
      ensures r in NewRows(u) ==> w.heap[r].creator == t
      ensures r in Cleared(u) ==> w.heap[r].deleter == t
    {
      CreatedByEntry(w, t, u, r);
      MarkedByEntry(w, t, u, r);
    }
    hide NewRows, Cleared;
  }

  /** One page write of an abort changes nothing but what the transaction did. */
  lemma TakeBackUndoes(w: World, t: Xid)
    requires Inv(w) && Owns(w, t) && w.txns[t].pc.Aborting? && w.txns[t].undo != []
    ensures Enabled(w, TakeBack(t))
    ensures var w' := Next(w, TakeBack(t));
            && Undone(w'.heap, t) == Undone(w.heap, t) && w'.tm == w.tm && w'.txns.Keys == w.txns.Keys
            && w'.rowLocks == w.rowLocks && w'.keyLocks == w.keyLocks
            && w'.txns[t].pc.Aborting? && Debt(w'.txns[t].undo) < Debt(w.txns[t].undo)
            && forall x :: x in w.txns && x != t ==> w'.txns[x] == w.txns[x]
  {
    assert Enabled(w, TakeBack(t));
    hide Inv, Enabled, Next, Undone, StepBack, Debt;
    TakeBackRows(w, t);
    TakeBackHasShape(w, t);
    UndoHasShape(w, TakeBack(t));
    DebtPaid(w.txns[t].undo);
  }

  lemma {:induction false} UnwindsAll(w: World, t: Xid) returns (acts: seq<Action>, w': World)
    requires Inv(w) && Owns(w, t) && w.txns[t].pc.Aborting?
    ensures Steps(w, acts, w') && Inv(w') && At(w', t, Aborting) && w'.txns[t].undo == []
    ensures Undone(w'.heap, t) == Undone(w.heap, t) && w'.tm == w.tm && w'.txns.Keys == w.txns.Keys
    ensures w'.rowLocks == w.rowLocks && w'.keyLocks == w.keyLocks
    ensures forall x :: x in w.txns && x != t ==> w'.txns[x] == w.txns[x]
    decreases Debt(w.txns[t].undo)
  {
    hide Inv, Enabled, Next, Undone;
    if w.txns[t].undo == [] {
      acts, w' := [], w;
    } else {
      TakeBackUndoes(w, t);
      StepInv(w, TakeBack(t));
      var w1 := Next(w, TakeBack(t));
      var rest;
      rest, w' := UnwindsAll(w1, t);
      First(w, TakeBack(t), w1);
      acts := [TakeBack(t)] + rest;
      hide Steps;
      Join(w, [TakeBack(t)], w1, rest, w');
    }
  }

  lemma StartsAbort(w: World, t: Xid)
    requires At(w, t, Idle)
    ensures Enabled(w, StartAbort(t))
    ensures Next(w, StartAbort(t)) == Put(w, t, w.txns[t].(pc := Aborting, plan := [], seen := {}))
  {
  }

  lemma NothingToUndo(w: World, t: Xid)
    requires Inv(w) && At(w, t, Aborting) && w.txns[t].undo == []
    ensures Undone(w.heap, t) == w.heap
  {
    hide Inv;
    EmptyLogOwnsNothing(w, t);
  }

  /**
   A transaction can always abort. It is then gone and holds no lock, its rows are gone, the rows it had
   marked are unmarked, and nothing else in the heap has changed.
   */
  lemma AbortAlone(w: World, t: Xid) returns (acts: seq<Action>, w': World)
    requires Inv(w) && At(w, t, Idle)
    ensures Steps(w, acts, w') && At(w', t, Ended) && w'.heap == Undone(w.heap, t) && w'.tm == w.tm.Leave(t)
    ensures (forall r: Rid :: !HoldsRow(w', t, r)) && (forall k: int :: !HoldsKey(w', t, k))
    ensures w'.txns.Keys == w.txns.Keys && forall x :: x in w.txns && x != t ==> w'.txns[x] == w.txns[x]
  {
    hide Inv, Undone;
    StartsAbort(w, t);
    StepInv(w, StartAbort(t));
    hide Enabled, Next, Steps;
    var w1 := Next(w, StartAbort(t));
    First(w, StartAbort(t), w1);
    var rest, w2 := UnwindsAll(w1, t);
    Join(w, [StartAbort(t)], w1, rest, w2);
    NothingToUndo(w2, t);
    LeavesAborted(w2, t);
    w' := ReleaseLocks(Goto(w2, t, Ended).(tm := w2.tm.Leave(t)), t);
    acts := [StartAbort(t)] + rest + ([LeaveAborted(t)] + [AbortEnd(t)]);
    Join(w, [StartAbort(t)] + rest, w2, [LeaveAborted(t)] + [AbortEnd(t)], w');
  }
}
