/**
 A run of the read-committed system that ends with two live rows under one unique key. While a transaction
 takes an update back, the old row is still linked to the slot of the new row it has already removed;
 another transaction takes that slot, and the link then passes for a version chain.
 */
module ReadCommittedDuplicate {
  import opened Options
  import opened Heap
  import opened Clog
  import opened TxnManager
  import opened ReadCommitted
  import opened ReadCommittedInv
  import opened ReadCommittedTheorems
  import opened ReadCommittedAlone

  // ------------------------------------------------------------------ the run

  function Key(k: int): Row {
    [Some(k)]
  }

  /** One committed row with key 5. */
  const START: World := World(Tm(2, {}, Status(0, {1})), map[7 := Version(1, 0, 0, Key(5))], {(5, 7)}, map[], map[],
                              map[],
                              map[7 := 0], 1, {}, true)

  const T2: Txn := Txn(Running, Snapshot(3, {2}), {7}, [Update(7, Key(9))], [], 0)

  /** Transaction 2 has planned to give row 7 the key 9. */
  const PLANNED: World := World(Tm(3, {2}, Status(0, {1})), map[7 := Version(1, 0, 0, Key(5))], {(5, 7)}, map[],
                                map[9 := 2],
                                map[2 := T2], map[7 := 0], 1, {}, true)

  lemma RunToPlanned() returns (acts: seq<Action>)
    ensures Steps(START, acts, PLANNED)
  {
    hide Enabled, Next, Steps;
    var w1 := Started(START);
    Starts(START);
    acts := [Begin] + ([ReadNext(2)] + [ReadOpen(2)]);
    assert {} + {2} == {2};
    assert w1.txns == map[2 := Txn(Running, Snapshot(3, {2}), {}, [], [], 0)];
    var w2 := Searched(w1, 2, 7, Key(9));
    Searches(w1, 2, 7, Key(9));
    Join(START, acts, w1, [See(2, 7)] + [ChooseUpdate(2, 7, Key(9))] + ([LockKey(2)] + [Search(2)]), w2);
    acts := acts + ([See(2, 7)] + [ChooseUpdate(2, 7, Key(9))] + ([LockKey(2)] + [Search(2)]));
    assert w2.txns[2].pc.todo == {};
    Plans(w2, 2);
    var w3 := Put(w2, 2, T2);
    Join(START, acts, w2, [KeyDone(2)], w3);
    acts := acts + [KeyDone(2)];
    assert w3.txns == map[2 := T2];
    assert w3.tm == PLANNED.tm;
    assert w3.keyLocks == PLANNED.keyLocks;
  }

  const T2_UNDOING: Txn := Txn(Aborting, Snapshot(3, {2}), {}, [], [OweUpdateEntry(7, 8, Key(9), 0, 0)], 0)

  /** Transaction 2 has replaced row 7 by row 8 and, aborting, has removed row 8 again. */
  const HALF_UNDONE: World := World(Tm(3, {2}, Status(0, {1})), map[7 := Version(1, 2, 8, Key(5))], {(5, 7), (9, 8)},
                                    map[7 := 2], map[9 := 2], map[2 := T2_UNDOING], map[7 := 0, 8 := 1], 2, {}, true)

  lemma RunToHalfUndone() returns (acts: seq<Action>)
    ensures Steps(PLANNED, acts, HALF_UNDONE)
  {
    hide Enabled, Next, Steps;
    var w1 := Put(PLANNED, 2, T2.(pc := RowClear)).(rowLocks := map[7 := 2]);
    Locks(PLANNED, 2);
    acts := [StartApply(2)] + [LockRow(2)] + [PassRow(2)];
    assert PLANNED.rowLocks[7 := 2] == map[7 := 2];
    var w2 := Updated(w1, 2, 7, Key(9), 8);
    Stores(w1, 2, 7, Key(9), 8);
    Join(PLANNED, acts, w1, [StoreNew(2, 8)] + [MarkUpdated(2)] + ([AddEntry(2)] + [EndStatement(2)]), w2);
    acts := acts + ([StoreNew(2, 8)] + [MarkUpdated(2)] + ([AddEntry(2)] + [EndStatement(2)]));
    assert w2.txns[2].undo == [OweUpdate(7, 8, Key(9), 0, 0)];
    Aborts(w2, 2);
    Join(PLANNED, acts, w2, [StartAbort(2)] + [TakeBack(2)], HALF_UNDONE) by {
      assert w2.heap - {8} == HALF_UNDONE.heap;
      assert w2.txns[2 := T2_UNDOING] == HALF_UNDONE.txns;
      assert w2.index == HALF_UNDONE.index;
      assert w2.birth == HALF_UNDONE.birth;
    }
    acts := acts + ([StartAbort(2)] + [TakeBack(2)]);
  }

  const T3: Txn := Txn(Ended, Snapshot(4, {2, 3}), {}, [], [OweInsert(8, Key(6))], 0)

  /** Transaction 3 has put a committed row with key 6 into the slot that row 7 is still linked to. */
  const SLOT_TAKEN: World := World(Tm(4, {2}, Status(0, {1, 3})),
                                   map[7 := Version(1, 2, 8, Key(5)), 8 := Version(3, 0, 0, Key(6))],
                                   {(5, 7), (9, 8), (6, 8)}, map[7 := 2], map[9 := 2], HALF_UNDONE.txns[3 := T3],
                                   map[7 := 0, 8 := 2], 3, {}, false)

  /** Transaction 3 has passed the uniqueness check for key 6. */
  const READY: World := World(Tm(4, {2, 3}, Status(0, {1})), HALF_UNDONE.heap, HALF_UNDONE.index, map[7 := 2],
                              map[9 := 2, 6 := 3],
                              HALF_UNDONE.txns[3 := T3.(pc := InsertNow(Key(6)), undo := [])], HALF_UNDONE.birth, 2, {},
                              true)

  lemma RunToInsert() returns (acts: seq<Action>, w: World)
    ensures Steps(HALF_UNDONE, acts, w)
    ensures w == READY
  {
    hide Enabled, Next, Steps;
    var w1 := Started(HALF_UNDONE);
    Starts(HALF_UNDONE);
    acts := [Begin] + ([ReadNext(3)] + [ReadOpen(3)]);
    assert {2} + {3} == {2, 3};
    assert WithKey(w1.index, 6) == {};
    Checks(w1, 3, Key(6));
    w := Put(w1, 3, w1.txns[3].(pc := InsertNow(Key(6)))).(keyLocks := w1.keyLocks[6 := 3]);
    Join(HALF_UNDONE, acts, w1, [ChooseInsert(3, Key(6))] + ([LockKey(3)] + [Search(3)]) + [KeyDone(3)], w);
    acts := acts + ([ChooseInsert(3, Key(6))] + ([LockKey(3)] + [Search(3)]) + [KeyDone(3)]);
    assert w.txns == HALF_UNDONE.txns[3 := T3.(pc := InsertNow(Key(6)), undo := [])];
    assert w.keyLocks == map[9 := 2, 6 := 3];
  }

  const INSERTED: World := SLOT_TAKEN.(tm := Tm(4, {2, 3}, Status(0, {1})), keyLocks := map[9 := 2, 6 := 3],
                                       txns := HALF_UNDONE.txns[3 := T3.(pc := Idle)])

  lemma InsertIsUnlocked()
    ensures Unlocked(INSERTED.rowLocks, 3) == SLOT_TAKEN.rowLocks
    ensures Unlocked(INSERTED.keyLocks, 3) == SLOT_TAKEN.keyLocks
  {
    assert Unlocked(map[7 := 2], 3) == map[7 := 2];
    assert Unlocked(map[9 := 2, 6 := 3], 3) == map[9 := 2];
  }

  lemma InsertClaimsNothing()
    ensures Claims(INSERTED, 3) == {} && INSERTED.tm.Mark(3).Leave(3) == SLOT_TAKEN.tm
  {
  }

  lemma InsertIsCommitted()
    ensures Steps(INSERTED, [MarkCommit(3)] + [LeaveCommitted(3)] + [Close(3)], SLOT_TAKEN)
  {
    hide Enabled, Next, Steps, Unlocked, Claims;
    Finishes(INSERTED, 3);
    InsertIsUnlocked();
    InsertClaimsNothing();
    assert Finished(INSERTED, 3) == SLOT_TAKEN;
  }

  lemma RowIsInserted()
    ensures Steps(READY, [Insert(3, 8)] + ([AddEntry(3)] + [EndStatement(3)]), INSERTED)
  {
    hide Enabled, Next, Steps, Finished;
    var w := Inserted(READY, 3, Key(6), 8);
    InsertsRow(READY, 3, Key(6), 8);
    assert w.txns == INSERTED.txns by { assert w.txns[3].undo == [OweInsert(8, Key(6))]; }
    assert !w.clean by { assert READY.heap[7].next == 8; }
    assert w.heap == INSERTED.heap;
    assert w.index == INSERTED.index;
    assert w.birth == INSERTED.birth;
  }

  lemma RunToSlotTaken() returns (acts: seq<Action>)
    ensures Steps(HALF_UNDONE, acts, SLOT_TAKEN)
  {
    hide Enabled, Next, Steps;
    var w1;
    acts, w1 := RunToInsert();
    RowIsInserted();
    Join(HALF_UNDONE, acts, w1, [Insert(3, 8)] + ([AddEntry(3)] + [EndStatement(3)]), INSERTED);
    acts := acts + ([Insert(3, 8)] + ([AddEntry(3)] + [EndStatement(3)]));
    InsertIsCommitted();
    Join(HALF_UNDONE, acts, INSERTED, [MarkCommit(3)] + [LeaveCommitted(3)] + [Close(3)], SLOT_TAKEN);
    acts := acts + ([MarkCommit(3)] + [LeaveCommitted(3)] + [Close(3)]);
  }

  const T4: Txn := Txn(Running, Snapshot(5, {2, 4}), {7}, [Update(7, Key(6))], [], 0)

  /** Transaction 4 has passed the uniqueness check for key 6: row 8 looks like a later version of row 7. */
  const EXEMPTED: World := SLOT_TAKEN.(tm := Tm(5, {2, 4}, Status(0, {1, 3})), keyLocks := map[9 := 2, 6 := 4],
                                       txns := SLOT_TAKEN.txns[4 := T4])

  const SEARCHED: World := EXEMPTED.(txns := SLOT_TAKEN.txns[4 := T4.(pc := CheckKey(Some(7), Key(6), {8}),
                                                                      plan := [])])

  lemma RunToSearched() returns (acts: seq<Action>)
    ensures Steps(SLOT_TAKEN, acts, SEARCHED)
  {
    hide Enabled, Next, Steps;
    var w1 := Started(SLOT_TAKEN);
    Starts(SLOT_TAKEN);
    acts := [Begin] + ([ReadNext(4)] + [ReadOpen(4)]);
    assert {2} + {4} == {2, 4};
    var w2 := Searched(w1, 4, 7, Key(6));
    Searches(w1, 4, 7, Key(6));
    assert WithKey(w1.index, 6) == {8} by { assert (6, 8) in w1.index; }
    hide WithKey;
    assert w2.txns == SEARCHED.txns;
    assert w2.keyLocks == SEARCHED.keyLocks;
    Join(SLOT_TAKEN, acts, w1, [See(4, 7)] + [ChooseUpdate(4, 7, Key(6))] + ([LockKey(4)] + [Search(4)]), SEARCHED);
    acts := acts + ([See(4, 7)] + [ChooseUpdate(4, 7, Key(6))] + ([LockKey(4)] + [Search(4)]));
  }

  /** Row 8 is where the link of row 7 leads. */
  lemma LinkPasses()
    ensures Passes(SEARCHED, 4, Some(7), 8)
  {
    assert ChainReaches(SEARCHED.heap, 7, 8, CHAIN_LIMIT);
  }

  lemma RunToExempted() returns (acts: seq<Action>)
    ensures Steps(SLOT_TAKEN, acts, EXEMPTED)
  {
    hide Enabled, Next, Steps, Passes;
    acts := RunToSearched();
    LinkPasses();
    Passes1(SEARCHED, 4, 8);
    var w := Put(SEARCHED, 4, SEARCHED.txns[4].(pc := SEARCHED.txns[4].pc.(todo := {})));
    Join(SLOT_TAKEN, acts, SEARCHED, [PassRid(4, 8)], w);
    acts := acts + [PassRid(4, 8)];
    Plans(w, 4);
    assert Put(w, 4, T4).txns == EXEMPTED.txns;
    Join(SLOT_TAKEN, acts, w, [KeyDone(4)], EXEMPTED);
    acts := acts + [KeyDone(4)];
  }

  /** Transaction 2 has removed the index entry of its new row. */
  const UNENTERED: World := EXEMPTED.(index := {(5, 7), (6, 8)},
                                      txns := EXEMPTED.txns[2 := T2_UNDOING.(undo := [OweRestore(7, 8, 0, 0)])])

  /** It has restored the mark of row 7. */
  const UNMARKED: World := UNENTERED.(heap := EXEMPTED.heap[7 := Version(1, 0, 0, Key(5))],
                                      txns := UNENTERED.txns[2 := T2_UNDOING.(undo := [])])

  /** It is gone. */
  const RESTORED: World := ReleaseLocks(Goto(UNMARKED, 2, Ended).(tm := UNMARKED.tm.Leave(2)), 2)

  lemma EntryIsRemoved()
    ensures Steps(EXEMPTED, [TakeBack(2)], UNENTERED)
  {
    hide Enabled, Next, Steps;
    var u := OweUpdateEntry(7, 8, Key(9), 0, 0);
    TakesBack(EXEMPTED, 2, u);
    assert EXEMPTED.index - DroppedEntry(u) == UNENTERED.index;
  }

  lemma MarkIsRestored()
    ensures Steps(UNENTERED, [TakeBack(2)], UNMARKED)
  {
    hide Enabled, Next, Steps;
    var u := OweRestore(7, 8, 0, 0);
    TakesBack(UNENTERED, 2, u);
    assert UNENTERED.heap == EXEMPTED.heap && EXEMPTED.heap[7] == Version(1, 2, 8, Key(5));
    assert StepBack(UNENTERED.heap, u) == UNMARKED.heap;
    assert UNENTERED.index - {} == UNENTERED.index;
  }

  lemma RunToRestored() returns (acts: seq<Action>)
    ensures Steps(EXEMPTED, acts, RESTORED)
  {
    hide Enabled, Next, Steps;
    EntryIsRemoved();
    MarkIsRestored();
    Join(EXEMPTED, [TakeBack(2)], UNENTERED, [TakeBack(2)], UNMARKED);
    LeavesAborted(UNMARKED, 2);
    acts := [TakeBack(2)] + [TakeBack(2)] + ([LeaveAborted(2)] + [AbortEnd(2)]);
    Join(EXEMPTED, [TakeBack(2)] + [TakeBack(2)], UNMARKED, [LeaveAborted(2)] + [AbortEnd(2)], RESTORED);
  }

  /** Transaction 4 applies its plan to the restored row and commits. */
  lemma RunToDuplicate() returns (acts: seq<Action>, w: World)
    ensures Steps(RESTORED, acts, w)
    ensures SameKey(w.heap, 8, 9) && Live(w, 8) && Live(w, 9)
  {
    hide Enabled, Next, Steps, Claims, Unlinked;
    var w1 := Put(RESTORED, 4, T4.(pc := RowClear)).(rowLocks := RESTORED.rowLocks[7 := 4]);
    Locks(RESTORED, 4);
    acts := [StartApply(4)] + [LockRow(4)] + [PassRow(4)];
    var w2 := Updated(w1, 4, 7, Key(6), 9);
    Stores(w1, 4, 7, Key(6), 9);
    Join(RESTORED, acts, w1, [StoreNew(4, 9)] + [MarkUpdated(4)] + ([AddEntry(4)] + [EndStatement(4)]), w2);
    acts := acts + ([StoreNew(4, 9)] + [MarkUpdated(4)] + ([AddEntry(4)] + [EndStatement(4)]));
    CommitsOne(w2, 4);
    w := Goto(w2, 4, Committing).(tm := w2.tm.Mark(4), claims := w2.claims + Claims(w2, 4));
    Join(RESTORED, acts, w2, [MarkCommit(4)], w);
    acts := acts + [MarkCommit(4)];
    assert w.heap[8] == Version(3, 0, 0, Key(6)) && w.heap[9] == Version(4, 0, 0, Key(6));
  }

  lemma StartIsFresh()
    ensures Init(START)
  {
  }

  /**
   From a fresh start, transactions that follow the code's steps can leave two live rows under one unique key;
   such a run has stored a row in a slot that another row was still linked to.
   */
  lemma LinkedSlotMakesDuplicate() returns (acts: seq<Action>, w: World)
    ensures Init(START) && Steps(START, acts, w)
    ensures SameKey(w.heap, 8, 9) && Live(w, 8) && Live(w, 9)
    ensures !StoresUnlinked(START, acts)
  {
    hide Enabled, Next, Steps, Init, StoresUnlinked;
    StartIsFresh();
    acts := RunToPlanned();
    var more := RunToHalfUndone();
    Join(START, acts, PLANNED, more, HALF_UNDONE);
    acts := acts + more;
    more := RunToSlotTaken();
    Join(START, acts, HALF_UNDONE, more, SLOT_TAKEN);
    acts := acts + more;
    more := RunToExempted();
    Join(START, acts, SLOT_TAKEN, more, EXEMPTED);
    acts := acts + more;
    more := RunToRestored();
    Join(START, acts, EXEMPTED, more, RESTORED);
    acts := acts + more;
    more, w := RunToDuplicate();
    Join(START, acts, RESTORED, more, w);
    acts := acts + more;
    if StoresUnlinked(START, acts) {
      UniqueKeysHold(START, acts, w, 8, 9);
    }
  }
}
