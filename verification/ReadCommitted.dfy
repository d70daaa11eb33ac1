/**
 Concurrent sessions at the read-committed level over one table with a unique
 index: statements that take a fresh snapshot, scan, check uniqueness under key
 locks, then lock, re-check and mark rows one by one, interleaved step by step.
 */
module ReadCommitted {
  import opened Options
  import opened Heap
  import opened Clog
  import opened TxnManager

  /** The unique index covers the first column; NULL keys are exempt. */
  function KeyOf(row: Row): Option<int> {
    if row == [] then None else row[0]
  }

  /**
   What a transaction would still have to take back. Undoing an insert or an update is several page
   writes, so an entry shrinks step by step: first the new row goes, then its index entry, and
   for an update only then the mark on the old row.
   */
  datatype Owed =
    | OweInsert(rid: Rid, row: Row)
    | OweEntry(rid: Rid, row: Row)
    | OweMark(rid: Rid, prevDeleter: Xid, prevNext: Rid)
    | OweUpdate(rid: Rid, newRid: Rid, newRow: Row, prevDeleter: Xid, prevNext: Rid)
    | OweUpdateEntry(rid: Rid, newRid: Rid, newRow: Row, prevDeleter: Xid, prevNext: Rid)
    | OweRestore(rid: Rid, newRid: Rid, prevDeleter: Xid, prevNext: Rid)

  /** Nothing of the entry has been taken back yet. */
  predicate Whole(u: Owed) {
    u.OweInsert? || u.OweMark? || u.OweUpdate?
  }

  /** The stored row an entry has to remove, if any. */
  function NewRows(u: Owed): set<Rid> {
    match u
    case OweInsert(r, _) => {r}
    case OweUpdate(_, n, _, _, _) => {n}
    case _ => {}
  }

  /** The row whose mark an entry has to restore, if any. */
  function OldRows(u: Owed): set<Rid> {
    match u
    case OweMark(r, _, _) => {r}
    case OweUpdate(r, _, _, _, _) => {r}
    case OweUpdateEntry(r, _, _, _, _) => {r}
    case OweRestore(r, _, _, _) => {r}
    case _ => {}
  }

  /** The heap after the next page write of taking `u` back. */
  function StepBack(h: Versions, u: Owed): Versions {
    match u
    case OweInsert(r, _) => h - {r}
    case OweUpdate(_, n, _, _, _) => h - {n}
    case OweMark(r, d, n) => if r in h then SetMark(h, r, d, n) else h
    case OweRestore(r, _, d, p) => if r in h then SetMark(h, r, d, p) else h
    case _ => h
  }

  /** The index entry the next page write removes, if any. */
  function DroppedEntry(u: Owed): set<(int, Rid)> {
    match u
    case OweEntry(r, row) => EntriesOf(r, row)
    case OweUpdateEntry(_, n, row, _, _) => EntriesOf(n, row)
    case _ => {}
  }

  /** What is left of `u` after that write. */
  function Remaining(u: Owed): seq<Owed> {
    match u
    case OweInsert(r, row) => [OweEntry(r, row)]
    case OweUpdate(r, n, row, d, p) => [OweUpdateEntry(r, n, row, d, p)]
    case OweUpdateEntry(r, n, _, d, p) => [OweRestore(r, n, d, p)]
    case _ => []
  }

  function EntriesOf(r: Rid, row: Row): set<(int, Rid)> {
    if KeyOf(row).Some? then {(KeyOf(row).value, r)} else {}
  }

  /** A row the running statement has decided to delete or to replace. */
  datatype Plan = Delete(rid: Rid) | Update(rid: Rid, row: Row)

  /** Where a session stands. `target` is the row being updated, if any. */
  datatype Pc =
    | Idle
    | HalfSnapshot(xmax: Xid)
    | Running
    | AskKey(target: Option<Rid>, row: Row)
    | KeyHeld(target: Option<Rid>, row: Row)
    | CheckKey(target: Option<Rid>, row: Row, todo: set<Rid>)
    | InsertNow(row: Row)
    | IndexInsert(rid: Rid, row: Row)
    | Applying
    | RowLocked
    | RowClear
    | NewStored(newRid: Rid)
    | IndexUpdate(rid: Rid, row: Row)
    | Undoing
    | Aborting
    | Committing
    | Closing
    | Ended

  /** `mark` is the undo position the running statement unwinds to when it fails. */
  datatype Txn = Txn(pc: Pc, snap: Snapshot, seen: set<Rid>, plan: seq<Plan>, undo: seq<Owed>, mark: nat)

  /**
   Shared state, plus history: `birth` numbers every version ever stored, `claims` says which
   committed transaction deleted or superseded which version, and `clean` whether every store
   so far took a slot that no stored row was linked to.
   */
  datatype World = World(
    tm: Tm,
    heap: Versions,
    index: set<(int, Rid)>,
    rowLocks: map<Rid, Xid>,
    keyLocks: map<int, Xid>,
    txns: map<Xid, Txn>,
    birth: map<Rid, nat>,
    births: nat,
    claims: set<(nat, Xid)>,
    clean: bool
  )

  datatype Action =
    | Begin
    | ReadNext(t: Xid)
    | ReadOpen(t: Xid)
    | See(t: Xid, r: Rid)
    | ChooseDelete(t: Xid, r: Rid)
    | ChooseUpdate(t: Xid, r: Rid, row: Row)
    | ChooseInsert(t: Xid, row: Row)
    | LockKey(t: Xid)
    | Search(t: Xid)
    | PassRid(t: Xid, r: Rid)
    | KeyDone(t: Xid)
    | Insert(t: Xid, r: Rid)
    | AddEntry(t: Xid)
    | StartApply(t: Xid)
    | LockRow(t: Xid)
    | PassRow(t: Xid)
    | MarkDeleted(t: Xid)
    | StoreNew(t: Xid, r: Rid)
    | MarkUpdated(t: Xid)
    | EndStatement(t: Xid)
    | Fail(t: Xid)
    | TakeBack(t: Xid)
    | Unwound(t: Xid, release: bool)
    | StartAbort(t: Xid)
    | LeaveAborted(t: Xid)
    | AbortEnd(t: Xid)
    | MarkCommit(t: Xid)
    | LeaveCommitted(t: Xid)
    | Close(t: Xid)
    | Vacuum

  // ------------------------------------------------------------------ tests a session makes

  predicate Committed(w: World, x: Xid) {
    w.tm.Committed(x)
  }

  /** The version still occupies its key for the committed state as `t` would leave it. */
  predicate Taken(w: World, v: Version, t: Xid) {
    && (v.creator == t || Committed(w, v.creator))
    && !(v.deleter != 0 && (v.deleter == t || Committed(w, v.deleter)))
  }

  /** `d` committed after the snapshot of `t`. */
  predicate Conflicting(w: World, t: Xid, snap: Snapshot, d: Xid) {
    d != 0 && d != t && !w.tm.CommittedBefore(snap, d) && Committed(w, d)
  }

  const CHAIN_LIMIT := 4096

  /** Follows forward pointers from `from`, at most `limit` of them. */
  predicate ChainReaches(h: Versions, from: Rid, target: Rid, limit: nat)
    decreases limit
  {
    limit > 0 && from in h && h[from].next != 0 &&
    (h[from].next == target || (h[from].next != from && ChainReaches(h, h[from].next, target, limit - 1)))
  }

  predicate SameChain(h: Versions, a: Rid, b: Rid) {
    a == b || ChainReaches(h, a, b, CHAIN_LIMIT) || ChainReaches(h, b, a, CHAIN_LIMIT)
  }

  /** A row found under the key does not make a duplicate. */
  predicate Passes(w: World, t: Xid, target: Option<Rid>, r: Rid) {
    || target == Some(r)
    || r !in w.heap
    || !Taken(w, w.heap[r], t)
    || (target.Some? && SameChain(w.heap, target.value, r))
  }

  /** The rows the index lists under a key. */
  function WithKey(index: set<(int, Rid)>, k: int): set<Rid> {
    set e | e in index && e.0 == k :: e.1
  }

  function Claimed(plan: seq<Plan>): set<Option<int>> {
    set p | p in plan && p.Update? :: KeyOf(p.row)
  }

  function PlannedRids(plan: seq<Plan>): set<Rid> {
    set p | p in plan :: p.rid
  }

  predicate Free<K>(locks: map<K, Xid>, k: K, t: Xid) {
    k !in locks || locks[k] == t
  }

  function Unlocked<K>(locks: map<K, Xid>, t: Xid): map<K, Xid> {
    map k | k in locks && locks[k] != t :: locks[k]
  }

  /** Versions no later transaction can need are dropped, marks of failed transactions are cleared. */
  function Vacuumed(status: Status, h: Versions): Versions {
    map r | r in h && !Dead(status, h[r]) ::
      if h[r].deleter != 0 && !status.Committed(h[r].deleter) then h[r].(deleter := 0, next := 0) else h[r]
  }

  ghost function DeadEntries(status: Status, h: Versions): set<(int, Rid)> {
    set r | r in h && Dead(status, h[r]) && KeyOf(h[r].row).Some? :: (KeyOf(h[r].row).value, r)
  }

  predicate Dead(status: Status, v: Version) {
    !status.Committed(v.creator) || (v.deleter != 0 && status.Committed(v.deleter))
  }

  // ------------------------------------------------------------------ steps

  predicate At(w: World, t: Xid, pc: Pc) {
    t in w.txns && w.txns[t].pc == pc
  }

  predicate InStatement(pc: Pc) {
    pc.Running? || pc.AskKey? || pc.KeyHeld? || pc.CheckKey? || pc.InsertNow? || pc.Applying? || pc.RowLocked? ||
    pc.RowClear?
  }

  /** Any free slot may be taken, also one that a link still names. */
  predicate FreshRid(w: World, r: Rid) {
    r != 0 && r !in w.heap
  }

  predicate Unlinked(h: Versions, r: Rid) {
    forall s :: s in h ==> h[s].next != r
  }

  /** Somebody is in the middle of taking writes back. */
  predicate Unwinding(x: Txn) {
    (x.pc.Undoing? && |x.undo| > x.mark) || (x.pc.Aborting? && x.undo != [])
  }

  /** Taking a snapshot and scanning. */
  predicate IsRead(a: Action) {
    a.ReadNext? || a.ReadOpen? || a.See?
  }

  /** Deciding what to do with a row. */
  predicate IsChoose(a: Action) {
    a.ChooseDelete? || a.ChooseUpdate? || a.ChooseInsert?
  }

  /** The uniqueness check. */
  predicate IsKey(a: Action) {
    a.LockKey? || a.Search? || a.PassRid? || a.KeyDone?
  }

  /** Storing a row and entering it in the index. */
  predicate IsStore(a: Action) {
    a.Insert? || a.AddEntry? || a.StoreNew?
  }

  /** Locking, testing again and marking rows. */
  predicate IsRow(a: Action) {
    a.StartApply? || a.LockRow? || a.PassRow? || a.MarkDeleted? || a.MarkUpdated?
  }

  /** Taking writes back, one page write at a time. */
  predicate IsUndo(a: Action) {
    a.Fail? || a.TakeBack? || a.Unwound?
  }

  /** Ending statements and transactions. */
  predicate IsEnd(a: Action) {
    a.EndStatement? || a.StartAbort? || a.LeaveAborted? || a.AbortEnd? || a.MarkCommit? || a.LeaveCommitted? || a.Close?
  }

  ghost predicate CanRead(w: World, a: Action)
    requires IsRead(a)
  {
    match a
    case ReadNext(t) => At(w, t, Idle)
    case ReadOpen(t) => t in w.txns && w.txns[t].pc.HalfSnapshot?
    case See(t, r) => At(w, t, Running) && r in w.heap && w.tm.Visible(t, w.txns[t].snap, w.heap[r])
  }

  ghost predicate CanChoose(w: World, a: Action)
    requires IsChoose(a)
  {
    match a
    case ChooseDelete(t, r) => At(w, t, Running) && r in w.txns[t].seen && r !in PlannedRids(w.txns[t].plan)
    case ChooseUpdate(t, r, row) =>
      && At(w, t, Running) && r in w.txns[t].seen && r !in PlannedRids(w.txns[t].plan)
      && (KeyOf(row).Some? ==> KeyOf(row) !in Claimed(w.txns[t].plan))
    case ChooseInsert(t, _) => At(w, t, Running) && w.txns[t].plan == []
  }

  ghost predicate CanKey(w: World, a: Action)
    requires IsKey(a)
  {
    match a
    case LockKey(t) =>
      t in w.txns && w.txns[t].pc.AskKey? &&
      (KeyOf(w.txns[t].pc.row).Some? ==> Free(w.keyLocks, KeyOf(w.txns[t].pc.row).value, t))
    case Search(t) => t in w.txns && w.txns[t].pc.KeyHeld?
    case PassRid(t, r) =>
      t in w.txns && w.txns[t].pc.CheckKey? && r in w.txns[t].pc.todo && Passes(w, t, w.txns[t].pc.target, r)
    case KeyDone(t) => t in w.txns && w.txns[t].pc.CheckKey? && w.txns[t].pc.todo == {}
  }

  ghost predicate CanStore(w: World, a: Action)
    requires IsStore(a)
  {
    match a
    case Insert(t, r) => t in w.txns && w.txns[t].pc.InsertNow? && FreshRid(w, r)
    case AddEntry(t) => t in w.txns && (w.txns[t].pc.IndexInsert? || w.txns[t].pc.IndexUpdate?)
    case StoreNew(t, r) => At(w, t, RowClear) && w.txns[t].plan != [] && w.txns[t].plan[0].Update? && FreshRid(w, r)
  }

  ghost predicate CanRow(w: World, a: Action)
    requires IsRow(a)
  {
    match a
    case StartApply(t) => At(w, t, Running)
    case LockRow(t) => At(w, t, Applying) && w.txns[t].plan != [] && Free(w.rowLocks, w.txns[t].plan[0].rid, t)
    case PassRow(t) =>
      && At(w, t, RowLocked) && w.txns[t].plan != [] && w.txns[t].plan[0].rid in w.heap
      && !Conflicting(w, t, w.txns[t].snap, w.heap[w.txns[t].plan[0].rid].deleter)
    case MarkDeleted(t) =>
      At(w, t, RowClear) && w.txns[t].plan != [] && w.txns[t].plan[0].Delete? && w.txns[t].plan[0].rid in w.heap
    case MarkUpdated(t) =>
      && t in w.txns && w.txns[t].pc.NewStored? && w.txns[t].plan != [] && w.txns[t].plan[0].Update?
      && w.txns[t].plan[0].rid in w.heap
  }

  ghost predicate CanUndo(w: World, a: Action)
    requires IsUndo(a)
  {
    match a
    case Fail(t) => t in w.txns && InStatement(w.txns[t].pc)
    case TakeBack(t) => t in w.txns && Unwinding(w.txns[t])
    case Unwound(t, release) =>
      At(w, t, Undoing) && |w.txns[t].undo| <= w.txns[t].mark && (release ==> w.txns[t].mark == 0)
  }

  ghost predicate CanEnd(w: World, a: Action)
    requires IsEnd(a)
  {
    match a
    case EndStatement(t) => (At(w, t, Running) || At(w, t, Applying)) && w.txns[t].plan == []
    case StartAbort(t) => At(w, t, Idle)
    case LeaveAborted(t) => At(w, t, Aborting) || At(w, t, Ended)
    case AbortEnd(t) => At(w, t, Aborting) && w.txns[t].undo == []
    case MarkCommit(t) => At(w, t, Idle)
    case LeaveCommitted(t) => At(w, t, Committing)
    case Close(t) => At(w, t, Closing)
  }

  ghost predicate Enabled(w: World, a: Action) {
    if IsRead(a) then CanRead(w, a)
    else if IsChoose(a) then CanChoose(w, a)
    else if IsKey(a) then CanKey(w, a)
    else if IsStore(a) then CanStore(w, a)
    else if IsRow(a) then CanRow(w, a)
    else if IsUndo(a) then CanUndo(w, a)
    else if IsEnd(a) then CanEnd(w, a)
    else a.Begin? || (w.tm.open == {} && forall t :: t in w.txns ==> w.txns[t].pc.Ended?)
  }

  function Put(w: World, t: Xid, x: Txn): World {
    w.(txns := w.txns[t := x])
  }

  function Goto(w: World, t: Xid, pc: Pc): World
    requires t in w.txns
  {
    Put(w, t, w.txns[t].(pc := pc))
  }

  function StoreVersion(w: World, t: Xid, r: Rid, row: Row): World {
    w.(heap := w.heap[r := Version(t, 0, 0, row)], birth := w.birth[r := w.births], births := w.births + 1,
       clean := w.clean && Unlinked(w.heap, r))
  }

  function ReleaseLocks(w: World, t: Xid): World {
    w.(rowLocks := Unlocked(w.rowLocks, t), keyLocks := Unlocked(w.keyLocks, t))
  }

  ghost function Claims(w: World, t: Xid): set<(nat, Xid)> {
    set r | r in w.heap && r in w.birth && w.heap[r].deleter == t :: (w.birth[r], t)
  }

  ghost function AfterRead(w: World, a: Action): World
    requires IsRead(a) && CanRead(w, a)
  {
    match a
    case ReadNext(t) => Goto(w, t, HalfSnapshot(w.tm.next))
    case ReadOpen(t) =>
      var x := w.txns[t];
      Put(w, t, Txn(Running, Snapshot(x.pc.xmax, w.tm.open), {}, [], x.undo, |x.undo|))
    case See(t, r) => Put(w, t, w.txns[t].(seen := w.txns[t].seen + {r}))
  }

  ghost function AfterChoose(w: World, a: Action): World
    requires IsChoose(a) && CanChoose(w, a)
  {
    match a
    case ChooseDelete(t, r) => Put(w, t, w.txns[t].(plan := w.txns[t].plan + [Delete(r)]))
    case ChooseUpdate(t, r, row) =>
      if KeyOf(row).None? then Put(w, t, w.txns[t].(plan := w.txns[t].plan + [Update(r, row)]))
      else Goto(w, t, AskKey(Some(r), row))
    case ChooseInsert(t, row) => Goto(w, t, if KeyOf(row).None? then InsertNow(row) else AskKey(None, row))
  }

  ghost function AfterKey(w: World, a: Action): World
    requires IsKey(a) && CanKey(w, a)
  {
    match a
    case LockKey(t) =>
      var pc := w.txns[t].pc;
      var w' := Goto(w, t, KeyHeld(pc.target, pc.row));
      if KeyOf(pc.row).Some? then w'.(keyLocks := w.keyLocks[KeyOf(pc.row).value := t]) else w'
    case Search(t) =>
      var pc := w.txns[t].pc;
      Goto(w, t, CheckKey(pc.target, pc.row, if KeyOf(pc.row).Some? then WithKey(w.index, KeyOf(pc.row).value) else {}))
    case PassRid(t, r) => Goto(w, t, w.txns[t].pc.(todo := w.txns[t].pc.todo - {r}))
    case KeyDone(t) =>
      var x := w.txns[t];
      if x.pc.target.Some? then Put(w, t, x.(pc := Running, plan := x.plan + [Update(x.pc.target.value, x.pc.row)]))
      else Goto(w, t, InsertNow(x.pc.row))
  }

  ghost function AfterStore(w: World, a: Action): World
    requires IsStore(a) && CanStore(w, a)
  {
    match a
    case Insert(t, r) =>
      var x := w.txns[t];
      Put(StoreVersion(w, t, r, x.pc.row), t,
          x.(pc := IndexInsert(r, x.pc.row), undo := x.undo + [OweInsert(r, x.pc.row)]))
    case AddEntry(t) =>
      var pc := w.txns[t].pc;
      Goto(w, t, if pc.IndexInsert? then Running else Applying).(index := w.index + EntriesOf(pc.rid, pc.row))
    case StoreNew(t, n) => Goto(StoreVersion(w, t, n, w.txns[t].plan[0].row), t, NewStored(n))
  }

  ghost function AfterRow(w: World, a: Action): World
    requires IsRow(a) && CanRow(w, a)
  {
    match a
    case StartApply(t) => Goto(w, t, Applying)
    case LockRow(t) => Goto(w, t, RowLocked).(rowLocks := w.rowLocks[w.txns[t].plan[0].rid := t])
    case PassRow(t) => Goto(w, t, RowClear)
    case MarkDeleted(t) =>
      var x := w.txns[t];
      var r := x.plan[0].rid;
      Put(w, t, x.(pc := Applying, plan := x.plan[1..],
                   undo := x.undo + [OweMark(r, w.heap[r].deleter, w.heap[r].next)]))
      .(heap := SetMark(w.heap, r, t, 0))
    case MarkUpdated(t) =>
      var x := w.txns[t];
      var r, n := x.plan[0].rid, x.pc.newRid;
      Put(w, t, x.(pc := IndexUpdate(n, x.plan[0].row), plan := x.plan[1..],
                   undo := x.undo + [OweUpdate(r, n, x.plan[0].row, w.heap[r].deleter, w.heap[r].next)]))
      .(heap := SetMark(w.heap, r, t, n))
  }

  ghost function AfterUndo(w: World, a: Action): World
    requires IsUndo(a) && CanUndo(w, a)
  {
    match a
    case Fail(t) => Put(w, t, w.txns[t].(pc := Undoing, plan := [], seen := {}))
    case TakeBack(t) =>
      var x := w.txns[t];
      var u := x.undo[|x.undo| - 1];
      Put(w, t, x.(undo := x.undo[..|x.undo| - 1] + Remaining(u)))
      .(heap := StepBack(w.heap, u), index := w.index - DroppedEntry(u))
    case Unwound(t, release) =>
      var w' := Goto(w, t, Idle);
      if release then ReleaseLocks(w', t) else w'
  }

  ghost function AfterEnd(w: World, a: Action): World
    requires IsEnd(a) && CanEnd(w, a)
  {
    match a
    case EndStatement(t) => Goto(w, t, Idle)
    case StartAbort(t) => Put(w, t, w.txns[t].(pc := Aborting, plan := [], seen := {}))
    case LeaveAborted(t) => if w.txns[t].pc.Aborting? || !Committed(w, t) then w.(tm := w.tm.Leave(t)) else w
    case AbortEnd(t) => ReleaseLocks(Goto(w, t, Ended), t)
    case MarkCommit(t) => Goto(w, t, Committing).(tm := w.tm.Mark(t), claims := w.claims + Claims(w, t))
    case LeaveCommitted(t) => Goto(w, t, Closing).(tm := w.tm.Leave(t))
    case Close(t) => ReleaseLocks(Goto(w, t, Ended), t)
  }

  ghost function AfterBegin(w: World): World {
    Put(w, w.tm.next, Txn(Idle, Snapshot(0, {}), {}, [], [], 0)).(tm := w.tm.Begin())
  }

  ghost function AfterVacuum(w: World): World {
    w.(heap := Vacuumed(w.tm.status, w.heap), index := w.index - DeadEntries(w.tm.status, w.heap), tm := w.tm.Freeze())
  }

  ghost function Next(w: World, a: Action): World
    requires Enabled(w, a)
  {
    if IsRead(a) then AfterRead(w, a)
    else if IsChoose(a) then AfterChoose(w, a)
    else if IsKey(a) then AfterKey(w, a)
    else if IsStore(a) then AfterStore(w, a)
    else if IsRow(a) then AfterRow(w, a)
    else if IsUndo(a) then AfterUndo(w, a)
    else if IsEnd(a) then AfterEnd(w, a)
    else if a.Begin? then AfterBegin(w)
    else AfterVacuum(w)
  }

  ghost predicate Steps(w: World, acts: seq<Action>, w': World)
    decreases |acts|
  {
    if acts == [] then w == w'
    else Enabled(w, acts[0]) && Steps(Next(w, acts[0]), acts[1..], w')
  }
}
