# chibidb, verified in Dafny

A Dafny 4.11 model of the parts of chibidb that are hard to get right, with
proofs of what they promise: the transaction core, the B-link index down to its
page bytes, the write-ahead log, the buffer pool, the page layouts, the LSM
block format, hash joins and calendar dates. `dafny verify dfyconfig.toml`
checks everything.

Code that works in place is modelled in place: classes with the source's fields,
loops over arrays of bytes, methods proved against a specification function.
Concurrent parts are state machines whose actions are the source's latch and
mutex sections, with theorems over every run; where an action is coarser than
that, "Left out" says so.

## Layout

| part | files |
|---|---|
| serializable check | `Graphs`, `Ssi`, `SsiProtocol`, `SsiExact` |
| row locks | `LockManager`, `LockProtocol`, `LockService` |
| commit status, snapshots | `Clog`, `TxnManager` (with `SnapshotProtocol`) |
| writes and undo | `Heap`, `UndoLog`, `WriteEffects` |
| read committed, uniqueness, vacuum | `ReadCommitted`, `ReadCommittedInv`, `ReadCommittedSteps`, `ReadCommittedWrites`, `ReadCommittedRun`, `Vacuum`, `ReadCommittedTheorems`, `ReadCommittedSight`, `ReadCommittedRefusal`, `ReadCommittedAlone`, `ReadCommittedDuplicate` |
| index | `KeyOrder`, `BLink`, `BLinkReaders`, `BLinkSplit`, `BLinkQuiet`, `BLinkSteps`, `BLinkRuns`, `BLinkTree`, `BLinkScan`, `IndexRanges`, `BLinkDelete`, `BLinkLoans`, `BLinkErase`, `BLinkEraseOps`, `BLinkWidths`, `BLinkWideRuns`, and the pages in `NodeBytes`, `NodePages` |
| log and recovery | `Wal`, `WalPlan`, `WalReplay`, `WalRecovery` |
| buffer pool | `Replacer`, `ReplacerRuns`, `BufferPool`, `PoolProtocol`, `PoolRuns` |
| heap pages | `Slotted`, `SlottedOps`, `SlottedPage`, `SlottedCompact`; `PaxImage`, `PaxPack`, `PaxRecord`, `PaxPage`, `PaxTheorems`; `RowCodec`; `PageLayouts` for both |
| LSM blocks | `Coding`, `LsmBlock`, `LsmRead` |
| joins | `KeyEncoding`, `JoinExpr`, `JoinKeys`, `HashJoin`, `JoinRows`, `JoinMeaning`, `JoinTheorem` |
| dates | `DateTime` |
| stored formats, byte by byte | `Formats` |
| shared types | `Options`, `Values`, `Bytes` |

## Where the code falls short of what it is for

Each of these is proved, with a concrete input or for a whole family of them;
where a condition a caller can test decides the matter, the lemma that states it
as an if-and-only-if is named beside it.

- The serializable check forgets a transaction's reads and writes when it ends,
  so an antidependency whose second access comes later is never recorded. Two
  transactions that read each other's table can both commit
  (`SsiProtocol.CrossTableWriteSkewCommits`). The missing edges are exactly the
  late ones (`SsiProtocol.MissedExactlyWhenLate`), and there are none exactly when
  no access comes after the end of an overlapping transaction that used the table
  the other way (`SsiProtocol.LateMeansLateAccess`).
- Undoing an update frees the new version before it clears the link to it. A row
  stored in the freed slot meanwhile looks like the successor of the old version,
  the uniqueness check spares its key, and two live rows share it: a whole run
  from a committed table (`ReadCommittedDuplicate.LinkedSlotMakesDuplicate`). As
  long as no row is stored into a slot that some row still links to, keys stay
  unique in every run (`ReadCommittedTheorems.UniqueKeysHold`).
- Deleting from the index refills a leaf with the right neighbour's first entry and
  then reads that neighbour's first entry again as the new separator. When the
  lender had one entry only, stale bytes become the separator and the borrowed
  key is lost: a run of insertions and deletions for every width from 1043 to 2028
  (`BLinkWideRuns.LoseKey`). From width 2094 an empty leaf counts as able to lend,
  and reading its last entry panics (`BLinkWideRuns.PanicDelete`). A delete is
  exact if and only if it starts neither loan (`BLinkErase.EraseExact`), and a
  width admits neither if and only if it is at most 1042 or between 2029 and 2093
  (`BLinkWidths.WidthExact`).
- The buffer pool pins a frame it has just loaded only after giving up the lock
  under which it was entered. Another thread can evict it in between, and the
  write goes to a frame nobody will read (`PoolProtocol.WriteGetsLost`). The pool
  is one flat page map in every run whose pins come in time
  (`PoolProtocol.PoolIsFlat`), and the first late pin already allows a lost write
  (`PoolProtocol.LatePinIsFatal`).
- Replaying a log twice differs from replaying it once when a slot is marked
  before it is filled and its record carries no mark (`WalReplay.ReplayTwice`).
- Inline strings of 65536 bytes and more, and rows with that many columns, do not
  survive encoding (`RowCodec.RowRoundTrip`).
- When both sides of a join carry one table name, hash keys and the joined row
  disagree on what a qualified column means (`JoinTheorem.SharedOwnerParts`). A key
  means its condition exactly when the right-hand reference names no column of the
  left side (`JoinKeys.KeyMeansCondition`).

Two functions have limits that their present callers do not reach. Vacuum deletes
versions whose creator is 0, though readers see them
(`Vacuum.VacuumDropsSentinelRows`); every record is written with a transaction's id
(`src/lib.rs:1160`, `src/lib.rs:1245`). A column-major page never gives back a row
without columns (`PaxTheorems.ColumnlessRow`); `CREATE TABLE` always has a column
(`src/sql/parser.rs:632-638`).

## Model

| member | source | states |
|---|---|---|
| Ssi.SsiTracker.constructor | src/db/ssi.rs:42-45 | starts with nothing open and no edge |
| Ssi.SsiTracker.Begin | src/db/ssi.rs:47-51 | opens the transaction and changes nothing else |
| Ssi.SsiTracker.NoteRead | src/db/ssi.rs:53-73 | records the read and one edge to every other open writer of the table; a transaction that is not open leaves no trace |
| Ssi.SsiTracker.NoteWrite | src/db/ssi.rs:75-96 | records the write and one edge from every other open reader of the table |
| Ssi.SsiTracker.Forget | src/db/ssi.rs:120-131 | no read or write of the transaction is remembered afterwards; edges stay |
| Ssi.SsiTracker.Commit | src/db/ssi.rs:98-106 | edges of a committed transaction stay until nothing is open any more |
| Ssi.SsiTracker.Abort | src/db/ssi.rs:108-118 | every edge that touches the aborted transaction goes, and no other while something is open |
| Ssi.SsiTracker.HasCycleThrough | src/db/ssi.rs:133-149 | the worklist answers true exactly when a path of recorded edges leads from the id back to itself, for every graph |
| SsiProtocol.CycleIsRecorded | src/lib.rs:462-487 | a cycle among live transactions through an open one still has all its edges on record when that one is checked, although committed edges are cleared now and then |
| SsiProtocol.StepKeepsValidatedEdges | src/lib.rs:462-501 | between check and commit no new edge appears among transactions that passed the check |
| SsiProtocol.CommittedEdgesAcyclic | src/db/ssi.rs:47-149 | in every run, the edges ever recorded between committed transactions form no cycle, with check and commit as separate steps |
| SsiProtocol.MissedExactlyWhenLate | src/db/ssi.rs:53-131 | the real antidependencies between committed transactions are the recorded edges and the late ones; none is missed if and only if every late one was recorded anyway |
| SsiProtocol.SerializableUnlessMissed | src/db/ssi.rs:53-131 | as long as no antidependency between committed transactions is missed, they are acyclic |
| SsiProtocol.LateMeansLateAccess | src/db/ssi.rs:53-131 | a run misses no antidependency if and only if every access of it passes a test made at the access |
| SsiProtocol.SerializableUnlessLate | src/db/ssi.rs:53-131 | if no access comes after the end of an overlapping transaction that used the table the other way, the real antidependencies between committed transactions are acyclic and all on record |
| SsiExact.RecordedIsReal | src/db/ssi.rs:53-131 | in every run each edge on record is a real antidependency between two transactions that have not been aborted |
| SsiExact.RefusalIsReal | src/lib.rs:462-487 | in every run a transaction that fails its check is on a cycle of real antidependencies among transactions not aborted |
| SsiExact.CheckIsExact | src/lib.rs:462-487 | as long as no access was late, a transaction passes its check if and only if it is on no such cycle |
| SsiProtocol.CrossTableWriteSkewCommits | src/db/ssi.rs:98-131 | a run in which two transactions with antidependencies in both directions commit |
| LockManager.LockTable.constructor | src/db/lockmgr.rs:44-51 | no key is held and nobody waits |
| LockManager.LockTable.Request | src/db/lockmgr.rs:55-75 | computes the specified request, whose effect on each key is `LockService.AskTakesOrQueues`; granted exactly when the owner holds the key afterwards |
| LockManager.LockTable.Poll | src/db/lockmgr.rs:76-103 | a waiting owner goes on exactly when the key was handed to it, and otherwise changes nothing |
| LockManager.LockTable.GiveUp | src/db/lockmgr.rs:140-147 | the owner leaves the queue and stops waiting; holders are untouched |
| LockManager.LockTable.ReleaseKey | src/db/lockmgr.rs:123-137 | the first waiter becomes the holder and is put on record, or the key is free |
| LockManager.LockTable.UnlockAll | src/db/lockmgr.rs:106-114 | computes the specified release whatever order the owner's keys are visited in; what that release does to each key is `LockService.UnlockHandsOn` |
| LockManager.LockTable.InCycle | src/db/lockmgr.rs:150-166 | the bounded walk answers true exactly when the owner is on a wait-for cycle |
| LockManager.SimpleCycle | src/db/lockmgr.rs:150-166 | every wait-for cycle contains one without repetitions through the same owner, so the step limit cuts nothing off |
| LockProtocol.LocksStayExclusive | src/db/lockmgr.rs:55-166 | in every run each key has one holder, holdings and records mirror each other, queues are duplicate-free and exclude the holder |
| LockProtocol.HandOffMakesNoCycle | src/db/lockmgr.rs:106-137 | every wait-for cycle present after a hand-off was there before it |
| LockProtocol.DeadlockHasPendingCheck | src/db/lockmgr.rs:76-103 | in every run each deadlock has a member whose single check is still to come, finds it, and takes the owner out of the queue |
| LockProtocol.NoOvertaking | src/db/lockmgr.rs:106-137 | an owner queued behind another is never granted the key first, and their order is kept by every step |
| LockService.UnlockHandsOn | src/db/lockmgr.rs:106-137 | after a release the owner holds nothing; each of its keys is free if nobody waited and otherwise held by the first waiter with the rest of the queue behind it; no other key and no wait changes |
| LockService.AskTakesOrQueues | src/db/lockmgr.rs:55-75 | a free key goes to the asker, a held one keeps its holder and gets the asker at the end of its queue, no other key changes |
| LockService.ReleasedKeyIsGranted | src/db/lockmgr.rs:76-137 | in every run, after a release the first waiter holds the key and can wake at once, and a key nobody waited for is granted to whoever asks next |
| LockService.HolderStays | src/db/lockmgr.rs:55-137 | nobody else's steps take a key from its holder |
| LockService.ServedInTurn | src/db/lockmgr.rs:106-137 | in every run an owner queued behind `n` others has the key after `n + 1` hand-offs of it at the latest, and every hand-off before brings it forward by at least one place |
| Clog.TrailingZeros | src/db/clog.rs:93-105 | finds the lowest set bit |
| Clog.WordIds | src/db/clog.rs:93-105 | appends exactly the ids of the set bits, ascending, by clearing one bit at a time |
| Clog.CommitStatus.constructor | src/db/clog.rs:49-51 | horizon 0 and no id marked |
| Clog.CommitStatus.Reload | src/db/transaction.rs:44-63 | after a restart exactly the persisted ids at or above the persisted horizon are marked |
| Clog.CommitStatus.SetBit | src/db/clog.rs:38-46 | growing by whole chunks and setting one bit marks that id and no other |
| Clog.CommitStatus.MarkCommitted | src/db/clog.rs:54-72 | the abstract horizon and set gain the id, unless it is below the horizon |
| Clog.CommitStatus.IsCommitted | src/db/clog.rs:76-90 | agrees with the abstract set: 0 never, below the horizon always, above it by its bit |
| Clog.CommitStatus.Ids | src/db/clog.rs:93-105 | lists exactly the marked ids in ascending order |
| Clog.CommitStatus.AdvanceBase | src/db/clog.rs:115-139 | the horizon only moves forward; marks above it survive the rebuild, those below are dropped |
| Clog.Restart | src/db/clog.rs:93-139 | writing horizon and ids out and loading them again gives the same abstract state |
| TxnManager.TransactionManager.constructor | src/db/transaction.rs:44-63 | starts from the persisted next id, horizon and ids with nothing open |
| TxnManager.TransactionManager.BeginOpen | src/db/transaction.rs:92-103 | the id handed out was never handed out before and is open at once |
| TxnManager.TransactionManager.Commit | src/db/transaction.rs:170-179 | the id is marked before it leaves the open set, and nothing else changes |
| TxnManager.TransactionManager.RemoveOpen | src/db/transaction.rs:162-167 | the id leaves the open set unmarked |
| TxnManager.TransactionManager.AdvanceHorizon | src/db/transaction.rs:143-145 | everything below the next id counts as committed |
| TxnManager.TransactionManager.TakeSnapshot | src/db/transaction.rs:117-123 | the bound is the next id and the list is the open set in ascending order |
| TxnManager.TransactionManager.CommittedBefore | src/db/trx.rs:133-140 | binary search decides: below the bound, not open at the snapshot, and committed |
| SnapshotProtocol.SnapshotIsFrozen | src/db/transaction.rs:92-179 | with begins, marks and leaves of other sessions anywhere between the two reads and afterwards, the ids a snapshot counts as committed are, forever, exactly those below its bound whose commit had finished |
| SnapshotProtocol.FinishedMeans | src/db/transaction.rs:170-179 | the ids a run counts as finished are those whose last commit step is in it |
| SnapshotProtocol.CommitIsSeen | src/db/transaction.rs:92-123 | from every reachable state a transaction can begin and commit, and a snapshot taken afterwards counts it as committed |
| UndoLog.TableStore.InsertRow | src/lib.rs:1147-1175 | the row, its index entries, the undo entry and the redo frame appear, nothing else changes |
| UndoLog.TableStore.DeleteRow | src/lib.rs:1179-1216 | the mark is set, the previous one is in the undo entry, index entries stay |
| UndoLog.TableStore.UpdateRow | src/lib.rs:1221-1278 | the new version is stored and indexed, the old one marked and linked to it, one undo entry for both |
| UndoLog.TableStore.TakeBack | src/lib.rs:815-846 | one undo entry gives back the previous rows and removes the entries it had added |
| UndoLog.TableStore.UndoTo | src/lib.rs:806-813 | entries above the mark are taken back newest first and the redo frames above it cut off |
| UndoLog.PopUndoesDo | src/lib.rs:815-846 | each write followed by its own undo entry restores rows and every index entry |
| UndoLog.UndoLeavesOthersWork | src/lib.rs:777-846 | after any run of own writes mixed with other transactions' writes, unwinding to the mark gives the store those others alone would have produced |
| UndoLog.UndoRestoresExactly | src/lib.rs:777-846 | without other writers, unwinding to the mark restores rows, index entries, undo list and redo buffer exactly |
| WriteEffects.WriterSees | src/lib.rs:1147-1278 | after an insert, delete or update its transaction sees its rows as the statement says: one more, one less, or the new in place of the old |
| WriteEffects.OthersDoNot | src/lib.rs:1147-1278 | a snapshot that does not count the writer as committed sees the same rows before and after its write |
| WriteEffects.LaterReadersSee | src/lib.rs:1147-1278 | a snapshot that does count it sees exactly the change the statement says |
| WriteEffects.WritesKeepIndex | src/lib.rs:1147-1278 | the index lists exactly the keys of the stored rows, before and after every write |
| WriteEffects.UndoKeepsIndex | src/lib.rs:815-846 | and after every undo step |
| WriteEffects.RedoRebuildsHeap | src/lib.rs:1147-1278 | the redo frames of any sequence of writes, replayed on the rows they started from, give the rows they left |
| ReadCommittedTheorems.StepInv | src/exec/mod.rs:242-341 | one invariant over heap, index, locks, logs, half-done undos and statement plans is kept by every step of every session |
| ReadCommittedTheorems.CommittedMarkIsNeverOverwritten | src/lib.rs:1192-1214 | in every reachable state a row marked by a committed transaction is left untouched by every step but vacuum |
| ReadCommittedTheorems.OneCommittedDeleterPerVersion | src/lib.rs:1235-1276 | over a whole run no version is deleted or superseded by two committed transactions |
| ReadCommittedTheorems.UniqueKeysHold | src/lib.rs:1030-1145 | in every run whose stores take slots that no row links to, no two live committed versions hold the same non-null unique key |
| ReadCommittedTheorems.CleanMeansUnlinked | src/lib.rs:1147-1278 | whether a run stored a row into a slot some row linked to, as a test at each store, is what the state remembers, both ways |
| ReadCommittedDuplicate.LinkedSlotMakesDuplicate | src/lib.rs:829-843 | a run from a committed table, with a row stored into a slot between the page writes of an undo, that ends with two live rows of one key |
| ReadCommittedTheorems.AbortLeavesNoTrace | src/lib.rs:806-846 | once a transaction has ended without committing, no row names it as creator or deleter |
| ReadCommittedTheorems.VacuumIsInvisible | src/lib.rs:331-369 | a vacuum at any moment it may run leaves the rows of every later reader unchanged, and survivors carry neither mark nor link |
| ReadCommittedSight.FinishedMeans | src/db/transaction.rs:170-179 | the finished transactions of a history are those whose commit step is in the run |
| ReadCommittedSight.SnapshotMoments | src/db/transaction.rs:117-123 | a statement's bound is the next id at its first read, and what it counts as finished are the commits completed before its second read |
| ReadCommittedSight.SeesExactly | src/db/trx.rs:120-140 | in every run a statement can see a row if and only if it wrote and did not delete it itself, or its creator is below the bound and had finished by the second read, its deleter had not, and the statement's transaction is not the deleter |
| ReadCommittedRefusal.RefusalHasHolder | src/lib.rs:1030-1145 | in every run whose index lists only stored rows at the start, a row that stops a uniqueness check holds the key, is not the row being updated or a version of it, and is live: created by a committed transaction or the checker, not deleted by either |
| ReadCommittedRefusal.FreeKeyPasses | src/lib.rs:1030-1145 | so a key that no other live row holds is never refused |
| ReadCommittedAlone.InsertAlone | src/lib.rs:1147-1175 | whenever the key is free and its lock to be had, an insert can run to its end: one new version, its index entry, one undo entry, nothing else |
| ReadCommittedAlone.DeleteAlone | src/lib.rs:1179-1216 | whenever the row is visible, unmarked and its lock to be had, a delete can run to its end and sets exactly its mark |
| ReadCommittedAlone.UpdateAlone | src/lib.rs:1221-1278 | likewise an update: the new version, its entry, and mark and link on the old one |
| ReadCommittedAlone.AbortAlone | src/lib.rs:777-846 | every transaction can always be aborted: its versions are gone, its marks cleared, its locks free, and no other transaction has changed |
| ReadCommittedTheorems.PointerBelongsToEntry | src/lib.rs:815-846 | as long as no store took a linked slot, a link to a version of an open transaction stands on the row its own undo entry marked |
| ReadCommittedSteps.ExemptionMeansRetry | src/lib.rs:1030-1122 | as long as no store took a linked slot, an update whose key the version-chain exemption spares is bound to be retried |
| ReadCommittedSteps.ChainOfOwner | src/lib.rs:1094-1122 | as long as no store took a linked slot, every version reached along a chain from a row an undecided transaction marked was created by that transaction |
| ReadCommittedSteps.SearchCovers | src/lib.rs:1030-1092 | while a transaction holds the lock of a key, the index lists every stored version with that key, whatever undo is under way |
| ReadCommittedSteps.ClearRowIsUnmarked | src/exec/mod.rs:242-341 | a row that is locked, was visible and has no later committed deleter carries no mark at all |
| ReadCommittedWrites.KeyIsSettled | src/lib.rs:1030-1145 | after a passed uniqueness check every other holder of the key is marked by a committed transaction or by the writer |
| ReadCommittedRun.CommitUnique | src/lib.rs:462-501 | committing never makes a second live holder of a key |
| ReadCommittedInv.FrameOwner | src/exec/mod.rs:242-341 | a step of one transaction leaves every other open transaction's log, locks and statement in order |
| ReadCommittedInv.FrameSnapshot | src/db/trx.rs:133-140 | what a statement's snapshot counts as committed does not change under other sessions' steps |
| Vacuum.VacuumKeepsVisibleRows | src/lib.rs:331-369 | each row looks the same to every later reader, in the sense of `ReadCommittedSight.SeesExactly`, if and only if its creator is a real transaction or nobody saw it |
| Vacuum.VacuumDropsSentinelRows | src/lib.rs:331-369 | a row with creator 0 that readers see and vacuum removes |
| Vacuum.SurvivorsAreUnmarked | src/lib.rs:331-369 | what survives was created by a committed transaction and has no deleter and no link |
| KeyOrder.Order | src/index/node.rs:34-36 | composite keys are strictly and totally ordered; the order is the one `KeyOrder.LtMeans` describes |
| KeyOrder.BytesLessIsMemcmp | src/index/node.rs:34-36 | byte strings compare by the first byte in which they differ, and a proper prefix is less |
| KeyOrder.LtMeans | src/index/node.rs:34-36 | entries compare by their bytes in that way, and equal bytes by page and slot read as one number |
| KeyOrder.RidBounds | src/index/node.rs:34-36 | the extreme row ids enclose exactly the entries with the same bytes |
| BLink.InsertEntryOk | src/index/node.rs:216-235 | adding an entry at its place in the leaf that covers it keeps the page invariant of the whole tree |
| BLink.SplitLeafOk | src/index/btree.rs:459-544 | after the right half is published as a new sibling, and before the parent knows, the invariant holds and the new page starts at the cut |
| BLink.SplitInternalOk | src/index/btree.rs:459-544 | the same for an internal node, whose middle separator moves up |
| BLink.PostSepOk | src/index/node.rs:343-366 | telling the parent about a split keeps the invariant |
| BLink.NewRootOk | src/index/btree.rs:326-382 | a new root above both halves keeps the invariant |
| BLinkReaders.MoveStaysOnTrack | src/index/btree.rs:1223-1255 | one step of a descent, right or down, never meets a missing page and never passes the key |
| BLinkReaders.ArrivalDecides | src/index/btree.rs:1223-1255 | the leaf where a descent stops contains the key if and only if any leaf does |
| BLinkReaders.WriteKeepsReaders | src/index/btree.rs:326-544 | no page write moves a reader off its track |
| BLinkReaders.ReaderFindsItsLeaf | src/index/btree.rs:1223-1255 | in every interleaving of readers with single page writes, from however old a root, each reader can take its next step or stands at the leaf that decides its key; insertions consist of such writes by `BLinkTree.BTree.Insert` |
| BLinkSplit.PrefixSums | src/index/btree.rs:141-164 | entry `j` is the size of the first `j` entries |
| BLinkSplit.BestSplit | src/index/btree.rs:141-164 | returns the most balanced cut whose halves both fit, the first of several, and none exactly when no cut fits |
| BLinkSplit.LeafCutExists | src/index/btree.rs:109-116 | a leaf that overflows by one entry can be cut into two pages, for keys up to 2716 bytes |
| BLinkSplit.BestCutIsRoomy | src/index/btree.rs:118-139 | the most balanced cut of a full internal node leaves room for another separator in both halves |
| BLinkQuiet.QuietChildCovers | src/index/node.rs:325-341 | once every split is posted, the child a key is routed to covers it |
| BLinkQuiet.RootIsRightmost | src/index/btree.rs:273-322 | the root of a quiet tree has no bound |
| BLinkSteps.PostQuiet | src/index/btree.rs:459-544 | cutting a child and posting its separator leads from a quiet tree to a quiet tree, and the separator fits its parent |
| BLinkSteps.LeafCutQuiet | src/index/btree.rs:459-544 | the same with the new entry placed in the cut leaf |
| BLinkSteps.InternalCutQuiet | src/index/btree.rs:459-544 | the same for a cut internal node |
| BLinkSteps.NewRootQuiet | src/index/btree.rs:326-382 | cutting the root and growing a new one leads to a quiet tree |
| BLinkSteps.SeparatorsAreMinima | src/index/btree.rs:1283-1359 | with insertions only, every separator is a stored key, lies in its child, and nothing in the child is smaller |
| BLinkSteps.HighKeysAreMinima | src/index/btree.rs:1283-1389 | with insertions only, every high key is the least key of the right sibling and is stored |
| BLinkRuns.ReadersBeside | src/index/btree.rs:326-544 | the page writes of an insertion can be made whoever is reading, and leave readers where they are |
| BLinkRuns.LeafCutRun | src/index/btree.rs:459-544 | publishing a leaf split with its new entry, then its separator, is a run of the reader protocol |
| BLinkRuns.InternalCutRun | src/index/btree.rs:459-544 | so is publishing the split of an internal node |
| BLinkRuns.RootRun | src/index/btree.rs:326-382 | so is cutting the root, writing a new one and entering it in the header |
| BLinkTree.LowerBound | src/index/node.rs:184-209 | the first entry not below the key, and the place where an absent key belongs |
| BLinkTree.FindChild | src/index/node.rs:325-341 | the loop finds the child of the last separator not above the key |
| BLinkTree.ChooseLeafSplit | src/index/btree.rs:109-116 | the best cut by the leaf's real entry and header sizes |
| BLinkTree.ChooseInternalSplit | src/index/btree.rs:118-139 | the best cut of the separators by their real sizes |
| BLinkTree.LeafCutFound | src/index/btree.rs:109-164 | a full leaf that takes one more entry always has a cut |
| BLinkTree.InternalCutFound | src/index/btree.rs:118-164 | a full internal node always has a cut with room in both halves |
| BLinkTree.BTree.constructor | src/index/btree.rs:176-189 | a new tree is valid and holds no key |
| BLinkTree.BTree.AllocPage | src/index/btree.rs:326-544 | the page number is unused |
| BLinkTree.BTree.SplitLeafChild | src/index/btree.rs:459-544 | the key set grows by exactly the new key, or nothing changes; it never fails for keys up to 2716 bytes |
| BLinkTree.BTree.PublishLeafCut | src/index/btree.rs:459-544 | both halves and the separator written one page after the other keep the tree valid, add exactly the key, and are steps of the reader protocol |
| BLinkTree.BTree.SplitInternalChild | src/index/btree.rs:459-544 | keys stay the same and the half returned covers the key and has room |
| BLinkTree.BTree.PublishInternalCut | src/index/btree.rs:459-544 | keys stay the same, the halves have the reckoned sizes and bounds, and the writes are steps of the reader protocol |
| BLinkTree.BTree.SplitRoot | src/index/btree.rs:326-382 | keys stay the same and the new root is not full |
| BLinkTree.BTree.AddRoot | src/index/btree.rs:326-382 | the new root over two halves has room; writing it and entering it in the header are steps of the reader protocol |
| BLinkTree.BTree.AddToLeaf | src/index/btree.rs:389-454 | exactly the key is added |
| BLinkTree.BTree.InsertDescend | src/index/btree.rs:389-454 | done means exactly the key was added, anything else that no key changed; from a covering page with room it is always done |
| BLinkTree.BTree.Attempt | src/index/btree.rs:273-322 | one round for any key length: done adds exactly the key, retry and error leave the keys alone; for keys up to 2716 bytes a round after a retry succeeds |
| BLinkTree.BTree.NoteKeyLen | src/index/btree.rs:248-255 | the longest key length is kept |
| BLinkTree.BTree.FirstLeaf | src/index/btree.rs:273-322 | an empty tree gets an empty leaf as root |
| BLinkTree.BTree.Insert | src/index/btree.rs:273-322 | never fails for keys of 1 to 2716 bytes, adds exactly the pair, keeps the tree well formed and separators equal to minima, grows the root by at most one separator or one level, and all it publishes, retries included, is a run of the reader protocol |
| BLinkTree.Rebuild | src/lib.rs:431-453 | a tree built from distinct entries in any order holds exactly them |
| BLinkScan.Descend | src/index/btree.rs:1223-1255 | ends, at the leaf whose range contains the key |
| BLinkScan.UpperBound | src/index/node.rs:189-209 | the first entry above the key |
| BLinkScan.StartOfScan | src/index/btree.rs:546-614 | nothing inside the bounds lies before the place where the scan starts |
| BLinkScan.ScanRange | src/index/btree.rs:546-614 | returns exactly the stored entries between the bounds, in key order, for included, excluded and absent bounds; what that means for the column's values is `IndexRanges.ScanByValue` |
| IndexRanges.ValueIsWanted | src/index/btree.rs:546-614 | an entry lies between the encoded bounds if and only if its value lies between the bounds' values, each end included, excluded or open |
| IndexRanges.ScanByValue | src/index/btree.rs:546-614 | a range scan of an index returns exactly the entries whose column value is in the range, by ascending value and equal values by row id |
| BLinkScan.Search | src/index/btree.rs:1191-1217 | returns exactly the entries with these key bytes, in row order, also across leaves |
| BLinkScan.LeafCursor.constructor | src/index/btree.rs:619-622 | starts before the first entry |
| BLinkScan.LeafCursor.Next | src/index/btree.rs:1438-1464 | each call returns the least entry not yet returned, and none exactly at the end |
| BLinkScan.TreeIsReadable | src/index/btree.rs:546-622 | every valid tree meets what the readers above require |
| BLinkDelete.RebalanceFlat | src/index/btree.rs:819-910 | moving the border between two neighbouring leaves keeps the tree well formed and its keys |
| BLinkDelete.MergeFlat | src/index/btree.rs:819-910 | merging two leaves that fit one page keeps the tree well formed and its keys |
| BLinkLoans.LeafBytes | src/index/node.rs:39-46 | with keys of one width the size of a leaf is a matter of counting its entries |
| BLinkLoans.FromLeftFlat | src/index/btree.rs:836-851 | a loan from the left keeps the tree well formed and its keys, also when it takes the last entry |
| BLinkLoans.FromRightFlat | src/index/btree.rs:852-867 | a loan from the right keeps the tree well formed and its keys as long as the lender has a second entry |
| BLinkLoans.BorrowRightKeepsFindable | src/index/btree.rs:852-867 | after a loan from the right every stored key can still be found if and only if the lender had two entries |
| BLinkLoans.RoundLarger | src/index/btree.rs:830-870 | every loan makes the borrower larger, so the repair loop ends |
| BLinkLoans.NoLoanMerges | src/index/btree.rs:875-908 | when no neighbour can lend, a merge always fits: the overflow error is never reached, at any width up to 2716 |
| BLinkLoans.RefillSound | src/index/btree.rs:819-910 | a repair without a stale read keeps the tree well formed and its keys, and leaves one leaf fewer or a child that is full enough |
| BLinkErase.RefillClean | src/index/btree.rs:819-910 | a repair that does not start with a bad loan succeeds and reads nothing stale in any of its rounds |
| BLinkErase.RefillExact | src/index/btree.rs:819-910 | the repair succeeds and keeps every key findable if and only if it does not start with a bad loan |
| BLinkErase.RightLenderIsNotEmpty | src/index/btree.rs:852-867 | the right neighbour is never asked for an entry it does not have |
| BLinkErase.RefreshSound | src/index/btree.rs:746-771 | moving a separator and the left neighbour's bound to the child's least entry keeps the tree well formed and its keys |
| BLinkErase.CollapseSound | src/index/btree.rs:645-670 | a root with one child gives way to it, an empty leaf root to the empty tree; keys stay |
| BLinkErase.FoundIsHeld | src/index/btree.rs:1223-1255 | in a well-formed tree a search from the root finds exactly the stored keys |
| BLinkErase.AbsentIff | src/index/btree.rs:624-641 | a delete reports not found if and only if the key is not stored |
| BLinkErase.EraseSound | src/index/btree.rs:624-742 | a delete that reads nothing stale removes exactly the key and leaves a tree of the same kind |
| BLinkErase.EraseExact | src/index/btree.rs:624-910 | deleting a stored key succeeds and leaves exactly the other keys findable if and only if the leaf it leaves does not need a bad loan |
| BLinkErase.EraseEdge | src/index/btree.rs:624-742 | a delete adds no page and keeps the first leaf |
| BLinkErase.GoodWidthIsClean | src/index/btree.rs:819-910 | at widths up to 1042 and from 2029 to 2093 no delete ever needs a bad loan |
| BLinkWidths.WidthExact | src/index/btree.rs:819-910 | for every width up to 2716: all deletes from all trees are exact if and only if the width is at most 1042 or from 2029 to 2093 |
| BLinkEraseOps.MoveFromLeft | src/index/btree.rs:836-851 | the left neighbour's last entry, the separator and the bound move as the specification says |
| BLinkEraseOps.MoveFromRight | src/index/btree.rs:852-867 | the right neighbour's first entry moves, and its first entry read again, stale or not, becomes separator and bound |
| BLinkEraseOps.BorrowOnce | src/index/btree.rs:830-870 | one round is a loan, nothing, or a read of an entry that does not exist, each exactly when specified |
| BLinkEraseOps.MergeAt | src/index/btree.rs:875-908 | the neighbours become one leaf with link and bound of the right one, and the separator goes |
| BLinkEraseOps.MergeWithSibling | src/index/btree.rs:875-908 | merges with the left neighbour when they fit one page, otherwise with the right, and reports an error when that does not fit |
| BLinkEraseOps.FixLeafChild | src/index/btree.rs:819-910 | the loop of loans and the merge compute the specified repair, whose exactness is `BLinkErase.RefillExact` |
| BLinkEraseOps.RefreshSeparator | src/index/btree.rs:746-771 | the separator and the left neighbour's bound follow the child's least entry; an empty child changes nothing |
| BLinkEraseOps.CollapseRoot | src/index/btree.rs:645-670 | root and first leaf after a root lost its last separator or its last entry |
| BLinkEraseOps.RemoveFrom | src/index/node.rs:237-249 | removes exactly the key, if present, and says whether it was |
| BLinkEraseOps.RepairChild | src/index/btree.rs:676-742 | repair, separator and root after a removal, or the error or panic on the way |
| BLinkEraseOps.DeleteBelow | src/index/btree.rs:676-742 | removal from the routed child and its repair |
| BLinkEraseOps.DeleteFrom | src/index/btree.rs:624-641 | the whole delete computes the specified one, from the empty tree, a single leaf or two levels |
| BLinkEraseOps.Delete | src/index/btree.rs:624-641 | for any width up to 2716: not found exactly when the key is not stored, never the merge error; outside bad loans, and so at every good width, no panic, exactly the key is gone and the tree is well formed |
| BLinkEraseOps.NeverOverflows | src/index/btree.rs:875-908 | no delete ends in the merge overflow error |
| BLinkWideRuns.Build | src/index/btree.rs:273-322 | for every width above 1042, insertions alone lead from the empty tree to one with as many leaves as wanted |
| BLinkWideRuns.FewKeys | src/index/btree.rs:109-116 | wide keys: at most seven to a leaf |
| BLinkWideRuns.LoseKey | src/index/btree.rs:852-867 | for every width from 1043 to 2028, insertions and deletions after which a key inserted and never deleted is not found |
| BLinkWideRuns.PanicDelete | src/index/btree.rs:1099-1101 | for every width from 2094 to 2716, insertions and deletions after which deleting a stored key panics |
| NodeBytes.HighKey | src/index/node.rs:70-84 | the bound stored in the header is read back, a zero length as none |
| NodeBytes.CellOffset | src/index/node.rs:164-171 | walking over `i` self-delimiting cells arrives where cell `i` was written |
| NodeBytes.CellAt | src/index/node.rs:173-181 | the cell read is the cell stored |
| NodeBytes.InsertCell | src/index/node.rs:216-235 | shifting the tail and writing the cell gives the image with the cell inserted; refused exactly when it does not fit, page unchanged |
| NodeBytes.RemoveCell | src/index/node.rs:237-249 | shifting the tail back gives the image without the cell; refused exactly when there is no such cell |
| NodeBytes.FirstCellRead | src/index/node.rs:173-181 | on a page whose bytes behind the count are those of an earlier page, reading the first cell gives the earlier page's |
| NodePages.UsedBytesExact | src/index/node.rs:39-46 | the size the tree plans its splits with is the number of bytes on the page |
| NodePages.LeafEntryAt | src/index/node.rs:173-181 | entry `i` of the page is entry `i` of the node |
| NodePages.InternalEntryAt | src/index/node.rs:308-316 | separator and child `i` of the page are those of the node |
| NodePages.Links | src/index/node.rs:134-148 | right link and bound are read back; a bound without bytes reads as none |
| NodePages.LeafBound | src/index/node.rs:184-209 | walking the bytes finds the first entry not below (or above) the key |
| NodePages.InternalChildFor | src/index/node.rs:325-341 | walking the bytes finds the child the tree routes the key to |
| NodePages.LeafInsertAt | src/index/node.rs:216-235 | the page then holds the node with the entry inserted; refused exactly when that node exceeds a page |
| NodePages.InternalInsertEntry | src/index/node.rs:343-366 | the page then holds the node with the separator inserted; refused exactly when that node exceeds a page |
| NodePages.LeafRemoveAt | src/index/node.rs:237-249 | the page then holds the node without the entry; when it was the last one, no byte behind the count has changed |
| NodePages.TakeFirstThenRead | src/index/btree.rs:1089-1097 | taking the first entry and reading the first again gives the second one, or, when there is none, the one just taken |
| NodePages.InternalRemoveAt | src/index/node.rs:368-380 | the page then holds the node without the separator |
| NodePages.SetHighKey | src/index/node.rs:86-96 | the bound stands behind the fixed header; refused exactly when it does not fit |
| NodePages.BuildLeaf | src/index/btree.rs:54-70 | an image is built if and only if the leaf fits by the tree's reckoning, and holds exactly that leaf |
| NodePages.BuildInternal | src/index/btree.rs:72-92 | an image is built if and only if the node fits by the tree's reckoning, and holds exactly that node |
| NodePages.PageDeterminesNode | src/index/node.rs:1-16 | two nodes with the same page bytes are the same node |
| Wal.EncodeInto | src/wal.rs:112-141 | patching the length afterwards gives the encoded frame behind the old bytes |
| Wal.FrameRoundTrip | src/wal.rs:185-221 | a whole frame is read back with its length, whatever follows |
| Wal.TornFrame | src/wal.rs:185-221 | no proper prefix of a frame is read as a frame |
| Wal.TornTail | src/wal.rs:145-221 | a log cut at any byte parses to exactly the frames that survived whole |
| Wal.WholeIsExact | src/wal.rs:145-221 | the number of surviving frames is the number that end within the cut |
| WalPlan.ReadLog | src/wal.rs:157-182 | one pass collects, per transaction, its records in log order, its first commit position and the largest id |
| WalPlan.AddRedo | src/wal.rs:157-182 | insertion keeps commit order and adds exactly one transaction |
| WalPlan.CollectCommitted | src/wal.rs:157-182 | keeps exactly the transactions with a commit and a record, sorted by commit position |
| WalPlan.PlanRecovery | src/wal.rs:157-182 | the plan lists the committed ids, their records and the largest id, for any bytes at all |
| WalPlan.PlanOfTornLog | src/wal.rs:145-221 | for every frame sequence cut at any byte, a transaction is planned if and only if its commit frame survived, with all its surviving records |
| WalReplay.Heap.Redo | src/storage/engine.rs:257-272 | a record goes into an empty slot of a known file only, a mark only onto an unmarked record |
| WalReplay.Heap.RecoverFromWal | src/lib.rs:375-426 | computes the replay of the plan and names exactly the files touched; its order is `WalRecovery.CommitOrder` and what it leaves in each slot `WalRecovery.RecoveredSlot` |
| WalReplay.MarkedImage | src/storage/heap.rs:188-212 | a mark writes the deleter into bytes 8 to 15 and the link into bytes 16 to 23 of the record and nothing else |
| WalReplay.SlotBySlot | src/lib.rs:388-421 | replay acts on each slot through the records about it alone |
| WalReplay.ReplayTwice | src/lib.rs:388-421 | replaying twice equals replaying once on every heap if and only if no slot is marked before it is filled with an unmarked record and never marked again |
| WalReplay.InsertedFirstIsSafe | src/lib.rs:388-421 | logs that insert every version before marking it meet that condition |
| WalRecovery.CommitOrder | src/lib.rs:388-421 | the replayed sequence has the transactions one after the other as planned, each with its records in their order, and nothing else |
| WalRecovery.PlanOfLog | src/wal.rs:157-182 | for every frame sequence cut at any byte the plan lists the committed transactions of the surviving log by their first commit frame, each with its records in log order |
| WalRecovery.RecoveredSlot | src/lib.rs:375-426 | end to end, for every log cut at any byte and every slot: empty if no committed insert for it survived; otherwise the image of the soonest committed insert, by commit frame and then log position, with the soonest committed mark after it if the image was unmarked |
| Replacer.PickOldest | src/storage/replacer.rs:64-67 | takes the first unpinned page out of the queue, and none exactly when all are pinned |
| Replacer.Sweep | src/storage/replacer.rs:163-192 | within two rounds the clock finds an unpinned page, and fails only when every page is pinned |
| Replacer.ChooseVictim | src/storage/replacer.rs:83-192 | for all three policies: none exactly when everything is pinned, otherwise an unpinned page leaves the order and the rest still mirrors the table |
| Replacer.PushMirrors | src/storage/replacer.rs:83-148 | a loaded page is registered once |
| Replacer.RecordAccessMirrors | src/storage/replacer.rs:87-96 | an access reorders and never loses or doubles a page |
| Replacer.ForgetMirrors | src/storage/replacer.rs:98-161 | a dropped page, and only it, leaves the order |
| ReplacerRuns.EvictsLeastRecent | src/storage/replacer.rs:64-96 | after any history of loads, accesses and removals the queue policies evict, among the unpinned pages, the one whose last use is oldest: loads and accesses count under LRU, loads under FIFO; none exactly when everything is pinned |
| ReplacerRuns.ResidentIsUsed | src/storage/replacer.rs:64-96 | every page in the pool has such a last use |
| BufferPool.Pool.constructor | src/storage/buffer.rs:257-276 | an empty pool of at least one frame shows the disk |
| BufferPool.Pool.EvictOne | src/storage/buffer.rs:327-389 | frees one frame without changing what callers see, never a pinned one; fails exactly when all are pinned |
| BufferPool.Pool.MakeRoom | src/storage/buffer.rs:327-389 | leaves a free frame, or fails exactly when the pool is full of pinned frames |
| BufferPool.Pool.Load | src/storage/buffer.rs:366-380 | the loaded frame holds what callers see and has no pin yet |
| BufferPool.Pool.PinFrame | src/storage/buffer.rs:36-43 | a frame gets one more pin and nothing else changes |
| BufferPool.Pool.FrameFor | src/storage/buffer.rs:327-389 | without other threads, the page is resident, pinned once more and holds what callers see; fails exactly when it does not exist or no frame can be freed |
| BufferPool.Pool.Mutate | src/storage/buffer.rs:299-310 | a pinned page changes for all callers at once |
| BufferPool.Pool.MarkDirty | src/storage/buffer.rs:299-310 | a changed page may be unpinned only after it is dirty |
| BufferPool.Pool.Release | src/storage/buffer.rs:71-76 | gives back one pin and nothing else |
| BufferPool.Pool.ReadPage | src/storage/buffer.rs:312-321 | returns the page of the flat page map and changes nothing callers see |
| BufferPool.Pool.WithPage | src/storage/buffer.rs:299-310 | applies the change to the flat page map, durable across eviction |
| BufferPool.Pool.FlushAll | src/storage/buffer.rs:462-491 | afterwards the disk alone is the flat page map |
| BufferPool.Pool.DiscardFile | src/storage/buffer.rs:428-438 | the file's pages are those on disk again, also pages in use; all others stay |
| BufferPool.Pool.AllocPage | src/storage/buffer.rs:393-395 | a new page of zeros |
| BufferPool.Run | src/storage/buffer.rs:299-389 | for every capacity, policy and sequence of reads, writes and flushes, each answer and the final state are those of one flat page map |
| PoolProtocol.PoolIsFlat | src/storage/buffer.rs:299-389 | with lookups, loads, pins, latches, reads, writes, evictions and flushes of any number of threads interleaved, and every pin in time, each page and each reader show the flat page map |
| PoolProtocol.LatePinLosesWrite | src/storage/buffer.rs:366-388 | whenever a loaded frame is evicted before its pin, the write that may follow leaves the page every other thread sees as it was |
| PoolProtocol.LatePinIsFatal | src/storage/buffer.rs:366-388 | whenever a run first comes to a late pin, its continuation with any new contents leaves the page map wrong: pins in time are also necessary |
| PoolProtocol.WriteGetsLost | src/storage/buffer.rs:366-388 | a run from an empty pool in which a finished write is not seen by a later reader |
| PoolProtocol.EvictGood | src/storage/buffer.rs:340-364 | evicting an unpinned page, written back when dirty, changes nothing any thread sees |
| PoolProtocol.StepGood | src/storage/buffer.rs:299-389 | every step but a late pin keeps table, frames, pins, latches and disk consistent |
| PoolRuns.ReadAlone | src/storage/buffer.rs:299-389 | from every consistent state a thread can read any page that is unlatched or for which a frame can be had, finds it as last written, and leaves all pages as they were |
| PoolRuns.WriteAlone | src/storage/buffer.rs:299-389 | likewise it can write the page: whoever looks it up then sees what was written, and every other page as before |
| PoolRuns.FlushAlone | src/storage/buffer.rs:462-491 | a flush without interference leaves the disk equal to the pages |
| SlottedPage.Insert | src/storage/slotted.rs:44-68 | takes the first empty slot; refused exactly when directory, live records and the new record exceed the page, and then unchanged; every other record survives bit for bit |
| SlottedPage.PutAt | src/storage/slotted.rs:73-98 | takes exactly the given slot; occupied and full are told apart and leave the page unchanged |
| SlottedPage.Get | src/storage/slotted.rs:100-110 | the record in the slot, or none |
| SlottedPage.RoomIsDemand | src/storage/slotted.rs:44-98 | on a packed page the free gap is exactly what live records and directory leave |
| SlottedCompact.Delete | src/storage/slotted.rs:112-124 | the slot is empty, all other records stay, and the page is packed again |
| SlottedCompact.Compact | src/storage/slotted.rs:126-142 | any directory of disjoint records becomes a packed page with the same records in the same slots |
| SlottedCompact.Rewrite | src/storage/slotted.rs:144-158 | replaces a record by one of equal length, and refuses exactly otherwise |
| PaxImage.ColValue | src/storage/pax.rs:62-73 | reading through directory and offsets gives the value that was packed |
| PaxImage.VersionBytes | src/storage/pax.rs:93-101 | the version segment gives the slot's version bytes |
| PaxPack.Measure | src/storage/pax.rs:126-134 | the bytes the slots will take, column by column |
| PaxPack.WriteColumn | src/storage/pax.rs:153-169 | offsets, values, end offset and directory entry of one column, earlier columns untouched |
| PaxPack.Pack | src/storage/pax.rs:115-171 | refused exactly when the slots exceed the page, and then nothing is written; otherwise the page holds exactly these slots |
| PaxRecord.Split | src/storage/codec.rs:153-183 | finds the one way to read version and columns, and fails exactly when there is none |
| PaxRecord.ParsesOnce | src/storage/codec.rs:153-183 | a record can be read in at most one way |
| PaxRecord.RecordRoundTrip | src/storage/pax.rs:176-184 | version, count and values put together split again into themselves, whatever follows |
| PaxPage.IsEmpty | src/storage/pax.rs:75-81 | empty exactly when nothing is stored there: fresh page, no columns, beyond the end, or no first value |
| PaxPage.ReadSlots | src/storage/pax.rs:204-223 | all slots of a page, as the repacking operations carry them over |
| PaxPage.ReadRecord | src/storage/pax.rs:317-336 | the record of a live slot with unread columns as `NULL`, nothing for an empty slot |
| PaxPage.PutAt | src/storage/pax.rs:230-269 | malformed, mismatch, occupied, full or stored, each exactly when due; only a stored record changes the page, and only its slot |
| PaxPage.Insert | src/storage/pax.rs:187-226 | the same at the first empty slot |
| PaxPage.Delete | src/storage/pax.rs:272-294 | empties the slot, keeps slot numbers, and never runs out of room |
| PaxPage.DeleteMark | src/storage/pax.rs:297-313 | replaces deleter and forward pointer in place and returns the previous pair |
| PaxTheorems.StoredRecord | src/storage/pax.rs:187-269 | a stored record with a column is found in its slot, every other slot is as before |
| PaxTheorems.ExactRecord | src/storage/pax.rs:187-336 | the record comes back bit for bit if and only if it has a column and no bytes behind its last one |
| PaxTheorems.ColumnlessRow | src/storage/pax.rs:75-81 | a stored row without columns that cannot be read and whose slot is taken again |
| PaxTheorems.DeletedRecord | src/storage/pax.rs:272-294 | a deleted slot is empty, every other record as before |
| PaxTheorems.MarkedRecord | src/storage/pax.rs:297-313 | a mark changes bytes 8 to 24 of its own record only |
| PaxTheorems.UnmarkRestores | src/storage/pax.rs:297-313 | marking with the returned pair undoes a mark exactly |
| PaxTheorems.RunIsTidy | src/storage/pax.rs:187-313 | after any run of operations every slot is blank or a whole record |
| PaxTheorems.ProjectedReadParses | src/storage/pax.rs:317-336 | after any run, a read with some columns left out is again a well-formed record with the kept columns unchanged |
| RowCodec.EncodeRow | src/storage/codec.rs:227-256 | the loop writes the count and each value's tagged bytes |
| RowCodec.DecodeRow | src/storage/codec.rs:305-318 | the loop reads the values one after the other, skipping those not needed |
| RowCodec.EndsAgree | src/storage/codec.rs:153-445 | splitting, skipping and decoding find the same end of a value on any bytes; decoding fails additionally only on an unresolved large object |
| RowCodec.ValueRoundTrip | src/storage/codec.rs:352-412 | a value is read back, whatever follows, if and only if it is no string of 65536 bytes or more |
| RowCodec.RowRoundTrip | src/storage/codec.rs:227-318 | a row is read back with its length if and only if its column count and string lengths fit two bytes |
| RowCodec.PrunedDecode | src/storage/codec.rs:352-412 | on any bytes the full decoder accepts, leaving columns out turns exactly those into `NULL` and ends at the same place |
| RowCodec.EncodedRecordSplits | src/storage/codec.rs:207-260 | an encoded record splits into its values' bytes with nothing left over |
| RowCodec.StoredRowReadsBack | src/storage/pax.rs:187-336 | an encoded row with a column, once stored in a column-major page, is read back bit for bit |
| PageLayouts.EncodedRowIsWhole | src/storage/codec.rs:207-260 | an encoded row with a column is a record a column-major page gives back bit for bit |
| PageLayouts.OnRows | src/storage/slotted.rs:44-158 | each operation on a row-major page is the operation on the slot map, or leaves the page unchanged |
| PageLayouts.OnColumns | src/storage/pax.rs:187-313 | each operation on a column-major page is the same operation on the slot map, or leaves the page unchanged |
| PageLayouts.StepDetermined | src/storage/slotted.rs:44-158 | an operation on a slot map has one outcome, so layouts that follow it agree on slots and records |
| PageLayouts.OnBoth | src/storage/pax.rs:187-313 | an operation both layouts carry out takes the same slot and keeps their maps equal; delete and mark are always carried out by both or neither |
| PageLayouts.RunBoth | src/storage/pax.rs:187-313 | after any run of insert, put, delete and mark on both layouts the slot-to-record maps are equal; only an insertion that one of them has no room for ends the agreement |
| Coding.Put | src/storage/lsm/coding.rs:8-14 | appends the varint of the value |
| Coding.RoundTrip | src/storage/lsm/coding.rs:8-35 | every 32-bit value is read back from its varint wherever it stands |
| LsmBlock.PrefixIsLongest | src/storage/lsm/block.rs:230-237 | no prefix longer than the shared one is common to both keys |
| LsmBlock.BlockBuilder.constructor | src/storage/lsm/block.rs:27-35 | nothing added, interval at least one |
| LsmBlock.BlockBuilder.NextShared | src/storage/lsm/block.rs:46-68 | a new run starts exactly when the current one is full; otherwise the common prefix with the last key is shared |
| LsmBlock.BlockBuilder.Add | src/storage/lsm/block.rs:46-68 | the entry is added behind the others and the buffer stays their encoding |
| LsmBlock.BlockBuilder.Finish | src/storage/lsm/block.rs:72-85 | the block ends with the restart offsets and their number, and the builder is empty again |
| LsmBlock.DecodeAt | src/storage/lsm/block.rs:202-217 | at entry `i`'s offset in a finished block the bytes decode to its shared length, key rest, value and the next offset |
| LsmBlock.Rebuilt | src/storage/lsm/block.rs:178-191 | each key is rebuilt from its predecessor, at a restart point from anything |
| LsmRead.Parse | src/storage/lsm/block.rs:96-127 | accepts exactly the well-formed blocks and reads their restart offsets |
| LsmRead.BuiltBlockHolds | src/storage/lsm/block.rs:72-127 | whatever a builder finishes parses into a block that holds exactly what was added |
| LsmRead.Entries | src/storage/lsm/block.rs:178-191 | lists exactly the entries added, in order |
| LsmRead.RestartsBelow | src/storage/lsm/block.rs:142-175 | the binary search ends at the last restart whose key is smaller than the key |
| LsmRead.Get | src/storage/lsm/block.rs:142-175 | finds the key's value, or nothing exactly when the key was not added |
| LsmRead.BuildAndList | src/storage/lsm/block.rs:46-191 | building with any restart interval, parsing and listing gives the same entries |
| LsmRead.BuildAndGet | src/storage/lsm/block.rs:46-175 | building from ascending keys with any restart interval, parsing and looking up is lookup in the list |
| KeyEncoding.EncodingPreservesOrder | src/index/key.rs:19-51 | within a type, byte order of the encodings is value order, in both directions: strings by their first differing byte, floats by the number their bits denote |
| KeyEncoding.EncodingIsInjective | src/index/key.rs:19-51 | within a type, equal bytes mean equal values and the other way round |
| KeyEncoding.RankIsValue | src/index/key.rs:19-51 | flipping the sign bit, or all bits of a negative float, orders the patterns as the numbers they denote, subnormals and both zeros included |
| KeyEncoding.NullsFirst | src/index/key.rs:19-51 | the encoding of `NULL` is below that of every other value |
| JoinExpr.ConjunctsDecide | src/exec/operator.rs:1082-1091 | an `AND` tree holds exactly when all its conjuncts hold, in three-valued logic |
| JoinExpr.CombinedDecides | src/exec/operator.rs:1093-1099 | conjuncts joined again hold exactly when all of them do |
| JoinKeys.ResolvedSides | src/catalog/mod.rs:52-74 | with distinct owners a reference means the same column in the joined row as in its own side |
| JoinKeys.KeyHolds | src/exec/eval.rs:297-328 | an equality between the two sides holds on the joined row exactly when both columns are present and equal |
| JoinKeys.KeyMeansCondition | src/exec/operator.rs:1131-1159 | key agreement and the equality are the same on all typed rows if and only if the right-hand reference names no column of the left side |
| JoinKeys.ExtractHashKeys | src/exec/operator.rs:1131-1159 | the condition holds exactly when all key pairs agree and all kept conjuncts hold |
| HashJoin.PushKeyComponent | src/exec/operator.rs:1224-1234 | appends a length-framed component, or refuses exactly on `NULL` |
| HashJoin.RowKey | src/exec/operator.rs:1237-1265 | the key bytes of a row, none exactly when a key column is `NULL` |
| HashJoin.SameBytes | src/exec/operator.rs:1224-1265 | two rows have the same key bytes if and only if all key columns are present and pairwise equal: components do not run together |
| JoinRows.NestedLoop | src/exec/operator.rs:947-1006 | computes the row-by-row definition of the join; that this definition is the inner, left or right join is `JoinMeaning.JoinedMeans` |
| JoinMeaning.JoinedMeans | src/exec/operator.rs:947-1006 | the rows come in one block per driving row, in order: the pairs that satisfy the condition in order of the other side, or one row padded with nulls on the other side in an outer join without a match, columns of the left table always first |
| JoinMeaning.RunNestedLoop | src/exec/operator.rs:947-1006 | the nested loop produces that result for inner, cross, left and right joins |
| JoinRows.BuildTable | src/exec/operator.rs:1477-1528 | each key maps to exactly the positions of its rows, in build order |
| JoinRows.HashIsNested | src/exec/operator.rs:1379-1455 | the rows found through the table and the residual are those the nested loop finds, in the same order |
| JoinRows.HashJoinOp.Open | src/exec/operator.rs:1477-1528 | the table is complete and nothing is pending |
| JoinRows.HashJoinOp.ProbeOne | src/exec/operator.rs:1379-1455 | queues exactly the join rows of one driving row |
| JoinRows.HashJoinOp.FillOutput | src/exec/operator.rs:1379-1455 | queues exactly the join rows of a chunk |
| JoinRows.HashJoinOp.Emit | src/exec/operator.rs:1379-1469 | queues the listed rows that pass the residual, and says whether one did |
| JoinTheorem.AnalyzeHashJoin | src/exec/operator.rs:1109-1125 | a hash plan is offered only with an equality key and never for a cross join, and then it is equivalent to the condition |
| JoinTheorem.SidesEquivalent | src/exec/operator.rs:1109-1455 | for typed rows and an error-free condition, key agreement plus residual is the condition, for all three kinds |
| JoinTheorem.Drain | src/exec/operator.rs:1379-1539 | streaming in chunks gives the join of the whole driving side |
| JoinTheorem.ChunksInOrder | src/exec/operator.rs:1379-1539 | the chunks of the driving side, one behind the other, are that side |
| JoinTheorem.RunHashJoin | src/exec/operator.rs:1379-1539 | the same rows in the same order as the nested loop, and so the join result as `JoinMeaning` defines it from the condition alone, for inner, left and right joins |
| JoinTheorem.SharedOwnerParts | src/exec/operator.rs:1131-1159 | one table name on both sides: the condition holds on the joined row although the keys differ |
| Formats.LeafFormat | src/index/node.rs:13-16 | type at byte 0, count at 1, left link at 3, right link at 7, high key at 11; then the entries one behind the other, each a length, the key bytes, page and slot |
| Formats.InternalFormat | src/index/node.rs:13-16 | the same for internal nodes, with the first child at 3 and a child behind every separator |
| Formats.FrameFormat | src/wal.rs:112-141 | the length of what follows, the type, the transaction from byte 5, then file, page, slot and image, or deleter and link, each at its offset |
| Formats.SlottedFormat | src/storage/slotted.rs:8-42 | the slot count at byte 0; slot `i` at `4 + 4i` with offset and length of the record, which stands there; offset 0 means empty |
| Formats.ValueFormat | src/storage/codec.rs:227-256 | tags 0 to 5, numbers in two's complement, a string behind its length |
| Formats.VarintFormat | src/storage/lsm/coding.rs:8-14 | the seven-bit digits of the number, least first, all but the last flagged, and no superfluous one |
| Formats.BlockFormat | src/storage/lsm/block.rs:72-85 | restart offsets as words behind the data, their number at the very end |
| DateTime.DaysRoundTrip | src/sql/datetime.rs:52-73 | every integer day number is a valid date that converts back to it |
| DateTime.CivilRoundTrip | src/sql/datetime.rs:52-73 | every valid proleptic Gregorian date converts to a day number and back |
| DateTime.DaysAscend | src/sql/datetime.rs:52-60 | later dates have larger day numbers |
| DateTime.YearOfEraExact | src/sql/datetime.rs:62-73 | the closed formula finds the year within a 400-year era for every day of it |
| DateTime.TextRoundTrip | src/sql/datetime.rs:4-31 | a day is read back from its text if and only if its year is between 0000 and 9999 |
| DateTime.ParsedIsFormatted | src/sql/datetime.rs:4-31 | every text that parses is the text of the day it denotes |
| DateTime.TextPlaces | src/sql/datetime.rs:4-31 | the text of a day has the year's four digits, a dash, the month's two, a dash and the day's two |
| DateTime.TextIsRead | src/sql/datetime.rs:4-31 | a text parses if and only if it has that shape and its digits name a valid date, and it parses to that date |
| DateTime.Epoch | src/sql/datetime.rs:52-73 | day 0 is 1 January 1970 |

## Left out

- BLinkTree.BTree.Insert: keys longer than 2716 bytes and the empty key are outside it, because a cut need not exist for the former and an empty high key reads as none; `BLinkTree.BTree.Attempt` covers every length but does not show that its retries end.
- BLinkTree.BTree.Attempt: a failed insertion of an oversized key still raises the recorded longest key length, and a stale length under concurrent writers is not modelled.
- BLinkEraseOps.Delete: trees of at most two levels with keys of one width; deeper trees, where `refresh_separator_at` leaves older bounds behind, and mixed widths are not modelled. A page merged away leaves the page map. After a stale read nothing is said about later deletes.
- BLinkReaders.ReaderFindsItsLeaf: writers are the page writes of insertions; concurrent deletes are not modelled.
- LsmBlock.BlockBuilder.Add: lengths and offsets must fit 32 bits, which the source does not check.
- Wal.FrameRoundTrip: frames whose length fits 32 bits, which the source does not check; file writes and `fsync` are not modelled.
- WalReplay.ReplayTwice: marks carry a nonzero deleter, as all marks in the log do.
- BufferPool.Pool.DiscardFile: I/O errors, the staging copy of a flush, counters and reports are not modelled.
- ReadCommittedRefusal.RefusalHasHolder: the index must list only stored rows with their keys when the run starts; a start with an entry left over from a removed row is also consistent, and that entry would refuse its key once another row is stored in the slot.
- ReplacerRuns.EvictsLeastRecent: the two queue policies; the clock evicts by its reference bits, as `Replacer.Sweep` states.
- Formats.SlottedFormat: column-major pages have no lemma of this kind, because `PaxImage.Represents` is itself stated byte by byte.
- PoolProtocol.PoolIsFlat: a miss with its evictions is one step, as it is one lock section, and which unpinned page goes is left open; closing and discarding files is not among its steps.
- ReadCommittedTheorems.UniqueKeysHold: one way only; a store into a linked slot allows a duplicate and need not cause one. Finding the taken rows of a key and walking their version chains is one step; lock waits and time-outs are single nondeterministic steps. Runs start from any consistent committed heap.
- JoinTheorem.RunHashJoin: typed rows without NaN, distinct table owners, and a condition each of whose conjuncts evaluates to true, false or null; build rows are a sequence of rows instead of one flat array, and the row-at-a-time path of the operator is not modelled.
- RowCodec.RowRoundTrip: strings are their bytes, so the UTF-8 check is not modelled; writing large objects is not modelled, reading them is a map lookup.
- PaxPack.Pack: the slots are handed over as values where the source passes two closures over a copy of the page.
- NodePages.LeafInsertAt: positions past the last entry, for which the source would walk over stale bytes, are not modelled.
- Repeatable read and its validation at commit (`check_conflicts`), and the isolation levels' session handling.
- Leaf `prev` links, which splits do not maintain.
- The B-link tree works on nodes; that each page write of it goes through the byte operations of `NodePages` is shown per operation, not woven into one program.
- LSM tables, store and merge scans; large-object files; catalog files; WAL file handling.
- SQL lexer, parser, planner and all other operators; network, authentication, configuration and reporting.
- Real time, condition variables and memory orders: a latch or mutex section is at least one atomic step.
