# aequitas-ledger: a verified model

A Dafny model of aequitas-ledger, a single-writer double-entry ledger: transfer batches are
validated, written to a write-ahead log, applied; recovery and followers rebuild the same ledger
from the log.  `dafny verify dfyconfig.toml` checks everything.

The files follow the program.

- **Batch engine.**  `Core` holds accounts, transfers and 128-bit arithmetic; `Words` the two-word
  arithmetic behind it.  `Engine` has the apply path and the validator's leg rules as functions,
  `Acceptance` the same in fields and numbers, `Holds` and `Expiry` the invariant of open holds and
  expiry, `Deadlines` when that is, `Batch` linked chains, `Decisions` the outcome of every event.  In
  place: `ExpiryHeap`, `AccountManager`, `BatchValidator` (overlays with an undo journal).
- **Replay.**  `Machine` is the live loop and the replay handler as a state machine, `Replaying`
  their agreement, `WrappedDeadlines` the same for any timeouts, `Lifetimes` through crashes and
  restarts, `Snapshots` from a snapshot, `Accounting` and `Solvency` what whole runs keep,
  `Recording`, `LoopLaws` and `HoldLives` what is recorded, journaled and how long holds live,
  `EventLoop` and `Startup` the loop and the start from a snapshot in place.
- **WAL.**  `Bytes`, `Frames`, `Recovery` (records), `Segments` (files cut at any byte), `Truncation`
  and `SegmentRecovery` (what recovery leaves), `Skipping`, `DeltaRecovery` and `RecoveringAgain`
  (recovery above a snapshot), `Packing`, `Wal` and `Straddling` (the writer), `StreamReader` and
  `Streams` (the replication reader), `WalLaws`, `Batching` and
  `AnyFiles` (what all readers make of any bytes, records and files).
- **Bytes to ledger.**  `Codec` and `SnapshotFile` are the payload and snapshot formats, `Layouts` their
  bytes; `Restart` joins engine, WAL and snapshot into statements about crashes of the whole ledger.
- **Follower.**  `Follower` has the protocol's steps, `Following` what all its runs keep,
  `FollowerLimits` where that ends, `FollowerProgress` whom it lets in and that it catches up,
  `FollowerNode` the object that takes the steps.
- **Shared structures.**  `RingBuffer` is the multi-producer buffer as atomic steps, `RingDrain` its
  undisturbed calls; `Idempotency` and `IdempotencyStore` are the LRU store on values and as a linked
  list, `IdempotencyLaws` what its callers rely on.

Fixed-length byte arrays are the numbers they denote in big-endian order.  The checksum is an
arbitrary function from bytes to 32 bits.  The wall clock, the times of the idempotency store and
the files a stream reader sees are parameters.

Where the code does something its documentation does not say, the model follows the code, and a
lemma says when it matters:

- settling a hold does not check funds again, so a post can overdraw (`PostCanOverdraw`);
- a deadline that exceeds 64 bits wraps, and replay closes the hold before the next record; a run can
  be replayed exactly when every batch does without its wrapped holds (`RunReplaysExactly`), which a
  batch that settles one does not (`OverflowedHoldIsLost`), nor one that spends what it would bring
  in (`UnsettledHoldBreaksReplay`); the other statements about replay are about runs without wrapped
  deadlines;
- after a torn tail, truncation uses each segment's own last commit, so a batch that straddles
  segments can be delivered once and lost at the next recovery (`RecoveredDisk`, `RecoverAgain`,
  `StraddlingBatchIsLost`), and a follower that restarts then is out of step
  (`RestartFollowsExactly`);
- a re-sync removes segments one by one, and a process that stops in between leaves a WAL without its
  beginning (`InterruptedResyncExactly`);
- a stream started one above a commit LSN can miss the next batch (`StreamFromNext`), one whose
  segment is rotated away can miss its end (`ClosedUnderReader`), and an empty live segment can be
  passed over for good (`PassedOverForGood`, `SecondSegmentIsMissed`);
- a follower splits batches of 4096 records or more, and stays in step exactly without them
  (`SizeConditionExactly`);
- a hold reopened under an id still open, possible only after a restart from a snapshot, leaves a
  stale heap entry, and heap and map no longer agree (`AddPending`, `Process`);
- an empty ring buffer can refuse an event (`EmptyBufferRefuses`);
- Commit of the idempotency store does not end when more reservations are pending than it may hold
  (`EvictionEnds`), and can evict its own result at once (`CommittedIsFound`);
- a snapshot whose size is right only modulo 2^64 makes the reader crash (`ReadExactly`).

## Model

| member | source | states |
|---|---|---|
| Engine.StageAgreesWithExec | internal/engine/transfers.go:111-323 | For any books, the validator's leg rules and the separately written apply path agree: the same legs succeed with the same accounts and holds, and when every hold names existing accounts the refusals carry the same error |
| Engine.ExecIsDoubleEntry | internal/engine/accounts.go:247-366 | Every successful plain, pending, post, partial post or void changes the debit account's debits and the credit account's credits by equal amounts and nothing else, and leaves exactly the expected open holds |
| Acceptance.Kinds | internal/core/account.go:14-19 | Flags 0, 1, 2, 4, each with or without 8 added, are exactly the valid ones, and which number is plain, hold, post, void and linked |
| Acceptance.AcceptedExactly | internal/engine/accounts.go:139-366 | For any books and transfer, written in fields: it succeeds if and only if the flags are valid, the amount positive, the parties distinct, known, of one currency and the transfer's ledger, with flags divisible by 4, the payer's posted (for a hold available) balance covers the amount and no total overflows; for a post or void, if and only if the hold is open, of the ledger, large enough and its accounts have the reserve and the room |
| Acceptance.ChangesExactly | internal/engine/accounts.go:247-366 | By the number of the flags: which totals of which account grow or shrink by how much, which hold appears, shrinks or goes, and that nothing else changes |
| Acceptance.FrozenExactly | internal/core/account.go:79-81 | A transfer is refused as frozen, naming that account, if and only if bit 0 of the payer's or then the payee's flags is set on parties that match |
| Acceptance.ClosedExactly | internal/core/account.go:83-85 | The same for closed accounts and bit 1 |
| Acceptance.FundsExactly | internal/engine/accounts.go:214-240 | A transfer is refused for want of funds, with which balance, if and only if open matching parties are known and the payer's posted or available balance is short |
| Acceptance.HoldExactly | internal/engine/accounts.go:152-180 | A settlement is refused as unknown if and only if no hold has its id, and as too large if and only if it asks for more than the hold of its ledger has |
| Holds.ExecSurplus | internal/engine/accounts.go:247-366 | What an account has reserved beyond its open holds never changes, except that a hold opened under an id still open strands the old hold's amount |
| Holds.ExecKeepsSound | internal/engine/accounts.go:247-366 | Every successful operation keeps the invariant: reserves cover the open holds, holds are positive, stored under their id, between two accounts of their ledger |
| Holds.SettlementNeverUnderflows | internal/engine/accounts.go:344-366 | Under the invariant a post or void that passes its check fails only by overflow of a posted total |
| Holds.ExecConserves | internal/engine/accounts.go:247-366 | No successful operation changes a ledger's total of posted credits minus posted debits |
| Expiry.CloseKeepsSound | internal/engine/accounts.go:87-119 | After expiry at a clock the invariant holds and no open hold is expired |
| Deadlines.OpenExactly | internal/engine/accounts.go:87-100 | A hold stays open at a clock, unchanged, if and only if it has no timeout or the clock is below timestamp plus timeout, less 2^64 when that exceeds 63 bits |
| Deadlines.OpenUntilTimeout | internal/engine/accounts.go:333-336 | Without wrap-around a hold is open at a clock if and only if it has no timeout or the clock is below timestamp plus timeout |
| HoldLives.HoldLivesExactly | internal/engine/loop.go:270-330 | For every run and every journaled hold that is not settled afterwards: it is open at the end, unchanged, if and only if it has no timeout or the clock has not reached its timestamp plus timeout |
| Expiry.CloseSurplus | internal/engine/accounts.go:87-119 | Expiry gives back exactly the reserves of the holds it closes |
| Expiry.CloseTwice | internal/engine/accounts.go:87-119 | Closing at one clock and then at a later one is closing once at the later one |
| Expiry.CloseConserves | internal/engine/accounts.go:87-119 | Expiry moves no posted value |
| Expiry.CloseCreate | internal/engine/accounts.go:57-64 | Creating an account commutes with expiry |
| Expiry.CreateTotal | internal/engine/accounts.go:57-64 | Creating an account adds its opening net to its ledger's total, a duplicate adds nothing |
| Batch.ChainsAreAtomic | internal/engine/transfers.go:328-401 | In every batch each maximal linked chain is accepted as a whole or rejected as a whole, and a chain still open at the end is rejected |
| Decisions.LegExactly | internal/engine/transfers.go:111-133 | One leg passes if and only if it is acceptable and, if it opens something, its id is new; it is refused as a duplicate before any other reason; an opening uses its id up even when refused |
| Decisions.BatchDecides | internal/engine/transfers.go:328-401 | For every batch and every maximal chain of it, on the books the accepted events before it leave: all legs are accepted if and only if each passes after the ones before it and the chain is closed; otherwise the first that does not pass carries its own reason and every other leg names it, its place and its reason |
| Decisions.UnlinkedDecided | internal/engine/transfers.go:328-401 | An event linked to no other is accepted if and only if it is acceptable on the books left by the accepted events before it and opens nothing under an id used before or tried earlier in the batch |
| Batch.AcceptedEventsApply | internal/engine/transfers.go:328-416 | From any books, the accepted events applied in order all succeed and reach the validator's final overlay |
| Batch.BatchIsTight | internal/engine/transfers.go:111-401 | A batch strands no reserve and keeps every open hold indexed |
| Batch.AcceptedIdsUnique | internal/engine/transfers.go:125-133 | No id is accepted twice as an opening, nor one that was used before |
| Batch.ExecAllConserves | internal/engine/transfers.go:406-416 | Applying any run of accepted events keeps every ledger total |
| Replaying.ApplyingAgreesWithValidating | internal/engine/transfers.go:406-416 | For every state and batch ApplyBatch changes no outcome ValidateBatch gave, fails on no accepted event and reaches the validator's books |
| Replaying.ReplayBatch | internal/engine/ledger.go:647-661 | Replaying the records of one batch one by one, with expiry before each, is expiring once and applying the batch |
| Replaying.RunInStep | internal/engine/loop.go:270-330 | Every step of every run keeps replay of the journal in step with the live ledger, also through batches that journal nothing |
| Replaying.ReplayRebuildsLive | internal/engine/ledger.go:633-670 | For every run, replaying the journal succeeds and, closed at the live clock, gives the live accounts, open holds, transfer index and histories |
| Recording.RecordedExactly | internal/engine/accounts.go:247-310 | After every successful operation exactly the index entry of its id changes, to the operation with parties and ledger of the hold where a settlement left them blank, and exactly the recorded parties' histories end with its id, once each and once when they coincide |
| Recording.RefusedRecordsNothing | internal/engine/accounts.go:247-310 | A refused operation changes neither index nor histories |
| LoopLaws.ClockTicks | internal/engine/loop.go:275-285 | The batch clock is the earliest moment after the last batch that is not before the wall clock |
| LoopLaws.JournaledExactly | internal/engine/loop.go:287-349 | A batch journals exactly its accepted events, in order, each stamped with the batch clock and otherwise as requested, and nothing when there are none |
| LoopLaws.AdmittedExactly | internal/engine/loop.go:223-242 | An account request admits exactly the accounts whose debits do not exceed their credits and whose id is not in use, in order |
| LoopLaws.CreatedExactly | internal/engine/loop.go:264-266 | Existing accounts stay, and of admitted accounts with the same id the first is created |
| LoopLaws.ReplayClock | internal/engine/ledger.go:647-661 | Replaying a transfer moves the clock to its timestamp and never back, an account leaves it |
| LoopLaws.RestoredClockIs | internal/engine/ledger.go:97-114 | After a restore the clock is the latest timestamp of a restored hold, or 0 |
| LoopLaws.RestoreExactly | internal/engine/ledger.go:97-114 | A snapshot is refused exactly when a hold comes twice, naming the first; otherwise the holds are exactly those listed |
| Snapshots.RestoreReturns | internal/engine/ledger.go:97-114 | Restoring any listing of accounts and holds gives them back |
| Snapshots.SnapshotRestart | internal/engine/ledger.go:97-114 | Restoring a snapshot taken after any event and replaying only what came later reaches the accounts and holds of a full replay, closed at the same clock |
| Accounting.RunInOrder | internal/engine/loop.go:223-330 | Every run keeps the invariant and the accounting of pending totals and ledger totals |
| Accounting.PendingTotalsAreHoldSums | internal/engine/accounts.go:326-366 | In every run an account that opened with no pending balance has pending totals equal to the sums of the open holds that name it |
| Accounting.LedgerTotalsComeFromOpenings | internal/engine/accounts.go:196-205 | In every run each ledger's posted total is that of its accounts as created |
| Accounting.JournaledIdsAreUnique | internal/engine/transfers.go:125-133 | Over a whole run no id is journaled twice as an opening, and the journaled ids are the transfer index |
| Accounting.SolvencyExactly | internal/engine/accounts.go:232-366 | A successful operation keeps every posted balance non-negative if and only if it is not a post of more than the payer's posted balance |
| Accounting.PostCanOverdraw | internal/engine/accounts.go:344-366 | A hold, a plain transfer and the hold's post that together overdraw an account |
| Accounting.LostHold | internal/engine/ledger.go:647-661 | Replay refuses the settlement of a hold that has expired and was not opened again |
| Accounting.OverflowedHoldIsLost | internal/engine/accounts.go:333-336 | A hold that is expired when it is opened, anywhere in a batch, and is settled later in it makes replay refuse the journaled batch, whatever else it holds |
| Accounting.BatchReplaysExactly | internal/engine/accounts.go:333-336 | A batch replays to the state the live loop reached if and only if no hold opened before its last record is expired, by a deadline that wrapped, when it is opened |
| Accounting.LiveBatchReplaysExactly | internal/engine/loop.go:270-330 | For every ledger that replays and every batch it takes, the journal with that batch replays to the live state if and only if no accepted hold before the last accepted event wrapped |
| Solvency.RunSolvency | internal/engine/accounts.go:232-366 | In every run no account is overdrawn after any accepted event if and only if every post is covered by its payer's posted balance at its moment |
| Lifetimes.LifeReplays | internal/engine/loop.go:43-56 | Through any sequence of events, crashes and restarts with a loop clock of 0, while batch clocks increase, the journal replays to the live accounts, holds, index and histories, closed at the same clock |
| WrappedDeadlines.BearableExactly | internal/engine/accounts.go:232-366 | An operation that succeeds still succeeds after the expired holds are closed if and only if it settles none of them and a hold it opens is covered without their pending totals |
| WrappedDeadlines.DropExec | internal/engine/accounts.go:87-366 | Closing some holds and carrying out an operation on others can be exchanged |
| WrappedDeadlines.BatchInTouch | internal/engine/ledger.go:647-661 | A journaled batch replays without error if and only if each of its operations did without the holds then expired, and the replayed ledger then differs from the live one in expired holds at most |
| WrappedDeadlines.RunReplaysExactly | internal/engine/ledger.go:633-670 | For every run, whatever the timeouts, the journal replays without error if and only if every batch did without the holds whose deadline had wrapped, and then gives the live ledger once both are closed at the live clock |
| WrappedDeadlines.UnsettledHoldBreaksReplay | internal/engine/accounts.go:333-336 | A run that settles nothing and whose journal cannot be replayed |
| Accounting.OverflowBreaksReplay | internal/engine/accounts.go:333-336 | A ledger that journals what it cannot replay |
| ExpiryHeaps.ExpiryHeap.Up | internal/engine/accounts.go:19-25 | Sifting up restores the heap order with the same entries and right heapIdx links |
| ExpiryHeaps.ExpiryHeap.Down | internal/engine/accounts.go:19-25 | Sifting down restores the heap order below an entry with the same entries and right links |
| ExpiryHeaps.ExpiryHeap.Push | internal/engine/accounts.go:24-24 | Pushing adds exactly the entry and keeps order and links |
| ExpiryHeaps.ExpiryHeap.Pop | internal/engine/accounts.go:25-25 | Popping takes an entry with the least deadline and leaves the others in order |
| ExpiryHeaps.ExpiryHeap.Remove | internal/engine/accounts.go:394-401 | Removal by index takes exactly that entry and keeps order and links |
| ExpiryHeaps.RootIsMinimal | internal/engine/accounts.go:22-23 | In heap order no deadline is earlier than the root's |
| Manager.AccountManager.Create | internal/engine/accounts.go:57-64 | The account is added exactly when its id is new; the index stays exact |
| Manager.AccountManager.ReleasePending | internal/engine/accounts.go:103-119 | Releases both sides in place, with the same partial effect on an error as the apply path |
| Manager.AccountManager.MovePending | internal/engine/accounts.go:344-366 | Moves reserves to posted totals in place, with the same partial effect on an error |
| Manager.AccountManager.Reserve | internal/engine/accounts.go:368-392 | Reserves on both accounts in place |
| Manager.AccountManager.PostImmediate | internal/engine/accounts.go:319-324 | Posts a plain transfer in place |
| Manager.AccountManager.AddPending | internal/engine/accounts.go:326-340 | The hold is filed in map and heap; they keep agreeing exactly when no expiring hold was replaced |
| Manager.AccountManager.RemovePending | internal/engine/accounts.go:394-401 | The hold leaves map and heap, which keep agreeing |
| Manager.AccountManager.ShrinkPending | internal/engine/accounts.go:312-317 | A partial post lowers the stored amount and leaves deadline and heap place alone |
| Manager.AccountManager.CloseExpired | internal/engine/accounts.go:87-100 | Exactly the due heap entries leave, each releases its reserve and deletes the hold of its id; while heap and map agree the open holds afterwards are exactly those without timeout or with a deadline above the clock, and in sound books exactly their reserves are released; a hold stays exactly while it has no timeout or the clock is below its timestamp plus timeout as 64 bits hold it |
| Manager.AccountManager.CheckTransfer | internal/engine/accounts.go:139-241 | Computes the check of the apply path from the object's state |
| Manager.AccountManager.RecordTransfer | internal/engine/accounts.go:405-420 | Indexes the operation and appends it to its accounts' histories |
| Manager.AccountManager.ApplyTransferState | internal/engine/accounts.go:247-310 | Carries out exactly the apply path on accounts, holds, index and histories; heap and map keep agreeing unless an id in use was reopened |
| Manager.AccountManager.RestorePending | internal/engine/accounts.go:471-482 | Re-registers a hold, or refuses an id already open |
| Validator.Snapshot | internal/engine/transfers.go:87-109 | The first write to a key in a chain journals its old value |
| Validator.Rollback | internal/engine/transfers.go:55-72 | Undoing the journal backwards gives the overlay as it was at the start of the chain |
| Validator.BatchValidator.BeginChain | internal/engine/transfers.go:48-53 | The chain starts from the overlay as it is |
| Validator.BatchValidator.RollbackChain | internal/engine/transfers.go:55-72 | Whichever legs ran and wherever one failed, the account and hold overlays are as at BeginChain |
| Validator.BatchValidator.GetAccount | internal/engine/transfers.go:74-85 | Returns the account as staged, or as in the base |
| Validator.BatchValidator.StageSettlement | internal/engine/transfers.go:135-231 | Stages a post or void by the rules of the leg, with nothing but the legs' writes journaled |
| Validator.BatchValidator.StageOpening | internal/engine/transfers.go:233-323 | Stages a plain or pending transfer by the rules of the leg |
| Validator.BatchValidator.ValidateAndApply | internal/engine/transfers.go:111-323 | Decides and stages one event as the batch rules say |
| Validator.FindChainEnd | internal/engine/transfers.go:348-355 | Finds the last leg of the chain |
| Validator.ValidateBatch | internal/engine/transfers.go:328-401 | The index loop with its jumps gives exactly the outcomes of the batch rules and leaves the manager untouched |
| Loop.ApplyBatchTo | internal/engine/transfers.go:406-416 | Applies the accepted events to the manager in place; heap and map keep agreeing when none reopens an open hold |
| Loop.MakeRecords | internal/engine/loop.go:336-349 | Builds the records of the accepted events, in order |
| Loop.StampAll | internal/engine/loop.go:287-291 | Stamps every event of the batch with the batch clock |
| Loop.EventLoop.Tick | internal/engine/loop.go:277-285 | The batch clock, and expiry at it, in place |
| Loop.EventLoop.Process | internal/engine/loop.go:270-330 | One batch in place is one step of the live machine: clock, expiry, outcomes, journal, ledger; the loop stays intact when every id it would reopen is in the transfer index |
| Loop.EventLoop.CreateAccounts | internal/engine/loop.go:223-268 | A request journals and creates the accounts with sound balances and new ids |
| Loop.HandleRecord | internal/engine/ledger.go:634-669 | One record handled in place is one step of replay, unless it reopens an open hold |
| Loop.Recover | internal/engine/ledger.go:633-670 | The replay handler over any intact manager, restored from a snapshot or empty, reaches the replayed state and stops at the first error, unless a record reopens an open hold |
| Loop.RunReopensNone | internal/engine/ledger.go:633-670 | The journal of every run reopens no hold |
| Startup.LoadSnapshot | internal/engine/ledger.go:97-114 | Loading accounts and holds into an empty manager gives exactly the restored ledger, or the error of a hold listed twice |
| Startup.Start | internal/engine/ledger.go:97-114 | Loading a snapshot and replaying the records above it, in place, is restoring and replaying |
| Startup.SnapshotStartsClean | internal/engine/ledger.go:610-670 | A snapshot taken after any events of a run restores to sound books, and the journal after it reopens none of its holds |
| Frames.DecodeExactly | internal/wal/record.go:49-115 | A byte string decodes to a record if and only if it is the frame of that record and the record has a valid type, a 64-bit LSN and a 32-bit payload length |
| Frames.CommitAnnounces | internal/wal/record.go:71-86 | A commit marker announces the size of its batch |
| Recovery.FeedLog | internal/wal/recovery.go:137-200 | Replaying a complete log delivers every data record in order and ends at the last commit |
| Recovery.FeedPrefix | internal/wal/recovery.go:137-200 | Replaying any prefix of a log delivers exactly its complete batches and holds the rest back |
| Segments.ParseCut | internal/wal/recovery.go:137-175 | Walking a segment cut at any byte finds exactly the whole frames before the cut |
| Segments.TornTailRecovery | internal/wal/recovery.go:23-200 | For every log, every division into segments at frame ends and every cut of the last one, recovery delivers exactly the batches whose commit frame precedes the cut and ends at their last commit LSN |
| Truncation.KeptAgain | internal/wal/recovery.go:81-110 | What per-segment truncation keeps replays to the same records if and only if no segment with a commit begins inside a batch, and to fewer otherwise |
| SegmentRecovery.ReadFrame | internal/wal/recovery.go:140-170 | Reads the frame at an offset exactly when a whole intact one is there |
| SegmentRecovery.ReplaySegment | internal/wal/recovery.go:137-200 | The offset loop computes the replay state, the stop flag and the committed offset of the segment |
| SegmentRecovery.RecoverSegments | internal/wal/recovery.go:23-115 | Recovery from LSN 0 over all segments, with the files it leaves |
| SegmentRecovery.RecoveredDisk | internal/wal/recovery.go:81-115 | After a torn or unfinished tail the disk holds the log of the delivered batches when segments are aligned, and the next recovery delivers the same records if and only if they are |
| Straddling.StraddlingBatchIsLost | internal/wal/wal.go:120-157 | For every segment size AppendBatch writes files on which, after a crash, the second recovery loses a batch the first one delivered |
| SegmentRecovery.SingleSegment | internal/wal/recovery.go:81-210 | One segment cut at any byte is left as exactly the committed prefix; batches appended later follow it under larger LSNs |
| WalLaws.ParseFinds | internal/wal/recovery.go:137-200 | For any bytes that are frames followed by something that begins with no intact frame, the walk finds exactly the frames, and reaches the end exactly when nothing follows |
| WalLaws.AnyBytes | internal/wal/recovery.go:137-200 | Any bytes, damaged anywhere, are of that form |
| Batching.DeliversExactly | internal/wal/recovery.go:137-200 | Of any records recovery hands on exactly those of the batches whose marker counts them right, in order, and keeps those after the last marker waiting |
| Batching.HighestExactly | internal/wal/recovery.go:137-200 | The LSN it continues from is that of the last such marker, 0 without one |
| AnyFiles.RecoversAnyFiles | internal/wal/recovery.go:23-115 | Recovery of any files: what the frames before the first damage release; files are left alone exactly without damage and without a waiting record; files after the damage are removed |
| AnyFiles.KeptExactly | internal/wal/recovery.go:81-112 | Truncation keeps of each file the frames through the last marker in it that released a batch |
| AnyFiles.CutsExactly | internal/wal/recovery.go:46-112 | Above an LSN, truncation cuts the files that were read as it would cut them alone, leaves the skipped ones and removes those after the damage |
| WalLaws.StreamFinds | internal/wal/stream.go:226-256 | The same for the stream reader with frames of at most 1 MiB, and whether what follows is nothing, an unfinished frame or no frame |
| Batching.EmitsExactly | internal/wal/stream.go:107-125 | Of any records the stream releases the same batches as recovery, each with its marker |
| AnyFiles.ReadsExactly | internal/wal/stream.go:56-126 | Of any files the reader takes all frames up to the first error, which the unfinished end of the live file is not |
| WalLaws.PlausibleExactly | internal/wal/wal.go:311-333 | The peek takes for a frame exactly what is one with some checksum, a positive LSN, a type and at most 1 MiB |
| WalLaws.WalksChain | internal/wal/wal.go:311-333 | A chain of such frames is walked to its end and no further |
| WalLaws.PeekIsFurthest | internal/wal/wal.go:270-307 | For any segment the peek is the last LSN of the chain that gets furthest in its last 64 KiB among those that start in their first 4096 bytes, the earliest winning a tie |
| WalLaws.PruneExactly | internal/wal/wal.go:230-252 | TruncateBefore leaves exactly the last file and the files whose peek is not below the LSN, in order |
| WalLaws.SkipExactly | internal/wal/recovery.go:46-61 | Recovery above an LSN reads exactly the last file and the files whose peek is above it, in order |
| WalLaws.RefusedExactly | internal/wal/wal.go:87-104 | A record is encoded if and only if it has a type, a payload below 2^32 bytes and a frame that fits a segment, and which error it gets otherwise |
| Skipping.WalkFrameChain | internal/wal/wal.go:311-333 | Covers the longest chain of plausible frames from the start and returns its last LSN |
| Skipping.PeekSegmentMaxLSN | internal/wal/wal.go:270-307 | Computes the tail peek with its resynchronisation |
| Skipping.PeekExact | internal/wal/wal.go:270-333 | On a well-formed segment of at most 64 KiB the peek is the last record's LSN |
| Skipping.SkippingIsHarmless | internal/wal/recovery.go:46-61 | Reading only the unskipped segments, with or without pruning first, delivers above a commit LSN exactly what full recovery delivers there, and the same watermark |
| Skipping.TruncateBefore | internal/wal/wal.go:230-252 | Deletes exactly the closed segments whose peek is below the LSN |
| DeltaRecovery.RecoverFromLSN | internal/wal/wal.go:396-433 | Delivers the records above the LSN from the unskipped segments, never lowers the watermark below it, and leaves the files the truncation rule says |
| DeltaRecovery.ReadSegments | internal/wal/recovery.go:44-79 | The segment loop with its skips, stop and cuts |
| DeltaRecovery.CutIsKept | internal/wal/recovery.go:81-112 | On aligned segments that reach the commit of the LSN, cutting the segments that were read is cutting all |
| RecoveringAgain.RecoverAgain | internal/wal/recovery.go:44-112 | Recovering again above a commit LSN delivers the same records if and only if the first time nothing was truncated or no segment from the first one read on begins inside a batch and holds a commit; when no segment at all does, the files hold the log of the complete batches |
| RecoveringAgain.TruncatesExactly | internal/wal/recovery.go:81-112 | Recovery above a commit LSN truncates a WAL that reaches it if and only if a frame is torn or the last batch incomplete, and one that ends below it if and only if a frame is torn and nothing in the last segment waits for a commit |
| Skipping.RecoverAboveCommit | internal/wal/wal.go:396-433 | On bytes cut anywhere, recovery above a commit LSN delivers exactly the records above it that full recovery delivers, also after TruncateBefore |
| Packing.PackingAppends | internal/wal/wal.go:120-157 | Packing appends exactly the frames to the concatenated segments, touches no closed segment and keeps every segment within the maximum |
| Packing.PackingKeepsFrames | internal/wal/wal.go:120-157 | Segments are cut only between frames |
| Packing.PacksTightly | internal/wal/wal.go:120-157 | A segment is closed only when the next frame does not fit it any more |
| Wals.Segment.Write | internal/wal/segment.go:73-122 | All of the bytes are appended or none, exactly by whether they fit |
| Wals.Segment.Sync | internal/wal/segment.go:125-136 | Everything written becomes durable |
| Wals.Wal.Rotate | internal/wal/wal.go:337-354 | The current file is closed as it is and an empty one follows |
| Wals.Wal.WriteBuffered | internal/wal/wal.go:120-157 | Terminates; succeeds exactly when every frame fits an empty segment and then packs the frames; otherwise the frames before the first oversized one are written |
| Wals.Wal.Encode | internal/wal/wal.go:87-104 | Numbers and encodes records up to the first invalid or oversized one, with each frame's end |
| Wals.Wal.AppendBatch | internal/wal/wal.go:73-113 | Appends the batch and its commit marker under the next LSNs; says exactly when it fails, with what error, what was written and which LSNs are spent |
| Wals.Wal.Recover | internal/wal/wal.go:392-433 | Replays, truncates and reopens the last segment; the watermark never falls |
| Wals.Wal.Reset | internal/wal/wal.go:366-390 | Leaves an empty WAL at LSN 0 |
| Wals.JournalHoldsLog | internal/wal/wal.go:73-157 | After any appends the segments hold exactly the log, frame by whole frame, each within the maximum |
| Wals.JournalRecovers | internal/wal/recovery.go:23-200 | For every list of batches, every segment size that fits and every cut, recovering what AppendBatch wrote delivers exactly the durable batches |
| Streaming.StreamReader.EnsureOpen | internal/wal/stream.go:130-197 | Opens the next existing segment still to be read, passing over deleted ones, or none; what is coming does not change |
| Streaming.StreamReader.ReadFrame | internal/wal/stream.go:226-256 | Takes a whole intact frame within the bound, waits at a live tail and reports corruption otherwise |
| Streaming.StreamReader.Advance | internal/wal/stream.go:200-208 | Moves past a finished segment without losing anything that is coming |
| Streaming.StreamReader.Next | internal/wal/stream.go:56-126 | Delivers the first record that is coming, or reports caught up or corrupt exactly when nothing more is, and terminates |
| Streaming.StreamReader.Drain | internal/wal/stream.go:56-126 | Calling Next until it stops gives everything that was coming, in order |
| Streams.EmitsLog | internal/wal/stream.go:107-125 | Reading a log from any record on delivers whole batches from the next batch boundary on |
| Streams.StreamAtRest | internal/wal/stream.go:56-256 | From a commit LSN a reader of a synced WAL delivers a suffix of the log in whole batches that contains every batch above the start |
| Streams.StreamFromNext | internal/wal/stream.go:142-150 | From one above a commit LSN the next batch is delivered if and only if no segment ends with its first record |
| Streams.LiveSegmentGrows | internal/wal/stream.go:212-220 | On the live segment everything synced later is coming, whole frames only, and nothing beyond the synced offset |
| Streams.ClosedUnderReader | internal/wal/stream.go:173-220 | When the open segment is rotated away the rest of it is read if and only if it had been read or was there at opening |
| Streams.StreamFrom | internal/wal/stream.go:43-126 | A new reader, asked until it stops, delivers exactly what the segments whose tail is above its start offer |
| Streaming.SelectedExactly | internal/wal/stream.go:142-154 | A new reader lists exactly the existing segments whose peeked tail is above its start |
| Streams.PassedOverForGood | internal/wal/stream.go:142-196 | A segment deleted or with a peeked tail at or below the start when the reader first lists has no influence on anything the reader will ever deliver, whatever is synced into it |
| Streams.SecondSegmentIsMissed | internal/wal/stream.go:142-196 | A reader that listed and finished the first of two segments delivers nothing of the second, whatever is in it |
| Streams.EmptyTailIsNotListed | internal/wal/stream.go:142-154 | An empty live segment behind a full one is not listed |
| Codec.AppendTransferPayload | internal/core/codec.go:30-62 | Appends the 144-byte row of the transfer |
| Codec.DecodeTransferPayload | internal/core/codec.go:64-96 | Reads the row back field by field, refusing other lengths |
| Codec.TransferRoundTrip | internal/core/codec.go:30-96 | Decoding undoes encoding, accepts exactly 144 bytes, and a payload is the encoding of its transfer if and only if its padding is zero |
| Codec.AppendAccountPayload | internal/core/codec.go:106-139 | Appends the 128-byte row of the account |
| Codec.DecodeAccountPayload | internal/core/codec.go:141-180 | Reads the row back field by field, refusing other lengths |
| Codec.AccountRoundTrip | internal/core/codec.go:106-180 | The same round trip for accounts |
| Layouts.TransferLayout | internal/core/codec.go:30-62 | Every byte of a transfer payload: the big-endian digits of each field at its offset, the padding zero |
| Layouts.TransferRead | internal/core/codec.go:64-96 | Decoding reads each field from its offset, whatever is in the padding |
| Layouts.AccountLayout | internal/core/codec.go:106-139 | Every byte of an account payload |
| Layouts.AccountRead | internal/core/codec.go:141-180 | Decoding reads each field of an account from its offset |
| Layouts.FrameLayout | internal/wal/record.go:49-69 | Every byte of a frame: LSN, type, length, payload, and the checksum of all that |
| Layouts.CommitLayout | internal/wal/record.go:71-86 | A commit marker has type 4 and carries its LSN and the number of records |
| Layouts.RecordTypes | internal/wal/record.go:23-31 | Transfers are journaled under type 1, accounts under type 2 |
| Layouts.SnapshotLayout | internal/snapshot/snapshot.go:34-108 | Every byte of a snapshot file: LEDGER03, LSN, counts, rows and checksum at their offsets |
| Layouts.SnapshotRefused | internal/snapshot/snapshot.go:112-135 | A file shorter than 36 bytes is refused as such, otherwise one with a wrong checksum, otherwise one that does not start with LEDGER03, each exactly then |
| Layouts.HandleExactly | internal/engine/ledger.go:633-670 | Replay reads type 2 as an account of 128 bytes and type 1 as a transfer of 144, refuses other lengths and passes over other types |
| SnapshotFile.Write | internal/snapshot/snapshot.go:34-108 | Writes magic, LSN, counted accounts and holds and the checksum |
| SnapshotFile.ReadFile | internal/snapshot/snapshot.go:112-171 | Reads and validates a file with the 64-bit size arithmetic of the source |
| SnapshotFile.ReadWritten | internal/snapshot/snapshot.go:34-171 | Reading what was written gives the LSN, accounts and holds back |
| SnapshotFile.ReadExactly | internal/snapshot/snapshot.go:112-171 | Read crashes if and only if length, checksum and magic are right and the size is right modulo 2^64 but not in fact, and loads a snapshot if and only if they and the size are right |
| SnapshotFile.HugeCountCrashes | internal/snapshot/snapshot.go:136-149 | A file on which it crashes |
| Restart.HandleIsReplay | internal/engine/ledger.go:633-670 | Decoding and handling journaled payloads is replaying the records they carry |
| Restart.CrashRecovery | internal/engine/ledger.go:629-670 | For every run, every way its journal lies in segments and every cut of the last one, recovery rebuilds exactly the ledger after some of its events, among them all whose batches were durable |
| Restart.CrashWhileAppending | internal/wal/wal.go:73-157 | The same for a crash at any moment of any append, before or after the rotations it causes |
| Restart.SnapshotCrashRecovery | internal/engine/ledger.go:610-670 | The same from a snapshot file and a WAL pruned below it: the ledger after the snapshot's events and every durable batch |
| Following.TermsOnlyRise | internal/replication/follower.go:288-297 | Over every run the accepted term only rises, through crashes and re-syncs |
| Following.DeposedPrimaryIsFenced | internal/replication/follower.go:288-336 | A primary below a term accepted at any earlier point of the run gets nothing into WAL or ledger, does not move the position and loses its stream |
| Following.FlushFollows | internal/replication/follower.go:384-435 | Flushing a complete batch journals it once, applies it and keeps the follower in step |
| Following.FrameFollows | internal/replication/follower.go:334-374 | Each frame keeps the follower in step, resent batches included |
| Following.CrashFollows | internal/replication/follower.go:219-242 | A crash at any byte, also while appending, restarts in step with the durable batches when recovery cuts nothing or no segment with a commit begins inside a batch |
| Following.WipeFollows | internal/wal/wal.go:366-390 | A re-sync that stops when the segments it removed, or the ones left, are empty restarts in step |
| Following.FollowerKeepsUp | internal/replication/follower.go:219-435 | For every interleaving of connections, frames, failures, crashes, re-syncs and interrupted re-syncs the WAL holds the first k batches of the primary once each, the ledger is their replay and the position their last commit LSN |
| Following.CaughtUpFollower | internal/replication/follower.go:261-435 | A follower whose stream has delivered the whole log has, closed at the primary's clock, the primary's ledger |
| Following.ServedStreamSuits | internal/replication/server.go:120-167 | The stream served for the position a follower asks for can be used if and only if no segment of the primary ends with the first record of the next batch |
| FollowerLimits.RestartFollowsExactly | internal/replication/follower.go:219-242 | After every run and every crash, the restarted follower is in step with some number of batches if and only if recovery cuts nothing or no segment with a commit begins inside a batch |
| FollowerLimits.InterruptedResyncExactly | internal/wal/wal.go:366-390 | After every run, a re-sync stopped after any number of removals leaves a follower that restarts in step if and only if the removed segments or the ones left are empty |
| FollowerLimits.LargeBatchIsSplit | internal/replication/follower.go:359-373 | The first batch of 4096 records or more, wherever it is in the journal, leaves the WAL ahead of the position when the threshold is reached |
| FollowerLimits.SizeConditionExactly | internal/replication/follower.go:359-373 | All runs of a follower keep in step with the primary if and only if every batch of the journal has fewer than 4096 records |
| FollowerProgress.TermIsGreatest | internal/replication/follower.go:288-301 | After every run the follower's term is the highest of the primaries it accepted, 0 before there was one |
| FollowerProgress.DialExactly | internal/replication/follower.go:262-303 | After every run, dialling a primary opens a stream if and only if no primary accepted before has a higher term; its term is then the follower's and the failures are 0, otherwise nothing changes |
| FollowerProgress.CatchesUp | internal/replication/follower.go:261-435 | From every run that left the follower offline, dialling any primary that is not outranked and delivering the rest of the log is allowed, keeps the stream open and ends with the primary's ledger and position |
| FollowerProgress.BreakerExactly | internal/replication/follower.go:116-132 | Failures in a row below the limit cost nothing and are counted; the one that reaches it empties WAL, ledger and position and resets the count, and the term stays |
| FollowerProgress.FrameExactly | internal/replication/follower.go:334-408 | A frame leaves the stream open exactly when there is nothing to flush or the batch can be journaled and applied |
| FollowerProgress.FrameLeaves | internal/replication/follower.go:334-408 | What a frame leaves: heads and old records change nothing, others wait, a batch is journaled and applied, its marker moves the position |
| FollowerProgress.FrameFails | internal/replication/follower.go:116-132 | A frame that ends the stream drops the batch and counts one failure; position and term stay unless the breaker trips |
| FollowerProgress.RestartForgets | internal/replication/follower.go:80-98 | A restart forgets failures and buffered records and keeps the accepted term |
| FollowerNodes.FollowerNode.Flush | internal/replication/follower.go:384-405 | One group commit and the ledger in place, as the flush step says, failures included, unless a record reopens an open hold |
| FollowerNodes.FollowerNode.FullResync | internal/replication/follower.go:246-254 | Empty WAL, empty ledger, position 0 |
| FollowerNodes.FollowerNode.Fail | internal/replication/follower.go:124-132 | Counts the failure and re-syncs at the limit |
| FollowerNodes.FollowerNode.Handshake | internal/replication/follower.go:262-301 | Refuses a lower term without counting a failure, else accepts the term |
| FollowerNodes.FollowerNode.ReceiveFrame | internal/replication/follower.go:334-375 | One frame in place is one step of the protocol |
| FollowerNodes.FollowerNode.RecoverLocalState | internal/replication/follower.go:219-242 | A restart rebuilds ledger and position from the local WAL |
| FollowerNodes.FollowerCanApply | internal/replication/follower.go:384-435 | A follower in step can apply what it has buffered, and that with the stream's next record |
| FollowerNodes.NodeTakesEveryStep | internal/replication/follower.go:219-435 | In every run the node's next frame, and its restart after any crash or interrupted re-sync, are within what its methods are proved for |
| RingBuffer.SwapMove | internal/engine/ring_buffer.go:50-55 | A successful compare-and-swap claims a number for which there is room |
| RingBuffer.PutMove | internal/engine/ring_buffer.go:56-57 | Writing a claimed slot overwrites no undrained event |
| RingBuffer.PublishMove | internal/engine/ring_buffer.go:58-58 | Publishing makes exactly the owner's event readable |
| RingBuffer.SignalMove | internal/engine/ring_buffer.go:93-101 | Signalling closes the channel a consumer may wait on |
| RingBuffer.ReadMove | internal/engine/ring_buffer.go:119-127 | A slot found ready holds the next claimed event |
| RingBuffer.StepKeepsInv | internal/engine/ring_buffer.go:48-133 | Every atomic step of every producer and of the consumer keeps the invariant |
| RingBuffer.NothingLostNothingMissed | internal/engine/ring_buffer.go:48-133 | For every interleaving the drained events are a prefix of the claimed ones, in order, at most the capacity is outstanding, and a consumer waiting on an open channel with events claimed is owed a signal |
| RingBuffer.AllReadyWhenIdle | internal/engine/ring_buffer.go:103-133 | When no producer is between claim and publication every claimed event lies ready in its slot |
| RingDrain.DrainsExactly | internal/engine/ring_buffer.go:103-133 | An undisturbed DrainBatch returns exactly the next claimed events, at most max, up to the first that is not published, and moves the shared tail by as many; nothing else changes |
| RingDrain.DrainsNothing | internal/engine/ring_buffer.go:103-111 | It returns nothing when max is not positive or nothing is claimed |
| RingDrain.SubmitsExactly | internal/engine/ring_buffer.go:48-66 | An undisturbed Submit with room claims the next number, puts the event into its slot, marks it ready and signals |
| RingDrain.FullRefuses | internal/engine/ring_buffer.go:50-54 | On a full buffer it is refused and nothing else changes |
| RingDrain.ArrivesExactly | internal/engine/ring_buffer.go:69-87 | An undisturbed consumer is made to wait exactly when nothing claimed is left to drain, on the open channel if there is one and on a new one otherwise |
| RingDrain.SubmitWakes | internal/engine/ring_buffer.go:48-101 | An undisturbed Submit wakes a waiting consumer |
| RingBuffer.RefusedExactly | internal/engine/ring_buffer.go:50-54 | Submit refuses if and only if the buffer was full or the consumer has drained past the head it had loaded |
| RingBuffer.EmptyBufferRefuses | internal/engine/ring_buffer.go:50-54 | A run in which an empty buffer refuses an event |
| Idempotency.OperationsKeepUnique | internal/engine/idempotency.go:44-112 | Every operation keeps one entry per key |
| Idempotency.EvictionSparesPending | internal/engine/idempotency.go:125-133 | LRU eviction removes no pending entry, and one entry unless all are pending |
| Idempotency.EvictionEnds | internal/engine/idempotency.go:101-103 | Commit's loop ends if and only if no more entries are pending than the store may hold |
| Idempotency.ReservationExcludes | internal/engine/idempotency.go:44-133 | Through any sequence of operations on other keys, a reserved key stays in conflict until its time is up |
| Idempotency.CommittedIsFound | internal/engine/idempotency.go:83-104 | A committed result is found until it expires if and only if the pending entries leave room for it |
| IdempotencyLaws.LookupIs | internal/engine/idempotency.go:44-59 | An attempt depends on the key's entry alone: free without one or with an expired result, in conflict with a reservation however old, otherwise the stored result |
| IdempotencyLaws.ReserveExactly | internal/engine/idempotency.go:58-80 | What a reservation attempt answers and leaves behind: the newest entry is the reservation or the result found, the others follow in order |
| IdempotencyLaws.EnterExactly | internal/engine/idempotency.go:83-99 | A committed result is the newest entry; the live entries of other keys follow in their order |
| IdempotencyLaws.RollbackExactly | internal/engine/idempotency.go:106-112 | Rollback removes exactly a reservation of its key; a committed result of the key and all other entries stay, in their order |
| IdempotencyLaws.RollbackSparesOthers | internal/engine/idempotency.go:106-112 | No other key notices a rollback |
| IdempotencyLaws.RolledBackIsFree | internal/engine/idempotency.go:44-112 | A key that was reserved and rolled back, whatever happens to other keys in between, can be reserved again |
| IdempotencyLaws.DropExactly | internal/engine/idempotency.go:114-123 | evictExpired drops exactly the longest run of expired entries at the old end |
| IdempotencyLaws.StaleReservationIsFreed | internal/engine/idempotency.go:58-104 | The next reservation or commit of another key frees a reserved key if and only if it is stale and so is everything behind it |
| IdempotencyLaws.ReservationLasts | internal/engine/idempotency.go:76-80 | A reservation is stale exactly from its time plus the ttl on |
| IdempotencyLaws.CommitKeepsRecent | internal/engine/idempotency.go:83-104 | A commit keeps all reservations and the most recent results that fit beside them |
| IdempotencyLaws.EvictedOldest | internal/engine/idempotency.go:125-133 | Eviction takes exactly the oldest committed entries |
| IdempotencyLaws.ResultSurvives | internal/engine/idempotency.go:44-112 | A valid result is found through any operations on other keys while there is room for them |
| IdempotencyLaws.ResultExpires | internal/engine/idempotency.go:83-104 | A committed result is found for exactly the ttl, and then its key is free |
| IdempotencyStores.IdempotencyStore.InsertHead | internal/engine/idempotency.go:143-153 | The entry becomes the head; prev and next stay inverse along the list |
| IdempotencyStores.IdempotencyStore.Unlink | internal/engine/idempotency.go:155-167 | Exactly the entry leaves the list; prev and next stay inverse |
| IdempotencyStores.IdempotencyStore.Touch | internal/engine/idempotency.go:135-141 | The entry moves to the front, the others keep their order |
| IdempotencyStores.IdempotencyStore.Remove | internal/engine/idempotency.go:169-173 | The entry leaves list, map and count together |
| IdempotencyStores.IdempotencyStore.EvictExpired | internal/engine/idempotency.go:114-123 | Drops exactly the expired entries behind the last live one |
| IdempotencyStores.IdempotencyStore.EvictLRU | internal/engine/idempotency.go:125-133 | Drops the oldest entry that is not pending |
| IdempotencyStores.IdempotencyStore.Claim | internal/engine/idempotency.go:65-74 | A pending entry conflicts, a live result moves to the front and is returned, a stale one is removed |
| IdempotencyStores.IdempotencyStore.ReserveLocked | internal/engine/idempotency.go:58-80 | Decides and reserves as specified, list, map and count in agreement |
| IdempotencyStores.IdempotencyStore.CheckAndReserve | internal/engine/idempotency.go:44-81 | Conflict, earlier result or reservation |
| IdempotencyStores.IdempotencyStore.Rollback | internal/engine/idempotency.go:106-112 | Removes exactly a pending entry of the key |
| IdempotencyStores.IdempotencyStore.Commit | internal/engine/idempotency.go:83-104 | Ends with at most maxSize entries, the specified ones |
| Words.CompareExact | internal/core/uint128.go:45-59 | Comparison of words orders them as numbers |
| Words.AddExact | internal/core/uint128.go:24-31 | Word addition is 128-bit addition, overflow reported exactly |
| Words.SubExact | internal/core/uint128.go:33-43 | Word subtraction is exact, underflow reported exactly |
| Words.MulExact | internal/core/uint128.go:122-130 | Multiplication by a word is exact, overflow reported exactly |
| Words.FromString | internal/core/uint128.go:69-93 | Succeeds exactly on non-empty digit strings below 2^128 with their value; overflow wins over a later invalid byte |
| Words.DecimalRoundTrip | internal/core/uint128.go:69-103 | Parsing the decimal text of any number gives it back, and a parsed string is the decimal text of its value if and only if it has no superfluous leading zero |
| Words.BinaryRoundTrip | internal/core/uint128.go:105-120 | The binary form is the big-endian number and reads back exactly |

## Left out

- Replaying.ReplayRebuildsLive: about runs in which no deadline wraps and the batch clock stays below the largest 64-bit number; RunReplaysExactly drops the first condition, and the statements about crashes, snapshots and followers keep both.
- Snapshots.SnapshotRestart: speaks of accounts and open holds; a snapshot carries no transfer index and no histories, so ids of settled transfers can be used again after a restart.
- Lifetimes.LifeReplays: restarts replay the journal from its beginning; restarts from a snapshot are the subject of SnapshotRestart and SnapshotCrashRecovery.
- RecoveringAgain.RecoverAgain: segments of at most 64 KiB, on which the peek is exact; a start of 0 is the subject of RecoveredDisk.
- Skipping.PeekExact: segments of at most 64 KiB; on larger ones the peek is a heuristic.
- Wals.Wal.WriteBuffered: frame ends are unbounded numbers here and 32-bit in the source, so buffers of 2 GiB and more are not modelled.
- Streaming.StreamReader.Next: the files and the synced offset do not change during one call.
- Streams.StreamAtRest: segments of at most 64 KiB, as the listing peeks at tails.
- Following.FollowerKeepsUp: primary batches below 4096 records, streams that start at or before the next batch, crashes that leave restartable files, and re-syncs not stopped between segments with records; SizeConditionExactly, RestartFollowsExactly and InterruptedResyncExactly prove the conditions on sizes, crashes and re-syncs exact, and ServedStreamSuits says exactly when a primary at rest serves such a stream.
- FollowerNodes.FollowerNode.ReceiveFrame: says what the new state is when no record reopens an open hold, which NodeTakesEveryStep proves for a primary's journal; payloads are decoded before the first of them is applied.
- Loop.Recover: says what the new state is when no record reopens an open hold; otherwise the manager is only known to be well formed, as its heap has a stale entry.
- Loop.EventLoop.Process: journals into a list of batches; module Restart relates such lists to the bytes of the WAL.
- IdempotencyStores.IdempotencyStore.Commit: asks that its eviction loop ends; EvictionEnds says exactly when it does.
- IdempotencyStores.IdempotencyStore.CheckAndReserve: nothing happens between its two locked sections; what other calls do in between is covered by the contract of ReserveLocked, which holds in any state.
- RingBuffer.NothingLostNothingMissed: sequence numbers below 2^64; memory is sequentially consistent, as Go's atomics are.
- Errors of the file system and of fsync, preallocation and direct I/O: a file is a byte sequence with a synced length.
- CRC32 arithmetic and the detection of flipped bits.
- The idempotency commit of the replay handler, and acknowledgements to clients.
- Positional results of account creation requests; client batches that the batcher splits or joins.
- Leader terms on the primary's side (BumpTerm), the follower's lag, and accounts passed to NewFollower.
- Checkpoint records, segment file naming, choosing the latest snapshot and deleting old ones.
- gRPC and REST handlers, TLS, sockets, backoff timers, configuration, metrics, the auditor, pagination of account transfers, the batcher's timing: no untimed state of their own, or easy members only.
