# Verification model of the explorer's indexer and data layer

This project models, in Dafny, the parts of the block explorer where state, concurrency and arithmetic
meet, and proves what they keep. `dafny verify dfyconfig.toml` checks everything.

## What is modelled

**The indexer of one network.** The chain is an immutable function from block number to projected
rows (`Chain`). The projections of balance events, touched accounts and ATS events are in `Movements`,
`Touched` and `Ats`. `Sink` runs the writes of one block in the source's order on a working copy and
commits all of them or none; `KeyedRows` and `Snapshots` say what the insert and upsert statements do
to keyed tables. `GapSplit` and `ChunkQueue` are the backfill plan and its leased work queue. `Workers`
holds the two worker loops as classes, and `Indexer` the whole protocol as a state machine: one live
worker, any number of backfill workers and seeders, commits, crashes, restarts, clock ticks, expired
leases and steals, in any interleaving. `Workers` proves that a turn of each loop is a run of that
machine; `Replay`, `AtsHistory`, `AtsOrder` and `AtsRefusals` (when the order of ATS commits matters, and
when a commit is refused), `StoredMovements` (what the conflict key leaves of a block's movements) and
`IndexerRuns` state what holds in every run. `TableContents` and `AtsContents` read the tables off the
chain: which rows are there, under which keys, with which fields.

**Serving.** `PendingBuffer` is the bounded tip buffer with its two incrementally kept indexes (`Hex`
decodes its hash strings). `Decimal` and `Cursor` are the printers and parsers of the six cursors on
strings. `EventFeed` is the event feed that walks blocks backwards, `ExtrinsicPage` the page merged from
buffer and database, both over the list vocabulary of `Feeds`. `Vesting` and `TokenSupply` are the
allocation arithmetic on u128 with its saturation.

**Sessions.** `Session` is the server's receiver loop with its frame budget, subscribe cap and forwarder
map; `LiveSocket` the browser's reconnect logic, where events of any socket ever created may arrive in
any order.

Code that updates state is a class or a method with the source's loops, proved equal to a function of
its inputs or old state; the theorems are about those functions. Rust integer widths are written out
where they can be reached: saturating u32, u64 and u128, casts to i32, i64 and i128, and a wrapping
negation.

## What the proofs turned up

- Running a block again is not always a no-op, and the ATS tables depend on the order of commits, although
  the module text of src/indexer/sink.rs (lines 18-22) says otherwise. When the creation of an id is
  committed, or committed again, after its revocation, the revoked row is back. The normal boot,
  live head first and backfill below it, is such an order (`BootOrderRevives`). `AtsOrderIrrelevantIff`,
  `RerunIsNoopIff` and `AtsAgreesWithSequentialIff` say exactly when the order does not matter.
- With no stored cursor the live worker starts at whatever head it sees. A head that fails before the first
  live commit is not retried, although the log line of src/indexer/live.rs says "will retry on next head":
  if that commit is more than one past the largest seeded head, the blocks between stay missing with the
  queue drained, until a seeding at a higher head (`BackfillAndLiveMeet`, `LateStartLeavesGap`).
- A block that updates an ATS id cannot be committed after the id's creation and revocation, so its chunk
  returns to pending for ever, although src/indexer/backfill.rs (lines 261-265) counts on failures being transient; only
  committing the creating block again lets it through (`CommitsIff`, `RefusedKeepsQueueOpen`,
  `UpdateIsRefused`).
- A block that writes an ATS id again after revoking it would lose that write (`BatchIsFoldIff`); a pallet
  that never reuses ids emits no such block.
- `seed_chunks` compares block numbers with the head as an i64, so a head of 2^63 or more finds nothing
  indexed and is planned whole (`PlanExactIff`). The pure split, given a list, offers a present block again
  only at the largest u64 (`SplitExactIffNotSaturated`); through the queue that case does not occur.
- `mark_chunk_done` and `mark_chunk_failed` do not check who holds the chunk; a holder that overran its
  lease reopens a done chunk, and nothing else does (`DoneReopenedIff`, `StaleHolderReopensDone`). The
  history stays complete all the same.
- A stored version of 2^31 - 1 or more breaks the version count (`UpdateConsistentIff`).
- A transfer to oneself stores only its debit, so the stored rows of a block cancel iff every self-transfer
  moves nothing (`StoredBalanceIff`). Before storing, a transfer of exactly 2^127 is all that does not cancel
  (`MovementsBalanceIff`).
- The documentation of src/indexer/projections/accounts.rs promises every account named by a balance
  event; the destination of a repatriated reserve is not collected (`NamedAreTouchedIff`). The model follows
  the code.
- The module text of src/indexer/projections/ats.rs speaks of an updating upsert for the registry;
  src/indexer/sink.rs does nothing on a conflict, and the model follows it.
- Cursors accept a leading plus sign and leading zeros. The extrinsic query casts the bound to BIGINT and
  INT, so a cursor index of 2^31 or more selects fewer rows than it says (`BoundExactIff`).
- `has_more` of the merged page is false although the buffer has more rows, when the database has none
  (`ExtrinsicPage.HasMoreExactIff`); a walk loses rows by it at its first page only (`WalkIsCombinedIff`).
  Buffered inherents stay hidden under filters that show stored ones, save for copies already stored that
  lie below the rest of the buffer (`OverlapIsInvisibleIff`).
- The tip buffer does not expect two blocks of one number, as a fork brings: a hash resolves rightly iff the
  last block that has it is the last of its number (`HashLookupExactIff`).
- The frame budget is per fixed window: 40 frames can pass within two milliseconds although the comment
  says 20 per rolling second (`FortyPerRollingSecond`, `BurstIsServed`). `PerRollingSecond` gives a
  condition on the frames around a renewal under which 20 holds.
- In the browser, `open` never finds a socket still current, so it always reports "connecting"; the
  branch of the close handler for a deliberate close is never taken; an empty network name is not
  reconnected (`CloseReconnectsIff`); and, against the module text, a network opened after a dispose keeps
  the old network's frames (`MixedIff`).

## Model

| member | source | states |
|---|---|---|
| `GapSplit.PushChunkedLoop` | src/indexer/backfill.rs:125-136 | the inner loop terminates and appends the slices of one gap, stopping at the first slice that reaches its end |
| `GapSplit.SplitGapsIntoChunks` | src/indexer/backfill.rs:98-120 | the two loops compute `Split`, for any list, sorted or not, including a saturated cursor |
| `GapSplit.PushChunkedTiles` | src/indexer/backfill.rs:125-136 | the slices of one gap ascend, do not overlap, are at most `chunk_size` wide and hold exactly its blocks |
| `GapSplit.GapsAreMaximalRuns` | src/indexer/backfill.rs:98-120 | for an ascending list the gaps are the maximal runs of missing blocks, each touching a present block or an end of `[0, head]`, and together all of them |
| `GapSplit.SplitTilesAndCovers` | src/indexer/backfill.rs:98-120 | chunks ascend, are disjoint, lie in `[0, head]`, are at most `chunk_size` wide and cover every missing block, even for unsorted input |
| `GapSplit.SplitExactIffNotSaturated` | src/indexer/backfill.rs:98-120 | for ascending input the chunks hold exactly the missing blocks iff the head is not the largest u64 with that block present; then a present block is offered again (the pure function alone: the queue never passes it such a list) |
| `GapSplit.SplitCount` | src/indexer/backfill.rs:98-120 | the number of chunks is the sum over the maximal gaps of ceil(gap / chunk_size) |
| `ChunkQueue.Queue.SeedChunks` | src/indexer/backfill.rs:143-204 | inserts one pending row per planned range that has no row yet and counts the new rows |
| `ChunkQueue.Queue.ClaimChunk` | src/indexer/backfill.rs:213-241 | takes the claimable, unlocked chunk with the smallest id and leases it for 300 seconds; none only if none is claimable and unlocked |
| `ChunkQueue.Queue.MarkChunkDone` | src/indexer/backfill.rs:245-259 | sets the chunk to done whoever asks |
| `ChunkQueue.Queue.MarkChunkFailed` | src/indexer/backfill.rs:266-281 | sets the chunk back to pending whoever asks |
| `ChunkQueue.Queue.OpenChunkCount` | src/indexer/backfill.rs:300-310 | counts the pending and running chunks |
| `ChunkQueue.PlanCovers` | src/indexer/backfill.rs:143-204 | planning from the indexed blocks leaves no block up to the head neither indexed nor planned, whatever the head |
| `ChunkQueue.PlanExactIff` | src/indexer/backfill.rs:143-204 | the plan holds exactly the missing blocks iff the head fits an i64 or no block up to it is indexed: from 2^63 on the bound of the query is negative and nothing is read |
| `ChunkQueue.InsertRangesExtends` | src/indexer/backfill.rs:143-204 | inserting keeps every existing row and its id, adds pending rows only, leaves every planned range with a row and never two rows for one range |
| `ChunkQueue.NothingOpenMeansAllDone` | src/indexer/backfill.rs:300-310 | the open count is zero iff every chunk is done |
| `ChunkQueue.OpenCountIs` | src/indexer/backfill.rs:300-310 | the open count is the number of chunks that are pending or running |
| `KeyedRows.InsertAbsentKeepsOld` | src/indexer/sink.rs:110-163 | an insert with DO NOTHING keeps every existing row and, for a key listed twice, the first new row |
| `KeyedRows.HoldsInsert` | src/indexer/sink.rs:60-94 | inserting the rows of a block, for the first time or again, turns a table of a set of blocks into the table of that set plus the block |
| `KeyedRows.HoldsUnique` | src/indexer/sink.rs:110-163 | the set of inserted blocks alone determines the table |
| `Sink.InsertRows` | src/indexer/sink.rs:110-163 | splitting the rows over several statements under the bind limit inserts the same rows as one statement |
| `Sink.Transaction.InsertBlock` | src/indexer/sink.rs:60-94 | inserts the block row if absent and reports whether it was new |
| `Sink.Transaction.InsertExtrinsics` | src/indexer/sink.rs:110-163 | inserts the extrinsic rows that are absent |
| `Sink.Transaction.InsertEvents` | src/indexer/sink.rs:169-211 | inserts the event rows that are absent |
| `Sink.Transaction.InsertBalanceMovements` | src/indexer/sink.rs:221-260 | inserts the movement rows that are absent |
| `Sink.Transaction.ApplyAccountSnapshots` | src/indexer/sink.rs:283-376 | upserts the snapshots slice by slice, and fails iff one slice names an account twice |
| `Sink.Transaction.ApplyAts` | src/indexer/sink.rs:462-543 | inserts, bumps and deletions in that order; fails iff a new version has no registry row |
| `Sink.Transaction.BumpLiveCursor` | src/indexer/sink.rs:549-574 | the cursor only moves up |
| `Sink.Database.IndexBlock` | src/indexer/live.rs:147-218 | one block in one transaction: either the whole effect of `Commit` and the cursor bump, or nothing |
| `Snapshots.MergeRepresents` | src/indexer/sink.rs:283-376 | merging a reading by CASE, GREATEST and LEAST turns a row that stands for a set of blocks into the row of that set plus the reading's block, wherever it falls |
| `Snapshots.RepresentsUnique` | src/indexer/sink.rs:283-376 | balances at the highest block, largest nonce, smallest first-seen and largest last-activity determine the row |
| `Snapshots.WritesCommute` | src/indexer/sink.rs:283-376 | two write orders of the same readings, with any repetitions, leave the same row |
| `Snapshots.DistinctUpsertSucceeds` | src/indexer/sink.rs:283-376 | with distinct accounts no slice fails and the slicing does not show |
| `Snapshots.AccountsHoldUpsert` | src/indexer/sink.rs:283-376 | writing the snapshots of a block adds it to exactly the touched accounts |
| `Replay.CommitOrderIrrelevant` | src/indexer/sink.rs:60-376 | any sequence of commits leaves the five row tables of the ascending, repetition-free one |
| `Replay.BlocksHeld` | src/indexer/sink.rs:60-94 | exactly the committed blocks have a block row, and it is the chain's |
| `TableContents.ExtrinsicsHeld` | src/indexer/sink.rs:110-163 | the extrinsics stored are one per extrinsic of an indexed block, under block and position, stamped with the block's time |
| `TableContents.EventsHeld` | src/indexer/sink.rs:169-211 | likewise the events |
| `TableContents.MovementsHeld` | src/indexer/sink.rs:221-260 | one movement per account that an event of an indexed block moves value from or to, with its signed amount, stored code and counterparty |
| `TableContents.AccountsHeld` | src/indexer/sink.rs:283-376 | an account has a row iff an indexed block has an event touching it, an extrinsic it signed, or is genesis and endows it; the row is that of these blocks |
| `Replay.ReplayAllSplits` | src/indexer/live.rs:147-218 | the row tables of a replay do not depend on the ATS tables, and it succeeds iff the ATS replay does |
| `Movements.ProjectLoop` | src/indexer/projections/balances.rs:252-515 | the loop produces the rows of every event in order |
| `Movements.ProjectBlock` | src/indexer/projections/balances.rs:535-563 | the event loop fills the movements and the touched list, event positions counting skipped events |
| `Movements.ProjectedIff` | src/indexer/projections/balances.rs:252-515 | the rows are exactly those that book an event: the payer's debit and the receiver's credit of a two-sided one, with the other as counterparty, and one signed row of any other, each under its stored code |
| `Movements.BlockRowsIff` | src/indexer/projections/balances.rs:535-563 | the same from the block's raw events: each at its position among all events, a repatriated reserve booked on its source |
| `Movements.PairCancelsIff` | src/indexer/projections/balances.rs:252-515 | the two rows of a transfer cancel iff the amount is not 2^127, where the i128 cast and negation wrap |
| `Movements.MovementsBalanceIff` | src/indexer/projections/balances.rs:252-515 | for any list of events with u128 amounts the two-sided rows sum to zero iff no two-sided event moves exactly 2^127 |
| `Movements.SingleRowsAreSigned` | src/indexer/projections/balances.rs:76-131 | a row without a counterparty carries its event's amount and account, positive iff its stored kind is one of those that gain |
| `Movements.KeysDistinctIff` | src/indexer/projections/balances.rs:252-515 | with distinct event indexes the (event index, account) keys are distinct iff no two-sided event pays its own source |
| `StoredMovements.StoredSumIs` | src/indexer/sink.rs:221-260 | with distinct event indexes and amounts below 2^127 the two-sided rows that the conflict key leaves sum to minus the total paid to oneself |
| `StoredMovements.SelfDebitStored` | src/indexer/sink.rs:221-260 | of a transfer to oneself it is the debit that is stored |
| `StoredMovements.StoredBalanceIff` | src/indexer/sink.rs:221-260 | the stored rows of a block of the chain cancel iff every self-transfer in it moves nothing |
| `StoredMovements.HeldRowsOfBlock` | src/indexer/sink.rs:221-260 | in a table filled from any set of blocks, an indexed block has exactly the rows it leaves by itself |
| `Movements.MovedAccountsAreTouched` | src/indexer/projections/balances.rs:582-875 | every account and counterparty of a movement row is in the touched list of the same events |
| `Movements.NamedAreTouchedIff` | src/indexer/projections/balances.rs:582-875 | every account that a balance event of the block names is touched iff the destination of every repatriated reserve is in the touches of some event of the block |
| `Touched.CollectTouchedLoop` | src/indexer/projections/accounts.rs:45-65 | the two loops with the seen-set compute the first occurrences of event accounts, then signers |
| `Touched.FirstTouchOrders` | src/indexer/projections/accounts.rs:45-65 | the result has no duplicates, the same accounts, in the order of their first occurrence |
| `Chain.MovedAccountsAreSnapshotted` | src/indexer/projections/accounts.rs:45-65 | every account with a movement row in a block is snapshotted for it exactly once, together with every touched account and signer |
| `Ats.ProjectLoop` | src/indexer/projections/ats.rs:133-190 | the loop distributes the events over the four lists, later versions being cast to i32 |
| `Ats.ProjectKeys` | src/indexer/projections/ats.rs:133-190 | the rows written are those of the created ids and of the created and updated versions |
| `Ats.ApplyAtsConsistent` | src/indexer/sink.rs:462-543 | a block that commits keeps every version under a registry row and every count one above the highest stored version, keeps creation data and never lowers a surviving count |
| `Ats.ApplyAtsSucceedsIff` | src/indexer/sink.rs:462-543 | a block commits its ATS writes iff every version it newly stores has its registry row, stored before or created in the block |
| `Ats.UpdateConsistentIff` | src/indexer/sink.rs:462-543 | a new version keeps the tables consistent iff its successor fits the INT column (version below 2^31 - 1) |
| `AtsHistory.ReplayConsistent` | src/indexer/sink.rs:462-543 | consistency holds after any successful sequence of commits, in any order and with gaps |
| `AtsHistory.EventStepIsCommit` | src/indexer/sink.rs:462-543 | a block of one event commits to what the event means: created and updated rows are written if absent, a revocation deletes the id with its versions |
| `AtsHistory.BatchIsFoldIff` | src/indexer/sink.rs:462-543 | a block whose events succeed one by one commits as a batch, and leaves what they leave iff it writes no id again after revoking it: the batch deletes last |
| `AtsHistory.BlockIsFold` | src/indexer/sink.rs:462-543 | in particular when the events are a pallet's: ids never reused, each update the next version of a live id, only live ids revoked |
| `AtsHistory.AscendingReplayIsEventFold` | src/indexer/sink.rs:462-543 | committing any history in block order leaves what its events leave one by one, provided no block writes an id again after revoking it |
| `AtsHistory.AscendingReplayIsFold` | src/indexer/sink.rs:462-543 | for a pallet history (ids never reused, consecutive versions of live ids, revocations of live ids) block order always succeeds and computes the pallet's tables |
| `AtsContents.AtsRowsAreEvents` | src/indexer/projections/ats.rs:133-190 | after any successful commits a registry row has the owner, block and extrinsic of a committed creation, and a version row those, the commitment and the protocol of a committed event that writes the version |
| `AtsOrder.WrittenOnce` | src/indexer/sink.rs:462-543 | no two blocks of a pallet history write the same version |
| `AtsOrder.RevocationEnds` | src/indexer/sink.rs:462-543 | no block of a pallet history writes an id that an earlier one revoked |
| `AtsOrder.StandingRows` | src/indexer/sink.rs:462-543 | after commits in any order the rows of an id are those of the blocks that write it and are not followed by its revocation |
| `AtsOrder.SameTablesIff` | src/indexer/sink.rs:462-543 | two successful logs of a pallet history, in any order, with gaps and repetitions, end in equal tables iff the same blocks stand for every id |
| `AtsOrder.AtsOrderIrrelevantIff` | src/indexer/sink.rs:18-22 | a successful log ends in the tables of its ascending, repetition-free form (which always succeeds) iff every block that writes a revoked id is followed by, or is, a block that revokes it |
| `AtsOrder.RerunIsNoopIff` | src/indexer/sink.rs:18-22 | committing a block again changes nothing iff every id it writes still stands by it and nobody has written an id it revokes since |
| `AtsOrder.RevocationFreeConverges` | src/indexer/sink.rs:462-543 | two successful logs of the same blocks, none of which revokes, end in equal tables |
| `AtsOrder.LateCreateDoesNotCommute` | src/indexer/sink.rs:18-22 | create and revoke: committed as revoke, create, or as create, revoke, create, the row is there; in block order it is not |
| `Indexer.SeedReadKeeps` | src/indexer/backfill.rs:143-204 | planning keeps the invariant: every block up to the head is indexed or in the plan |
| `Indexer.SeedInsertKeeps` | src/indexer/backfill.rs:143-204 | inserting a plan, however late and whatever was indexed or inserted since, keeps the invariant |
| `Indexer.ClaimKeeps` | src/indexer/backfill.rs:213-241 | claiming, also by stealing an expired lease, keeps the invariant |
| `Indexer.BackfillCommitKeeps` | src/indexer/backfill.rs:417-473 | a backfill commit keeps the invariant, also by a holder that lost its lease |
| `Indexer.RetireKeeps` | src/indexer/backfill.rs:365-408 | retiring a chunk, by its holder or by a stale one, keeps "done means every block committed" |
| `Indexer.LiveCommitKeeps` | src/indexer/live.rs:147-218 | a live commit extends the contiguous live range by one block, or starts it |
| `Indexer.BlocksAreCommitted` | src/indexer/live.rs:147-218 | the block table lists exactly the committed blocks, each with the chain's header |
| `Indexer.StepKeepsInv` | src/indexer/backfill.rs:417-473 | every step of every party keeps the invariant |
| `Indexer.InvAlways` | src/indexer/backfill.rs:365-408 | the invariant holds in every reachable state |
| `IndexerRuns.ConcurrentRefinesSequential` | src/indexer/sink.rs:60-376 | in every reachable state of every interleaving the five row tables equal committing each indexed block once in ascending order |
| `IndexerRuns.ExtrinsicsAndEventsAreTheChains` | src/indexer/sink.rs:110-216 | in every reachable state the extrinsics and events stored are those of the indexed blocks, each under its block and position |
| `IndexerRuns.MovementsAreTheChains` | src/indexer/sink.rs:221-260 | in every reachable state the movements stored are those the events of the indexed blocks report |
| `IndexerRuns.AccountsAreTheChains` | src/indexer/sink.rs:283-376 | in every reachable state the accounts stored are those the indexed blocks take readings of, with the readings of the highest such block |
| `IndexerRuns.AtsRowsAreTheChains` | src/indexer/sink.rs:462-543 | in every reachable state each ATS row carries the fields of an event of an indexed block |
| `IndexerRuns.AccountRowsAreLatest` | src/indexer/sink.rs:283-376 | in every reachable state an account has a row iff an indexed block touched it, with the balances of the highest such block and the extreme nonce and activity values |
| `IndexerRuns.DrainedQueueMeansCompleteHistory` | src/indexer/backfill.rs:143-311 | after seeding at a head each missing block up to it is in a chunk that is not done, so an empty queue means all of `[0, head]` is indexed |
| `IndexerRuns.RunsAdvance` | src/indexer/sink.rs:549-574 | along any run history only grows, the cursor never falls and the first live commit stays |
| `IndexerRuns.LiveProgressHasNoHoles` | src/indexer/live.rs:82-132 | across crashes and restarts every block from the first live commit to the stored cursor is indexed |
| `IndexerRuns.LiveNeverSkips` | src/indexer/live.rs:82-132 | a live commit is the block right after the stored cursor; when nothing is stored it is the head then seen, and earlier failed heads are forgotten |
| `IndexerRuns.BackfillAndLiveMeet` | src/indexer/live.rs:100-117 | with the queue drained the blocks missing up to the cursor are exactly those above the largest seeded head and below the first live commit, so none is missing iff that commit was at most one past the head |
| `IndexerRuns.LateStartLeavesGap` | src/indexer/live.rs:100-117 | a run with such a gap: head 0 seeded and drained, the heads 0 and 1 fail live, head 2 is stored, block 1 is missing |
| `AtsRefusals.CommitsIff` | src/indexer/sink.rs:462-543 | after any successful log of a pallet history a block commits iff every id it writes is created in it, or the block that created it is committed and not followed by a revocation |
| `AtsRefusals.RefusedStays` | src/indexer/sink.rs:462-543 | a refused block stays refused whatever else is committed, until a block that creates an id it writes is committed again |
| `AtsRefusals.RevokedBeforeUpdate` | src/indexer/sink.rs:462-543 | create, update, revoke: a pallet history whose update is refused once the other two are committed |
| `IndexerRuns.RefusedKeepsQueueOpen` | src/indexer/backfill.rs:261-265 | in every run such a block stays missing and keeps the queue open at every seeded head above it, until then |
| `IndexerRuns.UpdateIsRefused` | src/indexer/backfill.rs:261-265 | such a run: the holder of the update cannot commit it and its chunk goes back to pending |
| `IndexerRuns.AtsAlwaysConsistent` | src/indexer/sink.rs:462-543 | the ATS tables are consistent in every reachable state |
| `IndexerRuns.AtsCountNeverFalls` | src/indexer/sink.rs:462-543 | no step lowers the version count of a registry row that survives it |
| `IndexerRuns.AtsAgreesWithSequentialIff` | src/indexer/sink.rs:18-22 | in every reachable state of a pallet history the ATS tables equal sequential indexing of the same blocks iff no revoked id was written after its last revocation |
| `IndexerRuns.BootOrderRevives` | src/indexer/sink.rs:18-22 | a run in the order of a normal boot, the live head first and the backfill below it, that ends drained and complete with a revoked row still there |
| `IndexerRuns.StoredMovementsCancelIff` | src/indexer/sink.rs:221-260 | in every reachable state the stored movements of an indexed block cancel iff every self-transfer in it moves nothing |
| `IndexerRuns.LeasesAreExclusive` | src/indexer/backfill.rs:213-281 | if every holder retires or dies within its lease, at most one worker holds a chunk at any time and a done chunk is never claimed or reopened |
| `IndexerRuns.DoneReopenedIff` | src/indexer/backfill.rs:266-281 | the only step that reopens a done chunk is a failure report by a holder of that chunk |
| `IndexerRuns.StaleHolderReopensDone` | src/indexer/backfill.rs:266-281 | such a run exists: overrun, steal, index, retire, then the first holder reports failure |
| `Workers.LiveWorker.ObserveHead` | src/indexer/live.rs:82-132 | after one turn of the watch loop the block after the stored cursor, or the head if none is stored, is above the head, faulty or cannot be committed; what the turn added are the commits up to there, in order |
| `Workers.BackfillWorker.IndexChunk` | src/indexer/backfill.rs:410-415 | indexes the range in order up to the first failure and reports success iff it got through |
| `Workers.BackfillWorker.RunOnce` | src/indexer/backfill.rs:365-408 | one turn takes the first unlocked chunk that is pending or whose lease ran out, and none only if there is none; the chunk ends done iff no block of it is faulty and all can be committed, and then all are indexed, else pending |
| `Workers.AdvanceIs` | src/indexer/live.rs:82-132 | indexing a range commits exactly the blocks before the first that is faulty or cannot be committed |
| `Workers.AdvanceCompletesIff` | src/indexer/backfill.rs:410-415 | it gets through iff no block is faulty and all can be committed in order |
| `Workers.LiveTurnIsRun` | src/indexer/live.rs:82-132 | a turn of the live loop is a run of that many live commits of the protocol, with the same tables and cursor |
| `Workers.BackfillTurnIsRun` | src/indexer/backfill.rs:365-408 | a turn of the backfill loop is a claim, a run of commits and a retirement of the protocol, with the same tables and queue |
| `Hex.HexRoundTrip` | src/data/ss58.rs:114-119 | a printed hash decodes to itself, with or without 0x |
| `Hex.DecodeHex32Iff` | src/data/ss58.rs:114-119 | exactly the strings of 64 hex digits after an optional 0x decode, in either case, and to the hash that prints as their lower-case form |
| `Hex.DigitIff` | src/data/ss58.rs:114-119 | a digit is one of the sixteen, in either case |
| `Hex.DecodedBytes` | src/data/ss58.rs:114-119 | each byte is a pair of digits, the high half first |
| `PendingBuffer.PendingBuffer.AppendBlock` | src/indexer/buffer.rs:137-159 | appends, evicting the front at 64 blocks, hands out the transfers in order, and leaves both indexes equal to a rebuild |
| `PendingBuffer.PendingBuffer.AdvanceFinalized` | src/indexer/buffer.rs:164-177 | drops the front blocks up to the number, raises the finalized head and leaves both indexes equal to a rebuild |
| `PendingBuffer.PendingBuffer.ReindexPositions` | src/indexer/buffer.rs:226-231 | the number index equals the last-wins map of the deque |
| `PendingBuffer.PendingBuffer.RebuildXtIndex` | src/indexer/buffer.rs:238-247 | the hash index equals the last-wins map of the deque's extrinsics |
| `PendingBuffer.PendingBuffer.ExtrinsicByBlockIdx` | src/indexer/buffer.rs:192-196 | looks up through the number index |
| `PendingBuffer.PendingBuffer.ExtrinsicByHash` | src/indexer/buffer.rs:183-186 | looks up through both indexes |
| `PendingBuffer.Run` | src/indexer/buffer.rs:137-177 | after any sequence of appends and advances the indexes equal the rebuilt ones and at most 64 blocks are held |
| `PendingBuffer.AfterIsRecentSuffix` | src/indexer/buffer.rs:137-177 | the deque is the most recently appended blocks, in order, never more than 64 |
| `PendingBuffer.StillBufferedIff` | src/indexer/buffer.rs:137-177 | of blocks appended in ascending order one is still buffered iff fewer than 64 were appended after it and no later call finalized it |
| `PendingBuffer.DropFinalizedExactIff` | src/indexer/buffer.rs:164-177 | exactly the finalized blocks go iff none of them stands behind one that is not finalized |
| `PendingBuffer.ByNumberIsLast` | src/indexer/buffer.rs:226-231 | a number is indexed iff a buffered block has it, at the position of the last such block |
| `PendingBuffer.LookupAtIff` | src/indexer/buffer.rs:192-196 | a lookup by number and index finds an extrinsic iff the last block of the number has one of that index, and then the first such |
| `PendingBuffer.ByHashKnows` | src/indexer/buffer.rs:238-247 | a hash is indexed iff a buffered extrinsic has it |
| `PendingBuffer.ByHashIsLast` | src/indexer/buffer.rs:238-247 | the entry of a hash is an extrinsic of the last block that has it |
| `PendingBuffer.HashLookupExactIff` | src/indexer/buffer.rs:183-186 | a buffered hash resolves to an extrinsic that has it iff the last block with the hash is the last block of its number; it is then one of that block |
| `PendingBuffer.UnknownHashNotFound` | src/indexer/buffer.rs:183-186 | a hash that is not buffered is not found |
| `PendingBuffer.HashLookupIff` | src/indexer/buffer.rs:183-186 | with distinct block numbers and indexes a hash lookup succeeds iff a buffered extrinsic has the hash, and returns one from the latest block that has it |
| `PendingBuffer.ForkMisleadsHashLookup` | src/indexer/buffer.rs:183-186 | otherwise the answer is whatever the last block of that number has at the same index, an extrinsic with another hash or none |
| `Decimal.ParseIff` | src/data/cursor.rs:101-108 | `parse::<u64>` and `parse::<u32>` accept exactly an optional plus sign and one or more digits whose value fits |
| `Decimal.ParsePrinted` | src/data/cursor.rs:93-97 | a printed number parses to itself |
| `Decimal.PrintedIff` | src/data/cursor.rs:93-97 | the printed form of a number is its one numeral without sign and superfluous zeros |
| `Cursor.SingleAcceptsIff` | src/data/cursor.rs:99-108 | block and ATS cursors accept exactly one numeral in range |
| `Cursor.PairAcceptsIff` | src/data/cursor.rs:125-139 | extrinsic and transfer cursors accept exactly two numerals in range joined by a dash |
| `Cursor.EventAcceptsIff` | src/data/cursor.rs:233-259 | event cursors accept exactly a block, one of the letters I, A, F and an index, joined by dashes |
| `Cursor.FeedAcceptsIff` | src/data/cursor.rs:308-335 | ATS feed cursors accept exactly three numerals in range joined by dashes |
| `Cursor.SingleRoundTrip` | src/data/cursor.rs:270-285 | parsing a printed block or ATS cursor returns it |
| `Cursor.PairRoundTrip` | src/data/cursor.rs:119-172 | parsing a printed extrinsic or transfer cursor returns it |
| `Cursor.EventRoundTrip` | src/data/cursor.rs:227-259 | parsing a printed event cursor returns it |
| `Cursor.FeedRoundTrip` | src/data/cursor.rs:302-335 | parsing a printed ATS feed cursor returns it |
| `Cursor.PrintedForms` | src/data/cursor.rs:93-306 | the printed forms: decimal fields joined by dashes, with I, A or F for the phase |
| `Cursor.PrintingIsInjective` | src/data/cursor.rs:93-306 | within a type, cursors that print alike are equal |
| `Cursor.AcceptsMoreThanPrinted` | src/data/cursor.rs:99-108 | the parser also accepts strings the printer never writes, such as +007 |
| `EventFeed.MockEventsForBlock` | src/data/mock.rs:875-895 | the nested loops number the events of a block from 0 in order |
| `EventFeed.FlattenIff` | src/data/mock.rs:875-895 | a block's events are exactly those of its extrinsics, with their pallet, name and fields, numbered after all events before |
| `EventFeed.CollectBlock` | src/data/mock.rs:181-251 | the inner loop appends the wanted events of one block until the target is reached |
| `EventFeed.Collect` | src/data/mock.rs:181-251 | the backwards walk yields the first `target` wanted events from its tip |
| `EventFeed.LatestEvents` | src/data/mock.rs:181-251 | the handler returns the page of `PageOf`, an empty page for count 0, or the cursor's parse error |
| `EventFeed.ScanTipSuffices` | src/data/mock.rs:181-251 | starting at the cursor's block instead of the head loses nothing |
| `EventFeed.FeedIsComplete` | src/data/mock.rs:181-251 | the filtered feed is strictly descending and holds exactly the matching events up to the head |
| `EventFeed.PageIsExact` | src/data/mock.rs:181-251 | a page is the next `count` events, says whether there are more, and its cursor resumes right after it |
| `EventFeed.HasMoreExactIff` | src/data/mock.rs:181-251 | `has_more` is exact iff it is not the case that the largest count was asked for and more events than that remain |
| `EventFeed.WalkIsFeed` | src/data/mock.rs:181-251 | following `next_cursor` ends; the pages concatenate to the feed, all full but the last, and only the last says there is no more |
| `EventFeed.WalkEnumeratesFeed` | src/data/mock.rs:181-251 | from no cursor the pages enumerate every matching event once, newest first |
| `EventFeed.WalkShowsEmitted` | src/data/mock.rs:181-251 | the same down to the blocks: an event is shown iff an extrinsic up to the head emits it and it has the pallet and name asked for |
| `ExtrinsicPage.PendingSlice` | src/data/indexed/provider.rs:355-495 | the labelled nested loops compute `Scan`: the kept rows and the last row looked at |
| `ExtrinsicPage.BufferedIff` | src/data/indexed/provider.rs:355-495 | the rows read back are the extrinsics of all buffered blocks |
| `ExtrinsicPage.LatestExtrinsics` | src/data/indexed/provider.rs:355-495 | the handler returns the page of `PageOf`, an empty page for count 0, or the cursor's parse error |
| `ExtrinsicPage.DbQueryIs` | src/data/indexed/queries/extrinsics.rs:175-283 | fetching one row more than asked gives the first rows below the bound and an exact `has_more` |
| `ExtrinsicPage.BoundExactIff` | src/data/indexed/queries/extrinsics.rs:175-283 | the bound cast to BIGINT and INT means what the cursor says iff block and index fit those columns |
| `ExtrinsicPage.AscendingBufferDescends` | src/indexer/buffer.rs:202-204 | a buffer appended in ascending order is read back strictly newest first |
| `ExtrinsicPage.BoundIsCursor` | src/data/indexed/provider.rs:355-495 | with the buffer above the stored rows, bounding the query by the last buffered row selects what the cursor selects |
| `ExtrinsicPage.MergedItems` | src/data/indexed/provider.rs:355-495 | the items are the first `count` rows of the combined filtered feed below the cursor |
| `ExtrinsicPage.ItemsOfAny` | src/data/indexed/provider.rs:355-495 | whatever the database holds, the items are the first `count` of the buffered rows and then the stored rows below every buffered row that the scan looks at |
| `ExtrinsicPage.OverlapIsInvisibleIff` | src/data/indexed/provider.rs:355-495 | while committed blocks are still buffered, pages of every size are as if the database held only what the buffer does not, iff no stored copy of a buffered inherent, shown by the filters, lies below every other buffered row |
| `ExtrinsicPage.PageDescends` | src/data/indexed/provider.rs:355-495 | no page repeats a row or breaks the order, even when the database already holds buffered blocks |
| `ExtrinsicPage.HasMoreExactIff` | src/data/indexed/provider.rs:355-495 | `has_more` is right iff it is not the case that the buffer alone holds more matching rows than fit while the database holds none |
| `ExtrinsicPage.CombinedIsUniformIff` | src/data/indexed/provider.rs:355-495 | the combined feed equals the database's own visibility rule iff no buffered inherent matches filters that show inherents |
| `ExtrinsicPage.NextPageResumes` | src/data/indexed/provider.rs:355-495 | when there is a next cursor it parses and the next page starts right after this one |
| `ExtrinsicPage.WalkIsCombinedIff` | src/data/indexed/provider.rs:355-495 | following `next_cursor` ends, and yields the whole combined feed iff the first page does not stop early, that is unless the buffer alone overfills it while the database has nothing |
| `ExtrinsicPage.WalkShowsIff` | src/data/indexed/provider.rs:355-495 | from no cursor the pages show only extrinsics that are buffered or stored and asked for, newest first and each once, and all of them iff the buffer does not have more to show than one page while the database has nothing |
| `Vesting.ClaimMonotoneAndBounded` | src/domain.rs:696-714 | the claimable amount never falls as the head rises and is at most what is left, even under saturation |
| `Vesting.ClaimsArePathIndependent` | src/domain.rs:696-714 | any run of claims, in any order of heads, releases what has vested at the highest head, never more than the total |
| `Vesting.LastIsHighest` | src/domain.rs:696-714 | for non-decreasing heads the highest is the last |
| `Vesting.VestedIsFloor` | src/domain.rs:696-714 | while the product fits u128 the vested amount is the exact floor |
| `Vesting.SaturatedVesting` | src/domain.rs:696-714 | beyond that the vested amount is a constant, at most the exact floor |
| `Vesting.AllReleasedIff` | src/domain.rs:696-714 | nothing is released by claims up to the start, and the whole total is iff some claim comes at or after the end |
| `TokenSupply.BuildEnvelopeAllocations` | src/mock/data.rs:875-949 | the two loops compute the allocations: rounded shares, and the remainder for the last |
| `TokenSupply.AmountsAddUp` | src/mock/data.rs:875-949 | for any weights the amounts sum exactly to 80% of the cap (floored) and the last subtraction does not saturate |
| `TokenSupply.AmountIsProportional` | src/mock/data.rs:875-949 | every amount but the last is within one planck of proportional while the product fits u128 |
| `TokenSupply.SmallWeightsFit` | src/mock/data.rs:875-949 | weights up to 1000 never make that product saturate |
| `TokenSupply.EnvelopeAddsUp` | src/mock/data.rs:951-974 | what an envelope hands out and what it keeps make up its cap, and what is held is at most what was handed out |
| `TokenSupply.HeldOne` | src/mock/data.rs:996-1050 | an allocation holds what vests and is not released, and the treasury counts it iff it is the beneficiary |
| `TokenSupply.OverviewOf` | src/mock/data.rs:996-1050 | for any envelopes whose caps fit the supply, any head and any released amounts: circulating + locked + reserves = supply, with locked and treasury sums exact |
| `TokenSupply.SpecsAddUp` | src/mock/data.rs:681-807 | the thirteen caps add up to the whole supply and the shared envelopes keep exactly 145 million tokens |
| `TokenSupply.GetTokenOverview` | src/mock/data.rs:996-1050 | the same for the real envelopes, with the reserves a constant, and nothing locked from month 36 on |
| `TokenSupply.NoAllocationSaturates` | src/mock/data.rs:823-873 | no allocation of these envelopes saturates its vesting product |
| `TokenSupply.AllocationParts` | src/mock/data.rs:823-873 | the upfront part is the floored percentage and the rest vests, from the cliff on |
| `TokenSupply.AllocationLife` | src/mock/data.rs:823-873 | nothing is released up to the cliff, all of it from the end on, in between what was drawn, with the rest of the exact floored schedule claimable |
| `TokenSupply.AllocationIds` | src/mock/data.rs:875-949 | ids number the allocations a hundred apart per envelope and name their beneficiary |
| `Session.Receiver.OnFrame` | src/live/server.rs:236-344 | one pass of the loop: window, budget, churn cap, dispatch |
| `Session.RunReceiver` | src/live/server.rs:236-344 | the loop over any frames stops at the first that closes the session |
| `Session.RunSession` | src/live/server.rs:149-208 | when the session ends every forwarder ever spawned has been aborted |
| `Session.SessionBound` | src/live/server.rs:236-344 | a session lasting until `end` serves at most 20 frames per started second |
| `Session.PerRollingSecond` | src/live/server.rs:236-344 | at most `limit` frames (20 or more) are served in any single second, if around every renewal of the window the frames of the second before it and of the window it opens are that few |
| `Session.FortyPerRollingSecond` | src/live/server.rs:236-344 | so any 41 consecutive served frames span at least a second, whatever the client does |
| `Session.BurstIsServed` | src/live/server.rs:236-344 | 40 frames within two milliseconds can be served: the window is fixed, not rolling |
| `Session.SubscribeBound` | src/live/server.rs:236-344 | at most 128 subscribes are attempted; the next ends the session |
| `Session.EndsIff` | src/live/server.rs:236-344 | an open session ends with a failed read, a 21st frame in one window, a 129th subscribe or a close frame, and with nothing else; a limit is answered with its message |
| `Session.AnswersAre` | src/live/server.rs:236-344 | of the served frames a bad text, a binary frame and a refused subscribe are answered, each with its message |
| `Session.ForwardersFollowRequests` | src/live/server.rs:236-344 | a topic has a forwarder iff it was subscribed with success since its last unsubscribe, never two, and none is forgotten |
| `LiveSocket.Live.OpenSocket` | web/app/composables/useLiveSocket.ts:41-100 | opens a socket to the network and makes it current |
| `LiveSocket.Live.OnOpen` | web/app/composables/useLiveSocket.ts:41-100 | the current socket resets the backoff and subscribes to every topic; a stale one does nothing |
| `LiveSocket.Live.OnMessage` | web/app/composables/useLiveSocket.ts:41-100 | the current socket's data frames reach the store and pings are answered; a stale one does nothing |
| `LiveSocket.Live.OnClose` | web/app/composables/useLiveSocket.ts:41-100 | the current socket's close schedules a reconnect and doubles the delay up to the cap |
| `LiveSocket.Live.OnTimer` | web/app/composables/useLiveSocket.ts:41-100 | a due timer reopens the target |
| `LiveSocket.Live.SwitchNetwork` | web/app/composables/useLiveSocket.ts:124-159 | no-op on the same connected network, else cancels, closes, clears and opens |
| `LiveSocket.Live.DisposeAll` | web/app/composables/useLiveSocket.ts:161-174 | cancels, closes and forgets the target |
| `LiveSocket.StepKeepsInv` | web/app/composables/useLiveSocket.ts:41-174 | every handler and call keeps the invariant |
| `LiveSocket.InvAlways` | web/app/composables/useLiveSocket.ts:41-174 | in every reachable state a targeted network with a non-empty name has exactly one of a current socket and a pending reconnect, without a target there is neither, the socket is of the target, and the delay is the backoff, in [250, 5000] |
| `LiveSocket.BackoffRange` | web/app/composables/useLiveSocket.ts:41-100 | the delay doubles from 250 ms and stays at 5000 ms from the fifth close in a row |
| `LiveSocket.CloseReconnectsIff` | web/app/composables/useLiveSocket.ts:41-100 | losing the current socket in any reachable state schedules a reconnect to the same network, and its timer opens a socket unless the name is empty: then nothing reconnects by itself |
| `LiveSocket.SwitchConnects` | web/app/composables/useLiveSocket.ts:124-159 | a switch in any reachable state leaves the network targeted on a socket of its own, the current one or a new one |
| `LiveSocket.SentIff` | web/app/composables/useLiveSocket.ts:50-122 | a socket is sent exactly the three subscriptions when it opens and a pong for a ping, while it is current and ready, and nothing else |
| `LiveSocket.OnlyCurrentFrames` | web/app/composables/useLiveSocket.ts:41-100 | only frames of the current socket, of the targeted network, enter the store, and events of other sockets change nothing |
| `LiveSocket.FrameOrigin` | web/app/composables/useLiveSocket.ts:63-174 | a frame of a network is in the store iff an event delivered one on the then current socket and no switch has cleared the store since |
| `LiveSocket.MixedIff` | web/app/composables/useLiveSocket.ts:124-159 | while a network is targeted the store holds a frame of another iff such a frame was delivered, a dispose followed, and no switch has cleared since: the first switch after a dispose clears nothing |
| `LiveSocket.DisposeThenSwitchMixes` | web/app/composables/useLiveSocket.ts:124-159 | the shortest such run: one network, its frame, a dispose, another network |
| `LiveSocket.DisposeIsFinal` | web/app/composables/useLiveSocket.ts:161-174 | after a dispose nothing reconnects and nothing changes in the store, whatever old events arrive, until the next switch |

## Left out

- Session.PerRollingSecond: a sufficient condition only; frames that come late in a renewed window can keep the distance without it.
- Pages read while buffer or database change: a walk of the merged page is over one state of both.
- Node access, SCALE decoding, metadata and timeouts: a block's decoded events and rows are inputs, and any failure on the way is one fault per block.
- SQL text, pools and migrations: each statement is its effect on a table keyed by its conflict target. Postgres types are modelled only where a value can leave their range.
- Heights of 2^63 and above in the stored tables, where the casts to BIGINT would wrap: block numbers are stored as they are. The bounds of the queries of the extrinsic page and of the seeding are cast.
- Other networks: tables, queue and cursor are those of one network, since every statement filters on it.
- Commits whose outcome is unknown to the worker: each commit succeeds or fails, and the worker knows which.
- The author lookup, extrinsic and block hash uniqueness, and foreign keys other than that of ATS versions.
- The reconcile sweep, which corrects balances outside the block-by-block path.
- The timing of turns: idle polling, heartbeat, the grace period before seeding and the broadcast of heads.
- The last-error text of a failed chunk and its truncation.
- Labels, slugs and filter predicates other than those a theorem mentions: each is settled by reading one branch.
- The rest of the token overview: the treasury's balance, the epoch fields and the sorting of an envelope's detail page.
- The generator's floating-point draw of released amounts: any amount is allowed, so `GetTokenOverview` holds for all of them.
- Mock and node-backed listings other than the event feed: they scan a bounded depth and do not promise completeness.
- `merge_live`, the shared encoder hub and the forwarder task's own loop.
- The store's capped, de-duplicated buffers: the model keeps every data frame that reaches the store, in order. The HTTP seeds are not modelled.
- Hot module reload in the browser, and a WebSocket constructor that throws.
- Seeding when the head never arrives, and the supervisor that spawns the workers.
