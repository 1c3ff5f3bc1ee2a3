# Verified model of the usage ledger

The ledger reads the session logs of a coding assistant and promises that every token is
counted once, whatever the chunking, restarts, replays or compactions. These Dafny modules
model the code that keeps this promise and prove it.

| module | models |
|---|---|
| Types | the seven token dimensions, their validation and differences |
| Ingest, Tailing | the chunked JSONL tailer with its durable checkpoint |
| Reconstruction, Accounting | the line-by-line interpretation of a rollout, and what a whole rollout amounts to |
| ReconstructionStore, ExactlyOnce, Scheduler | facts, status and cursor of a source, whole runs with crashes and replacements, and the bounded batch over many files |
| Allocation, Residual | largest-remainder apportionment and the estimate for accounts not yet captured |
| Matching | greedy matching of observations and candidates by time |
| Replay, ForeignHistory | the guard that quarantines replayed foreign history, and where it stands, told by the records alone |
| UsageTables, Rollups, RollupRuns | the daily and hourly tables and their triggers, transactions and compaction, and what the tables show in every run |
| Backfill | the daily table built in chunks from rows that were there before |
| HourWindow, RollingHours | windows made of complete hours and two partial ones, in any time zone, and the rolling week over the tables of a run |
| Explorer | subtree totals of a session tree |
| AccountEpochs, Reassignment, Attribution | account windows inferred from login traces, the rows they claim, and the facts those rows count |
| ReconciledDays | official and local usage day by day, against the total of the same window |
| Prelude, Sorting, Folds, Sums | saturating arithmetic, stable sorting, runs of a step function, sums over sets and sequences |

How to read it. Code that changes state step by step is a class or a method with loops; its
contract ties it to a function of the old state, and the lemmas are about that function. The
main results are `ExactlyOnce.EveryTokenCountedOnce`, `Scheduler.GivenUpIffUnreadable`,
`Tailing.AnyPollsEmitTheFile`, `Accounting.RolloutIsAccounted`,
`Accounting.GrowingCounterIsCountedExactly`, `Residual.WholeResidualIsAllocated`,
`Allocation.LargestRemainderIsOptimal`, `Matching.AtLeastHalfOfAnyMatching`,
`Matching.NeverMissesIffFloorsAreWindows`, `ForeignHistory.ReplaysIffInForeignHistory`,
`ForeignHistory.ForeignHistoryIsErased`,
`RollupRuns.DailyIndexesIffNothingReturned`, `RollupRuns.HourShowsAllIffNoneWentDirect`,
`Backfill.CompleteMeansEveryRow`, `HourWindow.ExactIffLabelsAndHoursAgree`,
`RollingHours.RollingSeriesShowsWhatWasGiven`, `Explorer.SubtreeTotals`,
`AccountEpochs.InferredEpochsAreDisjointIff`, `Reassignment.HoursAreReassigned`,
`Attribution.TableFollowsTheFacts`, `Attribution.DaysKeepAlignedIffFirstDayIsClear` and
`ReconciledDays.DaysAgreeWithTotal`.

Parsing is a parameter: a line is mapped to a parsed record by a function. Instants, file
contents, file identities and lengths are inputs of the steps. A transaction is one atomic step.
Row digests are taken to be injective and stand for the whole row.

## Findings

* A digest of an event covers its time of observation, so a re-derived event is a conflict and
  not a repetition. Exactly-once rests on facts and cursor changing together, as
  `ExactlyOnce.EveryTokenCountedOnce` shows, and not on repeating inserts.
* The gap of two seconds inside an inherited prefix is counted in whole milliseconds, so a gap
  below 2.001 seconds still belongs to the prefix, and an earlier time counts as no gap at all
  (`Reconstruction.NearIsUnderTwoSecondsAndAMillisecond`).
* Only events past the retention period are looked up among the compacted keys. A compacted event
  that comes back as a recent one, because the clock went back, because its time changed, or in a
  verified import, is counted twice. That is the only way to lose the index: `RollupRuns.PutKeepsIndexIffNotReturning`
  for one event, `RollupRuns.DailyIndexesIffNothingReturned` for every run.
* An expired event counted without its details adds to the daily table but not to the hourly one
  (src/store.rs:803-863). An hour shows all its events exactly if none of them went that way
  (`RollupRuns.HourShowsAllIffNoneWentDirect`, `RollupRuns.ExpiredArrivalIsMissedByTheHour`). The
  rolling week is not affected while the clock does not go back
  (`RollingHours.RollingSeriesShowsWhatWasGiven`).
* The first verification before compaction fails, and fails for good, once an expired event has gone
  straight to the compacted keys (`RollupRuns.TotalsAgreeIffAllIsRaw`,
  `RollupRuns.DisagreementIsPermanent`).
* A window for another time zone than the rollup's mixes the two: partial hours are shown by hour in
  the zone asked for, complete hours by hour in the rollup's (src/api/queries.rs:62-85, :218). A zone
  is right for every ledger exactly if it has the rollup's hours
  (`HourWindow.AlwaysExactIffSameHours`); UTC is right only when nothing happened in the complete
  hours (`HourWindow.UtcIsExactIffNothingInBetween`).
* An event of a complete hour whose label is present but empty is shown under no label in a
  rolling window, but under the empty label in a partial hour
  (`HourWindow.ExactIffLabelsAndHoursAgree`).
* Observations out of time order can miss candidates in their reach, because the window never moves
  back: exactly when some observation is not matched in its own window
  (`Matching.NeverMissesIffFloorsAreWindows`).
* The reader of the login logs bounds ids and not times (src/account_history.rs:178-201), so after a
  clock change a logout can lie ahead of now. The epoch it ends is then left open and overlaps the
  epochs after it (`AccountEpochs.InferredEpochsAreDisjointIff`,
  `AccountEpochs.EpochsOverlapAfterFutureLogout`).
* docs/contracts/accounting.md lets an inferred epoch claim complete days only. The code also
  gives the first epoch the day it begins in (`Reassignment.DaysAreCompleteExceptTheFirst`). The row
  of a retained, still unassigned event of that day then moves without the event, and the event is
  counted twice once a later pass assigns it (`Attribution.DaysKeepAlignedIffFirstDayIsClear`,
  `Attribution.FirstDayEventIsCountedTwice`).
* Moving unassigned rows to an account with an empty name would lose them
  (`Reassignment.MovingOntoItselfLoses`).
* Days and total of a window differ by the local usage dated before the reports of its own account
  start (`ReconciledDays.DaysAgreeWithTotal`, `ReconciledDays.AgreementIsExact`).

## Model

| member | source | states |
|---|---|---|
| Types.TokenUsage.CheckedDelta | src/types.rs:49-67 | a difference exists exactly if no dimension falls, and is then the difference in all seven |
| Types.ValidIffBucketsConserve | src/types.rs:33-38 | a usage validates exactly if cached, cache-write and uncached input make up the input, and input plus output the total |
| Types.ZeroUsage | src/types.rs:69-77 | a usage is zero exactly if all seven dimensions are |
| Types.AddSaturating | src/api/presentation.rs:3-19 | every dimension is the saturated sum |
| Ingest.ScanWindow | src/ingest.rs:304-329 | splitting a window yields its newline split; it fails exactly if some record, the unterminated one included, is over the limit |
| Ingest.PollFrom | src/ingest.rs:264-345 | a poll is the newline split of the saved partial record plus one chunk, with the checkpoint discarded after replacement or truncation |
| Ingest.IncrementalJsonlTailer.PollReader | src/ingest.rs:264-345 | a poll moves the checkpoint; a failing one leaves it exactly as it was |
| Ingest.PendingRecord | src/ingest.rs:326-334 | the saved partial record follows a newline and holds none |
| Ingest.OneLinePerNewline | src/ingest.rs:305-324 | there is one line per newline, and the record in progress starts after the last |
| Ingest.NthLine | src/ingest.rs:313-322 | line i starts after the newline before it, holds the bytes up to the next one without one trailing CR, and is numbered consecutively |
| Ingest.LineOffsetsIncrease | src/ingest.rs:318-323 | offsets of emitted lines grow strictly and stay below the record in progress |
| Ingest.WindowLines | src/ingest.rs:295-324 | scanning from the saved partial record yields exactly the further lines of the whole file |
| Tailing.PollAdvances | src/ingest.rs:264-345 | a poll on an up-to-date checkpoint succeeds exactly if what it has seen fits, and then emits the next lines of the file and tracks it |
| Tailing.ReplacedFileStartsOver | src/ingest.rs:271-290 | a poll that finds another file, or a shorter one, says so and emits the first lines of the file as it is now |
| Tailing.AnyPollsEmitTheFile | src/ingest.rs:264-345 | after any polls, any chunk sizes, over a growing file, the emitted lines are the newline split of the file up to the checkpoint, and the partial is the rest |
| Tailing.DrainFailsIffRecordTooLong | src/ingest.rs:310-328 | draining fails exactly if some record of the file is over the limit, whatever the chunk size |
| Tailing.DrainEmitsTheFile | src/ingest.rs:304-345 | draining, which always ends, emits all further lines, whatever the chunk size |
| Tailing.FitsIffRecordsFit | src/ingest.rs:310-328 | fitting, stated on the distances between newlines |
| Reconstruction.ReconstructionState.ProcessLine | src/reconstruction.rs:504-660 | one line updates phase, totals, epoch and counters, and emits at most one event |
| Reconstruction.ReconstructionState.ProcessSample | src/reconstruction.rs:573-626 | one accepted token count is inherited, unchanged, or charged as ChargeOf states |
| Reconstruction.ChargeOf | src/reconstruction.rs:597-615 | the first total counts in full, later the growth where every dimension grew by a valid usage, and at any other total the explicit last usage or nothing, as a reset |
| Reconstruction.ResumeEqualsOnePass | src/reconstruction.rs:411-427 | resuming from a saved parser state is the same as one pass |
| Reconstruction.NearIsUnderTwoSecondsAndAMillisecond | src/reconstruction.rs:810-815 | a gap counts as at most two seconds exactly if it is under 2.001 seconds or goes back in time |
| Reconstruction.PhaseNeverMovesBackwards | src/reconstruction.rs:525-595 | over any run the phase never moves backwards |
| Accounting.CanonicalIndexIsFirst | src/reconstruction.rs:525-545 | the canonical record is the first one of the thread |
| Accounting.InheritedLength | src/reconstruction.rs:573-595 | the inherited prefix of a child is the longest run of accepted counts with gaps under 2.001 seconds, from the canonical record on |
| Accounting.AcceptedIff | src/reconstruction.rs:559-571 | a token count is accepted exactly with a timestamp and a valid total, its last usage only if it is valid |
| Accounting.LinesReduceToSamples | src/reconstruction.rs:559-571 | after the canonical record only accepted token counts matter |
| Accounting.RolloutIsAccounted | src/reconstruction.rs:504-660 | the line-by-line machine emits exactly the live accounting of the counts after the inherited prefix, with its last total as baseline |
| Accounting.ResetIffCounterFalls | src/reconstruction.rs:604-615 | there is a reset exactly where some dimension of the total falls or the difference is no valid usage |
| Accounting.CreditIsGrowth | src/reconstruction.rs:597-615 | without a reset the credit is the difference in every dimension, at a reset the explicit last usage or nothing |
| Accounting.TokensAreConserved | src/reconstruction.rs:597-626 | in all seven dimensions baseline plus emitted usage is the last accepted total, up to what each reset skipped and its explicit last usage gave back |
| Accounting.ConservedWithoutResets | src/reconstruction.rs:597-626 | where every total grows by a valid usage, baseline plus emitted usage is the last accepted total, all in one epoch |
| Accounting.GrowingCounterIsCountedExactly | src/reconstruction.rs:504-660 | so the machine emits for such a rollout exactly what the counter gained after the inherited prefix; without a parent that is the last total |
| Accounting.ProgressTells | src/reconstruction.rs:573-622 | the counters of the state are the inherited counts, the repeated totals and the resets of the rollout |
| Accounting.EmittedUsageIsValid | src/reconstruction.rs:609-626 | every emitted usage validates and is not zero |
| Accounting.SamplesAreValid | src/reconstruction.rs:569-571 | only valid totals and last usages are accepted |
| Accounting.RepeatedTotalIsNotCounted | src/reconstruction.rs:599-603 | inserting a repetition of the total in force changes no emitted event |
| ReconstructionStore.ProcessLines | src/reconstruction.rs:454-467 | a batch of lines is interpreted from the saved state |
| ReconstructionStore.UpsertKeepsFacts | src/store.rs:433-512 | a fact is stored if it is valid and fits, has no effect if it is stored already, and is a conflict exactly if a different one is stored |
| ReconstructionStore.UpsertAllKeepsFacts | src/store/ingest_repository.rs:106-123 | a stored batch keeps every fact and adds every event |
| ReconstructionStore.LedgerStore.UpsertReconstructionEventsAndCursor | src/store/ingest_repository.rs:106-123 | events, status and cursor are stored together or not at all, with conflicts and cursor regressions as errors |
| ReconstructionStore.LedgerStore.IngestTarget | src/reconstruction.rs:391-501 | one slice: identity check, rewind, poll, interpretation and commit; any error changes no row |
| ReconstructionStore.LedgerStore.MarkUnrecoverable | src/reconstruction.rs:353-369 | the error path keeps the facts, gives the source up and drops its cursor |
| ReconstructionStore.LedgerStore.ReplaceReconstructionSource | src/store/ingest_repository.rs:155-183 | a replaced file loses its facts and its cursor together, and its row starts as new |
| ExactlyOnce.SliceIsSafe | src/reconstruction.rs:391-501 | a successful slice is one more stretch of the same single pass over the file |
| ExactlyOnce.SliceFailsIff | src/reconstruction.rs:391-501 | a slice of an append-only file fails exactly for a record over the limit or a usage the store cannot hold; conflicts and regressions never happen |
| ExactlyOnce.TruncationIsDetected | src/reconstruction.rs:446-450 | a slice of a file truncated below the cursor always fails |
| ExactlyOnce.NewEventsAreInserted | src/store.rs:433-512 | events at new offsets never conflict with stored ones |
| ExactlyOnce.RunIsSafe | src/reconstruction.rs:222-370 | in every run of slices, crashes, failures and replacements the rows of a source are those of one pass over the bytes consumed |
| ExactlyOnce.EveryTokenCountedOnce | src/reconstruction.rs:391-501 | the stored facts are exactly the accounted events of the complete lines up to the cursor, each once, and a source with facts never starts over |
| ExactlyOnce.SliceReadsOn | src/reconstruction.rs:432-446 | a slice reads on from the start of the record in progress, at most 64 MiB and one byte |
| ExactlyOnce.SliceTellsItsProgress | src/reconstruction.rs:468-500 | the row a slice writes tells its bytes, its counters and whether the file is complete |
| ExactlyOnce.EveryRowTells | src/reconstruction.rs:468-500 | in every run the row of a source tells the truth about the bytes consumed: counters as accounted, complete exactly at the end of the file between two records |
| ExactlyOnce.OtherFilesAreRefused | src/reconstruction.rs:404-410 | a slice is refused for its identity exactly if the cursor belongs to another file |
| Scheduler.QueueIsSorted | src/reconstruction.rs:290-322 | the queue holds every unread source once, in order |
| Scheduler.QueueHoldsUnread | src/reconstruction.rs:290-305 | it holds exactly the sources that are not given up and whose file is not as long as was read |
| Scheduler.QueueOrder | src/reconstruction.rs:310-322 | of two queued sources the one in progress is first, then the one that was complete, then the one not started; then the one read further, then the smaller name |
| Scheduler.RefreshSources | src/reconstruction.rs:182-265 | new files get a row, and a row whose file was replaced starts over |
| Scheduler.RefreshKeepsOrStartsOver | src/reconstruction.rs:182-265 | a row is kept exactly if it is of this file or was written before the file could be identified |
| Scheduler.RefreshedRowsAreFine | src/reconstruction.rs:222-268 | after that every row belongs to its file, or was written before the file could be identified and nothing was read for it |
| Scheduler.IngestReconstructionBatch | src/reconstruction.rs:323-370 | a batch takes the first sources of the queue and advances or gives up each |
| Scheduler.BatchTakesTheFirst | src/reconstruction.rs:323-370 | the first max_files of the queue, at least one, are taken, and every other row stays as it was |
| Scheduler.AdvanceProgress | src/reconstruction.rs:429-442 | a taken source reaches the end of its file, fails, or completes a record |
| Scheduler.BatchShrinks | src/reconstruction.rs:323-370 | while anything is queued a batch strictly shrinks the work left |
| Scheduler.DrainQueue | src/reconstruction.rs:323-370 | repeated batches end with an empty queue |
| Scheduler.DrainedSourcesAreComplete | src/reconstruction.rs:128-139 | every source then is given up or holds every token of its file, for any batch size |
| Scheduler.GivenUpIffUnreadable | src/reconstruction.rs:323-370 | a source whose file only grew ends given up exactly if some record is over the limit or the store cannot hold some usage, and is complete otherwise |
| Scheduler.WorkingSetStaysBounded | src/reconstruction.rs:303-323 | at most max_files sources are half read at the same time |
| Allocation.LargestRemainderAllocate | src/api/reconciliation.rs:352-376 | the result is the apportionment: rounded down or up by one, exact in sum, largest remainders first, ties to the earlier entry |
| Allocation.ShareIsFloorOrCeiling | src/api/reconciliation.rs:360-373 | each share is the floor or the ceiling of its quota |
| Allocation.ZeroWeightGetsZero | src/api/reconciliation.rs:360-373 | a zero weight gets zero |
| Allocation.SharesAreMonotone | src/api/reconciliation.rs:367-373 | a larger weight never gets less |
| Allocation.ShareWithinWeight | src/api/reconciliation.rs:352-376 | no share exceeds its weight when the target does not exceed their sum |
| Allocation.ApportionmentIsUnique | src/api/reconciliation.rs:367-375 | there is only one apportionment |
| Allocation.LargestRemainderIsOptimal | src/api/reconciliation.rs:352-376 | no integer vector with the same sum deviates less in total from the exact quotas |
| Residual.ComponentsPartition | src/api/reconciliation.rs:306-321 | the five components make up input and output of any row: cached before written before uncached, reasoning before other output; for valid rows they are its own buckets |
| Residual.AllocateResidualComponents | src/api/reconciliation.rs:297-350 | every allocated usage validates and stays within its row, and the components are the shares of the apportionment |
| Residual.AllocatedTotals | src/api/reconciliation.rs:324-347 | allocated totals add up to the target |
| Residual.EstimateDay | src/api/reconciliation.rs:109-159 | a day with an official total below the local one contributes parts of its rows that make up the excess, or all they hold; any other day nothing |
| Residual.AllotRows | src/api/reconciliation.rs:146-159 | the parts are the nonzero apportioned shares of the rows, each under its own labels |
| Residual.DayAddsUp | src/api/reconciliation.rs:128-146 | where the rows conserve, estimate and official total make up the local total |
| Residual.WholeResidualIsAllocated | src/api/reconciliation.rs:136-159 | over days whose rows conserve, the estimate is the sum of all excesses of local over official totals |
| Residual.MissingAccountEstimate | src/api/reconciliation.rs:109-160 | the estimate is put together day by day as stated, and the raw residual is the saturated sum of the excesses |
| Residual.AggregateBy | src/api/reconciliation.rs:162-201 | every group shows the saturated sums of its rows, and the total those of all rows |
| Residual.BreakdownsAgree | src/api/reconciliation.rs:162-201 | the groups by day, by project and by model each add up to the same total |
| Matching.MatchThread | src/sampling.rs:212-261 | the sliding window returns what a scan of all unused candidates per observation returns; a match hands its usage over as confirmed, any other event is zero and unconfirmed, and both are counted |
| Matching.MatchOne | src/sampling.rs:214-247 | one observation moves the window and takes the nearest unused candidate in reach, the first of equally near ones |
| Matching.SortedIsByTime | src/sampling.rs:212 | candidates are those of the rollout in time order, those of one time in their own order |
| Matching.GreedyIsUnique | src/sampling.rs:222-236 | that scan has only one result |
| Matching.TimeOrderKeepsWindows | src/sampling.rs:213-220 | in a log in time order every observation is matched in its own window |
| Matching.EligibleIsInReach | src/sampling.rs:215-236 | in its own window an observation considers exactly the unused candidates within the tolerance |
| Matching.UnmatchedHasNothingLeft | src/sampling.rs:222-247 | and stays unmatched only if everything in its reach was taken before |
| Matching.WindowRunsAhead | src/sampling.rs:213-220 | once the window is past an observation's own, there are candidates in reach it misses |
| Matching.NeverMissesIffFloorsAreWindows | src/sampling.rs:212-247 | for observations in any order, none misses a candidate, whatever the candidates are, exactly if each is matched in its own window |
| Matching.GreedyIsOneToOne | src/sampling.rs:228-237 | in any order no candidate is used twice |
| Matching.GreedyIsWithin | src/sampling.rs:215-232 | in any order every match is within the tolerance |
| Matching.UsageIsMoved | src/sampling.rs:236-247 | the usage of all events is that of the candidates they used, in every dimension |
| Matching.AtLeastHalfOfAnyMatching | src/sampling.rs:212-261 | while every observation is matched in its own window, no one-to-one matching within the tolerance matches more than twice as many |
| Matching.OutOfOrderMissesEverything | src/sampling.rs:213-220 | out of time order two observations can miss what one of them could have had |
| Replay.ReplayGuard.ProcessLine | src/replay.rs:271-318 | one record updates the guard and yields its disposition and event |
| Replay.ReplayGuard.ProcessSessionMeta | src/replay.rs:320-379 | the first session record fixes the identity, a foreign one opens foreign history |
| Replay.ReplayGuard.ProcessTaskStarted | src/replay.rs:381-426 | a task of the canonical stream ends foreign history |
| Replay.ReplayGuard.ProcessTurnContext | src/replay.rs:428-451 | a live turn context updates model and directory, any other is quarantined |
| Replay.ReplayGuard.ProcessTokenCount | src/replay.rs:453-591 | totals, epoch, disposition and event of a token count |
| Replay.ReplayGuard.FromCheckpoint | src/replay.rs:205-236 | a checkpoint is restored, or refused for its version, its file or a missing identity |
| Replay.ReplayGuard.MakeCheckpoint | src/replay.rs:238-249 | a checkpoint holds the whole state, bound to its file |
| Replay.CanonicalIsFixed | src/replay.rs:333-379 | the identity never changes once fixed |
| Replay.CheckpointRoundTrip | src/replay.rs:205-249 | every reachable checkpoint restores for the same file, and only for it |
| Replay.RestoredGuardContinues | src/replay.rs:205-249 | saving, restoring and going on is the same as never having stopped |
| Replay.RepeatedTotalIsNotCounted | src/replay.rs:495-504 | a repeated live total emits and changes nothing |
| Replay.RestoredIff | src/replay.rs:205-236 | a checkpoint is refused exactly for another version, another file, or a phase without rollout |
| ForeignHistory.BelongsIff | src/replay.rs:401-426 | a task is of the canonical stream exactly if its identifier is no older than the session's, or if it started at most two seconds before the session was written |
| ForeignHistory.ReplaysIffInForeignHistory | src/replay.rs:320-398 | the identity is that of the first session, and the guard replays exactly while another session was met and no task of the canonical stream since |
| ForeignHistory.LiveIff | src/replay.rs:320-398 | the guard is live exactly if a session has opened the rollout and the line is not in foreign history |
| ForeignHistory.NotLiveCountsNothing | src/replay.rs:467-488 | a line that is not live confirms nothing and leaves total and epoch as they are |
| ForeignHistory.ForeignHistoryCountsNothing | src/replay.rs:358-488 | so does foreign history from the session that opens it to the task that ends it |
| ForeignHistory.ForeignHistoryIsErased | src/replay.rs:3-9 | deleting every record outside the live stream, and what opens foreign history, changes no confirmed usage, counter or identity |
| ForeignHistory.OnlyLiveRecordsAreLeft | src/replay.rs:467-488 | what is left counts exactly what was live |
| ForeignHistory.CountersFollowLiveTotals | src/replay.rs:490-515 | the guard holds the last live total, and its epoch counts the drops between live totals |
| ForeignHistory.ConfirmedIffNewLastUsage | src/replay.rs:490-591 | a line is confirmed exactly if it brings, live, a valid nonzero last usage with a new total or none |
| ForeignHistory.QuarantinedIffDoubtful | src/replay.rs:467-553 | a line is shown without being trusted exactly if it is not live, or brings an invalid last usage, or none but a new total; and with which usage |
| ForeignHistory.ContextIsTheLast | src/replay.rs:381-451 | model and directory are those of the last live context that named one since the rollout opened or returned |
| ForeignHistory.EventTellsItsContext | src/replay.rs:593-640 | an event tells its line, the rollout and the context in force |
| ForeignHistory.SessionDisposition | src/replay.rs:320-398 | when a session is the first, a foreign one or a repeated one, and when a replay ends |
| ForeignHistory.UsageDisposition | src/replay.rs:467-591 | when a counter is reset, a context is taken and a line is malformed |
| ForeignHistory.QuarantineDisposition | src/replay.rs:428-488 | what is set aside outside the live stream |
| UsageTables.AddIndexes | src/store/migrations.rs:731-756 | the insert trigger keeps a table the grouped sum of the rows |
| UsageTables.TakeIndexes | src/store/migrations.rs:758-778 | so does the delete trigger, also where it drops a row without events |
| UsageTables.UpdateIndexes | src/store/migrations.rs:780-821 | so does the update trigger |
| UsageTables.RowsShowTheirColumns | src/store/migrations.rs:731-756 | a row of such a table shows the number of events of its local hour or day and labels, and the sum of each of their dimensions |
| Rollups.LedgerStore.UpsertEvent | src/store.rs:620-730 | a raw event is inserted, updated or unchanged, and the triggers move its weight in the daily and the hourly table |
| Rollups.LedgerStore.UpsertCompactEvent | src/store.rs:762-863 | an expired event is raw, unchanged, a conflict, or counted by the day alone, without its details |
| Rollups.LedgerStore.UpsertEventsAndCursor | src/store/ingest_repository.rs:57-81 | one transaction stores every event and exactly its cursor, or nothing; it regresses exactly if its events are accepted and the same file stood further |
| Rollups.LedgerStore.UpsertVerifiedEventsAndCursor | src/store/ingest_repository.rs:82-101 | a verified import stores every event with its details, however old, and exactly its cursor, or nothing, with the same regression |
| Rollups.CommitMovesItsCursor | src/store.rs:918-943 | a transaction succeeds exactly if its events are accepted and its cursor does not go back in the same file, and then moves this cursor alone |
| Rollups.PutSucceedsIff | src/store/ingest_repository.rs:64-75 | over sound facts an event is accepted exactly if it is sound and not compacted with other contents |
| Rollups.PutStores | src/store/ingest_repository.rs:64-75 | what is held stays where it is, a recent event is kept with its details and an expired one without, and the outcome says which |
| Rollups.LedgerStore.DeleteRaw | src/store/migrations.rs:758-778 | a deleted row is taken from both tables unless deletes are suppressed |
| Rollups.LedgerStore.CompactRawEventsChunk | src/store/maintenance_repository.rs:328-388 | the oldest expired events move to the compacted keys and both tables stay |
| Rollups.LedgerStore.VerifyRollupBeforeCompaction | src/store/maintenance_repository.rs:128-155 | verification compares the two totals once |
| RollupRuns.PutKeepsIndexIffNotReturning | src/store/ingest_repository.rs:67-75 | from any state whose daily table indexes its facts, an accepted event replaces its predecessor and the table follows exactly if it is not a compacted event that comes back as a recent one |
| RollupRuns.ReturningCountsTwice | src/store/ingest_repository.rs:67-75 | such an event changes no fact and is added to its row a second time |
| RollupRuns.ClockGoingBackCountsTwice | src/store/ingest_repository.rs:67-75 | it arises when an event arrives expired and then again under a clock that went back |
| RollupRuns.ReplayIsUnchangedIffNotReturning | src/store.rs:773-792 | resending an event that is held changes nothing exactly if it does not return |
| RollupRuns.ConflictIffCompactedDiffers | src/store.rs:782-792 | an event conflicts exactly if a different one was compacted under its id and it does not return |
| RollupRuns.CompactionChangesNothing | src/store/maintenance_repository.rs:366-385 | compaction changes no fact and no table |
| RollupRuns.CommitIsReceiving | src/store/ingest_repository.rs:57-81 | what a transaction stores is what its events leave behind one by one |
| RollupRuns.VerifiedImportIsAnUpsert | src/store/ingest_repository.rs:82-101 | a verified import is a transaction under some early clock, so that statements about runs under any clock include it |
| RollupRuns.CursorIsTheLastStored | src/store.rs:918-943 | in every run the cursor of a source is the one its last stored transaction brought |
| RollupRuns.OffsetNeverFalls | src/store.rs:930-940 | in every run the offset of a source never falls while its file stays the same |
| RollupRuns.StoredFactsAreSound | src/store.rs:620-640 | in every run every stored confirmed event validates and every stored usage fits its columns |
| RollupRuns.TablesShowTheHistory | src/store/migrations.rs:730-913 | in every run, under any clock, the daily table shows what is raw, was moved or went direct, and the hourly table what is raw or was moved |
| RollupRuns.ExcessIffReturned | src/store/ingest_repository.rs:57-81 | in every run something is counted more often than once exactly if a committed event returned |
| RollupRuns.DailyIndexesIffNothingReturned | src/store/ingest_repository.rs:57-81 | in every run the daily table is the grouped sum over the distinct events of the ledger exactly if no committed event returned, and then those are the accepted events |
| RollupRuns.NothingReturnsInTime | src/store/ingest_repository.rs:64-75 | under a clock that does not go back an event whose time does not change never returns |
| RollupRuns.DailyIndexesWhatWasGiven | src/store/ingest_repository.rs:57-81 | so in such a run the daily table is the grouped sum over the distinct events that were accepted |
| RollupRuns.TotalsAgreeIffAllIsRaw | src/store/maintenance_repository.rs:141-149 | in every run the comparison succeeds exactly if nothing was compacted and nothing went straight to the compacted keys |
| RollupRuns.DisagreementIsPermanent | src/store/maintenance_repository.rs:128-155 | once it fails it fails for good |
| RollupRuns.HourShowsAllIffNoneWentDirect | src/store.rs:803-863 | a row of the hourly table shows all its events exactly if none of them went straight to the compacted keys |
| RollupRuns.ExpiredArrivalIsMissedByTheHour | src/store.rs:803-863 | an event that is expired when it arrives leaves its hour empty |
| RollupRuns.OnlyExpiredEventsLeave | src/store/maintenance_repository.rs:328-388 | under a clock that does not go back everything that is not raw is older than the retention period |
| RollingHours.RecentHoursIndexRaw | src/store.rs:1105-1131 | in such a run the rows read for the complete hours of a window within the retention period are the sums of the retained events |
| RollingHours.RollingSeries | src/api/queries.rs:35-98 | the series of the rolling week is computed from the tables a run left behind |
| RollingHours.RollingSeriesShowsWhatWasGiven | src/api/period.rs:31 | and shows, by hour and label, every event the ledger was ever given for those days |
| Backfill.RollupTable.BackfillRollupChunk | src/store/maintenance_repository.rs:25-97 | one chunk adds the grouped sums of the next rows and moves on, or declares the backfill complete |
| Backfill.RollupTable.PrepareFastLedger | src/runtime.rs:675-713 | chunks until complete terminate with every row counted |
| Backfill.ChunkKeepsOnTrack | src/store/maintenance_repository.rs:55-95 | a chunk of any size keeps the rollup equal to the grouped sum of the counted rows |
| Backfill.ChunkReducesWork | src/store/maintenance_repository.rs:31-52 | every chunk reduces the work left |
| Backfill.CompleteMeansEveryRow | src/store/maintenance_repository.rs:25-97 | in any run of chunks and inserts, complete means every row counted once |
| Backfill.ChunkSizesDoNotMatter | src/store/maintenance_repository.rs:30 | rollups of the same rows show the same, whatever the chunks |
| HourWindow.ExactTimeSeries | src/store/usage_repository.rs:249-327 | the scan shows the sums over the half-open window, by hour in the zone asked for |
| HourWindow.HourlySeriesIsExact | src/store.rs:1105-1131 | between full hours the rollup rows show the sums over the half-open window, by hour in the zone of the rollup |
| HourWindow.AggregateExactHourWindow | src/api/queries.rs:35-98 | the merged series shows the saturated sums of a leading partial hour, complete hours and a trailing partial hour |
| HourWindow.BoundariesAreOrdered | src/api/queries.rs:47-48 | the pieces follow each other, also inside one hour |
| HourWindow.CompleteHoursAreInBetween | src/api/queries.rs:47-48 | every complete hour of the window is read from the rollup, and less than an hour is scanned on each side |
| HourWindow.WindowIsExact | src/api/queries.rs:33-98 | they are the sums over the half-open window if, in the complete hours, no label is empty and every event has the same hour in the zone asked for as in the rollup |
| HourWindow.ExactIffLabelsAndHoursAgree | src/api/queries.rs:62-85 | and only if, for a zone that is never on both sides of the rollup's |
| HourWindow.EventsOnBothSidesCanCancel | src/api/queries.rs:62-85 | for a zone on both sides two equal events can change places unseen |
| HourWindow.OneEventMoves | src/api/queries.rs:70-76 | one event whose hours differ is shown where it is not, and not where it is |
| HourWindow.AlwaysExactIffSameHours | src/api/queries.rs:218 | a zone is right for every ledger without empty labels exactly if it has the hours of the rollup throughout the complete hours |
| HourWindow.FixedZoneIsExactIffRollupZone | src/api/queries.rs:218 | of the zones with a fixed offset that is only the rollup's own, unless no hour is complete |
| HourWindow.UtcIsExactIffNothingInBetween | src/api/queries.rs:218 | in UTC the window is right exactly if nothing happened in its complete hours |
| Explorer.SubtreeTotals | src/api/explorer.rs:488-526 | every node ends with the saturated sums of its whole subtree, whatever the order within a depth |
| Explorer.RootHoldsTreeTotal | src/api/explorer.rs:527 | the root's subtree is the tree |
| AccountEpochs.InferEpochs | src/account_history.rs:279-343 | the loop over windows yields the epochs as stated |
| AccountEpochs.DeduplicatedIsApart | src/account_history.rs:291-292 | kept logouts are in order and at least two seconds apart |
| AccountEpochs.WindowEpochFits | src/account_history.rs:299-341 | an epoch starts in its window, ends with it, and its workspace is the only one seen there |
| AccountEpochs.BoundsAreApart | src/account_history.rs:285-296 | windows lie between the earliest sample, logouts at least two seconds apart that every other logout follows by less, and ten years from now |
| AccountEpochs.EpochIffOneAccount | src/account_history.rs:299-316 | a window yields an epoch exactly for the only account that is seen in it |
| AccountEpochs.EpochStartsAtLastLogin | src/account_history.rs:316-341 | an epoch starts with the last login of its window before its account is first seen, or with the window |
| AccountEpochs.InferredEpochsAreDisjointIff | src/account_history.rs:293-341 | epochs are disjoint exactly if no logout ahead of the clock ends the window of one and is followed by another |
| AccountEpochs.PastLogoutsMakeEpochsDisjoint | src/account_history.rs:293-341 | so they are if all logouts are past |
| AccountEpochs.SightingsAgree | src/account_history.rs:302-314 | accounts seen within an epoch, up to now if it is open, have its workspace |
| AccountEpochs.EpochsOverlapAfterFutureLogout | src/account_history.rs:336 | otherwise the earlier epoch is open and covers the instant the later one starts |
| AccountEpochs.BothEpochsStayOpen | src/account_history.rs:178-201 | as with one logout that lies ahead of the clock between two accounts |
| Reassignment.MoveIsExact | src/store/account_repository.rs:507-538 | selected rows join the other account's rows and nothing else changes |
| Reassignment.MovingOntoItselfLoses | src/store/account_repository.rs:507-538 | moving an account onto itself empties it |
| Reassignment.MoveConserves | src/store/account_repository.rs:507-538 | every bucket weighs the same over all accounts |
| Reassignment.RewritingHandsOver | src/store/account_repository.rs:226-238 | rewriting the account of retained events hands over, through the update trigger, exactly their part of the rows |
| Reassignment.RemapMergesAccounts | src/store/account_repository.rs:226-306 | rewriting and then moving leaves the rows as one move would |
| Reassignment.ReassignRollups | src/store/account_repository.rs:501-577 | epoch by epoch hours and days of unassigned usage move to the account of the epoch |
| Reassignment.RowsMoveOnce | src/store/account_repository.rs:504-538 | every unassigned row moves at most once, to the first range that has it |
| Reassignment.OnlyCompleteHours | src/store.rs:945-966 | an epoch claims exactly the hours it holds completely |
| Reassignment.HoursGoToTheirEpoch | src/store/account_repository.rs:501-538 | whoever takes an hour holds all of it, and an hour nobody takes is held by nobody |
| Reassignment.InferredEpochsTakeTheirHours | src/store/account_repository.rs:501-538 | an hour goes to the account of an inferred epoch exactly if the epoch holds all of it, when no logout ahead of the clock stands between two epochs |
| Reassignment.HoursAreReassigned | src/store/account_repository.rs:501-538 | what the transaction does to every hourly row, conserving every bucket over the accounts |
| Reassignment.DaysAreCompleteExceptTheFirst | src/store/account_repository.rs:540-545 | a day is claimed exactly if the epoch holds it completely, or is the day the first epoch begins in |
| Attribution.AccountsAddUpToFacts | src/store/account_repository.rs:540-577 | while every fact is counted once under some account, the rows of all accounts add up to the grouped sum of the facts |
| Attribution.UpdateFollowsIffAligned | src/store/migrations.rs:780-821 | when a retained event changes, the daily table follows exactly if it counts the event under the account it has |
| Attribution.DeliveryFollowsIff | src/store/ingest_repository.rs:67-75 | an arriving event is followed exactly if it neither returns nor replaces an event counted elsewhere |
| Attribution.MoveFollows | src/store/account_repository.rs:548-577 | moving rows moves the events they count, and no other |
| Attribution.MoveKeepsAlignedIff | src/store/account_repository.rs:548-577 | it leaves a retained event behind exactly if the event's own row moves |
| Attribution.TableFollowsTheFacts | src/store/account_repository.rs:452-577 | in every run of arrivals, assignments, compactions and moves every event is counted once, unless one returned or changed while counted elsewhere |
| Attribution.DaysKeepAlignedIffFirstDayIsClear | src/store/account_repository.rs:540-577 | moving the days of inferred epochs leaves every retained event where it is counted exactly if no unassigned one lies on the day the first epoch begins in |
| Attribution.FirstDayEventIsCountedTwice | src/store/account_repository.rs:540-577 | such an event is counted twice once a later pass assigns it |
| ReconciledDays.ReconcileDay | src/api/reconciliation.rs:1111-1180 | tokens, coverage and status of one day, account by account |
| ReconciledDays.SomeKindMeansSome | src/api/reconciliation.rs:1116-1155 | the flags say that some account had that kind of evidence |
| ReconciledDays.DayTellsItsParts | src/api/reconciliation.rs:1120-1155 | reports where an account's reports cover the day, local usage after they end, and local usage of accounts that never reported or report later |
| ReconciledDays.DayTellsItsStatus | src/api/reconciliation.rs:1158-1168 | when all known accounts are listed: exact exactly if each reported the day, otherwise named by the worst case |
| ReconciledDays.UnlistedAccountsAreUnknown | src/api/reconciliation.rs:1118 | with known accounts that are not listed a day is never exact |
| ReconciledDays.ReconcileAccountDays | src/api/reconciliation.rs:1044-1187 | one entry per day of the window |
| ReconciledDays.SelectedTotal | src/api/reconciliation.rs:790-796 | the official part of the total, also where it is taken as nothing |
| ReconciledDays.LocalComplement | src/api/reconciliation.rs:889-918 | local usage after the reports of each account end, and that of the accounts without reports |
| ReconciledDays.DisplayTotal | src/api/reconciliation.rs:883-941 | the total is the reports plus the local complement of every account |
| ReconciledDays.DaysAgreeWithTotal | src/api/reconciliation.rs:1044-1187 | the days add up to the total plus the local usage dated before the reports of its own account |
| ReconciledDays.AgreementIsExact | src/api/reconciliation.rs:1151-1154 | that difference is nothing exactly if no account has such usage |
| ReconciledDays.SameReportsOverKnownAccounts | src/api/reconciliation.rs:549-553 | reports over official and over known accounts are the same |
| ReconciledDays.AggregateReconciledAccountDays | src/api/reconciliation.rs:1189-1232 | weeks and months show the saturated sums, the worst status and the bounds of their days |
| ReconciledDays.CoarseningKeepsTotals | src/api/reconciliation.rs:1189-1232 | coarser points add up to what the days add up to, in every column |
| ReconciledDays.ExactIffEveryDayExact | src/api/reconciliation.rs:1196-1229 | a week or month is exact exactly if each of its days is; otherwise it has the worst status of a day |

## Left out

- HTTP routes, server-sent events, wire formats, labels and the desktop and web clients: presentation.
- SQLite itself, schema migrations other than the rollup triggers, and stored sums over signed 64-bit columns overflowing.
- The validity guards on rollup rows (src/store/migrations.rs:1412-1440), which refuse what valid events never add up to; where an update takes an event from a row that does not count it, they may refuse the update instead.
- JSON, timestamp, UUID and login-log parsing: parsed records are inputs. Timestamps outside signed 64-bit nanoseconds.
- Model, directory, project and account labels of reconstructed events, turn contexts in reconstruction, and report counters of a batch.
- A file truncated and grown back above the cursor between two looks at it cannot be told from an append; runs with it are excluded.
- Files outside the session directories, in the scheduler: they are given up, as in the runs of ExactlyOnce.
- Scheduler.RefreshSources: takes every indexed file to be there and every row to be still indexed; the code gives up sources that are not.
- Reconstruction.ReconstructionState.ProcessLine: turn contexts and the model, directory and project labels they set are not modelled; no count depends on them.
- Scheduler.IngestReconstructionBatch: takes every listed source to have a readable file inside the session directories that does not change during the batch.
- ReconstructionStore.LedgerStore.MarkUnrecoverable: the code uses two transactions; the runs of ExactlyOnce take them as two steps with a possible crash in between.
- ReconstructionStore.LedgerStore.ReplaceReconstructionSource: the code replaces all changed sources and rebuilds the reconstruction rollups in one transaction; the model replaces one source at a time.
- Reconstruction rollups, the choice between sampling and reconstruction per thread and day, and the effective views.
- Candidates already used across a crash in the middle of a sampling import.
- Rollups.LedgerStore.UpsertEvent: does not model the thread catalog, which carries no usage.
- Backfill.CompleteMeansEveryRow: rows that the backfill has not reached yet are not changed or deleted while it runs, since prepare_fast_ledger holds the store alone at start-up (src/runtime.rs:675-713).
- HourWindow.ExactTimeSeries: sums that leave 64 bits are an error in the code and unbounded here; merging saturates as in the code. Zone names that do not parse never reach it.
- HourWindow.SHANGHAI: the rollup's zone is a fixed eight hours ahead; time zones with daylight saving are functions from instants to offsets. Folding the hours of the rolling week into days, weeks and months.
- RollingHours.Reads: stands for the grouped query over hourly rows; it is tied to the tables of a run and not to SQL text.
- Explorer.SubtreeTotals: the descendants query stops 32 levels below the root, so the totals are over those levels; the catalog is taken to have no cycles.
- Reassignment.ReassignRollups: covers the moving of rows; the retained events rewritten before it are in Attribution. Rows of other machines in the same rollup are not told apart, as in the code.
- Attribution.EpochsAreAssigned: events that have an account of unknown confidence are reassigned by the code like unassigned ones; here they are assigned. Hourly rows are not followed there.
- Residual.MissingAccountEstimate: the audit counters, coverage bounds and per-account excess beside the estimate.
- ReconciledDays.SelectedTotal: the lifetime total, which replaces the sum of the days when the period is the whole lifetime.
- ReconciledDays.DisplayTotal: the lifetime period, scopes with a project, model or session, the rounding of a window to days, and time zones other than that of the rollups.
- Coverage ratios, shares and percentages in floating point, and quota payloads.
- Priority among overlapping account epochs for one instant (src/sampling.rs:664-681): one maximum, nothing that spans operations.
