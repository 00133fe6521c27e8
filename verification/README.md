# Verified models of the binlog pipeline

The pipeline takes MySQL binlog files through stores that share no transaction: a SQLite metadata store, marker and journal
files, ClickHouse tables and object storage. It promises that nothing is lost, nothing is counted twice and nothing is
silently left unsearched. This project models the protocols and algorithms those promises rest on and proves them, for every
input, every reachable state or every run. One module follows one part of the program:

| modules | part of the program |
|---|---|
| `PartTable`, `PartStatus`, `StageProtocol`, `StageDelivery`, `StagedLoader` | the crash-recoverable two-table load of `app/clickhouse_stage.py` |
| `RowStore`, `RowStoreProof`, `RowStoreStale`, `RowStoreWorker` | the row-store commit protocol of `app/binlog_rows_worker.py`, with lanes, markers, purges and background recovery |
| `Manifest`, `ManifestStore` | the part states, the two reconcile implementations and the gates of `app/clickhouse_manifest.py` |
| `ChangeQueue`, `Serving`, `ServingProof`, `ServingGates`, `ServingRows`, `ServingJobs`, `ServingRuns`, `ServingWorker` | the versioned change queue, the full scan, `ingest_one` and the serving gates, over whole runs |
| `Intervals`, `CoverageRuns`, `SlicedQuery` | the interval algebra, coverage and sliced query of `app/binlog_rows.py` |
| `TopRows`, `NativeQuery`, `PackedQuery` | top-k paging with early stop in `app/indexed_query_native.py`, `app/clickhouse_query.py` and `app/clickhouse_raw_oss.py` |
| `BinlogIndex`, `BinlogFile` | the byte-level scanner and pruning predicate of `app/binlog_lite.py`, and the file format it reads |
| `ExactKeys`, `ExactIndex` | the primary-key index of `app/exact_index.py` against the images of every row |
| `Checksum` | the CRC-64 of `app/checksum.py` (section 6 of the .xz file format specification) |
| `Supervisor` | admission, cancel fence and terminal confirmation in `app/indexed_query_worker.py` |

`Select` holds facts about filtering and inserting in sequences that several modules share.

Where the source changes things step by step, the model does too: classes whose methods update the fields the source
updates (`StagedBatchLoader`, `ClickHouseManifest`, `Ingester`, `PendingChanges`, `Claims`, `NativeQuery`, `RangeReader`,
`QueryServer`), loops where the source loops, and each method tied to a specification about which the properties are proved. Protocols in
which several actors interleave (row-store lanes, ingestion against source changes, queries against cancels) are state
machines: a `World`, an `Event` per atomic step, an invariant kept by every step, and theorems over every run.

## What turned out to need a condition

Some promises hold only under a condition. Each is proved exactly, in both directions where that is stated.

- `StageProtocol.RecoveryNeedsOneDay`: recovery refuses nothing after any moves of partitions, of the name or of the time
  table, if and only if each part's rows lie in one `event_date` partition. Without that it refuses exactly where a move has
  torn a part, and never discards: what it does not refuse, it can finish (`StageProtocol.PartialMoveIsNeverDiscarded`).
- `RowStoreStale.CommitNeedsFreshCheck`: a commit leaves a file's rows exactly once if and only if the file was not recorded
  when the commit began (or has no stored rows): `commit` ignores the answer of `purge_marker`
  (app/binlog_rows_worker.py:450-451), so a check served from the 60-second cache is not enough. `StaleCheckDoubles` is a run
  from an empty store that doubles a file; `RowStoreProof.ExactlyOnce` holds for every run whose checks are fresh.
- `ServingGates.ScanExact`: a full scan brings manifest and source into agreement if and only if it lists every visible part
  without a queued change. A part newer than the end of the scan whose change was already acknowledged is queued for deletion,
  and nothing queued brings it back: `ServingRuns.MissedPartRun`.
- `ServingGates.PutBackExact`: a pause or failure after `mark_retired` puts the row of a hidden part back into the load queue;
  the part is looked up without regard to visibility (app/metadata.py:3515-3527), so it is loaded and served again:
  `ServingRuns.RevivedPartIsServed`. `OpenGateServesNothingElse` is proved for runs without that step.
- `ServingRows.ReadyMeansRows`: a ready row has its rows in ClickHouse, in every run that accepts no part as already loaded
  while a deletion of its rows is outstanding; `ServingRuns.AcceptedPartLosesItsRows` is a run from a new installation that
  does. Which single steps those are is `ServingRows.AcceptExact`, a fact about the row counts of one step.
- `ServingJobs.ReadyIsCurrentExactly`: a load looks at the source for the last time before its INSERT
  (app/clickhouse_ingest.py:596), so a part replaced after that look becomes ready all the same:
  `ServingRuns.OvertakenLoadBecomesReady`. Its path is queued then, and the gate stays closed
  (`ServingJobs.OutdatedRowClosesTheGate`).
- `Manifest.ReconcilesAgreeExactly`: the two reconciles agree on every table, counters included, if and only if the source
  lists no path twice; their tables alone agree on every table if and only if all listings of a path are the same part
  (`Manifest.TablesAgreeExactly`). The source reads its parts by primary key, so the condition holds there.
- `PackedQuery.PushingTheFilterDownResurrects`, `PackedQuery.RepeatedEventCrowdsOut`, `TopRows.TiesMustBeRead`: what the query
  rewrite, the batched LIMIT and the strict comparison of the early stop protect against.
- `SlicedQuery.PagesJoin`: one page followed by the next is the page twice as long if no two rows have the same sort key;
  `SlicedQuery.TiedRowsMayRepeat`: with two such rows the server may show one of them on both pages.
- `CoverageRuns.OnlyAPointFileReachesPastTheNewest`: with a window an instant is both covered and in a gap if and only if it
  lies past the newest file, in the second that stands for an ingested file of zero length, and no file is missing there.
  `CoverageRuns.OnePointFileOverlaps`: a single such file is enough. `CoverageRuns.CoverageInWindow` promises the same of the
  report it returns.
- `ExactIndex.BuildSegment`: a segment cannot be built exactly when a path is repeated, a row count differs from the
  metadata's, or two rows of one part have summaries that differ only in the column's name, which the stored key leaves out.

## Assumptions

- One worker process for the staged loader and one for ingestion, as their lock files enforce; no statement of a dead process
  goes on at the server, except where a step says so (`Erode` in `RowStore`, `Mutate` in `Serving`).
- Part identities are distinct within a staged batch, and unique to a path in the manifest; each part of a staged batch lies in
  one `event_date` partition, and is an object of its own, not a range of a packed one.
- `MOVE PARTITION` and every SQLite transaction are atomic; `INSERT` and the stage copy may take partial effect.
- In the row-store protocol the outcome of `record` is known to the process that issued it, the KILL of a failed INSERT
  succeeds, the query for unfinished deletions is answered, and an aggregate INSERT is atomic and still within its
  deduplication window. That the check before a load is fresh is a condition of the theorems, not of the model.
- The source's parts change one path at a time, each with its trigger.
- Rows of one event identity have one content, an event belongs to one packed object, and a file's bound covers its rows; what
  is promised without the first is in the contracts.
- A part catalog names every table its part has rows of, and the same identity is the same content. The manifest of packed
  objects bounds their rows, and a ready catalog that does not match means that no row does.
- Clocks are counters, or an input that says what each look at them finds.

## Model

| member | source | states |
|---|---|---|
| `PartTable.MatchesIffExact` | app/clickhouse_stage.py:47-73 | the row count, revision and sha comparisons of `_time_matches` and `_name_matches` hold exactly when the table holds the part: that many rows, all of its revision and sha |
| `PartTable.SummaryIffOnlySelected` | app/clickhouse_stage.py:151-176 | the two totals of `_summary_matches` agree exactly when the table holds rows of the selected parts and of nothing else |
| `PartTable.TotalsBound` | app/clickhouse_stage.py:161-176 | parts that are exact account for at most the rows of the table, and for all of them exactly when nothing else is there |
| `StageProtocol.InsertKeepsInv` | app/clickhouse_stage.py:392-412 | a journaled INSERT that lands any rows, whole or cut off, keeps the protocol invariant |
| `StageProtocol.VerifiedTimeIsCopying` | app/clickhouse_stage.py:413-426 | a stage-time table that passes verification holds exactly the batch |
| `StageProtocol.CopyKeepsInv` | app/clickhouse_stage.py:428-431 | a copy that stops after any prefix keeps the invariant |
| `StageProtocol.VerifiedNameIsMoving` | app/clickhouse_stage.py:432-458 | after the second verification both staging tables hold the same, complete batch |
| `StageProtocol.NameMoveKeepsMoving` | app/clickhouse_stage.py:460-464 | moving any partition of the name table leaves every part whole on one side of each table pair |
| `StageProtocol.TimeMoveKeepsMoving` | app/clickhouse_stage.py:470-474 | the same for the time table, once the name table is moved out |
| `StageProtocol.DiscardKeepsInv` | app/clickhouse_stage.py:251-254 | truncating name before time keeps the invariant between the two |
| `StageProtocol.NeverInBoth` | app/clickhouse_stage.py:264-275 | in every reachable state no part has rows in both stage and final of one side |
| `StageProtocol.TimeFollowsName` | app/clickhouse_stage.py:460-474 | once one part has reached the final time table every part of the batch is complete in the final name table |
| `StageProtocol.VerdictIsSafe` | app/clickhouse_stage.py:296-354 | in every reachable state no journaled part is inexact or in two tables; either all can finish or none has started, so none of the refusals of `recover` can fire |
| `StageProtocol.SummariesHold` | app/clickhouse_stage.py:322-339 | with every part whole on one side, the staging totals are what `recover` asks for |
| `StageProtocol.LoadedLeavesStageEmpty` | app/clickhouse_stage.py:289-294 | if the batch is already exact in the final tables, staging is empty |
| `StageProtocol.MovedOutIsLoaded` | app/clickhouse_stage.py:340-348 | once staging is moved out, every part is exact in both final tables with the same rows |
| `StageProtocol.PartialMoveIsNeverDiscarded` | app/clickhouse_stage.py:278-354 | whichever partitions of the two stages have been moved, recovery refuses if and only if that has torn a part, and what it does not refuse it can finish |
| `StageProtocol.RecoveryNeedsOneDay` | app/clickhouse_stage.py:278-354 | recovery refuses after no moves of name partitions, of time partitions, or of both, if and only if each part lies in one partition of that table |
| `StageProtocol.LoadsCompose` | app/clickhouse_stage.py:492-499 | two half loads make the whole load: counts add up, final tables only gain rows of the two halves, marks are as expected |
| `StageProtocol.LoadAssembles` | app/clickhouse_stage.py:359-378 | parts found ready and the loaded rest make the whole load |
| `StageDelivery.LabelledMeans` | app/clickhouse_oss.py:504-533 | the rows delivered for a part carry the days and events of its object, change by change, under the identity, digest and revision of the part |
| `StageDelivery.DeliveredRows` | app/clickhouse_oss.py:523-534 | every row delivered belongs to a part of the batch, and those of one part share a day |
| `StageDelivery.OfDelivered` | app/clickhouse_oss.py:523-534 | the rows delivered for a part are those of its object, whatever else is in the batch |
| `StageDelivery.VerificationDecides` | app/clickhouse_stage.py:413-426 | the verification after the INSERT passes exactly when every object of the batch holds as many changes as the metadata says |
| `StageDelivery.WholeInTwo` | app/clickhouse_stage.py:492-499 | what a load without failures loads, over two halves |
| `StageDelivery.WholeBatchLoads` | app/clickhouse_stage.py:358-482 | a batch of whole objects that were nowhere is counted ready to the last part |
| `StagedLoader.StagedBatchLoader.InsertFromStore` | app/clickhouse_stage.py:394-412 | the INSERT lands exactly the rows of the journaled objects, in any order, or fails and lands some of them; the invariant holds wherever it stops |
| `StagedLoader.StagedBatchLoader.StageTimes` | app/clickhouse_stage.py:394-426 | the INSERT and its verification: without faults it succeeds exactly when every object is whole |
| `StagedLoader.StagedBatchLoader.StageNames` | app/clickhouse_stage.py:428-458 | the copy and the verification of both tables: without faults it succeeds |
| `StagedLoader.StagedBatchLoader.CopyTimeToName` | app/clickhouse_stage.py:428-431 | the copy, whole or cut off, keeps the invariant; without faults the two staging tables are equal |
| `StagedLoader.StagedBatchLoader.TruncateStaging` | app/clickhouse_stage.py:251-254 | both staging tables are empty at the end, and the invariant holds wherever it stops |
| `StagedLoader.StagedBatchLoader.MarkReady` | app/clickhouse_stage.py:256-262 | only rows of complete parts become ready, whoever stops the loop; a finished loop has marked all that can be |
| `StagedLoader.StagedBatchLoader.MoveRemainingStaging` | app/clickhouse_stage.py:264-275 | moves every partition left, name first; final tables only gain rows of the batch |
| `StagedLoader.StagedBatchLoader.Examine` | app/clickhouse_stage.py:297-320 | the loop over the journaled parts raises exactly for an inexact or doubled part, or for a started batch that cannot finish |
| `StagedLoader.StagedBatchLoader.Recover` | app/clickhouse_stage.py:277-356 | from every reachable state `recover` never raises on its own account; stopped or done it keeps the invariant; done, the journal is gone, staging is empty, and all of the batch is exact and marked or none of it is there; it returns the number of parts |
| `StagedLoader.StagedBatchLoader.FinishBatch` | app/clickhouse_stage.py:322-348 | the finishing branch of recovery: both totals hold, everything is moved, verified and marked |
| `StagedLoader.StagedBatchLoader.MoveAndVerify` | app/clickhouse_stage.py:340-345 | after the moves the verification of the final tables holds |
| `StagedLoader.StagedBatchLoader.DiscardBatch` | app/clickhouse_stage.py:350-356 | the discarding branch leaves final tables and manifest untouched |
| `StagedLoader.StagedBatchLoader.FinishRecovery` | app/clickhouse_stage.py:346-348 | marks the batch and clears the journal in that order |
| `StagedLoader.StagedBatchLoader.Attempt` | app/clickhouse_stage.py:392-482 | one attempt at a batch ends done, failed or stopped, always in a state recovery can resume; done means exact in both tables, marked, journal gone |
| `StagedLoader.StagedBatchLoader.Publish` | app/clickhouse_stage.py:454-482 | verified staging tables reach the final tables name first; the last verification cannot fail |
| `StagedLoader.StagedBatchLoader.Classify` | app/clickhouse_stage.py:359-375 | splits the parts into those complete in the final tables and those with no row there, and refuses anything else |
| `StagedLoader.StagedBatchLoader.Load` | app/clickhouse_stage.py:358-508 | terminates; ready and failed add up to the number of parts, every part counted ready is exact in both final tables, every failed one has no row there, the manifest is exactly the expected one, other parts are untouched; without faults and journal a part that was nowhere is loaded, with the changes of its object, if and only if its object is whole, and a batch of such parts is counted ready to the last one |
| `StagedLoader.StagedBatchLoader.LoadSorted` | app/clickhouse_stage.py:376-390 | marks the complete parts first and refuses a batch while a journal is left |
| `StagedLoader.StagedBatchLoader.LoadMissing` | app/clickhouse_stage.py:392-508 | loads parts with no rows yet; needs no refusal at all |
| `StagedLoader.StagedBatchLoader.Bisect` | app/clickhouse_stage.py:489-508 | a failed batch is recovered, and if nothing was recovered split in two or, if single, marked failed |
| `StagedLoader.StagedBatchLoader.FailSingle` | app/clickhouse_stage.py:500-508 | the single failing part is marked failed and has no row in the final tables |
| `RowStoreProof.AggregatedIsStored` | app/binlog_rows.py:1154-1167 | the rows an aggregate of a file reads are exactly the stored rows of that file, in a batch or alone |
| `RowStoreProof.CheckKeepsInv` | app/binlog_rows_worker.py:907-914 | a check against a list that is not older than the record of its candidate keeps the invariant |
| `RowStoreProof.StoredInPartitions` | app/binlog_rows.py:1099-1109 | every stored row of a batch lies in the date and bucket pairs reported for it |
| `RowStoreProof.PurgeMeans` | app/binlog_rows.py:354-422 | a purge removes exactly the rows of its files whose date and whose bucket are each among the pairs, and no other copy of any row |
| `RowStoreProof.OfPurge` | app/binlog_rows.py:354-422 | a purge empties a file whose rows all lie in the filter and leaves every other file alone |
| `RowStoreProof.MoveBucketKeepsInv` | app/binlog_rows.py:1126-1136 | moving the next bucket keeps the invariant: each file has exactly its rows of the buckets done |
| `RowStoreProof.FailBucketKeepsInv` | app/binlog_rows.py:1137-1140 | whatever a failed INSERT left lies where the purges reach |
| `RowStoreProof.PurgeFailedMoveKeepsInv` | app/binlog_rows.py:1139-1142 | the purge of the attempted buckets leaves no row of any file of the batch |
| `RowStoreProof.PurgeOldKeepsInv` | app/binlog_rows_worker.py:483-499 | a purge behind an old marker leaves no row of its file |
| `RowStoreProof.RecordKeepsInv` | app/binlog_rows_worker.py:842-845 | a file is recorded only with its rows and its three aggregates complete |
| `RowStoreProof.ErodeKeepsInv` | app/binlog_rows.py:396-404 | a deletion that timed out and goes on at the server keeps the invariant: it was asked for a file that no lane has moved, and the next purge of that file waits for it |
| `RowStoreProof.MovedIsNotPending` | app/binlog_rows.py:396-404 | a file that a lane is moving or finishing has no unfinished deletion |
| `RowStoreProof.ErosionTakesNothing` | app/binlog_rows.py:396-404 | in every run with fresh checks such a deletion takes no row of a recorded file, nor of one that a lane has begun to move |
| `RowStoreProof.PurgeTimesOutKeepsInv` | app/binlog_rows.py:401-422 | a purge that times out leaves its marker and the deletion behind |
| `RowStoreProof.RecoverTimesOutKeepsInv` | app/binlog_rows_worker.py:509-520 | and so does one of background recovery |
| `RowStoreProof.RecoverPurgeKeepsInv` | app/binlog_rows_worker.py:501-537 | the purge of background recovery empties the file and disturbs no lane |
| `RowStoreProof.CrashKeepsInv` | app/binlog_rows_worker.py:523-529 | a kill at any point, and the claims taken at the next start, keep the invariant |
| `RowStoreProof.NextKeepsInv` | app/binlog_rows_worker.py:442-537 | every step of a lane, of recovery, of the server and every crash keeps the invariant, a check if it is fresh |
| `RowStoreProof.RunKeepsInv` | app/binlog_rows_worker.py:442-537 | every world of every run with fresh checks satisfies the invariant |
| `RowStoreProof.ExactlyOnce` | app/binlog_rows_worker.py:813-845 | in every world of every run whose checks agree with the record of their candidate: a recorded file has each of its rows exactly once and is counted exactly once by each aggregate; a file with neither record nor marker has no row; the purge of a marker covers every row of its file |
| `RowStoreStale.CommitNeedsFreshCheck` | app/binlog_rows_worker.py:442-469 | whatever steps a lane takes to the end of its move of a file, the file has its rows exactly once if and only if it was not recorded when the commit began, files without stored rows aside |
| `RowStoreStale.StaleCheckDoubles` | app/binlog_rows_worker.py:375-383 | a run from an empty store in which a list that is a moment old lets a recorded file in again, and every row of it is stored twice |
| `RowStoreWorker.Claims.TakeCandidate` | app/binlog_rows_worker.py:907-911 | a lane gets a file exactly where the protocol has a step for it, and the claims then are those of the world after that step |
| `RowStoreWorker.Claims.FinishCandidate` | app/binlog_rows_worker.py:912-914 | finishing an ingested candidate is the step of its check |
| `RowStoreWorker.Claims.FreeBatch` | app/binlog_rows_worker.py:988-990 | freeing the files of a failed batch one by one is the step in which its lane gives up |
| `RowStoreWorker.Claims.FinishBatch` | app/binlog_rows_worker.py:988-990 | finishing those of a committed batch is the step that ends it |
| `RowStoreWorker.Claims.TakeMarked` | app/binlog_rows_worker.py:523-529 | claiming the files of the markers found at start gives the claims of a world after a crash |
| `RowStoreWorker.Worker.RemoveOldMarkers` | app/binlog_rows_worker.py:819-824 | the first loop of the commit is a run of the protocol, whatever others do between its steps |
| `RowStoreWorker.Worker.WaitForPurge` | app/binlog_rows.py:401-404 | waits for an unfinished deletion of the file, or gives up |
| `RowStoreWorker.Worker.WriteMarkers` | app/binlog_rows_worker.py:825-833 | all markers of the batch are written before the move begins |
| `RowStoreWorker.Worker.Move` | app/binlog_rows.py:1111-1142 | the buckets are moved in ascending order to the end, or the move is cleaned up |
| `RowStoreWorker.Worker.CleanUpMove` | app/binlog_rows_worker.py:837-841 | after a failed move the purge comes before the markers go |
| `RowStoreWorker.Worker.FinishFile` | app/binlog_rows_worker.py:842-845 | aggregates, record and marker of one file, in that order |
| `RowStoreWorker.Worker.CommitBatch` | app/binlog_rows_worker.py:813-845 | when the commit of a batch returns, each of its files is recorded, stored exactly once and counted exactly once, with other lanes, recovery and crashes in between; and it does return if nothing fails |
| `Manifest.LoopIsSetBased` | app/clickhouse_manifest.py:456-546 | for distinct paths the row-by-row loop and the set-based statements give the same table, the same seen keys and the same counts |
| `Manifest.ReconcilesAgree` | app/clickhouse_manifest.py:153-630 | for distinct paths both reconciles leave the same table and return the same counters, sweep included |
| `Manifest.OutcomesAgree` | app/clickhouse_manifest.py:153-630 | with the window filter off and distinct paths the two reconciles are the same call: table, counters and reconcile state |
| `Manifest.TablesAgree` | app/clickhouse_manifest.py:193-546 | for the tables and the seen keys it is enough that all listings of a path are the same part |
| `Manifest.ReconcilesAgreeExactly` | app/clickhouse_manifest.py:153-630 | the two reconciles agree on every table, counters included, if and only if no path is listed twice |
| `Manifest.TablesAgreeExactly` | app/clickhouse_manifest.py:153-630 | they leave the same table, whatever it held, if and only if all listings of a path are the same part |
| `Manifest.KeysAgreeExactly` | app/clickhouse_manifest.py:193-546 | for each table: they keep rows of the same keys if and only if every identity listed before the last one of its path has a row already |
| `Manifest.ReconcileHandsOver` | app/clickhouse_manifest.py:476-546 | after a reconcile the listed identity of a path is in a load state and every other identity of it is being deleted or retired |
| `Manifest.SweepLeavesOnlyListed` | app/clickhouse_manifest.py:552-591 | after a full sweep exactly the listed identities are in a load state |
| `Manifest.ReadyStaysReady` | app/clickhouse_manifest.py:494-511 | a ready row listed again stays ready with its row count, even when its values change |
| `Manifest.MissingInTwo` | app/clickhouse_manifest.py:815-845 | queueing missing paths chunk by chunk does the same as all at once, counts included |
| `Manifest.ListedRow` | app/clickhouse_manifest.py:246-300 | a listed part that is new or was on its way out starts afresh, due at once and with no attempts; any other row keeps its place, attempts and error, and takes over values that differ |
| `Manifest.OtherRow` | app/clickhouse_manifest.py:301-330 | another identity of a listed path is to be deleted, at once, and one being deleted is left to it |
| `Manifest.SweptRowMeans` | app/clickhouse_manifest.py:560-596 | the full sweep sends an unlisted row that reaches into the window to deletion and retires an older one; listed and retired rows stay |
| `Manifest.MissingRow` | app/clickhouse_manifest.py:815-845 | the rows of a path that is gone or hidden are to be deleted |
| `Manifest.FinishedRowMeans` | app/clickhouse_manifest.py:694-813 | a finished load is said to have the rows it was marked with, since when, and no error; a finished deletion has none; nothing else about the row changes |
| `Manifest.CutMeans` | app/clickhouse_manifest.py:632-638 | a message is kept whole up to 2000 characters |
| `Manifest.RecordedState` | app/clickhouse_manifest.py:598-630 | what a reconcile records of itself, or keeps |
| `Manifest.SweepSparesTheWindow` | app/clickhouse_manifest.py:153-392 | after a streaming reconcile with a full sweep a listed part is in a load state if and only if it was let through: with the window filter, if it has an instant in the window |
| `PartStatus.StatesPart` | app/clickhouse_manifest.py:11-36 | each state is on the way in, on the way out, or retired; `mark_ready` takes whatever is on its way in and not there yet; failures and pauses keep the kind of job |
| `Manifest.QueueMeans` | app/clickhouse_manifest.py:652-666 | the order of the queue: a due deletion is never passed over for a load, nor a failed job for one of its kind that has not failed; then retry time, event time, path |
| `Manifest.QueueIsOrdered` | app/clickhouse_manifest.py:652-666 | the order of the queue puts one of two rows of different paths first |
| `Manifest.BackOffDoubles` | app/clickhouse_manifest.py:775-776 | the back-off starts at five seconds, doubles with each failure and is capped at fifteen minutes |
| `Manifest.PausedComesAgain` | app/clickhouse_manifest.py:720-758 | a paused job can be claimed again exactly when its delay is over, as the kind of job it was |
| `Manifest.FailedComesAgain` | app/clickhouse_manifest.py:760-799 | a failed job can be claimed again exactly when its back-off is over, as the kind of job it was |
| `Manifest.FinishedIsNotClaimed` | app/clickhouse_manifest.py:640-813 | ready and retired rows are never claimed nor touched by a restart, a claimed row is not claimed twice, and a claim cut short by a restart can be made again, as the same kind of job |
| `ManifestStore.ClickHouseManifest.UpsertPart` | app/clickhouse_manifest.py:457-521 | one part is written as the upsert says, and the in-memory mirror and path index still equal the table |
| `ManifestStore.ClickHouseManifest.ReplaceOthers` | app/clickhouse_manifest.py:522-546 | the other identities of the path are queued for deletion, mirror and index kept equal |
| `ManifestStore.ClickHouseManifest.SweepUnseen` | app/clickhouse_manifest.py:552-591 | the sweep deletes and retires exactly the unseen rows, by their age, and counts them |
| `ManifestStore.ClickHouseManifest.Reconcile` | app/clickhouse_manifest.py:410-630 | leaves the table, counters and reconcile state of the specification of the row loop |
| `ManifestStore.ClickHouseManifest.StageSource` | app/clickhouse_manifest.py:193-234 | batches of any size end in the temporary table of the listed parts in the window |
| `ManifestStore.ClickHouseManifest.SweepUnlisted` | app/clickhouse_manifest.py:333-372 | the set-based sweep does the same to the same rows |
| `ManifestStore.ClickHouseManifest.ReconcileStreaming` | app/clickhouse_manifest.py:153-408 | leaves the table, counters and reconcile state of the set-based specification |
| `ManifestStore.ClickHouseManifest.ClaimNext` | app/clickhouse_manifest.py:640-692 | claims a due row that goes before every other due row, as `QueueMeans` spells out, or reports that none is due |
| `ManifestStore.ClickHouseManifest.RecoverLoading` | app/clickhouse_manifest.py:117-140 | no row is left loading or deleting; each interrupted one is back in its own queue and counted |
| `ManifestStore.ClickHouseManifest.QueueMissingPaths` | app/clickhouse_manifest.py:815-845 | queues exactly the active rows of the paths for deletion, and counts them |
| `ManifestStore.ClickHouseManifest.PartCoverage` | app/clickhouse_manifest.py:973-1028 | a part is covered exactly when its own row is ready and every other row of its path is retired |
| `ManifestStore.ClickHouseManifest.Coverage` | app/clickhouse_manifest.py:973-1028 | complete exactly when a reconcile has completed and every part of the list is covered; names the others in the order of the list, and sums the rows of the covered |
| `ManifestStore.ClickHouseManifest.GlobalCoverage` | app/clickhouse_manifest.py:847-904 | the gate over all history: open exactly when tracking is complete, nothing is queued, a reconcile has completed without error and no row is unready |
| `ManifestStore.ClickHouseManifest.WindowCoverage` | app/clickhouse_manifest.py:906-971 | the gate of one window, which unready rows outside it do not close |
| `ChangeQueue.SplitPage` | app/clickhouse_change_queue.py:25-50 | one page splits into eligible parts, removed paths and acknowledgements; visible parts not yet archived are deferred |
| `ChangeQueue.PendingChanges.Acknowledge` | app/metadata.py:3021-3043 | removes an entry only if its version still is the acknowledged one |
| `ChangeQueue.ReconcilePendingSourceChanges` | app/clickhouse_change_queue.py:9-67 | manifest, then acknowledgements: what one call does is what the three steps of the protocol make of the page, and of the reconcile state only the generation and the last error change |
| `ServingProof.ChangeKeepsInv` | app/metadata.py:703-835 | a source change and its trigger keep the invariant, whatever the worker is doing |
| `ServingProof.MergeKeepsInv` | app/clickhouse_change_queue.py:52-65 | handing eligible parts over keeps it |
| `ServingProof.QueueRemovedKeepsInv` | app/clickhouse_change_queue.py:66 | queueing removed paths keeps it |
| `ServingProof.AcknowledgeKeepsInv` | app/clickhouse_change_queue.py:67 | an acknowledgement removes only what the manifest already says |
| `ServingProof.SweepKeepsInv` | app/clickhouse_ingest.py:309-387 | a scan keeps it, a full one when its window takes in every visible part |
| `ServingProof.LoadKeepsInv` | app/clickhouse_ingest.py:531-640 | each step of a load keeps it |
| `ServingProof.JobKeepsInv` | app/clickhouse_ingest.py:492-659 | claim, delete, retire, pause, failure and crash keep it |
| `ServingProof.StepKeepsInv` | app/clickhouse_ingest.py:309-659 | every step keeps it: every path without a queued change agrees with the manifest |
| `ServingGates.GateImpliesCoverage` | app/clickhouse_manifest.py:847-904 | in every reachable state an open global gate means that every visible part is archived and covered |
| `ServingGates.RunKeepsInv` | app/clickhouse_ingest.py:309-387 | the invariant holds after every admitted run |
| `ServingGates.OpenGateIsCoverage` | app/clickhouse_manifest.py:847-904 | after every run whose full scans miss no visible part, an open global gate implies the exact coverage of all visible parts |
| `ServingGates.OpenGateServesNothingElse` | app/clickhouse_manifest.py:847-904 | and every ready row belongs to a visible part, if no retired hidden part was revived |
| `ServingGates.OpenWindowIsServed` | app/clickhouse_manifest.py:906-971 | an open window gate means that every visible part overlapping the window is ready with its current values, and no other identity of its path is |
| `ServingGates.ScanExact` | app/clickhouse_ingest.py:348-379 | a full scan leaves every path without a queued change in agreement if and only if it lists every visible part among them |
| `ServingGates.PutBackExact` | app/clickhouse_ingest.py:649-659 | a pause or failure leaves the path of its job in agreement if and only if it does not revive the retired row of a path without a visible part |
| `ServingWorker.Ingester.IngestOne` | app/clickhouse_ingest.py:492-659 | one job from claim to end is a run of the serving protocol, whatever fails and whatever changes meanwhile; no other row is touched, and its own ends where the outcome says; when nothing fails and nothing changes a deletion is retired, and a load is ready if its object has the rows the source says, removed if the source has moved on, failed if it is not archived |
| `ServingWorker.Ingester.ClaimJob` | app/clickhouse_ingest.py:505-513 | claims one job, as the kind its row was queued for |
| `ServingWorker.Ingester.Remove` | app/clickhouse_ingest.py:514-548 | a part to be deleted, or no longer the source's, is retired once no row is left, or comes again |
| `ServingWorker.Ingester.Load` | app/clickhouse_ingest.py:539-577 | a part still the source's and with its rows is ready; a part gone is removed; an unarchived one fails |
| `ServingWorker.Ingester.Clear` | app/clickhouse_ingest.py:578-600 | other rows are deleted first, and the source is looked at once more |
| `ServingWorker.Ingester.Overtaken` | app/clickhouse_ingest.py:594-600 | a part the source replaced while its object was read is retired, not sent |
| `ServingWorker.Ingester.Send` | app/clickhouse_ingest.py:601-648 | a part is ready only when all its rows are counted after the INSERT; when nothing fails, exactly when its object has them |
| `ServingWorker.Ingester.SendRows` | app/clickhouse_ingest.py:605-614 | the INSERT adds rows of the object |
| `ServingWorker.Ingester.Confirm` | app/clickhouse_ingest.py:616-648 | the count after the INSERT decides |
| `ServingWorker.Ingester.Pause` | app/clickhouse_ingest.py:649-656 | back into its queue for thirty seconds |
| `ServingWorker.Ingester.Fails` | app/clickhouse_ingest.py:657-659 | back into its queue with one more attempt and the back-off of that |
| `ServingWorker.Ingester.Restart` | app/clickhouse_ingest.py:707 | after a kill at any point, no job is left half claimed and the run goes on |
| `ServingWorker.Ingester.ReconcileFailed` | app/clickhouse_ingest.py:829-830 | an error of a reconcile closes the gates |
| `ServingWorker.Ingester.Serves` | app/clickhouse_manifest.py:847-904 | the gate as the manifest computes it; open after a run from a new installation, every visible part is covered exactly |
| `ServingWorker.Ingester.ServesWindow` | app/clickhouse_manifest.py:906-971 | the gate of a window; open after such a run, every visible part of the window is ready and no other identity of its path is |
| `ServingRuns.ServeFirst` | app/clickhouse_ingest.py:309-648 | a run from a new installation that lists, loads and serves a part: gate open, part covered |
| `ServingRuns.MissedPartOpensTheGate` | app/clickhouse_ingest.py:348-387 | from a served part, a run in which a full scan ends too early and the gate opens although the visible part is not covered |
| `ServingRuns.MissedPartRun` | app/clickhouse_ingest.py:348-387 | and such a run from a new installation |
| `ServingRuns.RevivedPartIsServed` | app/clickhouse_ingest.py:514-656 | a run from a new installation in which a pause after a retirement has a hidden part loaded again and served with the gate open |
| `ServingRuns.AcceptedPartLosesItsRows` | app/clickhouse_ingest.py:555-577 | a run from a new installation in which a part is accepted while its rows are being deleted: the gate is open, the row is ready, no row is left |
| `ServingRuns.OvertakenLoadBecomesReady` | app/clickhouse_ingest.py:596-639 | a run from a new installation in which the row of a part that the source has replaced becomes ready |
| `ServingJobs.ReadyIsCurrentExactly` | app/clickhouse_ingest.py:531-640 | a load makes its row ready whatever the source did since it last looked; the source still lists the part then if and only if no change since has taken it away |
| `ServingJobs.OutdatedRowClosesTheGate` | app/clickhouse_manifest.py:847-904 | in every run without a revival a ready row that the source does not list keeps the gate closed, its path being queued once tracking is complete |
| `ServingJobs.OutAfterStep` | app/clickhouse_ingest.py:309-656 | a row outside the load states comes back by a step if and only if the step is a reconcile that lists its part, or a pause or failure after its retirement |
| `ServingJobs.OutStaysOut` | app/clickhouse_ingest.py:309-656 | so over a run without such a step it is not ready again |
| `ServingRows.StepKeepsRows` | app/clickhouse_ingest.py:492-659 | every step keeps the row counts of ready rows true |
| `ServingRows.RunKeepsRows` | app/clickhouse_ingest.py:492-659 | so does every run |
| `ServingRows.ReadyMeansRows` | app/clickhouse_ingest.py:492-659 | in every run a ready row has exactly its recorded number of rows in ClickHouse and no deletion outstanding |
| `ServingRows.AcceptExact` | app/clickhouse_ingest.py:555-577 | accepting a part as already loaded stays true if and only if no deletion is outstanding |
| `Intervals.Union` | app/binlog_rows.py:475-482 | the merged spans cover exactly the instants in a span or in a hole within the tolerance, and lie further apart than the tolerance |
| `Intervals.BisectRight` | app/binlog_rows.py:491-494 | the first cut that ends after the point |
| `Intervals.SubtractOne` | app/binlog_rows.py:494-504 | one interval less the cuts, as a set of instants, in order |
| `Intervals.Subtract` | app/binlog_rows.py:485-505 | exactly the instants of the intervals that no cut holds, sorted and disjoint |
| `Intervals.UnionMonotone` | app/binlog_rows.py:475-482 | more spans never cover less |
| `Intervals.RunsAreUnique` | app/binlog_rows.py:475-482 | runs with holes between them are determined by the instants they cover |
| `Intervals.UnionIdempotent` | app/binlog_rows.py:475-482 | merging what is merged gives the same list |
| `CoverageRuns.MissingGaps` | app/binlog_rows.py:535-549 | the raw gaps are exactly the instants of files not ingested that no other host bridges, by reason |
| `CoverageRuns.UnlistedGaps` | app/binlog_rows.py:550-554 | exactly the instants between registered files that none bridges |
| `CoverageRuns.MergeGaps` | app/binlog_rows.py:555-562 | joining gaps changes no instant's reasons and loses no file count |
| `CoverageRuns.AllGaps` | app/binlog_rows.py:535-562 | the gaps are exactly the missing and the unlisted instants |
| `CoverageRuns.CoverageRuns` | app/binlog_rows.py:513-564 | intervals are sorted and disjoint and hold exactly the covered instants; gaps hold exactly the lacking ones, by reason |
| `CoverageRuns.ClipSpans` | app/binlog_rows.py:566 | exactly the covered instants inside the window |
| `CoverageRuns.ClipGaps` | app/binlog_rows.py:567-572 | exactly the gap instants inside the window |
| `CoverageRuns.Bounds` | app/binlog_rows.py:574-575 | the earliest begin and the latest end of the live files |
| `CoverageRuns.EdgeGaps` | app/binlog_rows.py:576-582 | no data before the oldest file, not collected after the newest, inside the window |
| `CoverageRuns.CoverageInWindow` | app/binlog_rows.py:565-583 | the whole answer for a window, with the number of covered instants in it; its intervals and gaps overlap exactly where a point file reaches past the newest file |
| `CoverageRuns.LengthWithin` | app/binlog_rows.py:573-583 | disjoint intervals inside a window are no longer than it |
| `CoverageRuns.EveryLiveInstantIsAccountedFor` | app/binlog_rows.py:516-527 | every instant of a live file is covered or in a gap |
| `CoverageRuns.CoveredByAnotherHost` | app/binlog_rows.py:518-520 | a covered instant of a file not ingested is bridged by another host's ingested files |
| `CoverageRuns.UnclassifiedIsAShortHole` | app/binlog_rows.py:467-470 | an instant that is neither lies in a hole no longer than the tolerance between two live files |
| `CoverageRuns.CoverageMonotone` | app/binlog_rows.py:513-564 | ingesting more files never takes an instant out of coverage |
| `CoverageRuns.OnlyAPointFileReachesPastTheNewest` | app/binlog_rows.py:529-583 | with a window, an instant is covered and in a gap if and only if it lies past the newest file, within the second of an ingested file of zero length, and no file is missing there |
| `CoverageRuns.OverlapIsPastTheNewest` | app/binlog_rows.py:565-583 | and that gap is the one not collected yet, never one before the oldest file, of a missing or of an unlisted file |
| `CoverageRuns.OnePointFileOverlaps` | app/binlog_rows.py:529-583 | an archive of one ingested file of zero length has such instants: all of its second |
| `CoverageRuns.LengthCounts` | app/binlog_rows.py:573 | the length of disjoint intervals is the number of their instants |
| `CoverageRuns.OneFileCovers` | app/binlog_rows.py:508-510 | a single ingested file covers its span, or one second if that is empty, and nothing else |
| `CoverageRuns.OneFileIsMissing` | app/binlog_rows.py:535-549 | a single file that is not ingested is a gap over the same time, for the reason its state gives |
| `CoverageRuns.HoleBetweenTwo` | app/binlog_rows.py:550-554 | a hole between two files is covered up to two seconds; a longer one is unlisted, or of a source that is gone |
| `CoverageRuns.SetAsideCountsForNothing` | app/binlog_rows.py:529-530 | files that are skipped or superseded change nothing |
| `SlicedQuery.DaySlices` | app/binlog_rows.py:86-94 | one slice per UTC day, newest first, tiling the range |
| `SlicedQuery.DateFilterIsImplied` | app/binlog_rows.py:940-942 | the day bounds sent with a slice exclude no row of it |
| `SlicedQuery.AnswersInTwo` | app/binlog_rows.py:949-963 | an answer for the newer part followed by one for the rest is an answer for both |
| `SlicedQuery.AnswersEarly` | app/binlog_rows.py:962-963 | enough newer rows answer for the older part too |
| `SlicedQuery.AnswerIsUnique` | app/binlog_rows.py:919-973 | with distinct keys there is one answer only, so slicing cannot change the page |
| `SlicedQuery.PageIsComplete` | app/binlog_rows.py:971-973 | has-more says exactly whether more rows match, and the page is as long as it can be |
| `SlicedQuery.AnswerGivesPage` | app/binlog_rows.py:971-973 | the i-th row of the page cut from an answer is the (offset + i)-th of all rows from newest to oldest |
| `SlicedQuery.RangeCounts` | app/binlog_rows.py:919-973 | the rows asked for are those of the table in the range, as often as they are there |
| `SlicedQuery.PagesJoin` | app/binlog_rows.py:971-973 | with distinct sort keys a page followed by the next is the page twice as long: nothing skipped, nothing twice |
| `SlicedQuery.TiedRowsMayRepeat` | app/binlog_rows.py:971-973 | with equal sort keys one row may come on both pages and the other on none |
| `SlicedQuery.Query` | app/binlog_rows.py:919-973 | terminates; an answer is the page of all matching rows of the range from newest to oldest, however memory failures split the slices; it fails if and only if its last statement, for the slice that is then due, fails for another reason, comes too late or runs out of memory on a slice of less than twenty minutes, and no statement before it does |
| `TopRows.TopOfTops` | app/indexed_query_native.py:94-106 | the top of what was kept and a new top is the top of all rows, and the flag of completeness is exact |
| `TopRows.OlderRowsDoNotMatter` | app/indexed_query_native.py:196-201 | a full top stays the top when all other rows are strictly older |
| `TopRows.TiesMustBeRead` | app/indexed_query_native.py:197-199 | with an equal time it need not |
| `TopRows.TopIsUnique` | app/indexed_query_native.py:202-205 | the top of a set of rows is unique |
| `TopRows.PageIsStretch` | app/indexed_query_native.py:203-205 | the page cut out of the top is the stretch of the sorted rows, and has-more is exact |
| `TopRows.TopGivesPage` | app/indexed_query_native.py:203-205 | its i-th row is the (offset + i)-th of all rows, by time, rank and identity |
| `TopRows.PagesJoin` | app/indexed_query_native.py:203-205 | a page followed by the next is the page twice as long |
| `NativeQuery.RangeReader.Fetch` | app/oss_store.py:103-117 | a range request is charged before it is made, and refused exactly when it would go over |
| `NativeQuery.NativeQuery.ChargeLocal` | app/indexed_query_native.py:56-61 | a local read is charged or refused |
| `NativeQuery.NativeQuery.HashLocal` | app/indexed_query_native.py:139-150 | hashing a file charges its size chunk by chunk |
| `NativeQuery.NativeQuery.QueryBlock` | app/indexed_query_native.py:172-177 | a row group gives its newest rows and whether there are more |
| `NativeQuery.NativeQuery.Merge` | app/indexed_query_native.py:94-108 | refuses exactly the second content of an identity; else the new top is the top of both and the flag is exact |
| `NativeQuery.NativeQuery.ReadBlock` | app/indexed_query_native.py:161-173 | reading a row group charges at most its lengths; it runs out of budget only if they go over it |
| `NativeQuery.NativeQuery.MergeBlock` | app/indexed_query_native.py:174-178 | querying and merging a row group keeps the top of all rows seen |
| `NativeQuery.NativeQuery.ScanBlock` | app/indexed_query_native.py:161-178 | both together |
| `NativeQuery.NativeQuery.ScanBlocks` | app/indexed_query_native.py:161-180 | the row groups of a file, in order, to the first failure |
| `NativeQuery.NativeQuery.ScanPart` | app/indexed_query_native.py:118-192 | one file: within the shared budget whatever happens, failing only for a cause in the file |
| `NativeQuery.NativeQuery.MergeEntry` | app/indexed_query_native.py:110-192 | one entry of the work, cached or not |
| `NativeQuery.StopIsSafe` | app/indexed_query_native.py:196-201 | the early stop leaves the top of all the work |
| `NativeQuery.AllRowsMean` | app/indexed_query_native.py:110-180 | the rows of the work are the cached rows and those of the row groups of its entries |
| `NativeQuery.NativeQuery.Check` | app/indexed_query_native.py:51-54 | a look at the clock fails exactly when the deadline has passed |
| `NativeQuery.NativeQuery.Run` | app/indexed_query_native.py:20-215 | never over budget, and an answer has charged exactly what the entries it read demand; a failure has its cause in the work, or in a look at the clock that came too late; an answer is in time, and the page of all matching rows; complete rows are all of them |
| `PackedQuery.NarrowingIsExact` | app/clickhouse_raw_oss.py:367-456 | restricting the versions to keys that any version matches changes no candidate |
| `PackedQuery.PushingTheFilterDownResurrects` | app/clickhouse_raw_oss.py:385-390 | filtering the versions themselves would |
| `PackedQuery.CandidatePage` | app/clickhouse_raw_oss.py:429-454 | one page is the newest candidates after the cursor |
| `PackedQuery.CursorMovesOn` | app/clickhouse_query.py:678-681 | the cursor of the last candidate leaves exactly the candidates not yet seen |
| `PackedQuery.BatchRows` | app/clickhouse_query.py:604-618 | the rows of one batch of objects, sorted |
| `PackedQuery.ReadBatch` | app/clickhouse_query.py:619-643 | the offset loop reads exactly the newest rows of the batch |
| `PackedQuery.MergeBatch` | app/clickhouse_query.py:635-660 | the rows kept are the top of those before and the batch, and the seen set is theirs |
| `PackedQuery.WalkPage` | app/clickhouse_query.py:596-677 | one page of candidates walked, stopping early only when the rest cannot matter |
| `PackedQuery.QueryRaw` | app/clickhouse_query.py:572-688 | the page and has-more are those of all rows of all candidates, however they were paged and batched |
| `PackedQuery.NarrowedCandidates` | app/clickhouse_raw_oss.py:367-456 | the candidates chosen from the narrowed table are those of the whole table |
| `PackedQuery.LatestMeans` | app/clickhouse_raw_oss.py:367-456 | what FINAL keeps of a path is its greatest version, the last of equal ones |
| `PackedQuery.CandidateMeans` | app/clickhouse_raw_oss.py:309-364 | a path is a candidate if and only if its latest version is live, meets the conditions of the query, has no ready catalog or a matching one, and has an instant in the window |
| `PackedQuery.CandidatesHoldAll` | app/clickhouse_raw_oss.py:309-456 | choosing candidates by their bounds and catalogs loses no row: their matching rows are those of all live objects |
| `PackedQuery.QueryTable` | app/clickhouse_query.py:572-688 | from the versioned table to the page: that of all matching rows in the window of all live objects that meet the conditions, whatever their bounds and catalogs |
| `PackedQuery.RepeatedEventCrowdsOut` | app/clickhouse_query.py:610-621 | with an event in two objects of one batch the limited statement finds one event of two, and no top of the rows can be made of it |
| `PackedQuery.DedupIsSorted` | app/clickhouse_query.py:815-821 | removing repeats from sorted rows keeps the order and the set |
| `PackedQuery.QueryEvents` | app/clickhouse_query.py:808-824 | the paging loop returns the first distinct events of the sorted rows |
| `PackedQuery.QueryEventsIsTop` | app/clickhouse_query.py:808-829 | and these are the top of the set of events |
| `BinlogFile.DecodeWritten` | app/binlog_lite.py:63-155 | an event is read as it was written: every name, statement, stamp and commit time that fits the format |
| `BinlogFile.SaysMeans` | app/binlog_lite.py:135-149 | a statement is BEGIN, COMMIT or ROLLBACK exactly when it is that word in any case with blanks around it |
| `BinlogFile.TextIsUtf8` | app/binlog_lite.py:128-133 | every Unicode text can be a name |
| `BinlogFile.Utf8IsText` | app/binlog_lite.py:128-133 | and only texts can |
| `BinlogFile.ReadFile` | app/binlog_lite.py:46-155 | of every file that fits the format the events read are those written, in order |
| `BinlogFile.ScanFile` | app/binlog_lite.py:46-174 | every such file is accepted, and its directory keeps to what was written |
| `BinlogFile.WrittenTableIsFound` | app/binlog_lite.py:281-292 | a region with a table map, in the bytes of the file, of the table asked for and an event with a time in the window is read |
| `BinlogFile.TransactionIsTogether` | app/binlog_lite.py:80-96 | the region of an event takes in its transaction, back to the GTID |
| `BinlogIndex.Decode` | app/binlog_lite.py:63-155 | an event that is read lies inside the file and moves the position on |
| `BinlogIndex.Record` | app/binlog_lite.py:80-155 | the loop body: cut at a GTID, then times, names and doubts |
| `BinlogIndex.FinishedHolds` | app/binlog_lite.py:156-174 | the directory written at the end is conservative, and precise for ordinary GTIDs |
| `BinlogIndex.Scan` | app/binlog_lite.py:46-174 | accepts exactly the readable files; the regions tile the file from the prefix to its end and reflect every name, time and doubt of their events; nothing before the prefix speaks; with ordinary GTIDs each GTID begins a region, regions say nothing their events do not, and their bounds are times of their events |
| `BinlogIndex.PruningNeverDropsAMatch` | app/binlog_lite.py:281-292 | a region that holds a possible match is allowed: a change of a transaction with any of its times in the window, or packed with others at any time; in a table the transaction names, or hidden |
| `BinlogIndex.AllowsExactly` | app/binlog_lite.py:281-292 | in a precise directory a region is read exactly when its bounds meet the window and an event of it hides tables or names one that matches, or nothing is asked for |
| `BinlogIndex.MatchesTextMeans` | app/binlog_lite.py:281-292 | a text matches a name exactly when it is empty, is the name where it must be exact, or else is a piece of it, capitals counting as small letters |
| `BinlogIndex.TilesCover` | app/binlog_lite.py:46-174 | every byte from the prefix on is in a region |
| `BinlogIndex.NothingThatSpeaksIsOutside` | app/binlog_lite.py:46-174 | every event with a name or a doubt is in a region |
| `BinlogIndex.SummaryAllowsWhatRegionsAllow` | app/binlog_lite.py:281-292 | if a region is allowed, so is the summary of the file |
| `BinlogIndex.OpaqueAllowsEverything` | app/binlog_lite.py:241-252 | the directory of a file that could not be scanned is allowed for every sensible window |
| `ExactIndex.RecordRow` | app/exact_index.py:906-1018 | one relevant row: document and postings if its key is known, an incomplete summary if not |
| `ExactIndex.ScanRows` | app/exact_index.py:878-1018 | after all rows every relevant one is accounted for |
| `ExactIndex.CannotInsertRows` | app/exact_index.py:1024-1048 | summaries cannot be stored exactly when rows clash with each other or with stored ones |
| `ExactIndex.InsertSummaries` | app/exact_index.py:1024-1048 | stores every summary, or refuses where two share a key |
| `ExactIndex.AddPart` | app/exact_index.py:822-1058 | the part is fully indexed beside those before it; refused exactly for a differing row count or a clash |
| `ExactIndex.PublishedIsValid` | app/exact_index.py:724-808 | the manifest transaction leaves a valid index in which each part is current |
| `ExactIndex.BuildSegment` | app/exact_index.py:663-820 | a valid index with every part current, or nothing; nothing exactly for repeated paths, a differing row count or clashing rows |
| `ExactIndex.PartState` | app/exact_index.py:1084-1119 | one part: covered or not, its segment needed or not |
| `ExactIndex.CoverageOf` | app/exact_index.py:1060-1126 | complete exactly when every part is covered; names exactly the segments that hold rows of the table |
| `ExactIndex.SearchSegment` | app/exact_index.py:1188-1238 | finds exactly the documents some complete schema asks for, in parts, time and operations |
| `ExactIndex.HitIsAccepted` | app/exact_index.py:1228-1238 | a hit is a row that reading every row would accept, even in a segment with other parts |
| `ExactIndex.AcceptedIsHit` | app/exact_index.py:1188-1238 | a row that would be accepted is a hit of its segment |
| `ExactIndex.CoveredRowIsFound` | app/exact_index.py:1060-1126 | with complete coverage it is in a segment the lookup reads |
| `ExactIndex.LookupIsExact` | app/exact_index.py:1128-1240 | the hits of the segments read are exactly the accepted rows |
| `ExactKeys.CanonicalMeans` | app/exact_index.py:311-352 | values have a canonical form exactly when they are of the column's type, booleans as 0 and 1; a query text by its reader; equal forms are the same value |
| `ExactKeys.KeyColumnMeans` | app/exact_index.py:354-402 | the key column is the one the registry names for table and signature, if it is as registered; else the only primary one |
| `ExactKeys.KnownMeans` | app/exact_index.py:354-454 | a key is known exactly when its column is there, of an indexed type, and each image the operation needs holds a value of it |
| `ExactKeys.MatchMeans` | app/exact_index.py:456-466 | a row with a known key matches exactly when an image its operation looks at holds the value: after an insert, before a delete, before or after an update |
| `ExactIndex.CoveredMeans` | app/exact_index.py:1060-1126 | a current part is covered exactly when every row of the table in it has a known key, and needed exactly when it has one |
| `ExactIndex.AcceptedMeans` | app/exact_index.py:560-576 | where all parts are covered, reading every row accepts exactly the rows whose images hold the key |
| `ExactIndex.LookUp` | app/exact_index.py:1128-1240 | complete exactly when all parts are covered and all needed files are there; then it finds exactly the rows a scan of all parts accepts, else nothing |
| `ExactIndex.Lookup` | app/exact_index.py:1128-1240 | the same in terms of the rows: complete exactly when the table is registered, every row of it in the parts has a known key or a catalog excludes it, and the files of the parts with such rows are there; then it finds exactly the rows in time, of the operations asked for, one of whose images holds the key |
| `Checksum.TableEntry` | app/checksum.py:12-17 | eight steps of the shift register for one byte |
| `Checksum.BuildTable` | app/checksum.py:9-18 | all 256 entries are eight steps of the register for their index |
| `Checksum.EightClocks` | app/checksum.py:25-26 | eight clocks are the lookup of the low byte and a shift |
| `Checksum.Crc64XzUpdate` | app/checksum.py:22-27 | the table-driven loop computes the bit-by-bit checksum, for all data and every start value |
| `Checksum.CrcConcat` | app/checksum.py:22-27 | the checksum of a concatenation continues that of its first part |
| `Checksum.Crc64File` | app/checksum.py:30-35 | the checksum of a file does not depend on the size of its chunks |
| `Checksum.ClocksLinear` | app/checksum.py:13-14 | clocks are linear |
| `Checksum.ClocksInjective` | app/checksum.py:6-16 | and lose nothing, the polynomial having its top bit set |
| `Checksum.ShiftInIsClocks` | app/checksum.py:25-26 | bits shifted in one by one are as good as added at once |
| `Checksum.RegisterOfWindow` | app/checksum.py:22-27 | at most eight bytes act on the register as one 64-bit word |
| `Checksum.PackInjective` | app/checksum.py:22-27 | different windows are different words |
| `Checksum.RegisterInjective` | app/checksum.py:22-27 | different registers stay different under the same data |
| `Checksum.BurstIsDetected` | app/checksum.py:5-27 | two messages that differ only in a window of at most eight bytes have different checksums |
| `Checksum.CheckValue` | app/checksum.py:5-27 | the checksum of the ASCII text 123456789 is 995DC9BBDF1939FA, the check value of CRC-64/XZ |
| `Supervisor.QueryServer.Admit` | app/indexed_query_worker.py:112-122 | admits exactly when nothing is active and the id is not fenced |
| `Supervisor.QueryServer.FenceOff` | app/indexed_query_worker.py:81-93 | acknowledges exactly when the fence could be raised, dropping expired ones |
| `Supervisor.StopOwnedProcess` | app/indexed_query_worker.py:22-29 | times out exactly if the process is still alive |
| `Supervisor.StepKeepsInv` | app/indexed_query_worker.py:81-249 | every step of query and cancel handlers keeps the invariant |
| `Supervisor.AtMostOneProcess` | app/indexed_query_worker.py:112-122 | in every run at most one native process is alive, and it owns the slot |
| `Supervisor.SlotFreedAfterExit` | app/indexed_query_worker.py:239-249 | the slot changes owner only once the process of its job has ended |
| `Supervisor.EndedStaysEnded` | app/indexed_query_worker.py:226 | in every run a job that is done stays done and has no process again |
| `Supervisor.AcknowledgedCancelIsFinal` | app/indexed_query_worker.py:81-95 | an acknowledged cancel means that the job's process has ended, or that its id has none and cannot be admitted while its fence lasts |
| `Supervisor.FencesAreBounded` | app/indexed_query_worker.py:88-91 | never more than 128 fences |
| `Supervisor.AdmittedExactly` | app/indexed_query_worker.py:112-122 | in every run a query is admitted exactly when all earlier jobs have given their slot back and no acknowledged fence of its id is up |
| `Supervisor.CancelledExactly` | app/indexed_query_worker.py:81-93 | in every run a cancel of an id that holds no slot is acknowledged, for 65 seconds, unless 128 other ids are fenced |
| `Supervisor.SlotCanBeFreed` | app/indexed_query_worker.py:226-249 | whoever holds the slot can give it back, unless its process could not be stopped |

## Left out

- RowStoreWorker.Worker.CommitBatch: a ghost method: it drives the protocol's worlds, and shows the order of the steps rather than the files written.
- ServingProof.StepKeepsInv: the digest comparison of `_ingest_state_matches` is a row count, and one ClickHouse table stands for both.
- ManifestStore.ClickHouseManifest.ClaimNext: rows of two identities of one path that are equal in everything else may be claimed in either order, as in the source.
- ServingRows.ReadyMeansRows: for runs that accept no part with an unfinished deletion; one table stands for the time and the name table.
- ServingWorker.Ingester.IngestOne: probes, streams and ClickHouse calls may fail at any point, as a choice between a pause and an error; a kill is the step `Crash` of `Restart`.
- ServingRows.AcceptExact: the comparison of digest and revision is not modelled, only that of the row counts.
- ServingGates.OpenGateIsCoverage: for runs whose full scans list every visible part (see `ScanExact`).
- ManifestStore.ClickHouseManifest.ReconcileStreaming: batches are applied in list order; the progress callbacks and the lock retries between chunks are not modelled.
- ChangeQueue.ReconcilePendingSourceChanges: the time bounds it computes are passed as zero; without a sweep and with the reconcile state kept they are not looked at.
- CoverageRuns.CoverageRuns: the file count of each gap (that joining gaps loses none is `MergeGaps`), labels and the coverage note.
- SlicedQuery.Query: building the SQL, presenting rows and fetching statements; time left is an event that may happen before any statement.
- NativeQuery.NativeQuery.Run: Parquet decoding, row-group pruning before the read, size checks of row groups and files, the locator of a repeated row.
- PackedQuery.QueryRaw: the coverage check before the walk (see `OpenWindowIsServed`), cancellation and the caps on limit and offset.
- BinlogIndex.Scan: GTID text, compression of the directory and progress.
- BinlogIndex.PruningNeverDropsAMatch: case folding is that of ASCII.
- ExactIndex.AddPart: reading Parquet, and hashes of values; names are taken without surrounding blanks, which the selector of registered tables lower-cases but does not strip.
- ExactIndex.Lookup: removing repeated events, ordering and paging of the rows found.
- ExactIndex.BuildSegment: segment files are named by number, not by digest.
- Supervisor.StopOwnedProcess: waiting is a choice between exit and time-out; a process killed without exiting keeps its slot, as in the source.
- Supervisor.AcknowledgedCancelIsFinal: HTTP, the message loop and the four-second wait of a cancel are not modelled; a cancel that times out is not acknowledged.
- RowStoreProof.ExactlyOnce: lanes choose any unclaimed file; the order of candidates, retry delays, `run_batch`'s sizes and the free-memory waits decide only when a step happens.
- `stream_ranges` and `download_ranges`: byte transport in parallel ranges, joined in order.
- `build_raw_oss_manifest_rows` and `raw_oss_day_windows`: rows and windows computed from their arguments, easy members.
- Markers written before partitions were recorded, and their fallback to date spans (app/binlog_rows.py:387-395).
- Text forms of integers and binary values in `canonical_value`: a text carries what its readers make of it.
- Statement aggregation, SQL text, credentials, transport and environment parsing.
- app/clickhouse_raw_sync.py and app/general_log_collector.py: the first acknowledges an active packed part without rewriting its row, the second limits batches under a strict watermark; neither makes the clean promise.
- Pacing, status files, watchdogs and presentation: easy members or side effects only.
