# Foreman performance platform: verified core

Dafny models of the parts of the backend that hold protocol, state or arithmetic, with proofs of
what they promise. `dafny verify dfyconfig.toml` checks the whole project.

* **Anomaly-analysis jobs** (`AnalysisStore`, `AnalysisProtocol`, `AnalysisVerdicts`,
  `AnalysisService`). Workers claim an anomaly by an INSERT under a partial unique index, then write
  their own row unconditionally and the shared status by compare-and-set. The step system interleaves
  requests, claims, row writes, reports, crashes and watchdog commits in any order. `Database` is the
  pair of tables updated in place, `RunAnalysis` one worker's order of commits.
* **Ingestion** (`IngestionStore`, `IngestionFlush`, `IngestionRun`, `IngestionLaws`,
  `IngestionHistory`, `IngestionCommit`, `IngestionExact`, `IngestionRerun`, `ShiftRotation`,
  `IngestionResolve`, `IngestionContent`, `Ingester`). `ApplyRow` feeds one row; `Flushed` is the batched
  flush phase by phase; `RunAll` a whole run, including runs ended by an exception. `Ingester.Run` is
  the same run with tables, counters and open batch as fields, every phase a loop, proved equal to
  those functions.
* **Keyset pagination** (`Pagination`, `Cursors`, `CursorWalk`): SQL's three-valued comparison, the
  query order, the look-ahead row, walks over tables that change between requests, and walks whose
  cursors go out as tokens and come back decoded.
* **Rate limiter** (`RateLimiter`): a queue of hits per key, with clock readings that may arrive out
  of order because the clock is read before the lock is taken.
* **Tool-calling loop** (`Orchestrator`): budget, cache, tool-call rows, transcript, evidence.
* **Two computations of one answer**: the SQL gain sort key against the displayed gain (`GainSort`),
  and page-only against full foreman scoring (`ForemanScoring`, `ForemanList`).
* **Contribution shares** (`Shares`): per-foreman totals against the totals of the works.

Where the code falls short of its documentation or of a law one would expect, the model follows the
code. Each case comes with an input that shows it and with the exact condition, proved in both
directions over all states or inputs:

* `backend/app/services/job_reconciliation.py:3-5` says that of a worker and the watchdog the first to
  commit wins the row and the other matches none. A worker's write of its own row is unconditional,
  so a late worker replaces the watchdog's FAILED on the row and on the anomaly
  (`AnalysisProtocol.LateWorkerReplacesWatchdogVerdict`); and a worker that completes between the
  watchdog's two commits ends with a COMPLETED row under an anomaly that shows FAILED for good
  (`AnalysisVerdicts.WatchdogHidesLateResult`). FAILED stands, on the anomaly until a newer claim and
  on the row for good, if and only if the worker has nothing else to write
  (`ShownVerdictStandsExactlyWhen`, `RowVerdictStandsExactlyWhen`); a finished worker's row and anomaly stay
  in agreement if and only if its result is FAILED, or is shown with no watchdog between its commits
  (`FinishedAgreesExactlyWhen`).
* A crash between a worker's last two commits leaves a finished row under an anomaly that shows an
  unfinished status, and no later step repairs it (`CrashBetweenLastCommitsStrands`).
  `RecoverableExactlyWhenNotStranded` says exactly which states can still recover.
* When two lines of one flush carry the same source key, scores and records can disagree and the
  counters can miss a row (`RepeatedSourceLeavesStaleScore`), or the database can refuse the batch
  (`RefusedBatches`). `FlushIsOneByOneExactlyWhen`, `FlushKeepsAgreementExactlyWhen`,
  `FlushCountsEveryRowExactlyWhen` and `FlushCommitsExactlyWhen` say for which batches.
* A cursor returns enum members and UUIDs as text and decimals as floats, so a walk by cursors keeps
  the order of a list if and only if the database compares those as it compares the values they stand
  for (`TwinsGoWrong`, `WalksInOrderExactlyWhen`, `TransparentExactlyWhen`).
* The limiter guarantees the full window exactly when readings never go back or the limit is at most
  one (`OverrunExceeds`, `FullWindowExactlyWhen`).
* A manual reference to a gain without a computable change shows nothing but sorts by the work's
  other columns, if they hold anything (`BlankReferenceSortsOtherwise`, `SortKeyIsShownExactlyWhen`).
* The page-only scoring path replaces the request's own foreman filter (`ExcludedForemanIsScored`,
  `PageScoreIsFullExactlyWhen`).

## Model

| member | source | states |
|---|---|---|
| AnalysisProtocol.StepKeepsInv | backend/app/services/anomaly_analysis_service.py:164-213 | every commit, refusal, crash and watchdog step keeps the protocol invariant: index, claim order, row histories, what pending workers and watchdogs are about to report |
| AnalysisProtocol.RequestIsAdmittedExactlyWhen | backend/app/services/anomaly_analysis_service.py:164-181 | in every state of the invariant a new request and its claim take the anomaly if and only if neither it nor any attempt of it shows one of the five unfinished statuses, analysed before or not; otherwise the tables are unchanged |
| AnalysisProtocol.ClaimDecides | backend/app/services/anomaly_job_claim.py:34-53 | a claim that comes later, whatever happened since the request, succeeds if and only if no attempt of the anomaly is unfinished, and then writes row, start time, token and status |
| AnalysisProtocol.WriteCommitsExactlyWhen | backend/alembic/versions/b9f2d4a6c8e1_job_claiming_and_reconciliation.py:48-58 | a worker's own write is refused exactly when it is unfinished and another attempt is too; a final status is never refused |
| AnalysisProtocol.ReportDecides | backend/app/services/anomaly_job_claim.py:56-80 | a report writes the anomaly exactly when the attempt holds the token; the worker goes on after an unfinished status and is done after a final one |
| AnalysisProtocol.SweepDecides | backend/app/services/job_reconciliation.py:133-150 | the watchdog's first commit fails exactly the unfinished rows started before its cutoff |
| AnalysisProtocol.SweepReportDecides | backend/app/services/job_reconciliation.py:155-161 | its second commit shows FAILED exactly where the attempt still holds the token, once |
| AnalysisProtocol.EveryReachableStateIsSafe | backend/app/services/anomaly_job_claim.py:34-80 | in every interleaving at most one attempt of an anomaly is in progress, the token names the last committed claim, the anomaly shows a status its owner's row has held, and statuses of attempts no watchdog touched are reported as a prefix of the row's history |
| AnalysisProtocol.EarlierAttemptsStaySilent | backend/app/services/anomaly_job_claim.py:56-80 | once a newer attempt has claimed, no later step of any earlier attempt changes what the anomaly shows |
| AnalysisProtocol.OnlyOwnerOrNewClaimChanges | backend/app/services/anomaly_orchestrator.py:169-172 | an anomaly row changes only by its token holder, a watchdog acting for that holder, or a new claim |
| AnalysisProtocol.StrandedForever | backend/app/services/anomaly_analysis_service.py:210-213 | a stranded anomaly shows the same unfinished status in every continuation |
| AnalysisProtocol.RecoverableExactlyWhenNotStranded | backend/app/services/job_reconciliation.py:114-167 | a reachable anomaly can still leave the in-progress statuses if and only if it is not stranded |
| AnalysisProtocol.CrashBetweenLastCommitsStrands | backend/app/services/anomaly_analysis_service.py:210-213 | a crash between the last two commits reaches a stranded state with a COMPLETED row |
| AnalysisProtocol.LateWorkerReplacesWatchdogVerdict | backend/app/services/job_reconciliation.py:3-5 | a reachable run in which a late worker overwrites the watchdog's FAILED on its row and on the anomaly |
| AnalysisVerdicts.ShownVerdictStandsExactlyWhen | backend/app/services/job_reconciliation.py:3-5 | in every reachable state a FAILED shown under an owner stands in all continuations, until a newer claim, if and only if the owner's worker is gone, finished or only about to report a FAILED of its own |
| AnalysisVerdicts.RowVerdictStandsExactlyWhen | backend/app/services/job_reconciliation.py:133-150 | the same condition decides whether a FAILED row stays FAILED in all continuations, newer claims or not |
| AnalysisVerdicts.WatchdogHidesLateResult | backend/app/services/job_reconciliation.py:133-161 | a run in which the worker completes between the watchdog's two commits and the anomaly shows FAILED over a COMPLETED row for good |
| AnalysisVerdicts.UnsweptFinishAgrees | backend/app/services/anomaly_analysis_service.py:201-213 | an owner that finished untouched by any watchdog shows its row's status, its last one |
| AnalysisVerdicts.FinishedAgreesExactlyWhen | backend/app/services/anomaly_analysis_service.py:201-213 | a finished owner's row and anomaly agree in all continuations, until a newer claim, if and only if its result is FAILED, or is shown with no watchdog pending on it |
| AnalysisStore.Database.ClaimAnalysis | backend/app/services/anomaly_job_claim.py:34-53 | the claim succeeds exactly when no other attempt of the anomaly is in progress, and then sets row, token and status together; otherwise nothing changes |
| AnalysisStore.Database.CommitOwnStatus | backend/alembic/versions/b9f2d4a6c8e1_job_claiming_and_reconciliation.py:48-58 | a worker's own row write is refused exactly when it would put a second attempt in progress |
| AnalysisStore.Database.SetAnomalyStatusIfCurrent | backend/app/services/anomaly_job_claim.py:56-80 | the status is written exactly when the attempt holds the token |
| AnalysisStore.Database.ReconcileStaleAnomalyJobs | backend/app/services/job_reconciliation.py:114-167 | the watchdog fails exactly the stale in-progress attempts, each once, and the anomalies whose token they hold, in whatever order it visits them |
| AnalysisService.RunSingleContext | backend/app/services/anomaly_analysis_service.py:82-124 | at most two tries; answered exactly when a try answers or the demo fallback works; row and anomaly both show ANALYZING |
| AnalysisService.RunToolCalling | backend/app/services/anomaly_analysis_service.py:127-161 | the outcome and the committed statuses of the tool-calling mode, its demo and its two fallbacks |
| AnalysisService.RunAnalysis | backend/app/services/anomaly_analysis_service.py:164-220 | a lone run is refused exactly when one is in progress, else row and anomaly end in the outcome's status after exactly the mode's trail of commits, which the step system allows |
| AnalysisService.EndsExactlyAs | backend/app/services/anomaly_analysis_service.py:91-195 | a run ends FAILED exactly when no reply it asks for gives a payload, with warnings exactly when it succeeds after a fallback or past a limit, COMPLETED otherwise |
| AnalysisService.FollowsExactlyWhen | backend/app/services/anomaly_analysis_service.py:82-213 | the step system lets a worker commit one status after another exactly when some mode of a lone run does |
| IngestionStore.ApplyAllKeepsIdentity | backend/app/models/performance.py:15-24 | one-by-one ingestion keeps both uniqueness constraints, removes no record and rebinds no source or identity field |
| IngestionFlush.FlushIsOneByOne | backend/app/services/ingestion.py:118-278 | a flush of rows with distinct sources commits and equals feeding the rows one by one: records, scores, issues and counters |
| IngestionContent.RoundIsNearest | backend/app/models/performance.py:42-45 | a stored number has four decimals and is the nearest to the given one, halves away from zero |
| IngestionContent.SaidExactlyWhen | backend/app/services/ingestion.py:75-87 | a row counts as unchanged exactly when each number is within 1e-6 of the stored one, null where it is null, and all else is equal |
| IngestionContent.FlushStoresRows | backend/app/services/ingestion.py:118-206 | after a flush of distinct sources the record under a row's source keeps its identity and holds, column by column, what the row brings, with the row's score, unless its identity differs or it already said so, when record and score stay; a row of a new source is stored with its identity, or its natural key is another record's |
| IngestionContent.RunStoresRows | backend/app/services/ingestion.py:280-391 | the same after a finished run, for every batch size |
| IngestionRun.FeedRefinesOneByOne | backend/app/services/ingestion.py:280-391 | at every point of a run the store is the one-by-one result of the whole batches so far, and the rest waits in the batch |
| IngestionRun.RunRefinesOneByOne | backend/app/services/ingestion.py:388-406 | a finished run equals the one-by-one ingester for any batch size when no batch repeats a source, and processed = success + skipped + errors |
| IngestionRun.BatchSizeDoesNotMatter | backend/app/services/ingestion.py:388-391 | a feed of distinct sources gives the same store and counters for every two batch sizes |
| IngestionRun.InterruptionLosesTheOpenBatch | backend/app/services/ingestion.py:280-391 | an exception leaves exactly the one-by-one result of the batches completed before it |
| IngestionLaws.FlushCountsEveryRowExactlyWhen | backend/app/services/ingestion.py:175-176 | a committed flush accounts for every row if and only if no two rows update the same record |
| IngestionLaws.OneIssuePerRow | backend/app/services/ingestion.py:208-273 | the issues a committed flush appends are, in batch order, one per row that is neither unchanged nor a new COMPLETE record, each with that row's source, the record stored under it if the row was written, and the kind of what became of the row |
| IngestionLaws.FlushKeepsHealthy | backend/app/services/ingestion.py:138-173 | any flush that commits, with repeated sources or not, keeps both uniqueness constraints, every record and its identity, and what its rows guarantee of COMPLETE records |
| IngestionHistory.RunsKeepHealthy | backend/app/services/ingestion.py:94-409 | over any sequence of runs, finished or interrupted, the first writer keeps the key and no record is deleted |
| IngestionHistory.RunKeepsAgreement | backend/app/services/ingestion.py:178-206 | a run keeps scores and records in agreement: a record has a score exactly when it is COMPLETE with a target and a rule |
| IngestionHistory.FlushKeepsAgreementExactlyWhen | backend/app/services/ingestion.py:178-206 | for every flush that commits, the agreement survives if and only if no scored update is followed by another update of the same record |
| IngestionCommit.InsertsExactlyWhen | backend/app/services/ingestion.py:150-156 | the INSERT goes through if and only if no two rows of one new source each bring a natural key first, and then inserts exactly the rows that do |
| IngestionCommit.FlushCommitsExactlyWhen | backend/app/services/ingestion.py:118-278 | a flush commits if and only if there are no such two rows and no two scored updates of one record |
| IngestionCommit.RefusedBatches | backend/app/services/ingestion.py:150-201 | two scored corrections of one stored record, or two rows of one new source with keys of their own, fail the flush |
| IngestionExact.FlushIsOneByOneExactlyWhen | backend/app/services/ingestion.py:118-278 | a flush of any batch commits and equals feeding the rows one by one if and only if no row disturbs a later one of its source: by inserting the source, or by an update before another update or before a row unlike what the update stores |
| IngestionExact.AgreesIsIndependent | backend/app/services/ingestion.py:204-273 | the success counter and the issues alone tell: if they are those of one by one, no row disturbs another |
| IngestionExact.OneBatchIsOneByOneExactlyWhen | backend/app/services/ingestion.py:388-391 | a run whose feed is flushed as one batch ends like a run with batches of one row under exactly that condition |
| IngestionHistory.RepeatedSourceLeavesStaleScore | backend/app/services/ingestion.py:204-206 | a concrete batch that leaves a score on a MISSING record and counts one of two rows |
| IngestionRerun.RerunChangesNothing | backend/app/services/ingestion.py:75-91 | running the same feed again, in batches of any size, leaves records and scores as they were and reports the same counts, rounding notwithstanding |
| ShiftRotation.RotationIsInjective | backend/app/services/shift_rotation.py:10-14 | on one date two different anchor shifts never rotate into the same shift |
| ShiftRotation.RotationAdvances | backend/app/services/shift_rotation.py:7-14 | in the week from 1 January 2024 the assigned shift is worked; every seven days the next one in order, the first after the last; within such a week nothing changes |
| ShiftRotation.OrderedBySequence | backend/app/services/shift_rotation.py:11-11 | the order is by sequence number, and as listed within one number |
| IngestionResolve.ResolveAssignment | backend/app/services/assignment_resolver.py:35-56 | the search returns the rotated shift of the first matching assignment, finds none, or fails when that assignment's shift is not among the shifts |
| IngestionResolve.SearchNeverFails | backend/app/services/assignment_resolver.py:50-50 | under the foreign key on an assignment's shift the search never fails |
| IngestionContent.ExpectedExactlyWhen | backend/app/services/assignment_resolver.py:42-56 | the expected shift is the rotation of the shift of the first active assignment of the foreman to the plant that covers the date, both ends included; there is none exactly when no assignment covers it |
| IngestionContent.LineIsCarried | backend/app/services/ingestion.py:296-386 | a resolved line's row has every column from its own field, the resolved codes, the plant's chief, the status the line deserves (SUSPICIOUS before MISSING before INVALID before NEEDS_SOURCE_CORRECTION) and the planned target only where a COMPLETE line has none; its score is the formula's under the rule in force |
| IngestionContent.LineFailsExactlyWhen | backend/app/services/ingestion.py:282-386 | a line is an error exactly when a code is unknown, and ends the run exactly when its assignment names no shift or, for a line in order, target or rule are ambiguous or the formula fails |
| IngestionContent.FeedStoresLines | backend/app/services/ingestion.py:280-406 | a finished run over lines of distinct sources leaves the tables holding what each line with known codes brings, from the line's fields to the stored columns |
| IngestionResolve.RowIsLocated | backend/app/services/ingestion.py:296-311 | a COMPLETE row has an active assignment of its foreman to its plant on that date, rotating into its shift, under the plant's chief |
| IngestionResolve.RowIsScored | backend/app/services/ingestion.py:359-386 | a resolved row has a score exactly when it is COMPLETE with a target and a rule resolves for its date |
| IngestionResolve.OneForemanPerSlot | backend/alembic/versions/b3d5f7a9c1e2_foreman_assignment_date_integrity.py:25-35 | under the EXCLUDE constraint no two foremen are located in one plant and shift on one date |
| IngestionResolve.NoTwoCompleteRecordsPerSlot | backend/app/services/ingestion.py:280-391 | no store reached by any runs holds two COMPLETE records for one KPI, plant, date and shift, whoever the foremen |
| IngestionResolve.SecondRunChangesNothing | backend/app/services/ingestion.py:94-409 | the same source lines over the same reference data, run twice, leave the first run's records, scores and counts |
| Ingester.InsertRows | backend/app/services/ingestion.py:150-156 | the INSERT skips taken natural keys, fails on a repeated source or id, and returns the inserted ids |
| Ingester.UpdateRows | backend/app/services/ingestion.py:158-173 | the updates write exactly the changed rows' content and return the updated ids |
| Ingester.UpsertScores | backend/app/services/ingestion.py:178-201 | the upsert succeeds exactly when no record is written twice, and then each score replaces the record's old one |
| Ingester.Run.ClassifyBatch | backend/app/services/ingestion.py:123-148 | the batch is split into inserts, updates, unchanged rows and identity conflicts as each row stands against the stored rows |
| Ingester.Run.CollectScores | backend/app/services/ingestion.py:178-186 | the scores kept are those of inserted rows and, under the stored id, of updated rows |
| Ingester.Run.CollectIssues | backend/app/services/ingestion.py:208-271 | the issues are those of the rows' classification, in batch order |
| Ingester.Run.Flush | backend/app/services/ingestion.py:118-278 | the flush with its loops leaves exactly the flush function's state, or rolls the tables back on an integrity error |
| Ingester.Run.Ingest | backend/app/services/ingestion.py:280-409 | the run over raw lines leaves exactly the run function's tables and counters, completes exactly when that does, and ends as a success, a partial success or still running accordingly |
| Pagination.KeysetSelectsStrictSuffix | backend/app/core/pagination.py:106-116 | under SQL null logic the predicate is true of exactly the rows strictly after the cursor |
| Pagination.OrderExactlyAs | backend/app/repositories/contribution_work_repository.py:408-432 | values rise ascending and fall descending, equal ones go by id, nulls come first ascending and last descending |
| Pagination.PageFacts | backend/app/services/contribution_work_service.py:230-249 | a page is ordered, after its cursor, has more exactly when rows remain beyond the limit, and its cursor separates shown from unshown rows |
| Pagination.WalkIncreases | backend/app/repositories/contribution_work_repository.py:427-435 | whatever changes between requests, the rows of a walk strictly increase in the query order |
| Pagination.WalkSurvivesChurn | backend/app/services/contribution_work_service.py:230-249 | a completed walk shows every row present throughout with an unchanged key exactly once, in order |
| Pagination.WalkCompletes | backend/app/services/contribution_work_service.py:230-249 | a walk over tables drawn from n rows completes within n requests |
| Pagination.WalkIsTheSortedTable | backend/app/repositories/contribution_work_repository.py:408-435 | on a table that stands still the walk terminates and the pages join to the one sorted sequence |
| Cursors.ValueRoundTrip | backend/app/core/pagination.py:29-58 | a sort value survives the cursor exactly unless it is an enum member, a UUID or a decimal |
| Cursors.CursorRoundTrip | backend/app/core/pagination.py:70-103 | a cursor is accepted back if and only if sort column, direction and filters are those it was issued for |
| Cursors.TokenAcceptedExactlyWhen | backend/app/core/pagination.py:48-103 | any token is accepted if and only if it is a readable payload of version 1 for the order and filters asked for, and what its value and id then are |
| CursorWalk.TokensChangeNothing | backend/app/services/contribution_work_service.py:222-249 | if what comes back of each sort value is compared as the value itself, a walk by tokens equals the walk by rows, whatever the tables are |
| CursorWalk.WalksInOrderExactlyWhen | backend/app/services/contribution_work_service.py:222-249 | walking by tokens returns every still table in the query's order if and only if what comes back of each sort value is compared as the value itself |
| CursorWalk.TwinsGoWrong | backend/app/core/pagination.py:106-116 | two rows of one sort value that comes back as another are walked as one row or as three |
| CursorWalk.TransparentExactlyWhen | backend/app/core/pagination.py:29-58 | that holds if and only if it holds of the texts of the column's enum members and UUIDs and of the floats of its decimals |
| RateLimiter.SlidingWindowLimiter.Check | backend/app/core/rate_limit.py:20-31 | one call answers and changes its key's queue as specified and no other key's; the advised delay is the least whole second, from one on, at which the oldest kept hit is outside the window |
| RateLimiter.ReplyTells | backend/app/core/rate_limit.py:22-31 | a rejection names the least whole number of seconds, one at least, after which the oldest kept hit has left the window; an admission is the last of at most limit kept hits; the kept hits are the last ones from the first inside the window |
| RateLimiter.SlidingWindowLimiter.Reset | backend/app/core/rate_limit.py:33-35 | afterwards every key's queue is empty |
| RateLimiter.HistoryIsBucket | backend/app/core/rate_limit.py:22-31 | replaying a key's calls gives the queue and the admitted hits, call by call |
| RateLimiter.WindowBoundUnderSkew | backend/app/core/rate_limit.py:20-31 | if readings go back by at most d, every closed stretch of length window - d holds at most limit admitted hits |
| RateLimiter.FullWindowExactlyWhen | backend/app/core/rate_limit.py:21-22 | every full window holds at most limit hits if and only if d is zero or the limit is at most one |
| RateLimiter.OverrunExceeds | backend/app/core/rate_limit.py:21-22 | with a limit of two or more and any positive skew, a sequence of calls that puts one hit too many into a full window |
| RateLimiter.RejectedExactlyWhenFull | backend/app/core/rate_limit.py:27-29 | a call is rejected exactly when its queue, once old hits are dropped, holds limit hits; limits below one always fail on the empty queue |
| RateLimiter.RetryAfterIsLeast | backend/app/core/rate_limit.py:28-29 | the advised delay is the least whole number of seconds after which the next call is admitted |
| Orchestrator.TakenKeepsInv | backend/app/services/anomaly_orchestrator.py:206-215 | one call keeps: successes within budget and equal to the counter, steps 1..n, codes exactly those of successful rows, cache entries backed by rows |
| Orchestrator.TakenAdds | backend/app/services/anomaly_orchestrator.py:259-306 | a call adds one row exactly when it is neither refused nor served from the cache |
| Orchestrator.CallAnswersExactlyAs | backend/app/services/anomaly_orchestrator.py:206-306 | which fault a call is answered with and when it succeeds, each in exactly one case, and the row of a success |
| Orchestrator.FaultsAreReported | backend/app/services/anomaly_orchestrator.py:259-327 | every fault but the limit is reported in one row; only a timeout keeps its result |
| Orchestrator.RepeatsComeFromTheCache | backend/app/services/anomaly_orchestrator.py:275-277 | a call that succeeded once is never run again, whatever calls come between, and answers the same content unless refused |
| Orchestrator.AnswersAreBacked | backend/app/services/anomaly_orchestrator.py:301-306 | every result told to the model is that of a successful row, for the tool that was asked |
| Orchestrator.GroundedIsSieved | backend/app/services/anomaly_orchestrator.py:138-149 | the kept references are a subsequence, each grounded, and no grounded one is lost |
| Orchestrator.Sanitize | backend/app/services/anomaly_orchestrator.py:138-155 | afterwards every reference names a known code, and the note is added exactly when something was dropped |
| Orchestrator.Analysis.ExecuteToolCall | backend/app/services/anomaly_orchestrator.py:259-306 | one call changes cache, codes, counter and rows exactly as the call function says, in each of its seven outcomes |
| Orchestrator.Analysis.SaveToolCall | backend/app/services/anomaly_orchestrator.py:308-327 | the row gets the next step number, and its code counts only on success |
| Orchestrator.Analysis.AnswerCalls | backend/app/services/anomaly_orchestrator.py:206-215 | every call of a message is answered once, in order, under its id, also after a limit is hit |
| Orchestrator.LoopKeeps | backend/app/services/anomaly_orchestrator.py:187-219 | every run of the loop stays within the configured turns, keeps the invariant, answers each call once, tells only results backed by successful rows, and finishes only on a message without calls |
| Orchestrator.LoopEndsExactlyWhen | backend/app/services/anomaly_orchestrator.py:185-219 | each message was asked for within deadline, budget and steps; the loop finishes exactly on a message without calls, escapes exactly when the model refuses tools at a turn reached within the limits, and stops at a limit exactly when a call was refused, a limit reached or the request fails |
| Orchestrator.TranscriptInOrder | backend/app/services/anomaly_orchestrator.py:199-215 | in the transcript each message stands before the answers to its calls, one to a call, in order, under the call's id, with nothing between |
| Orchestrator.Analysis.Loop | backend/app/services/anomaly_orchestrator.py:187-219 | the loop as it runs ends in exactly the state, transcript and verdict of the loop function |
| Orchestrator.Analysis.Finalize | backend/app/services/anomaly_orchestrator.py:329-370 | at most two tries; a payload comes out sieved, with a warning exactly when a limit was reached; a refusal of tools escapes |
| Orchestrator.Analysis.Run | backend/app/services/anomaly_orchestrator.py:174-222 | over a whole analysis: the loop ends as its turns and refusals make it end, the budget, step numbers, transcript and backing hold, and every reference in the payload names a successful tool call of this analysis |
| GainSort.GainTable.SyncGains | backend/app/repositories/contribution_work_repository.py:216-229 | without a list nothing changes; with one a work's gains are replaced, other works' stay, ids stay unique and stored changes are those of the stored values |
| GainSort.ChangeMeans | backend/app/services/contribution_calc.py:75-83 | a change is new less old, its percent relative to the size of the old value with the sign kept, both up to rounding; no percent over zero, nothing where a value is missing |
| GainSort.AutomaticExactlyAs | backend/app/services/contribution_calc.py:101-126 | without a manual reference: the financial gain, else the minutes, else the largest percent of the first of the four groups of gain types that has one |
| GainSort.ManualExactlyAs | backend/app/services/contribution_calc.py:129-152 | what a manual reference shows: the value it names, for a gain its percent and over zero its amount; otherwise the automatic value |
| GainSort.BestIsMax | backend/app/services/contribution_calc.py:155-166 | the display's best gain of a bucket has the size the SQL aggregate computes |
| GainSort.JoinFindsTheGain | backend/app/repositories/contribution_work_repository.py:347-353 | each work has one joined row, holding the gain the display's search by id finds |
| GainSort.SortKeyIsShownExactlyWhen | backend/app/services/contribution_calc.py:95-152 | the sort key is the shown value if and only if the manual reference does not name a gain without a change, or the work has no financial gain, no saved time and no gain with a percent |
| GainSort.BlankReferenceSortsOtherwise | backend/app/repositories/contribution_work_repository.py:370-374 | a work with a manual reference to a gain without values shows nothing and sorts by its financial gain |
| ForemanScoring.Group | backend/app/services/analytics.py:107-134 | grouping yields exactly the non-empty groups with their rows in order |
| ForemanScoring.TotalRemoves | backend/app/services/analytics.py:340-349 | the sums over plants do not depend on the order in which plants are visited |
| ForemanScoring.EntriesByForeman | backend/app/services/analytics.py:239-337 | the arranged entries of a foreman are those of the foreman's own rows; it fails exactly when some group has a positive denominator and some group's formula or query fails |
| ForemanScoring.EqualWeightAverage | backend/app/services/analytics.py:340-349 | both averages over the plants, zero for none, with the numbers of plants and of their records |
| ForemanScoring.ForemanScores | backend/app/services/analytics.py:395-420 | the loops over KPIs, groups and plants give every foreman the score of that foreman's own records, and no score where there is none |
| ForemanScoring.GroupIsOwnRecords | backend/app/services/analytics.py:43-62 | a group holds exactly the COMPLETE records of the KPI, foreman and plant that every filter of the request admits, in order |
| ForemanScoring.ScoreMeans | backend/app/services/analytics.py:352-420 | over the records: a foreman's score counts exactly the active KPIs scored at some plant, each with the average over exactly those plants; below half of the admitted weight it is 0 and unreliable, else the geometric score of those averages and weights, reliable exactly when they cover the weight but for half a point |
| ForemanScoring.FailureExactlyWhen | backend/app/services/analytics.py:239-298 | the scores fail exactly when, for some active KPI, some group fails while some group has a positive denominator |
| ForemanScoring.PageScoreIsFullExactlyWhen | backend/app/services/foreman_service.py:207-228 | scoring the page only gives the full score if and only if the request's foreman filter admits the foreman, or no active KPI makes a score of the foreman's records under the other filters |
| ForemanScoring.ExcludedForemanIsScored | backend/app/services/foreman_service.py:215-216 | a request whose foreman filter excludes a page foreman with a scored record: no score on the full path, a score on the page-only path |
| ForemanScoring.PageFailsOnlyIfFullDoes | backend/app/services/foreman_service.py:207-228 | without a foreman filter the page path raises only where the full path raises |
| ForemanList.Bonuses | backend/app/services/contribution_bonus.py:34-73 | each asked-for foreman, or everyone without a list, gets the sum of the foreman's own works in the window |
| ForemanList.BonusIsTheWindow | backend/app/services/contribution_bonus.py:40-51 | a bonus adds up the foreman's works of the 90 days up to the date, both ends included |
| ForemanList.CardMeans | backend/app/services/contribution_bonus.py:76-77 | the general score is the operational score plus the bonus, never above 120 |
| ForemanList.MatchingExactlyAs | backend/app/services/foreman_service.py:112-128 | a card lists the foreman's assignments in force that are at the filtered places, or all in force when none is |
| ForemanList.AssignmentsByForeman | backend/app/repositories/foreman_repository.py:164-170 | each asked-for foreman gets the foreman's own assignments in order, others none |
| ForemanList.PageCards | backend/app/services/foreman_service.py:102-244 | without a foreman filter the full and the page-only path show the same score, reliability, bonus, general score and assignments, each from the foreman's own records; each path raises exactly when some KPI with a positive denominator in some group has a failing group under its filters |
| Shares.WorkIsShared | backend/app/services/contribution_work_service.py:493-502 | the participants of a work together receive the whole of it |
| Shares.SharesAreConserved | backend/app/services/contribution_work_service.py:493-502 | per currency and for time, the foremen's totals add up to the worth of the published works with a participant |
| Shares.TotalsAreThoseOfTheWorks | backend/app/services/contribution_work_service.py:493-502 | the foremen's totals add up to the amounts in the currency, and to the minutes, of the published works with a participant |
| Shares.SummaryMeans | backend/app/services/contribution_work_service.py:494-508 | the counts are the numbers of the foreman's own published works, of the SMED ones and of the led ones; the date is the latest work date, or publishing date where there is none |
| Shares.RoundedSharesAreNearlyConserved | backend/app/services/contribution_work_service.py:507-514 | after rounding to two places the displayed totals are off by at most 0.005 per foreman |
| Shares.CountParticipants | backend/app/repositories/contribution_work_repository.py:166-175 | the counts are the participants of exactly the asked-for works that have any |
| Shares.Accumulate | backend/app/services/contribution_work_service.py:483-505 | the loop accumulates exactly the foreman's shares per currency and in time, the numbers of works, SMED works and led works, and the latest date |
| Shares.ForemanSummary | backend/app/services/contribution_work_service.py:469-514 | an unknown foreman is refused; otherwise the totals are the rounded sums of the foreman's shares, a currency missing only where its total is zero |

## Left out

- AnalysisService.RunAnalysis: the mode is given, its choice from the settings is left out; what the model and the database reply is an arbitrary input; the other columns of the row (payload, snapshot, timings, texts) are not modelled.
- AnalysisStore.Database.ReconcileStaleAnomalyJobs: attempts are read and swept by one caller here; watchdog commits interleaved with workers are steps of `AnalysisProtocol`.
- IngestionResolve.NoTwoCompleteRecordsPerSlot: assignments, plants and shifts are fixed over the runs, as editing them in between is not modelled.
- IngestionResolve.RowIsScored: targets, rules and score formulas are functions of their arguments; how they are looked up and computed (`target_resolver.py`, `rule_resolver.py`, `kpi_engine.py`) is not part of this model.
- IngestionStore.ApplyAllKeepsIdentity: uuid4 is taken never to repeat; timestamps and the integration-run columns are not modelled; numbers are reals stored with four decimals, and a number too large for its column is not modelled.
- Ingester.Run.Ingest: timestamps of the run row and the warning about target fallbacks are not modelled; score columns are stored unrounded.
- Pagination.WalkIsTheSortedTable: sort values are ranks in the column's order, so collation is not modelled; a limit below one, which the API refuses, is excluded.
- CursorWalk.WalksInOrderExactlyWhen: all requests of a walk have the same filters and order; how the database compares a bound value is a function of the column; a bound value it cannot read at all is not modelled.
- IngestionRun.BatchSizeDoesNotMatter: the exact condition for repeated sources is proved of one flush and of a run flushed as one batch; for runs of several batches, distinct sources within each batch are only shown to be enough.
- Cursors.CursorRoundTrip: base64, JSON and the SHA-256 filter signature are taken as exact.
- RateLimiter.SlidingWindowLimiter.Check: time is a real number, not a float; each call runs whole under the lock.
- Orchestrator.Analysis.Run: the plan step, the prompts and the statuses set around the loop are left out; tool codes, elapsed time, tool results and model replies are arbitrary inputs; database errors are not modelled.
- GainSort.SortKeyIsShownExactlyWhen: labels and units are left out, and values are taken within the columns' precision.
- GainSort.GainTable.SyncGains: unit, period, note and description columns are left out; no sort key reads them.
- ForemanList.Bonuses: the list of works behind a bonus is left out.
- ForemanScoring.EntriesByForeman: the actual and target values an entry carries beside its scores and count are left out; no score reads them.
- ForemanScoring.ForemanScores: a KPI's formula and its queries are a function of one group's records that may fail on its own; the weighted geometric mean is a function of its components.
- ForemanList.PageCards: level and outstanding filters, computed sort columns, and the ordering and texts of the listed assignments are left out.
- Shares.ForemanSummary: arithmetic is over reals; rounding is any function within half a cent.
- The e-mail claim job follows the same claim pattern and is left out.
- Routes, authentication, reports, storage, mail and synthetic data are plumbing around libraries.
