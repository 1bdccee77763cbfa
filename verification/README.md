# Verified model of the AI Manufacturing Platform backend core

A Dafny model of the parts of the backend whose behaviour is hardest to see from
one function: two database-backed work-claiming protocols with optimistic row
versions, the text chunker, CSV ingestion and the training snapshot taken from the
same rows, the fixed-window rate limiter, hash embeddings, evidence selection and
the evaluation charts.

`dafny verify dfyconfig.toml` checks the whole project.

| files | what they model |
|---|---|
| `Common.dfy`, `Text.dfy` | options and results, sums and sizes of finite collections; whitespace and stripping |
| `AutoMLModel.dfy`, `AutoMLRepository.dfy` | the study, trial and slot tables: each repository call as a function on rows, and the repository class that updates them in place |
| `AutoMLProtocol.dfy`, `AutoMLSafety.dfy`, `AutoMLTheorems.dfy`, `AutoMLLeases.dfy` | the lease protocol as a state machine over repository calls, its invariant, and what holds of every run |
| `AutoMLService.dfy`, `AutoMLCollision.dfy` | the transactions the worker and the reconciler build from those calls; what can go wrong between the calls |
| `TrainingJobs.dfy`, `TrainingJobRepository.dfy` | the training-job lifecycle under duplicate deliveries, and its repository class |
| `Chunking.dfy`, `ChunkingTheorems.dfy` | the chunker's loop and what its windows keep |
| `Ingestion.dfy`, `IngestionPasses.dfy`, `IngestionMeaning.dfy`, `IngestionTheorems.dfy`, `SnapshotContents.dfy`, `IngestionExample.dfy` | both CSV passes, their loops, what they accept and report, when they agree, what a snapshot holds, and a data set on which they disagree |
| `RateLimit.dfy`, `Embeddings.dfy`, `Generation.dfy`, `Evaluation.dfy` | one component each |

## How it is modelled

- A repository method is one atomic transaction, as its row locks and single
  guarded statements make it. Concurrency is the free interleaving of such steps.
  Each class method states the columns it writes and is proved equal to a function on
  rows; lemmas about runs use that function.
- Every caller passes its own `now`, which may lag behind the true clock by any
  amount. `SKIP LOCKED` is a parameter: the set of slots another transaction holds.
- The unique constraint on a slot's trial makes a violating claim abort without
  effect; likewise the unique message identifier of training jobs.
- The callers' rules the protocol assumes are spelled out in
  `AutoMLProtocol.Allowed` and `TrainingJobs.Disciplined`. That the AutoML worker and
  reconciler keep to the first is proved in `AutoMLService`; the second is what the
  three callers of `mark_failed` do (`backend/app/ml/jobs/service.py:138` and `:320`,
  `backend/app/ml/jobs/worker.py:406`), naming only QUEUED or RUNNING. A claim whose
  trial turns out invalid is closed inside the claiming transaction; that is the
  model's claim followed at once by its closing transaction.
- `claim_trial_and_slot` grants a lease; the model requires it to end after `now`, as
  the worker's positive lease time makes it.
- Numbers: Python integers are unbounded, as here. Floats are exact reals; IEEE
  rounding is not modelled. The square root is a function parameter assumed to be one.
- The limiter's clock is a real number of seconds, so requests and expiries fall
  anywhere between two seconds. A key is gone when its expiry has come, and `TTL`
  reports the remaining life rounded to the nearest second.
- Library calls whose insides do not matter are function parameters: `casefold`,
  `int`, `float`, the character checks, BLAKE2 digests, tokenizers and sentence
  boundaries. The one fact assumed of them is that case-folding the empty text gives
  the empty text; the example data set also assumes what they do with its own cells
  and names.

## What the proofs found

- Between repository calls a requeued trial can collide with its own unreclaimed
  slot, and a run from the empty tables gets there (`UnreclaimedSlotCollides`,
  `CollisionReached`); the services never reach such a state, because the
  reconciler reclaims and requeues in one transaction and a worker's completion
  commits with its slot release (`ClaimsNeverCollide`).
- `mark_failed` documents failure "from queued or running" but checks only the status
  it is given: a caller that names a terminal status overwrites a terminal row
  (`TerminalOverwrittenExactly`). Without a version it is not fenced: a late report
  fails a job that has been claimed and put back since (`UnversionedFailureUnfenced`,
  `FailureHitsMovedJob`).
- `release_for_retry` has no attempt guard: released at its last attempt, a job is
  queued for ever (`StrandedExactly`, `StrandedNeverClaimed`). The worker tests the
  attempts before it calls, and that is enough (`CheckpointedRetryNeverStrands`).
- The limiter admits up to twice its limit less one within one window length, and
  every configuration has a run that meets the bound (`SlidingWindowBound`,
  `SlidingWindowBoundTight`).
- `Retry-After` comes from a remaining life rounded to whole seconds, so it can be up
  to half a second too short (`RetryAfterMeaning`).
- A padded CSV header is accepted and may be reported ready, and then every training
  snapshot of it fails (`ReadyDataTrains`, `PaddedHeaderCannotTrain`).
- A text whose terms cancel in every bucket has indexable terms and is still rejected;
  a text with an odd number of terms never is (`RejectedExactly`).

## Model

| member | source | states |
|---|---|---|
| `AutoMLTheorems.LeaseSafety` | backend/app/repositories/automl.py:442-502 | In every state reachable from the empty tables, by any interleaving of claims, steals of expired slots, sweeps, cancellations and workers, with every caller clock lagging by any amount: each live trial is held by exactly one slot with the same expiry, live trials never outnumber the slots, and no study exceeds `max_concurrent_trials` |
| `AutoMLLeases.LeaseHolds` | backend/app/repositories/automl.py:442-465 | A lease is good for its whole time: in every run after a granted claim, until the asked time, the slot row stays exactly as granted with that trial and that expiry and no claim can take it, as long as the trial has not left RUNNING |
| `AutoMLLeases.ClaimGrantsLease` | backend/app/repositories/automl.py:456-463 | A granted claim makes the trial RUNNING from `now`, gives trial and slot the very lease that was asked for, touches no other row, and the slot is free at no time before the lease is over |
| `AutoMLLeases.GrantedExactly` | backend/app/repositories/automl.py:400-455 | A claim is granted, and slot `n` taken, exactly when the trial is queued with attempts left, its study runs uncancelled before its deadline with fewer than `max_concurrent_trials` unexpired leases, `n` is the lowest unlocked slot that is free or over, and no other slot carries the trial |
| `AutoMLLeases.FreedSlotsClaimable` | backend/app/repositories/automl.py:467-502 | A released or reclaimed slot can be claimed at any time; a slot whose lease is not over is not reclaimed |
| `AutoMLTheorems.Fencing` | backend/app/repositories/automl.py:467-487 | Once any step has changed the trial row (or the slot row) a worker was granted, no later transition, metric, error or queue update with the remembered version (or `release_slot` with the remembered slot version) has any effect, even when the same trial comes back into the same slot |
| `AutoMLTheorems.VersionNamesRow` | backend/app/repositories/automl.py:542-565 | Over any run versions never fall, and two moments with the same version of a study, trial or slot show the same row |
| `AutoMLTheorems.AttemptsCountStarts` | backend/app/repositories/automl.py:459-463 | `attempt_count` is exactly the number of times the trial was started and never passes `max_attempts` |
| `AutoMLTheorems.StartsBounded` | backend/app/repositories/automl.py:400-465 | A whole run starts trials exactly as often as all attempt counters together say, so at most the sum of `max_attempts` times |
| `AutoMLTheorems.SweepsPartition` | backend/app/repositories/automl.py:504-540 | The two expiry sweeps touch disjoint rows, commute even with different clocks, and together requeue or fail every expired RUNNING trial and leave every other row alone |
| `AutoMLTheorems.CancelledStudyStartsNothing` | backend/app/repositories/automl.py:180-215 | After a cancellation request no trial of the study, existing or created later, is started in any continuation, whatever the sweeps requeue |
| `AutoMLLeases.RequestStopsStudy` | backend/app/repositories/automl.py:180-197 | From the call on: once a cancellation request has met its running study of that version, no trial of the study, there already or created later, is started in any continuation, and the request stays on record |
| `AutoMLLeases.RequestRecorded` | backend/app/repositories/automl.py:183-197 | A request that meets a running study of that version without an earlier request records its time; any other changes nothing |
| `AutoMLLeases.FinishedStudyStartsNothing` | backend/app/repositories/automl.py:413-427 | No trial of a study in a terminal status is started in any continuation |
| `AutoMLTheorems.CancellationFinal` | backend/app/repositories/automl.py:413-427 | The same for one existing trial |
| `AutoMLTheorems.TerminalTrialsStay` | backend/app/repositories/automl.py:542-565 | Under the callers' rules a terminal trial keeps its status and is never started again |
| `AutoMLSafety.StepKeepsInv` | backend/app/repositories/automl.py:393-540 | Every repository step keeps the invariant: one slot per trial, every live trial backed, study limits, well-formed attempts and leases, and worker handles that know their rows |
| `AutoMLSafety.ClaimKeepsSlots` | backend/app/repositories/automl.py:442-465 | A claim, also one that steals an expired slot, keeps one slot per trial and every live trial backed |
| `AutoMLSafety.ClaimKeepsLimit` | backend/app/repositories/automl.py:428-441 | Counting live trials at a lagging `now` can only over-count, so a granted claim keeps the study limit at the true time |
| `AutoMLSafety.StepEvolves` | backend/app/repositories/automl.py:155-178 | No step changes a row without raising its version, lowers an attempt counter, revives a terminal row or erases a cancellation request |
| `AutoMLSafety.OnlyClaimsStart` | backend/app/repositories/automl.py:393-465 | No step but a granted claim raises an attempt counter or makes a trial RUNNING |
| `AutoMLRepository.AutoMLRepository.ClaimTrialAndSlot` | backend/app/repositories/automl.py:393-465 | The claim in place: granted exactly when the trial is queued with attempts left, its study runs uncancelled before its deadline below its limit, and an unlocked slot is free or expired; it takes the lowest such slot, or aborts without trace when another slot still carries the trial |
| `AutoMLRepository.AutoMLRepository.ReleaseSlot` | backend/app/repositories/automl.py:467-487 | Frees the slot exactly when slot number, trial and version all match, and says so |
| `AutoMLRepository.AutoMLRepository.ReclaimExpiredSlots` | backend/app/repositories/automl.py:489-502 | Frees exactly the occupied slots whose lease is over and returns how many |
| `AutoMLRepository.AutoMLRepository.ReleaseExpiredTrials` | backend/app/repositories/automl.py:504-521 | Requeues exactly the expired trials with attempts left and returns how many |
| `AutoMLRepository.AutoMLRepository.FailExhaustedExpiredTrials` | backend/app/repositories/automl.py:523-540 | Fails exactly the expired trials without attempts left and returns how many |
| `AutoMLRepository.AutoMLRepository.ConditionallyTransitionTrial` | backend/app/repositories/automl.py:542-565 | Writes and returns the row exactly when status and version match, and touches nothing else |
| `AutoMLRepository.AutoMLRepository.UpdateTrialMetrics` | backend/app/repositories/automl.py:567-592 | Stores metrics exactly when the version matches |
| `AutoMLRepository.AutoMLRepository.UpdateTrialError` | backend/app/repositories/automl.py:594-615 | Stores an error exactly when the version matches |
| `AutoMLRepository.AutoMLRepository.SetTrialQueueIdentifier` | backend/app/repositories/automl.py:375-391 | Attaches a message identifier exactly to a queued trial with that version |
| `AutoMLRepository.AutoMLRepository.MarkQueuedTrialsCancelled` | backend/app/repositories/automl.py:199-215 | Cancels exactly the queued trials of the study and returns how many |
| `AutoMLRepository.AutoMLRepository.ConditionallyTransitionStudy` | backend/app/repositories/automl.py:155-178 | Writes and returns the study exactly when status and version match |
| `AutoMLRepository.AutoMLRepository.RequestStudyCancellation` | backend/app/repositories/automl.py:180-197 | Records a cancellation exactly once, on a running study with that version |
| `AutoMLRepository.AutoMLRepository.InitializeSlots` | backend/app/repositories/automl.py:617-628 | The insertion loop ends with all slots 1..count present, every existing slot with its lease undisturbed |
| `AutoMLService.CompletionIsAtomic` | backend/app/services/automl_execution.py:478-563 | A worker's closing transaction (metrics, transition out of RUNNING, slot release) either is a legal sequence of repository steps or changes nothing |
| `AutoMLService.CompletionRecords` | backend/app/services/automl_execution.py:490-563 | A committed closing transaction leaves the outcome, the metrics and the assigned columns to be read, keeps attempts and start time, and frees the slot |
| `AutoMLService.ServiceRefinesProtocol` | backend/app/services/automl_execution.py:400-616 | Every run of service transactions is a legal run of repository steps with the same outcome, so all results above hold of the services |
| `AutoMLService.ActionsKeepMirror` | backend/app/services/automl_execution.py:555-563 | Along every run of service transactions each occupied slot belongs to a RUNNING trial with the same lease |
| `AutoMLService.ClaimsNeverCollide` | backend/app/services/automl_execution.py:404-411 | In every state the services reach a claim never violates the unique slot constraint, and is granted exactly when the trial is admissible and an unlocked slot is free or expired |
| `AutoMLCollision.UnreclaimedSlotCollides` | backend/app/repositories/automl.py:442-464 | When it collides: a queued trial that a slot still carries can claim only that very slot, and any other claimable slot makes the claim abort, until the slot is reclaimed |
| `AutoMLCollision.CollisionReached` | backend/app/repositories/automl.py:442-521 | The collision does happen: for any new study and any trial that may be tried twice, a legal run of repository calls from the empty tables ends where the trial's next claim violates the unique constraint |
| `AutoMLService.ReconcileRepairs` | backend/app/services/automl_execution.py:582-596 | After a reconciliation no lease is expired and rows that were not expired are untouched |
| `AutoMLService.NoTrialLeftBehind` | backend/app/services/automl_execution.py:510-533 | In every state the services reach no queued trial is out of attempts and every running trial has a lease; right after a reconciliation every trial can be claimed, runs under an unexpired lease, or is done |
| `TrainingJobs.WritesFollowLifecycle` | backend/app/repositories/ai_governance.py:195-337 | Over every interleaving, other jobs being created meanwhile, the successful writes of a job form a path of the lifecycle automaton, `state_version` counts them exactly, `attempt_count` counts the claims among them and stays within `max_attempts` |
| `TrainingJobs.AtMostOneSuccess` | backend/app/repositories/ai_governance.py:244-272 | At most one success is ever recorded, and the job is SUCCEEDED exactly when one was |
| `TrainingJobs.RowRemembersWrites` | backend/app/repositories/ai_governance.py:149-477 | After any run a read of the job returns, column by column, what its writes last stored: start time from the last claim, result from the last checkpoint or success, finishing, cancelling and queueing times, message and error |
| `TrainingJobs.SuccessIsFinal` | backend/app/repositories/ai_governance.py:244-272 | A recorded success, with its result and time, is what every later read returns |
| `TrainingJobs.WalkSucceedsOnce` | backend/app/repositories/ai_governance.py:244-272 | A lifecycle path has at most one success, exactly when it ends in SUCCEEDED, and none leaves a terminal status |
| `TrainingJobs.OneClaimPerQueueing` | backend/app/repositories/ai_governance.py:195-220 | However often a delivery is duplicated, a job is claimed at most once per time it was queued |
| `TrainingJobs.TerminalAbsorbs` | backend/app/repositories/ai_governance.py:487-508 | When failures are reported only from QUEUED or RUNNING, a terminal row never changes again |
| `TrainingJobs.TerminalOverwrittenExactly` | backend/app/repositories/ai_governance.py:299-320 | Without that rule: a terminal row is overwritten exactly by a failure report that names the row's own terminal status, and its version if one is given |
| `TrainingJobs.VersionNamesRow` | backend/app/repositories/ai_governance.py:487-508 | Versions never fall and equal versions mean equal rows |
| `TrainingJobs.VersionedCallsFenced` | backend/app/repositories/ai_governance.py:222-320 | After any write to the job, a call with an older version never changes it again |
| `TrainingJobs.UnversionedFailureUnfenced` | backend/app/repositories/ai_governance.py:299-320 | After any run, a failure report without a version takes effect exactly when the status is again the one it names |
| `TrainingJobs.FailureHitsMovedJob` | backend/app/repositories/ai_governance.py:299-320 | And it happens: any queued job with attempts left can be claimed and put back before a late report arrives; without a version the report fails the moved job, with the remembered version it changes nothing |
| `TrainingJobs.SweepsPartitionStale` | backend/app/repositories/ai_governance.py:383-477 | In every table any run of calls from the empty one leads to: requeue and exhausted-fail split the stale RUNNING jobs between them, commute, leave other rows alone, and leave RUNNING exactly recently started jobs |
| `TrainingJobs.SweepsGoByLastClaim` | backend/app/repositories/ai_governance.py:383-477 | Over every run from a job's creation on, a stale sweep takes the job exactly if it is running and its last claim came before the limit: the requeue while attempts remain, the failure otherwise |
| `TrainingJobs.ClaimStampsStart` | backend/app/repositories/ai_governance.py:202-217 | A claim stamps its own time, so no sweep with an earlier limit touches the job |
| `TrainingJobs.RunKeepsWellFormed` | backend/app/repositories/ai_governance.py:195-477 | Every run keeps attempts within their limit and gives every running job a start time |
| `TrainingJobs.ExecutionsBounded` | backend/app/repositories/ai_governance.py:195-320 | Twice the attempts left plus the status pays for every status change, so their number in any run is bounded |
| `TrainingJobs.StrandedExactly` | backend/app/repositories/ai_governance.py:222-242 | A call leaves a job queued without attempts exactly when it releases the job for retry at its last attempt |
| `TrainingJobs.StrandedNeverClaimed` | backend/app/repositories/ai_governance.py:202-208 | Such a job is never claimed in any continuation |
| `TrainingJobs.GuardedRetryNeverStrands` | backend/app/ml/jobs/worker.py:238-246 | However late a retry call arrives that carries the version of a row with attempts left, it never strands the job |
| `TrainingJobs.CheckpointedRetryNeverStrands` | backend/app/ml/jobs/worker.py:162-246 | The worker tests the attempts of the row it claimed and sends the version of the row it checkpointed, with any calls in between and after: that never strands the job |
| `TrainingJobs.QueuedStaysClaimable` | backend/app/repositories/ai_governance.py:195-242 | With retries released only while attempts remain, a queued job can always be claimed |
| `TrainingJobRepository.TrainingJobRepository.Create` | backend/app/repositories/ai_governance.py:54-96 | Adds a fresh queued row exactly when the key is free |
| `TrainingJobRepository.TrainingJobRepository.ConditionalUpdate` | backend/app/repositories/ai_governance.py:487-508 | Writes exactly the row with this status, and this version if one is given, raising the version; otherwise nothing changes |
| `TrainingJobRepository.TrainingJobRepository.SetQueueIdentifier` | backend/app/repositories/ai_governance.py:149-174 | Attaches an identifier once; aborts exactly when the guard holds but another job has the identifier |
| `TrainingJobRepository.TrainingJobRepository.ClaimQueued` | backend/app/repositories/ai_governance.py:195-220 | One delivery moves a queued job with attempts left to running |
| `TrainingJobRepository.TrainingJobRepository.ReleaseForRetry` | backend/app/repositories/ai_governance.py:222-242 | Returns a running job of that version to the queue |
| `TrainingJobRepository.TrainingJobRepository.RecordExternalResult` | backend/app/repositories/ai_governance.py:274-297 | Checkpoints a result on a running job of that version |
| `TrainingJobRepository.TrainingJobRepository.MarkSucceeded` | backend/app/repositories/ai_governance.py:244-272 | Records success on a running job of that version |
| `TrainingJobRepository.TrainingJobRepository.MarkFailed` | backend/app/repositories/ai_governance.py:299-320 | Records failure on a job with the expected status and, if given, version |
| `TrainingJobRepository.TrainingJobRepository.CancelQueued` | backend/app/repositories/ai_governance.py:322-337 | Cancels only a queued job |
| `TrainingJobRepository.TrainingJobRepository.ResetOrphanedQueued` | backend/app/repositories/ai_governance.py:429-449 | Drops the message of a queued job of that version |
| `TrainingJobRepository.TrainingJobRepository.RequeueStale` | backend/app/repositories/ai_governance.py:383-410 | Requeues exactly the stale jobs with attempts left and returns their identifiers |
| `TrainingJobRepository.TrainingJobRepository.FailExhaustedStale` | backend/app/repositories/ai_governance.py:451-477 | Fails exactly the stale jobs without attempts left and returns their identifiers |
| `Chunking.ChunkText` | backend/app/rag/chunking.py:20-70 | The window loop, with every error in the source's order, computes the declarative chunking of the normalised text |
| `ChunkingTheorems.ErrorsExactly` | backend/app/rag/chunking.py:28-44 | Each error of the chunker exactly, in order; the limit is exceeded exactly if that many visible windows come before the last one |
| `ChunkingTheorems.ChunksAreWindows` | backend/app/rag/chunking.py:55-63 | The chunks are exactly the windows that hold anything visible, in order and numbered from 0 |
| `ChunkingTheorems.ContentMeaning` | backend/app/rag/chunking.py:55 | A chunk's content is its window without the whitespace at both ends |
| `Chunking.CollectChunks` | backend/app/rag/chunking.py:40-70 | The loop returns the numbered nonempty window texts, or the limit error exactly when the limit is reached as the last window starts |
| `Chunking.FindEnd` | backend/app/rag/chunking.py:45-54 | The boundary search finds the specified window end |
| `Chunking.WindowEndMeaning` | backend/app/rag/chunking.py:45-54 | A window ends at the end of the text, at the last newline or space of its second half, or at full size exactly when that half has none |
| `ChunkingTheorems.WindowsAdvance` | backend/app/rag/chunking.py:42-67 | Starts strictly increase, ends never move back, the next start is exactly `max(start + 1, end - overlap)`, windows leave no gap, end where the boundary search must, and span the whole text |
| `ChunkingTheorems.ChunkingLosesNothing` | backend/app/rag/chunking.py:34-70 | Stitching the windows without their overlap rebuilds the normalised text, and every visible character survives in a chunk at its place |
| `ChunkingTheorems.ChunksWellFormed` | backend/app/rag/chunking.py:55-63 | Each chunk is a stripped, nonempty stretch of the normalised text of at most `chunk_size` characters, numbered 0, 1, 2, ... |
| `ChunkingTheorems.NoIndexableTextUnreachable` | backend/app/rag/chunking.py:68-70 | The final error cannot happen for any input, and the chunk limit is kept |
| `ChunkingTheorems.WindowsBounded` | backend/app/rag/chunking.py:42-67 | With an overlap under half the size, all windows but the last advance by half the size less the overlap |
| `ChunkingTheorems.ShortTextsFit` | backend/app/rag/chunking.py:43-44 | Then the chunk count is at most 1 + length / stride, and a text short enough for the limit never raises the limit error |
| `ChunkingTheorems.NormalizeIdempotent` | backend/app/rag/chunking.py:34 | Normalising twice changes nothing more |
| `Chunking.NormalizeMeaning` | backend/app/rag/chunking.py:34 | The two replacements together turn each CRLF, lone CR and LF into exactly one newline and keep everything else, before stripping |
| `IngestionPasses.IngestCsv` | backend/app/datasets/ingestion.py:42-131 | The first pass, its loops and error order included, computes the specified schema and readiness, blockers and warnings included |
| `IngestionMeaning.AcceptedExactly` | backend/app/datasets/ingestion.py:42-118 | The first pass accepts a table if and only if, on its raw header and cells: names are present, short, safe and distinct; there are 4 to `maximum_rows` rows of the header's width with acceptable cells; no column is blank; the roles are two of its columns; and the split column names a side in every row and each side twice |
| `IngestionMeaning.RejectedInOrder` | backend/app/datasets/ingestion.py:42-118 | The reported fault is the header's, else that of the first bad row, else too few rows, a blank column, the roles, the split column, in this order |
| `IngestionMeaning.HeaderMeaning` | backend/app/datasets/ingestion.py:43-56 | Which header fault is reported, each exactly |
| `IngestionMeaning.FirstBadRow` | backend/app/datasets/ingestion.py:61-79 | The row loop reports the first bad row, and in it the row count, the width or the first bad cell |
| `IngestionMeaning.CellMeaning` | backend/app/datasets/ingestion.py:68-78 | A cell is refused exactly if it is too long, unsafe, or starts like a formula |
| `IngestionMeaning.TypeMeaning` | backend/app/datasets/ingestion.py:246-263 | The inferred type by the cells that are not blank |
| `IngestionMeaning.SplitMeaning` | backend/app/datasets/ingestion.py:103-118 | The split column is accepted exactly if every cell names a side and each side is named twice |
| `IngestionMeaning.SchemaMeaning` | backend/app/datasets/ingestion.py:87-131 | The recorded schema: stripped names, inferred types, nullability, roles and row count |
| `IngestionMeaning.ReadinessMeaning` | backend/app/datasets/ingestion.py:276-356 | The readiness report entry by entry: numeric and other features in table order, the target's classes with their counts, and the exact condition of each blocker, verdict and warning |
| `IngestionMeaning.NoTargetMeaning` | backend/app/datasets/ingestion.py:297-300 | Without a target nothing is ready or a candidate, and the missing choice is a blocker |
| `IngestionPasses.ReadColumns` | backend/app/datasets/ingestion.py:58-81 | The row loop either reports the first fault in reading order or leaves the stripped cells column by column |
| `IngestionPasses.CheckSplit` | backend/app/datasets/ingestion.py:103-118 | The split loop accepts exactly known sides with two rows each |
| `IngestionPasses.CountTargets` | backend/app/datasets/ingestion.py:315-319 | The counting loop yields each present target value with its multiplicity |
| `IngestionPasses.TabularTrainingSnapshot` | backend/app/datasets/ingestion.py:157-223 | The second pass, its loops and error order included, computes the specified snapshot |
| `IngestionPasses.DivideExplicit` | backend/app/datasets/ingestion.py:197-211 | The explicit split loop keeps the rows of each side in order |
| `IngestionTheorems.ReadyDataTrains` | backend/app/datasets/ingestion.py:157-223 | On a data set reported ready, the snapshot of the same rows succeeds if and only if the header is unpadded, no feature or target cell is missing and every integer cell is a finite double |
| `IngestionTheorems.ReadyExactly` | backend/app/datasets/ingestion.py:297-353 | A data set is reported ready exactly when it has a numeric target with at least two values and features that are all numeric |
| `IngestionExample.PaddedHeaderCannotTrain` | backend/app/datasets/ingestion.py:187-196 | A four-row data set with one padded header name is accepted and reported ready, and every snapshot of it fails, under any library that reads its few texts as Python does |
| `IngestionExample.PlainHeaderTrains` | backend/app/datasets/ingestion.py:212-223 | The same rows under the unpadded header are accepted, reported ready, and every snapshot of them succeeds |
| `IngestionTheorems.SnapshotExactly` | backend/app/datasets/ingestion.py:187-215 | On accepted rows the snapshot succeeds if and only if every needed column reads as finite numbers and the split column's header is unpadded |
| `IngestionTheorems.ColumnLookup` | backend/app/datasets/ingestion.py:188-189 | The second pass finds a column exactly when its raw header carries no padding |
| `IngestionTheorems.ReadyMeansNumeric` | backend/app/datasets/ingestion.py:335-353 | Readiness means every column but the split column was inferred numeric |
| `IngestionTheorems.DivisionIsPartition` | backend/app/datasets/ingestion.py:197-222 | Every successful split is an exact, order-preserving partition of the rows with at least two on each side |
| `IngestionTheorems.FractionPathExactly` | backend/app/datasets/ingestion.py:212-216 | For fractions in [0.1, 0.4] under half-to-even rounding, the fraction path fails exactly below four rows |
| `IngestionTheorems.RoundMeaning` | backend/app/datasets/ingestion.py:213 | The rounding is to a nearest whole number with ties to even |
| `IngestionTheorems.SnapshotShape` | backend/app/datasets/ingestion.py:181-223 | Features and targets are aligned and equally wide, with at least two rows on each side and as many rows together as there are data rows |
| `SnapshotContents.SnapshotReadsRows` | backend/app/datasets/ingestion.py:187-223 | The training and evaluation entries are read, features and target alike, cell by named cell, from two disjoint increasing selections of the data rows that together use every row once; with a split column each row is in the half it names, without one the last rows are for evaluation |
| `SnapshotContents.HeldOutShare` | backend/app/datasets/ingestion.py:212-222 | Without a split column exactly two rows are held out if the fraction of all rows is at most 2.5, and otherwise the whole number nearest to it, ties to even |
| `SnapshotContents.SnapshotFailures` | backend/app/datasets/ingestion.py:167-215 | Which failure a snapshot reports, in order |
| `SnapshotContents.NumberMeaning` | backend/app/datasets/ingestion.py:266-273 | A cell reads as a number exactly if it is there, not blank and a finite double |
| `SnapshotContents.DataRowsAt` | backend/app/datasets/ingestion.py:173 | The data rows are the lines that are not empty, in their order |
| `RateLimit.SlidingWindowBound` | backend/app/dependencies/rate_limit.py:161-203 | In any half-open interval of one window length fewer than twice the limit are admitted per key, under arbitrary other keys and store outages |
| `RateLimit.SlidingWindowBoundTight` | backend/app/dependencies/rate_limit.py:23-30 | For every valid limit and window, some run admits twice the limit less one within one window length: the bound cannot be improved |
| `RateLimit.LifetimeBound` | backend/app/dependencies/rate_limit.py:23-30 | Within one key lifetime at most the limit is admitted |
| `RateLimit.LifetimeExact` | backend/app/dependencies/rate_limit.py:192-193 | Where no answer is lost, a lifetime admits exactly its first `limit` increments of the key, whatever happens to other keys |
| `RateLimit.DecisionMeaning` | backend/app/dependencies/rate_limit.py:97-193 | Which requests each limiter admits or refuses, by the key's live count and the store's answer |
| `RateLimit.StepKeepsWindowState` | backend/app/dependencies/rate_limit.py:23-30 | One request keeps the relation between the admissions in a window and the key's counter |
| `RateLimit.AuthAgreesWhenAnswered` | backend/app/dependencies/rate_limit.py:97-115 | Where the store answers, the authentication limiter decides like the mutation limiter; where it does not, one admits and the other refuses |
| `RateLimit.RetryAfterMeaning` | backend/app/dependencies/rate_limit.py:195-203 | A refusal asks for a wait between one second and the window; half a second later at the latest the key has expired, and after the wait itself it is still alive exactly if its remaining life, over one second, was rounded down |
| `RateLimit.RateLimiter.Increment` | backend/app/dependencies/rate_limit.py:23-66 | The script counts up, and sets the expiry exactly on a new or expired key |
| `RateLimit.RateLimiter.EnforceMutationRateLimit` | backend/app/dependencies/rate_limit.py:161-203 | Fails closed: the decision and the store afterwards, for answers and both kinds of outage |
| `RateLimit.RateLimiter.EnforceAuthRateLimit` | backend/app/dependencies/rate_limit.py:88-135 | Fails open: the decision and the store afterwards, for answers and both kinds of outage |
| `Embeddings.Accumulate` | backend/app/rag/embeddings.py:70-80 | The in-place token loop leaves the signed count of every bucket |
| `Embeddings.EmbedOne` | backend/app/rag/embeddings.py:64-90 | Every error in the source's order, else the scaled signed counts, a unit vector of the provider's width |
| `Embeddings.CoordinateMeaning` | backend/app/rag/embeddings.py:74-85 | Coordinate `i` of 256, times the norm, is the number of terms whose digest number modulo 256 is `i` with an even ninth byte less those with an odd one |
| `Embeddings.TextFailures` | backend/app/rag/embeddings.py:65-73 | Which texts are rejected before counting: blank ones, those over 16000 characters, those without terms |
| `Embeddings.EmbeddingIsUnit` | backend/app/rag/embeddings.py:82-90 | Every embedding is a unit vector of the provider's width |
| `Embeddings.RawCountsVotes` | backend/app/rag/embeddings.py:74-80 | A bucket is the number of its tokens with an even ninth digest byte less the number with an odd one |
| `Embeddings.RawConcat` | backend/app/rag/embeddings.py:74-80 | Raw embeddings add up over concatenation |
| `Embeddings.OrderIrrelevant` | backend/app/rag/embeddings.py:74-80 | Any reordering of the tokens leaves every bucket the same |
| `Embeddings.SameBagSameEmbedding` | backend/app/rag/embeddings.py:64-90 | Texts with the same bag of terms have the same embedding or fail alike |
| `Embeddings.RepetitionKeepsEmbedding` | backend/app/rag/embeddings.py:64-90 | Repeating a text does not change its embedding |
| `Embeddings.OddCountsSurvive` | backend/app/rag/embeddings.py:82-84 | The squared norm has the parity of the token count, so an odd count is never rejected for a zero norm |
| `Embeddings.ZeroNormExactly` | backend/app/rag/embeddings.py:82-84 | The norm check fails exactly when every bucket cancels |
| `Embeddings.CollidingPairRejected` | backend/app/rag/embeddings.py:82-84 | A text of two tokens is rejected exactly when they share a bucket and have opposite signs |
| `Embeddings.RejectedExactly` | backend/app/rag/embeddings.py:72-84 | A text with terms is rejected exactly when in every bucket as many of its terms count up as count down; then it has an even number of terms |
| `Embeddings.UnitCosine` | backend/app/rag/embeddings.py:93-102 | For provider outputs the upper clamp never fires, the score is one exactly for equal vectors, and it is symmetric |
| `Embeddings.CosineMeaning` | backend/app/rag/embeddings.py:93-102 | For any two vectors of width 256 the score is the inner product kept within 0 and 1; any other width is an error |
| `Embeddings.Polarization` | backend/app/rag/embeddings.py:101 | The inner product and the two squared distances: the identity behind Cauchy-Schwarz |
| `Evaluation.SampleSpansAll` | backend/app/ml/evaluation.py:320-323 | At most 200 strictly increasing indexes from the first point to the last, exactly 200 for larger sizes |
| `Evaluation.SampleSpacing` | backend/app/ml/evaluation.py:320-323 | The samples are evenly spaced: index `i` is `i` 199ths of the way to the last point, cut down |
| `Evaluation.BucketContains` | backend/app/ml/evaluation.py:366-379 | A prediction is put in a bucket exactly when it lies in that bucket's range (the last one closed); no clipping is needed |
| `Evaluation.RangesReportTheirMembers` | backend/app/ml/evaluation.py:370-389 | Every reported range, in both branches, counts exactly the predictions inside it, at least one, and reports the mean of exactly their errors |
| `Evaluation.RangesAreParts` | backend/app/ml/evaluation.py:366-389 | The ranges are equal parts of the predictions' span, ten or as many as predictions, reported from low to high; a single value makes a single range |
| `Evaluation.BucketingConserves` | backend/app/ml/evaluation.py:363-389 | The counts add up to the number of predictions and the count-weighted means to the total error, in both branches |
| `Generation.Generate` | backend/app/rag/generation.py:75-150 | The answer is grounded exactly when some evidence sentence shares at least half of the question's terms, two of them unless there is only one; it cites the one that shares most, then the lowest rank, then the greatest text, spelled out on the sets of terms |
| `Generation.AnswerMeaning` | backend/app/rag/generation.py:111-150 | Answers chosen among offers by overlap are the right ones in terms of shared terms |
| `Generation.BoundedMeaning` | backend/app/rag/generation.py:145 | The cited text is the sentence cut at 1200 characters without trailing whitespace |
| `Generation.TidyMeaning` | backend/app/rag/generation.py:117 | Tidying a sentence keeps exactly its words, one blank apart |
| `Generation.BeforeMeaning` | backend/app/rag/generation.py:143 | The order of texts: a proper prefix comes first, otherwise the first difference decides |
| `Generation.CollectCandidates` | backend/app/rag/generation.py:114-131 | The nested loops collect exactly the eligible sentences |
| `Generation.MaxCandidate` | backend/app/rag/generation.py:143 | The maximum scan returns a member that no other exceeds in tuple order |
| `Generation.MaximumIsBest` | backend/app/rag/generation.py:143-144 | The maximal candidate tuple is the best offer |
| `Generation.SmallerIsPreferred` | backend/app/rag/generation.py:131-143 | Comparing tuples with the real coverage first is comparing overlap, rank and text |
| `Generation.ThresholdExactly` | backend/app/rag/generation.py:111-129 | The two thresholds amount to one whole number of shared terms |
| `Generation.AnswerUnique` | backend/app/rag/generation.py:133-150 | The sentences on offer determine the answer |
| `Generation.ReorderedEvidenceOffersTheSame` | backend/app/rag/generation.py:115-117 | Reordering the evidence does not change what is on offer |

## Left out

- SQL, sessions, row locks, commits and network failures: each repository call is one atomic guarded update; a session that dies before its commit is a call that did not happen.
- Columns that no guard reads: names, seeds, parameters, fingerprints, `safe_error_message` (folded into `errorCode`) and the values of the study's best trial, champion job, error and message columns, whose versioned updates appear as the step `Annotate`.
- Deletion of rows and the foreign keys between them.
- `coordinate`, `_finalize` and `_handoff` as programs: their single repository calls are steps of the protocol, the order they issue them in is not modelled.
- Queues, processes, timeouts and metrics of the services.
- TrainingJobRepository.TrainingJobRepository.SetQueueIdentifier: the integrity error is an `aborted` flag, because exceptions are not modelled.
- Chunk content hashes (SHA-256) and the encoding error for lone surrogates.
- The CSV tokenizer and UTF-8 decoding: both passes start from the parsed header and rows; the plain-text ingestion beside them is three checks.
- The sentence texts of readiness blockers and warnings, which are constructors here; the snapshot's conversion of whole floats to integers, which keeps their value.
- Generation.Generate: the significant-term extraction (regular expression, stop words) and the sentence boundary are parameters; the fixed wording around the cited sentence is left out.
- Embeddings.EmbedOne: the square root is a parameter assumed exact (`IsRoot`), because no such function on the reals can be written down; the `isfinite` checks, which exact arithmetic makes void, and the batch-size check.
- Embeddings.CosineSimilarity: the non-finite input check, for the same reason.
- Redis eviction and failover, key hashing, and the settings that switch a limiter off.
- `_histogram`, `_ranked` and the metric payloads: one library call each.
- Record conversions, promotion audits, retraining, list queries and pagination: single-statement facts.
- `backend/app/datasets/service.py`: its repository is not part of this model.
