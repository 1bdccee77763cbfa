/**
 The lifecycle of background training jobs: which repository call changes which
 row and how, and what every interleaving of deliveries, retries, sweeps and
 worker writes keeps.
 */
module TrainingJobs {
  import opened Common

  type Time = int
  type JobId = nat

  datatype JobStatus = Queued | Running | Succeeded | Failed | Cancelled

  datatype ExternalResult = ExternalResult(
    localExecutionRunId: nat,
    mlflowExperimentId: string,
    mlflowRunId: string,
    registeredModelVersion: string,
    metrics: map<string, real>)

  datatype Job = Job(
    status: JobStatus,
    attemptCount: nat,
    maxAttempts: nat,
    stateVersion: nat,
    queuedAt: Time,
    startedAt: Option<Time>,
    finishedAt: Option<Time>,
    cancelledAt: Option<Time>,
    queueMessageId: Option<string>,
    errorCode: Option<string>,
    result: Option<ExternalResult>)

  type Jobs = map<JobId, Job>

  datatype Call =
    | Create(jobId: JobId, maxAttempts: nat, at: Time)
    | SetQueueIdentifier(jobId: JobId, message: string, version: nat)
    | MarkQueueIdentifierPending(jobId: JobId, version: nat)
    | ClaimQueued(jobId: JobId, at: Time)
    | ReleaseForRetry(jobId: JobId, version: nat, errorCode: string, at: Time)
    | RecordExternalResult(jobId: JobId, version: nat, result: ExternalResult)
    | MarkSucceeded(jobId: JobId, version: nat, at: Time, result: ExternalResult)
    | MarkFailed(jobId: JobId, expectedStatus: JobStatus, errorCode: string, at: Time, optionalVersion: Option<nat>)
    | CancelQueued(jobId: JobId, at: Time)
    | ResetOrphanedQueued(jobId: JobId, version: nat, at: Time)
    | RequeueStale(staleBefore: Time, at: Time)
    | FailExhaustedStale(staleBefore: Time, at: Time)

  predicate Terminal(status: JobStatus) {
    !status.Queued? && !status.Running?
  }

  predicate Stale(job: Job, staleBefore: Time) {
    job.status == Running && job.startedAt.Some? && job.startedAt.value < staleBefore
  }

  predicate Targets(call: Call, id: JobId) {
    call.RequeueStale? || call.FailExhaustedStale? || call.jobId == id
  }

  /** The broker message identifiers are unique across jobs. */
  predicate MessageTaken(jobs: Jobs, id: JobId, message: string) {
    exists other | other in jobs :: other != id && jobs[other].queueMessageId == Some(message)
  }

  /** The `WHERE` clause of the call. */
  predicate Fires(jobs: Jobs, call: Call, id: JobId)
    requires id in jobs
  {
    var job := jobs[id];
    Targets(call, id) &&
    match call
    case Create(_, _, _) => false
    case SetQueueIdentifier(_, message, version) =>
      job.status == Queued && job.queueMessageId.None? && job.stateVersion == version && !MessageTaken(jobs, id, message)
    case MarkQueueIdentifierPending(_, version) => job.status == Queued && job.stateVersion == version
    case ClaimQueued(_, _) => job.status == Queued && job.attemptCount < job.maxAttempts
    case ReleaseForRetry(_, version, _, _) => job.status == Running && job.stateVersion == version
    case RecordExternalResult(_, version, _) => job.status == Running && job.stateVersion == version
    case MarkSucceeded(_, version, _, _) => job.status == Running && job.stateVersion == version
    case MarkFailed(_, expected, _, _, version) =>
      job.status == expected && (version.Some? ==> job.stateVersion == version.value)
    case CancelQueued(_, _) => job.status == Queued
    case ResetOrphanedQueued(_, version, _) => job.status == Queued && job.stateVersion == version
    case RequeueStale(staleBefore, _) => Stale(job, staleBefore) && job.attemptCount < job.maxAttempts
    case FailExhaustedStale(staleBefore, _) => Stale(job, staleBefore) && job.attemptCount >= job.maxAttempts
  }

  /** The columns the call assigns, the version aside. */
  function Values(call: Call, job: Job): Job {
    match call
    case Create(_, _, _) => job
    case SetQueueIdentifier(_, message, _) => job.(queueMessageId := Some(message), errorCode := None)
    case MarkQueueIdentifierPending(_, _) => job.(errorCode := Some("queue_message_persistence_pending"))
    case ClaimQueued(_, at) =>
      job.(status := Running, startedAt := Some(at), attemptCount := job.attemptCount + 1, errorCode := None)
    case ReleaseForRetry(_, _, errorCode, at) => job.(status := Queued, queuedAt := at, errorCode := Some(errorCode))
    case RecordExternalResult(_, _, result) => job.(result := Some(result))
    case MarkSucceeded(_, _, at, result) =>
      job.(status := Succeeded, finishedAt := Some(at), result := Some(result), errorCode := None)
    case MarkFailed(_, _, errorCode, at, _) =>
      job.(status := Failed, finishedAt := Some(at), errorCode := Some(errorCode))
    case CancelQueued(_, at) => job.(status := Cancelled, cancelledAt := Some(at), finishedAt := Some(at))
    case ResetOrphanedQueued(_, _, at) =>
      job.(queuedAt := at, queueMessageId := None, errorCode := Some("broker_message_stale"))
    case RequeueStale(_, at) =>
      job.(status := Queued, queuedAt := at, queueMessageId := None, errorCode := Some("worker_stale"))
    case FailExhaustedStale(_, at) =>
      job.(status := Failed, finishedAt := Some(at), errorCode := Some("retry_exhausted"))
  }

  function Written(call: Call, job: Job): Job {
    Values(call, job).(stateVersion := job.stateVersion + 1)
  }

  function NewJob(maxAttempts: nat, queuedAt: Time): Job {
    Job(Queued, 0, maxAttempts, 0, queuedAt, None, None, None, None, None, None)
  }

  /** A new row, unless its key is taken; otherwise every row the call fires on. */
  function Apply(jobs: Jobs, call: Call): Jobs {
    if call.Create? then
      if call.jobId in jobs then jobs else jobs[call.jobId := NewJob(call.maxAttempts, call.at)]
    else
      map id | id in jobs :: if Fires(jobs, call, id) then Written(call, jobs[id]) else jobs[id]
  }

  function Exec(jobs: Jobs, calls: seq<Call>): Jobs
    decreases |calls|
  {
    if calls == [] then jobs else Exec(Apply(jobs, calls[0]), calls[1..])
  }

  /** A failure is reported from QUEUED or RUNNING only. */
  predicate Disciplined(call: Call) {
    call.MarkFailed? ==> !Terminal(call.expectedStatus)
  }

  predicate AllDisciplined(calls: seq<Call>) {
    calls == [] || (Disciplined(calls[0]) && AllDisciplined(calls[1..]))
  }

  // ------------------------------------------------- the lifecycle automaton

  /** The status a fired call leads to, where the lifecycle allows the move. */
  function Move(status: JobStatus, call: Call): Option<JobStatus> {
    match (status, call)
    case (Queued, SetQueueIdentifier(_, _, _)) => Some(Queued)
    case (Queued, MarkQueueIdentifierPending(_, _)) => Some(Queued)
    case (Queued, ResetOrphanedQueued(_, _, _)) => Some(Queued)
    case (Queued, ClaimQueued(_, _)) => Some(Running)
    case (Queued, CancelQueued(_, _)) => Some(Cancelled)
    case (Queued, MarkFailed(_, _, _, _, _)) => Some(Failed)
    case (Running, RecordExternalResult(_, _, _)) => Some(Running)
    case (Running, ReleaseForRetry(_, _, _, _)) => Some(Queued)
    case (Running, RequeueStale(_, _)) => Some(Queued)
    case (Running, MarkSucceeded(_, _, _, _)) => Some(Succeeded)
    case (Running, MarkFailed(_, _, _, _, _)) => Some(Failed)
    case (Running, FailExhaustedStale(_, _)) => Some(Failed)
    case _ => None
  }

  function Walk(status: JobStatus, writes: seq<Call>): Option<JobStatus>
    decreases |writes|
  {
    if writes == [] then Some(status)
    else
      match Move(status, writes[0])
      case None => None
      case Some(next) => Walk(next, writes[1..])
  }

  /** The calls of a run that actually wrote this job, in order. */
  function Writes(jobs: Jobs, calls: seq<Call>, id: JobId): seq<Call>
    requires id in jobs
    decreases |calls|
  {
    if calls == [] then []
    else
      var rest := Writes(Apply(jobs, calls[0]), calls[1..], id);
      if Fires(jobs, calls[0], id) then [calls[0]] + rest else rest
  }

  function Claims(writes: seq<Call>): nat {
    if writes == [] then 0 else (if writes[0].ClaimQueued? then 1 else 0) + Claims(writes[1..])
  }

  function Successes(writes: seq<Call>): nat {
    if writes == [] then 0 else (if writes[0].MarkSucceeded? then 1 else 0) + Successes(writes[1..])
  }

  /** One call: it moves the row along the automaton and counts itself, or it
      leaves the row alone. */
  lemma StepFollowsLifecycle(jobs: Jobs, call: Call, id: JobId)
    requires id in jobs && Disciplined(call) && jobs[id].attemptCount <= jobs[id].maxAttempts
    ensures id in Apply(jobs, call)
    ensures
      var job, job' := jobs[id], Apply(jobs, call)[id];
      if Fires(jobs, call, id) then
        && Move(job.status, call) == Some(job'.status)
        && job'.stateVersion == job.stateVersion + 1
        && job'.attemptCount == job.attemptCount + (if call.ClaimQueued? then 1 else 0)
        && job'.attemptCount <= job'.maxAttempts == job.maxAttempts
      else
        job' == job
  {
  }

  lemma WritesUnfold(jobs: Jobs, calls: seq<Call>, id: JobId)
    requires id in jobs && calls != []
    ensures
      var rest := Writes(Apply(jobs, calls[0]), calls[1..], id);
      Writes(jobs, calls, id) == if Fires(jobs, calls[0], id) then [calls[0]] + rest else rest
    ensures Exec(jobs, calls) == Exec(Apply(jobs, calls[0]), calls[1..])
  {
  }

  lemma WalkUnfold(status: JobStatus, call: Call, rest: seq<Call>)
    requires Move(status, call).Some?
    ensures Walk(status, [call] + rest) == Walk(Move(status, call).value, rest)
    ensures Claims([call] + rest) == (if call.ClaimQueued? then 1 else 0) + Claims(rest)
  {
    assert ([call] + rest)[1..] == rest;
  }

  /** Over every interleaving, the successful writes of a job are a path of the
      lifecycle automaton from its old status to its new one, the version counts
      them exactly, and the attempt counter counts the claims among them. */
  lemma {:induction false} WritesFollowLifecycle(jobs: Jobs, calls: seq<Call>, id: JobId)
    requires id in jobs && AllDisciplined(calls)
    requires jobs[id].attemptCount <= jobs[id].maxAttempts
    ensures id in Exec(jobs, calls)
    ensures
      var writes, job, job' := Writes(jobs, calls, id), jobs[id], Exec(jobs, calls)[id];
      && Walk(job.status, writes) == Some(job'.status)
      && job'.stateVersion == job.stateVersion + |writes|
      && job'.attemptCount == job.attemptCount + Claims(writes)
      && job'.attemptCount <= job'.maxAttempts == job.maxAttempts
    decreases |calls|
  {
    if calls != [] {
      var jobs1 := Apply(jobs, calls[0]);
      StepFollowsLifecycle(jobs, calls[0], id);
      WritesFollowLifecycle(jobs1, calls[1..], id);
      WritesUnfold(jobs, calls, id);
      if Fires(jobs, calls[0], id) {
        WalkUnfold(jobs[id].status, calls[0], Writes(jobs1, calls[1..], id));
      }
    }
  }

  /** A walk that starts in a terminal status goes nowhere; any other records at
      most one success, as its last write. */
  lemma {:induction false} WalkSucceedsOnce(status: JobStatus, writes: seq<Call>)
    requires Walk(status, writes).Some?
    ensures Terminal(status) ==> writes == []
    ensures Successes(writes) <= 1
    ensures Successes(writes) == 1 <==> !Terminal(status) && Walk(status, writes) == Some(Succeeded)
    decreases |writes|
  {
    if writes != [] {
      WalkSucceedsOnce(Move(status, writes[0]).value, writes[1..]);
    }
  }

  function Returns(writes: seq<Call>): nat {
    if writes == [] then 0
    else (if writes[0].ReleaseForRetry? || writes[0].RequeueStale? then 1 else 0) + Returns(writes[1..])
  }

  /** However often a delivery is duplicated, a job is claimed once per time it
      was queued: its creation, a retry or a requeue. */
  lemma {:induction false} OneClaimPerQueueing(status: JobStatus, writes: seq<Call>)
    requires Walk(status, writes).Some?
    ensures Claims(writes) <= Returns(writes) + if status.Queued? then 1 else 0
    decreases |writes|
  {
    if writes != [] {
      OneClaimPerQueueing(Move(status, writes[0]).value, writes[1..]);
    }
  }

  /** At most one worker's success is ever recorded, and a job is SUCCEEDED
      exactly when one was. */
  lemma AtMostOneSuccess(jobs: Jobs, calls: seq<Call>, id: JobId)
    requires id in jobs && AllDisciplined(calls)
    requires jobs[id].attemptCount <= jobs[id].maxAttempts && !Terminal(jobs[id].status)
    ensures Successes(Writes(jobs, calls, id)) <= 1
    ensures id in Exec(jobs, calls)
    ensures Successes(Writes(jobs, calls, id)) == 1 <==> Exec(jobs, calls)[id].status == Succeeded
  {
    WritesFollowLifecycle(jobs, calls, id);
    WalkSucceedsOnce(jobs[id].status, Writes(jobs, calls, id));
  }

  /** A terminal row never changes again. */
  lemma {:induction false} TerminalAbsorbs(jobs: Jobs, calls: seq<Call>, id: JobId)
    requires id in jobs && Terminal(jobs[id].status) && AllDisciplined(calls)
    ensures Writes(jobs, calls, id) == []
    ensures id in Exec(jobs, calls) && Exec(jobs, calls)[id] == jobs[id]
    decreases |calls|
  {
    if calls != [] {
      TerminalAbsorbs(Apply(jobs, calls[0]), calls[1..], id);
    }
  }

  /** `mark_failed` itself does not check for it: a terminal row is overwritten
      exactly by a failure report that names its own terminal status, and its
      version if one is given. */
  lemma TerminalOverwrittenExactly(jobs: Jobs, call: Call, id: JobId)
    requires id in jobs && Terminal(jobs[id].status)
    ensures Apply(jobs, call)[id] != jobs[id] <==>
              && call.MarkFailed? && call.jobId == id && call.expectedStatus == jobs[id].status
              && (call.optionalVersion.Some? ==> call.optionalVersion.value == jobs[id].stateVersion)
  {
    if Fires(jobs, call, id) {
      assert Apply(jobs, call)[id].stateVersion == jobs[id].stateVersion + 1;
    }
  }

  // --------------------------------------------------------------- fencing

  /** Versions grow with every write, so equal versions mean equal rows. */
  lemma {:induction false} VersionNamesRow(jobs: Jobs, calls: seq<Call>, id: JobId)
    requires id in jobs
    ensures id in Exec(jobs, calls)
    ensures jobs[id].stateVersion <= Exec(jobs, calls)[id].stateVersion
    ensures jobs[id].stateVersion == Exec(jobs, calls)[id].stateVersion ==> jobs[id] == Exec(jobs, calls)[id]
    decreases |calls|
  {
    if calls != [] {
      VersionNamesRow(Apply(jobs, calls[0]), calls[1..], id);
    }
  }

  /** The version a call insists on, if any. */
  function ExpectedVersion(call: Call): Option<nat> {
    match call
    case Create(_, _, _) => None
    case ClaimQueued(_, _) => None
    case CancelQueued(_, _) => None
    case RequeueStale(_, _) => None
    case FailExhaustedStale(_, _) => None
    case MarkFailed(_, _, _, _, version) => version
    case _ => Some(call.version)
  }

  /** Once anything has written the job, no call with an older version ever
      changes it again, whatever comes in between. */
  lemma VersionedCallsFenced(jobs: Jobs, calls: seq<Call>, id: JobId, write: Call, stale: Call)
    requires id in jobs && Fires(jobs, write, id)
    requires ExpectedVersion(stale).Some? && ExpectedVersion(stale).value <= jobs[id].stateVersion
    ensures
      var later := Exec(jobs, [write] + calls);
      && id in later && !Fires(later, stale, id) && Apply(later, stale)[id] == later[id]
  {
    assert ([write] + calls)[1..] == calls;
    VersionNamesRow(Apply(jobs, write), calls, id);
  }

  /** An unversioned failure report is not fenced: it still kills a job that has
      been claimed, retried and requeued since the caller last looked at it. */
  lemma UnversionedFailureUnfenced(jobs: Jobs, calls: seq<Call>, id: JobId, at: Time, errorCode: string)
    requires id in jobs
    ensures id in Exec(jobs, calls)
    ensures
      var later := Exec(jobs, calls);
      var report := MarkFailed(id, jobs[id].status, errorCode, at, None);
      Apply(later, report)[id] != later[id] <==> later[id].status == jobs[id].status
  {
    VersionNamesRow(jobs, calls, id);
    var later := Exec(jobs, calls);
    var report := MarkFailed(id, jobs[id].status, errorCode, at, None);
    if Fires(later, report, id) {
      assert Apply(later, report)[id].stateVersion == later[id].stateVersion + 1;
    }
  }

  /** And it does come to that: any queued job with attempts left can be claimed
      and put back before the report arrives, which then fails it all the same;
      with the remembered version it would not. */
  lemma FailureHitsMovedJob(jobs: Jobs, id: JobId, at: Time, errorCode: string) returns (calls: seq<Call>)
    requires id in jobs && jobs[id].status == Queued && jobs[id].attemptCount < jobs[id].maxAttempts
    ensures AllDisciplined(calls) && id in Exec(jobs, calls)
    ensures
      var later := Exec(jobs, calls);
      && later[id].stateVersion > jobs[id].stateVersion && later[id].attemptCount > jobs[id].attemptCount
      && Apply(later, MarkFailed(id, Queued, errorCode, at, None))[id].status == Failed
      && Apply(later, MarkFailed(id, Queued, errorCode, at, Some(jobs[id].stateVersion))) == later
  {
    var claim, retry := ClaimQueued(id, at), ReleaseForRetry(id, jobs[id].stateVersion + 1, errorCode, at);
    calls := [claim, retry];
    assert calls[1..] == [retry] && calls[1..][1..] == [];
    var later := Apply(Apply(jobs, claim), retry);
    assert Exec(Apply(jobs, claim), [retry]) == Exec(later, []);
  }

  // ---------------------------------------------------------------- sweeps

  /** A running job has a start time, so it cannot escape the staleness test. */
  predicate WellFormed(job: Job) {
    job.attemptCount <= job.maxAttempts && (job.status == Running ==> job.startedAt.Some?)
  }

  predicate AllWellFormed(jobs: Jobs) {
    forall id | id in jobs :: WellFormed(jobs[id])
  }

  lemma ApplyKeepsWellFormed(jobs: Jobs, call: Call)
    requires AllWellFormed(jobs)
    ensures AllWellFormed(Apply(jobs, call))
  {
  }

  lemma {:induction false} RunKeepsWellFormed(jobs: Jobs, calls: seq<Call>)
    requires AllWellFormed(jobs)
    ensures AllWellFormed(Exec(jobs, calls))
    decreases |calls|
  {
    if calls != [] {
      ApplyKeepsWellFormed(jobs, calls[0]);
      RunKeepsWellFormed(Apply(jobs, calls[0]), calls[1..]);
    }
  }

  /** The row is for exactly one of the two sweeps if it is stale and for none
      otherwise, their order does not matter, and if it is still RUNNING after
      both it was started recently enough and is untouched. */
  predicate SweepsSettle(jobs: Jobs, requeue: Call, fail: Call, staleBefore: Time, id: JobId)
    requires id in jobs
  {
    var job, swept, other := jobs[id], Apply(Apply(jobs, requeue), fail), Apply(Apply(jobs, fail), requeue);
    && id in swept && id in other && swept[id] == other[id]
    && (Stale(job, staleBefore) <==> (Fires(jobs, requeue, id) != Fires(jobs, fail, id)))
    && !(Fires(jobs, requeue, id) && Fires(jobs, fail, id))
    && (!Stale(job, staleBefore) ==> swept[id] == job)
    && (swept[id].status == Running ==>
          swept[id] == job && job.startedAt.Some? && job.startedAt.value >= staleBefore)
  }

  /** What one of the sweeps does to a row. */
  lemma SweepRow(jobs: Jobs, sweep: Call, id: JobId)
    requires id in jobs && (sweep.RequeueStale? || sweep.FailExhaustedStale?)
    ensures id in Apply(jobs, sweep)
    ensures Fires(jobs, sweep, id) <==>
              Stale(jobs[id], sweep.staleBefore)
              && (sweep.RequeueStale? <==> jobs[id].attemptCount < jobs[id].maxAttempts)
    ensures Apply(jobs, sweep)[id] == if Fires(jobs, sweep, id) then Written(sweep, jobs[id]) else jobs[id]
  {
  }

  lemma SweepsSettleRow(jobs: Jobs, staleBefore: Time, at: Time, at': Time, id: JobId)
    requires id in jobs && WellFormed(jobs[id])
    ensures SweepsSettle(jobs, RequeueStale(staleBefore, at), FailExhaustedStale(staleBefore, at'), staleBefore, id)
  {
    var requeue, fail := RequeueStale(staleBefore, at), FailExhaustedStale(staleBefore, at');
    SweepRow(jobs, requeue, id);
    SweepRow(jobs, fail, id);
    SweepRow(Apply(jobs, requeue), fail, id);
    SweepRow(Apply(jobs, fail), requeue, id);
  }

  /** In every table that any run of calls leads to, the two stale sweeps settle
      every row. */
  lemma SweepsPartitionStale(calls: seq<Call>, staleBefore: Time, at: Time, at': Time)
    ensures forall id | id in Exec(map[], calls) ::
              SweepsSettle(Exec(map[], calls), RequeueStale(staleBefore, at), FailExhaustedStale(staleBefore, at'), staleBefore, id)
  {
    RunKeepsWellFormed(map[], calls);
    var jobs := Exec(map[], calls);
    forall id | id in jobs
      ensures SweepsSettle(jobs, RequeueStale(staleBefore, at), FailExhaustedStale(staleBefore, at'), staleBefore, id)
    {
      SweepsSettleRow(jobs, staleBefore, at, at', id);
    }
  }

  // ------------------------------------------------ what a later read returns

  /** The last value the writes assign to a column. */
  function LastOf<T>(column: Call -> Option<T>, writes: seq<Call>): Option<T>
    decreases |writes|
  {
    if writes == [] then None
    else
      match LastOf(column, writes[1..])
      case Some(x) => Some(x)
      case None => column(writes[0])
  }

  function LastOr<T>(column: Call -> Option<T>, writes: seq<Call>, before: T): T {
    match LastOf(column, writes)
    case Some(x) => x
    case None => before
  }

  lemma LastUnfold<T>(column: Call -> Option<T>, call: Call, rest: seq<Call>, before: T)
    ensures LastOr(column, [call] + rest, before) == LastOr(column, rest, LastOr(column, [call], before))
  {
    assert ([call] + rest)[1..] == rest && ([call] + rest)[0] == call;
    LastOfOne(column, call);
  }

  lemma LastOfOne<T>(column: Call -> Option<T>, call: Call)
    ensures LastOf(column, [call]) == column(call)
  {
    assert [call][1..] == [];
    assert LastOf(column, [call][1..]) == None;
  }

  /** Only a claim sets the start time. */
  function StartAssigned(call: Call): Option<Option<Time>> {
    if call.ClaimQueued? then Some(Some(call.at)) else None
  }

  /** Only a checkpoint or a success sets the result. */
  function ResultAssigned(call: Call): Option<Option<ExternalResult>> {
    if call.RecordExternalResult? || call.MarkSucceeded? then Some(Some(call.result)) else None
  }

  /** Every way into a terminal status sets the finishing time, nothing else does. */
  function FinishAssigned(call: Call): Option<Option<Time>> {
    if call.MarkSucceeded? || call.MarkFailed? || call.CancelQueued? || call.FailExhaustedStale?
    then Some(Some(call.at)) else None
  }

  function CancelAssigned(call: Call): Option<Option<Time>> {
    if call.CancelQueued? then Some(Some(call.at)) else None
  }

  /** Every return to the queue sets the queueing time, nothing else does. */
  function QueueingAssigned(call: Call): Option<Time> {
    if call.ReleaseForRetry? || call.ResetOrphanedQueued? || call.RequeueStale? then Some(call.at) else None
  }

  /** The message is attached once and dropped when a new one is needed. */
  function MessageAssigned(call: Call): Option<Option<string>> {
    if call.SetQueueIdentifier? then Some(Some(call.message))
    else if call.ResetOrphanedQueued? || call.RequeueStale? then Some(None)
    else None
  }

  function ErrorAssigned(call: Call): Option<Option<string>> {
    match call
    case ReleaseForRetry(_, _, code, _) => Some(Some(code))
    case MarkFailed(_, _, code, _, _) => Some(Some(code))
    case MarkQueueIdentifierPending(_, _) => Some(Some("queue_message_persistence_pending"))
    case ResetOrphanedQueued(_, _, _) => Some(Some("broker_message_stale"))
    case RequeueStale(_, _) => Some(Some("worker_stale"))
    case FailExhaustedStale(_, _) => Some(Some("retry_exhausted"))
    case SetQueueIdentifier(_, _, _) => Some(None)
    case ClaimQueued(_, _) => Some(None)
    case MarkSucceeded(_, _, _, _) => Some(None)
    case _ => None
  }

  /** The row's columns, apart from those the lifecycle counts, are the last
      values the writes assigned to them. */
  ghost predicate Remembers(before: Job, writes: seq<Call>, after: Job) {
    && after.startedAt == LastOr(StartAssigned, writes, before.startedAt)
    && after.result == LastOr(ResultAssigned, writes, before.result)
    && after.finishedAt == LastOr(FinishAssigned, writes, before.finishedAt)
    && after.cancelledAt == LastOr(CancelAssigned, writes, before.cancelledAt)
    && after.queuedAt == LastOr(QueueingAssigned, writes, before.queuedAt)
    && after.queueMessageId == LastOr(MessageAssigned, writes, before.queueMessageId)
    && after.errorCode == LastOr(ErrorAssigned, writes, before.errorCode)
  }

  lemma WriteRemembered(jobs: Jobs, call: Call, id: JobId)
    requires id in jobs
    ensures id in Apply(jobs, call)
    ensures Fires(jobs, call, id) ==> Remembers(jobs[id], [call], Apply(jobs, call)[id])
    ensures !Fires(jobs, call, id) ==> Apply(jobs, call)[id] == jobs[id]
  {
    LastOfOne(StartAssigned, call);
    LastOfOne(ResultAssigned, call);
    LastOfOne(FinishAssigned, call);
    LastOfOne(CancelAssigned, call);
    LastOfOne(QueueingAssigned, call);
    LastOfOne(MessageAssigned, call);
    LastOfOne(ErrorAssigned, call);
  }

  lemma RememberUnfold(before: Job, call: Call, between: Job, rest: seq<Call>, after: Job)
    requires Remembers(before, [call], between) && Remembers(between, rest, after)
    ensures Remembers(before, [call] + rest, after)
  {
    LastUnfold(StartAssigned, call, rest, before.startedAt);
    LastUnfold(ResultAssigned, call, rest, before.result);
    LastUnfold(FinishAssigned, call, rest, before.finishedAt);
    LastUnfold(CancelAssigned, call, rest, before.cancelledAt);
    LastUnfold(QueueingAssigned, call, rest, before.queuedAt);
    LastUnfold(MessageAssigned, call, rest, before.queueMessageId);
    LastUnfold(ErrorAssigned, call, rest, before.errorCode);
  }

  /** After any run a read of the job returns what its writes last stored. */
  lemma {:induction false} RowRemembersWrites(jobs: Jobs, calls: seq<Call>, id: JobId)
    requires id in jobs
    ensures id in Exec(jobs, calls)
    ensures Remembers(jobs[id], Writes(jobs, calls, id), Exec(jobs, calls)[id])
    decreases |calls|
  {
    if calls != [] {
      var jobs1 := Apply(jobs, calls[0]);
      WriteRemembered(jobs, calls[0], id);
      RowRemembersWrites(jobs1, calls[1..], id);
      WritesUnfold(jobs, calls, id);
      if Fires(jobs, calls[0], id) {
        RememberUnfold(jobs[id], calls[0], jobs1[id], Writes(jobs1, calls[1..], id), Exec(jobs, calls)[id]);
      }
    }
  }

  /** A recorded success is what every later read returns. */
  lemma SuccessIsFinal(jobs: Jobs, success: Call, calls: seq<Call>, id: JobId)
    requires id in jobs && success.MarkSucceeded? && Fires(jobs, success, id) && AllDisciplined(calls)
    ensures id in Exec(Apply(jobs, success), calls)
    ensures
      var job := Exec(Apply(jobs, success), calls)[id];
      && job.status == Succeeded && job.result == Some(success.result)
      && job.finishedAt == Some(success.at) && job.errorCode == None
  {
    TerminalAbsorbs(Apply(jobs, success), calls, id);
  }

  /** A claim stamps its own time. */
  lemma ClaimStampsStart(jobs: Jobs, id: JobId, at: Time)
    requires id in jobs && Fires(jobs, ClaimQueued(id, at), id)
    ensures
      var job := Apply(jobs, ClaimQueued(id, at))[id];
      && job.status == Running && job.startedAt == Some(at)
      && forall staleBefore | staleBefore <= at, sweptAt ::
           Apply(Apply(jobs, ClaimQueued(id, at)), RequeueStale(staleBefore, sweptAt))[id] == job
           && Apply(Apply(jobs, ClaimQueued(id, at)), FailExhaustedStale(staleBefore, sweptAt))[id] == job
  {
  }

  /** Over every run from a job's creation on, one of the stale sweeps takes the
      job exactly if it is running and its last claim came before the limit: the
      requeue while attempts remain, the failure otherwise. */
  lemma SweepsGoByLastClaim(jobs: Jobs, calls: seq<Call>, id: JobId, maxAttempts: nat, queuedAt: Time,
                            staleBefore: Time, at: Time)
    requires id !in jobs
    ensures
      var created := Apply(jobs, Create(id, maxAttempts, queuedAt));
      var later := Exec(created, calls);
      && id in created && id in later
      && var lastClaim := LastOr(StartAssigned, Writes(created, calls, id), None);
         var due := later[id].status == Running && lastClaim.Some? && lastClaim.value < staleBefore;
         && (Fires(later, RequeueStale(staleBefore, at), id) <==> due && later[id].attemptCount < later[id].maxAttempts)
         && (Fires(later, FailExhaustedStale(staleBefore, at), id) <==> due && later[id].attemptCount >= later[id].maxAttempts)
         && (later[id].status == Running ==> lastClaim.Some?)
  {
    var created := Apply(jobs, Create(id, maxAttempts, queuedAt));
    RowRemembersWrites(created, calls, id);
    RunningWasStarted(created, calls, id);
  }

  lemma {:induction false} RunningWasStarted(jobs: Jobs, calls: seq<Call>, id: JobId)
    requires id in jobs && (jobs[id].status == Running ==> jobs[id].startedAt.Some?)
    ensures id in Exec(jobs, calls)
    ensures Exec(jobs, calls)[id].status == Running ==> Exec(jobs, calls)[id].startedAt.Some?
    decreases |calls|
  {
    if calls != [] {
      RunningWasStarted(Apply(jobs, calls[0]), calls[1..], id);
    }
  }

  // -------------------------------------------------------------- progress

  /** Twice the attempts left, plus how far the status is from the end. */
  function Measure(job: Job): int {
    2 * (job.maxAttempts - job.attemptCount)
    + if job.status.Queued? then 1 else if job.status.Running? then 2 else 0
  }

  predicate ChangesStatus(call: Call) {
    !call.Create? && !call.SetQueueIdentifier? && !call.MarkQueueIdentifierPending?
    && !call.ResetOrphanedQueued? && !call.RecordExternalResult?
  }

  function Executions(writes: seq<Call>): nat {
    if writes == [] then 0 else (if ChangesStatus(writes[0]) then 1 else 0) + Executions(writes[1..])
  }

  lemma StepUsesMeasure(jobs: Jobs, call: Call, id: JobId)
    requires id in jobs && Disciplined(call) && WellFormed(jobs[id])
    ensures id in Apply(jobs, call) && WellFormed(Apply(jobs, call)[id])
    ensures Measure(Apply(jobs, call)[id])
            <= Measure(jobs[id]) - if Fires(jobs, call, id) && ChangesStatus(call) then 1 else 0
  {
    StepFollowsLifecycle(jobs, call, id);
  }

  /** Every write that moves the status uses up the measure, so a fresh job sees
      at most `2 * max_attempts + 1` of them in any run. */
  lemma {:induction false} ExecutionsBounded(jobs: Jobs, calls: seq<Call>, id: JobId)
    requires id in jobs && AllDisciplined(calls)
    requires WellFormed(jobs[id])
    ensures id in Exec(jobs, calls) && Measure(Exec(jobs, calls)[id]) >= 0
    ensures Executions(Writes(jobs, calls, id)) <= Measure(jobs[id]) - Measure(Exec(jobs, calls)[id])
    decreases |calls|
  {
    if calls != [] {
      var jobs1 := Apply(jobs, calls[0]);
      var rest := Writes(jobs1, calls[1..], id);
      StepUsesMeasure(jobs, calls[0], id);
      ExecutionsBounded(jobs1, calls[1..], id);
      WritesUnfold(jobs, calls, id);
      assert ([calls[0]] + rest)[1..] == rest;
    }
  }

  /** Queued with no attempt left: no delivery can claim it any more. */
  predicate Stranded(job: Job) {
    job.status == Queued && job.attemptCount >= job.maxAttempts
  }

  /** The worker releases a job for retry only while attempts remain. */
  predicate RetriesLeft(jobs: Jobs, call: Call) {
    call.ReleaseForRetry? && call.jobId in jobs && Fires(jobs, call, call.jobId) ==>
      jobs[call.jobId].attemptCount < jobs[call.jobId].maxAttempts
  }

  /** A call strands a job exactly when it releases the job at its last attempt. */
  lemma StrandedExactly(jobs: Jobs, call: Call, id: JobId)
    requires id in jobs && !Stranded(jobs[id])
    ensures Stranded(Apply(jobs, call)[id]) <==>
              && call.ReleaseForRetry? && call.jobId == id && jobs[id].status == Running
              && call.version == jobs[id].stateVersion && jobs[id].attemptCount >= jobs[id].maxAttempts
  {
  }

  /** The worker decides to retry on the row it remembers.  Whatever happens
      before its call arrives, the call strands nothing: it is fenced, or the row
      is still the remembered one. */
  lemma GuardedRetryNeverStrands(jobs: Jobs, calls: seq<Call>, id: JobId, release: Call)
    requires id in jobs && jobs[id].attemptCount < jobs[id].maxAttempts
    requires release.ReleaseForRetry? && release.jobId == id && release.version == jobs[id].stateVersion
    ensures RetriesLeft(Exec(jobs, calls), release)
  {
    VersionNamesRow(jobs, calls, id);
  }

  /** The worker checkpoints its result in between and then retries with the
      checkpointed row's version, still trusting the attempts of the claimed row:
      that strands nothing either. */
  lemma CheckpointedRetryNeverStrands(jobs: Jobs, between: seq<Call>, checkpoint: Call, later: seq<Call>, id: JobId,
                                      release: Call)
    requires id in jobs && jobs[id].attemptCount < jobs[id].maxAttempts
    requires checkpoint.RecordExternalResult? && checkpoint.jobId == id && checkpoint.version == jobs[id].stateVersion
    requires id in Exec(jobs, between) && Fires(Exec(jobs, between), checkpoint, id)
    requires release.ReleaseForRetry? && release.jobId == id
    requires release.version == Apply(Exec(jobs, between), checkpoint)[id].stateVersion
    ensures RetriesLeft(Exec(Apply(Exec(jobs, between), checkpoint), later), release)
  {
    VersionNamesRow(jobs, between, id);
    GuardedRetryNeverStrands(Apply(Exec(jobs, between), checkpoint), later, id, release);
  }

  ghost predicate AlwaysRetriesLeft(jobs: Jobs, calls: seq<Call>)
    decreases |calls|
  {
    calls == [] || (RetriesLeft(jobs, calls[0]) && AlwaysRetriesLeft(Apply(jobs, calls[0]), calls[1..]))
  }

  /** With retries released only while attempts remain, every queued job stays
      claimable throughout the run. */
  lemma {:induction false} QueuedStaysClaimable(jobs: Jobs, calls: seq<Call>, id: JobId, at: Time)
    requires id in jobs && !Stranded(jobs[id])
    requires AlwaysRetriesLeft(jobs, calls)
    ensures id in Exec(jobs, calls)
    ensures Exec(jobs, calls)[id].status == Queued ==> Fires(Exec(jobs, calls), ClaimQueued(id, at), id)
    decreases |calls|
  {
    if calls != [] {
      StrandedExactly(jobs, calls[0], id);
      QueuedStaysClaimable(Apply(jobs, calls[0]), calls[1..], id, at);
    }
  }

  /** A stranded job is never claimed again in any continuation. */
  lemma {:induction false} StrandedNeverClaimed(jobs: Jobs, calls: seq<Call>, id: JobId)
    requires id in jobs && Stranded(jobs[id]) && AllDisciplined(calls)
    ensures Claims(Writes(jobs, calls, id)) == 0
    ensures id in Exec(jobs, calls)
    ensures Stranded(Exec(jobs, calls)[id]) || Terminal(Exec(jobs, calls)[id].status)
    decreases |calls|
  {
    if calls != [] {
      var jobs1 := Apply(jobs, calls[0]);
      if Terminal(jobs1[id].status) {
        TerminalAbsorbs(jobs1, calls[1..], id);
      } else {
        StrandedNeverClaimed(jobs1, calls[1..], id);
      }
      var rest := Writes(jobs1, calls[1..], id);
      assert ([calls[0]] + rest)[1..] == rest;
    }
  }
}
