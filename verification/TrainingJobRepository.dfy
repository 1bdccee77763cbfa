/** The training-job repository: one table of rows, updated in place. */
module TrainingJobRepository {
  import opened Common
  import opened TrainingJobs

  class TrainingJobRepository {
    var jobs: Jobs

    constructor ()
      ensures jobs == map[]
    {
      jobs := map[];
    }

    /** The row as it is after the call, where the call wrote it. */
    ghost function Returned(before: Jobs, call: Call, id: JobId): Option<Job>
      reads this
    {
      if id in before && Fires(before, call, id) && id in jobs then Some(jobs[id]) else None
    }

    /** `created` is false for the integrity error of a key in use. */
    method Create(jobId: JobId, maxAttempts: nat, queuedAt: Time) returns (created: bool)
      modifies this
      ensures jobs == Apply(old(jobs), TrainingJobs.Create(jobId, maxAttempts, queuedAt))
      ensures created <==> jobId !in old(jobs)
      ensures created ==> jobs == old(jobs)[jobId := Job(Queued, 0, maxAttempts, 0, queuedAt, None, None, None, None, None, None)]
    {
      created := jobId !in jobs;
      if created {
        jobs := jobs[jobId := Job(Queued, 0, maxAttempts, 0, queuedAt, None, None, None, None, None, None)];
      }
    }

    /** `UPDATE ... WHERE id AND status [AND state_version]`, with the new values
        and the version moved on. */
    method ConditionalUpdate(jobId: JobId, expectedStatus: JobStatus, expectedVersion: Option<nat>, values: Job -> Job)
      returns (row: Option<Job>)
      modifies this
      ensures
        var hit := jobId in old(jobs) && old(jobs)[jobId].status == expectedStatus
                   && (expectedVersion.Some? ==> old(jobs)[jobId].stateVersion == expectedVersion.value);
        if hit then
          && jobs == old(jobs)[jobId := values(old(jobs)[jobId]).(stateVersion := old(jobs)[jobId].stateVersion + 1)]
          && row == Some(jobs[jobId])
        else
          jobs == old(jobs) && row == None
    {
      row := None;
      if jobId in jobs {
        var job := jobs[jobId];
        if job.status == expectedStatus && (expectedVersion.None? || job.stateVersion == expectedVersion.value) {
          jobs := jobs[jobId := values(job).(stateVersion := job.stateVersion + 1)];
          row := Some(jobs[jobId]);
        }
      }
    }

    /** `aborted` is the integrity error of a message identifier in use elsewhere. */
    method SetQueueIdentifier(jobId: JobId, message: string, version: nat)
      returns (row: Option<Job>, aborted: bool)
      modifies this
      ensures row.Some? <==> && jobId in old(jobs) && old(jobs)[jobId].status == Queued && old(jobs)[jobId].queueMessageId.None?
                             && old(jobs)[jobId].stateVersion == version && !MessageTaken(old(jobs), jobId, message)
      ensures row.Some? ==> row.value == old(jobs)[jobId].(queueMessageId := Some(message), errorCode := None,
                                                           stateVersion := old(jobs)[jobId].stateVersion + 1)
      ensures jobs == if row.Some? then old(jobs)[jobId := row.value] else old(jobs)
      ensures jobs == Apply(old(jobs), TrainingJobs.SetQueueIdentifier(jobId, message, version))
      ensures row == Returned(old(jobs), TrainingJobs.SetQueueIdentifier(jobId, message, version), jobId)
      ensures aborted <==> && jobId in old(jobs) && MessageTaken(old(jobs), jobId, message)
                           && old(jobs)[jobId].status == Queued && old(jobs)[jobId].queueMessageId.None?
                           && old(jobs)[jobId].stateVersion == version
    {
      row, aborted := None, false;
      if jobId in jobs {
        var job := jobs[jobId];
        if job.status == Queued && job.queueMessageId.None? && job.stateVersion == version {
          if exists other | other in jobs :: other != jobId && jobs[other].queueMessageId == Some(message) {
            aborted := true;
          } else {
            jobs := jobs[jobId := job.(queueMessageId := Some(message), errorCode := None, stateVersion := version + 1)];
            row := Some(jobs[jobId]);
          }
        }
      }
    }

    method MarkQueueIdentifierPending(jobId: JobId, version: nat) returns (row: Option<Job>)
      modifies this
      ensures row.Some? <==> && jobId in old(jobs) && old(jobs)[jobId].status == Queued && old(jobs)[jobId].stateVersion == version
      ensures row.Some? ==> row.value == old(jobs)[jobId].(errorCode := Some("queue_message_persistence_pending"),
                                                           stateVersion := old(jobs)[jobId].stateVersion + 1)
      ensures jobs == if row.Some? then old(jobs)[jobId := row.value] else old(jobs)
      ensures jobs == Apply(old(jobs), TrainingJobs.MarkQueueIdentifierPending(jobId, version))
      ensures row == Returned(old(jobs), TrainingJobs.MarkQueueIdentifierPending(jobId, version), jobId)
    {
      row := ConditionalUpdate(jobId, Queued, Some(version),
                               (job: Job) => job.(errorCode := Some("queue_message_persistence_pending")));
    }

    method ClaimQueued(jobId: JobId, startedAt: Time) returns (row: Option<Job>)
      modifies this
      ensures row.Some? <==> && jobId in old(jobs) && old(jobs)[jobId].status == Queued
                             && old(jobs)[jobId].attemptCount < old(jobs)[jobId].maxAttempts
      ensures row.Some? ==> row.value == old(jobs)[jobId].(status := Running, startedAt := Some(startedAt), errorCode := None,
                                                           attemptCount := old(jobs)[jobId].attemptCount + 1,
                                                           stateVersion := old(jobs)[jobId].stateVersion + 1)
      ensures jobs == if row.Some? then old(jobs)[jobId := row.value] else old(jobs)
      ensures jobs == Apply(old(jobs), TrainingJobs.ClaimQueued(jobId, startedAt))
      ensures row == Returned(old(jobs), TrainingJobs.ClaimQueued(jobId, startedAt), jobId)
    {
      row := None;
      if jobId in jobs {
        var job := jobs[jobId];
        if job.status == Queued && job.attemptCount < job.maxAttempts {
          job := job.(status := Running, startedAt := Some(startedAt), errorCode := None);
          job := job.(attemptCount := job.attemptCount + 1, stateVersion := job.stateVersion + 1);
          jobs := jobs[jobId := job];
          row := Some(job);
        }
      }
    }

    method ReleaseForRetry(jobId: JobId, version: nat, errorCode: string, queuedAt: Time) returns (row: Option<Job>)
      modifies this
      ensures row.Some? <==> && jobId in old(jobs) && old(jobs)[jobId].status == Running && old(jobs)[jobId].stateVersion == version
      ensures row.Some? ==> row.value == old(jobs)[jobId].(status := Queued, queuedAt := queuedAt, errorCode := Some(errorCode),
                                                           stateVersion := old(jobs)[jobId].stateVersion + 1)
      ensures jobs == if row.Some? then old(jobs)[jobId := row.value] else old(jobs)
      ensures jobs == Apply(old(jobs), TrainingJobs.ReleaseForRetry(jobId, version, errorCode, queuedAt))
      ensures row == Returned(old(jobs), TrainingJobs.ReleaseForRetry(jobId, version, errorCode, queuedAt), jobId)
    {
      row := ConditionalUpdate(jobId, Running, Some(version),
                               (job: Job) => job.(status := Queued, queuedAt := queuedAt, errorCode := Some(errorCode)));
    }

    method RecordExternalResult(jobId: JobId, version: nat, result: ExternalResult) returns (row: Option<Job>)
      modifies this
      ensures row.Some? <==> && jobId in old(jobs) && old(jobs)[jobId].status == Running && old(jobs)[jobId].stateVersion == version
      ensures row.Some? ==> row.value == old(jobs)[jobId].(result := Some(result),
                                                           stateVersion := old(jobs)[jobId].stateVersion + 1)
      ensures jobs == if row.Some? then old(jobs)[jobId := row.value] else old(jobs)
      ensures jobs == Apply(old(jobs), TrainingJobs.RecordExternalResult(jobId, version, result))
      ensures row == Returned(old(jobs), TrainingJobs.RecordExternalResult(jobId, version, result), jobId)
    {
      row := ConditionalUpdate(jobId, Running, Some(version), (job: Job) => job.(result := Some(result)));
    }

    method MarkSucceeded(jobId: JobId, version: nat, finishedAt: Time, result: ExternalResult)
      returns (row: Option<Job>)
      modifies this
      ensures row.Some? <==> && jobId in old(jobs) && old(jobs)[jobId].status == Running && old(jobs)[jobId].stateVersion == version
      ensures row.Some? ==> row.value == old(jobs)[jobId].(status := Succeeded, finishedAt := Some(finishedAt), result := Some(result),
                                                           errorCode := None,
                                                           stateVersion := old(jobs)[jobId].stateVersion + 1)
      ensures jobs == if row.Some? then old(jobs)[jobId := row.value] else old(jobs)
      ensures jobs == Apply(old(jobs), TrainingJobs.MarkSucceeded(jobId, version, finishedAt, result))
      ensures row == Returned(old(jobs), TrainingJobs.MarkSucceeded(jobId, version, finishedAt, result), jobId)
    {
      row := ConditionalUpdate(jobId, Running, Some(version),
                               (job: Job) => job.(status := Succeeded, finishedAt := Some(finishedAt),
                                           result := Some(result), errorCode := None));
    }

    method MarkFailed(jobId: JobId, expectedStatus: JobStatus, errorCode: string, finishedAt: Time, version: Option<nat>)
      returns (row: Option<Job>)
      modifies this
      ensures row.Some? <==> && jobId in old(jobs) && old(jobs)[jobId].status == expectedStatus
                             && (version.None? || old(jobs)[jobId].stateVersion == version.value)
      ensures row.Some? ==> row.value == old(jobs)[jobId].(status := Failed, finishedAt := Some(finishedAt), errorCode := Some(errorCode),
                                                           stateVersion := old(jobs)[jobId].stateVersion + 1)
      ensures jobs == if row.Some? then old(jobs)[jobId := row.value] else old(jobs)
      ensures jobs == Apply(old(jobs), TrainingJobs.MarkFailed(jobId, expectedStatus, errorCode, finishedAt, version))
      ensures row == Returned(old(jobs),
                              TrainingJobs.MarkFailed(jobId, expectedStatus, errorCode, finishedAt, version), jobId)
    {
      row := ConditionalUpdate(jobId, expectedStatus, version,
                               (job: Job) => job.(status := Failed, finishedAt := Some(finishedAt),
                                           errorCode := Some(errorCode)));
    }

    method CancelQueued(jobId: JobId, cancelledAt: Time) returns (row: Option<Job>)
      modifies this
      ensures row.Some? <==> && jobId in old(jobs) && old(jobs)[jobId].status == Queued
      ensures row.Some? ==> row.value == old(jobs)[jobId].(status := Cancelled, cancelledAt := Some(cancelledAt),
                                                           finishedAt := Some(cancelledAt),
                                                           stateVersion := old(jobs)[jobId].stateVersion + 1)
      ensures jobs == if row.Some? then old(jobs)[jobId := row.value] else old(jobs)
      ensures jobs == Apply(old(jobs), TrainingJobs.CancelQueued(jobId, cancelledAt))
      ensures row == Returned(old(jobs), TrainingJobs.CancelQueued(jobId, cancelledAt), jobId)
    {
      row := ConditionalUpdate(jobId, Queued, None,
                               (job: Job) => job.(status := Cancelled, cancelledAt := Some(cancelledAt),
                                           finishedAt := Some(cancelledAt)));
    }

    method ResetOrphanedQueued(jobId: JobId, version: nat, queuedAt: Time) returns (row: Option<Job>)
      modifies this
      ensures row.Some? <==> && jobId in old(jobs) && old(jobs)[jobId].status == Queued && old(jobs)[jobId].stateVersion == version
      ensures row.Some? ==> row.value == old(jobs)[jobId].(queuedAt := queuedAt, queueMessageId := None,
                                                           errorCode := Some("broker_message_stale"),
                                                           stateVersion := old(jobs)[jobId].stateVersion + 1)
      ensures jobs == if row.Some? then old(jobs)[jobId := row.value] else old(jobs)
      ensures jobs == Apply(old(jobs), TrainingJobs.ResetOrphanedQueued(jobId, version, queuedAt))
      ensures row == Returned(old(jobs), TrainingJobs.ResetOrphanedQueued(jobId, version, queuedAt), jobId)
    {
      row := ConditionalUpdate(jobId, Queued, Some(version),
                               (job: Job) => job.(queuedAt := queuedAt, queueMessageId := None,
                                           errorCode := Some("broker_message_stale")));
    }

    method RequeueStale(staleBefore: Time, queuedAt: Time) returns (ids: set<JobId>)
      modifies this
      ensures forall id :: id in ids <==> && id in old(jobs) && old(jobs)[id].status == Running
                                          && old(jobs)[id].startedAt.Some? && old(jobs)[id].startedAt.value < staleBefore
                                          && old(jobs)[id].attemptCount < old(jobs)[id].maxAttempts
      ensures jobs.Keys == old(jobs).Keys && forall id | id in jobs && id !in ids :: jobs[id] == old(jobs)[id]
      ensures forall id | id in ids ::
                jobs[id] == old(jobs)[id].(status := Queued, queuedAt := queuedAt, queueMessageId := None,
                                           errorCode := Some("worker_stale"),
                                           stateVersion := old(jobs)[id].stateVersion + 1)
      ensures jobs == Apply(old(jobs), TrainingJobs.RequeueStale(staleBefore, queuedAt))
      ensures ids == set id | id in old(jobs) && Fires(old(jobs), TrainingJobs.RequeueStale(staleBefore, queuedAt), id)
    {
      ids := set id | id in jobs && Stale(jobs[id], staleBefore) && jobs[id].attemptCount < jobs[id].maxAttempts;
      jobs := map id | id in jobs ::
        if id in ids
        then jobs[id].(status := Queued, queuedAt := queuedAt, queueMessageId := None,
                       errorCode := Some("worker_stale"), stateVersion := jobs[id].stateVersion + 1)
        else jobs[id];
    }

    method FailExhaustedStale(staleBefore: Time, finishedAt: Time) returns (ids: set<JobId>)
      modifies this
      ensures forall id :: id in ids <==> && id in old(jobs) && old(jobs)[id].status == Running
                                          && old(jobs)[id].startedAt.Some? && old(jobs)[id].startedAt.value < staleBefore
                                          && old(jobs)[id].attemptCount >= old(jobs)[id].maxAttempts
      ensures jobs.Keys == old(jobs).Keys && forall id | id in jobs && id !in ids :: jobs[id] == old(jobs)[id]
      ensures forall id | id in ids ::
                jobs[id] == old(jobs)[id].(status := Failed, finishedAt := Some(finishedAt), errorCode := Some("retry_exhausted"),
                                           stateVersion := old(jobs)[id].stateVersion + 1)
      ensures jobs == Apply(old(jobs), TrainingJobs.FailExhaustedStale(staleBefore, finishedAt))
      ensures ids
              == set id | id in old(jobs) && Fires(old(jobs), TrainingJobs.FailExhaustedStale(staleBefore, finishedAt), id)
    {
      ids := set id | id in jobs && Stale(jobs[id], staleBefore) && jobs[id].attemptCount >= jobs[id].maxAttempts;
      jobs := map id | id in jobs ::
        if id in ids
        then jobs[id].(status := Failed, finishedAt := Some(finishedAt),
                       errorCode := Some("retry_exhausted"), stateVersion := jobs[id].stateVersion + 1)
        else jobs[id];
    }
  }
}
