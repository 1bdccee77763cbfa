/** The repository itself: its tables are updated in place, one transaction per method. */
module AutoMLRepository {
  import opened Common
  import opened AutoMLModel

  /** What `claim_trial_and_slot` gives back; `Aborted` is the integrity error. */
  datatype ClaimResult = Refused | Aborted | Granted(trial: Trial, slotNumber: nat, slot: Slot)

  class AutoMLRepository {
    var studies: map<StudyId, Study>
    var trials: map<TrialId, Trial>
    var slots: map<nat, Slot>

    ghost function Rows(): Db
      reads this
    {
      Db(studies, trials, slots)
    }

    constructor ()
      ensures Rows() == Db(map[], map[], map[])
    {
      studies, trials, slots := map[], map[], map[];
    }

    method ClaimTrialAndSlot(trialId: TrialId, now: Time, leaseExpiresAt: Time, locked: set<nat>)
      returns (result: ClaimResult)
      modifies this
      ensures result.Granted? ==>
                && trialId in old(trials) && result.slotNumber in old(slots) && studies == old(studies)
                && trials == old(trials)[trialId := old(trials)[trialId].(
                               status := Running, startedAt := Some(now), leaseExpiresAt := Some(leaseExpiresAt),
                               attemptCount := old(trials)[trialId].attemptCount + 1,
                               stateVersion := old(trials)[trialId].stateVersion + 1)]
                && slots == old(slots)[result.slotNumber := Slot(Some(trialId), Some(leaseExpiresAt),
                                                                 old(slots)[result.slotNumber].stateVersion + 1)]
      ensures !result.Granted? ==> Rows() == old(Rows())
      ensures Rows() == AutoMLModel.ClaimTrialAndSlot(old(Rows()), trialId, now, leaseExpiresAt, locked)
      ensures result == match DecideClaim(old(Rows()), trialId, now, locked)
                        case NotClaimed => Refused
                        case UniqueViolation => Aborted
                        case Claimed(n) => Granted(Rows().trials[trialId], n, Rows().slots[n])
    {
      ghost var db := Rows();
      if trialId !in trials { return Refused; }
      var trial := trials[trialId];
      if trial.status != Queued || trial.attemptCount >= trial.maxAttempts { return Refused; }
      if trial.studyId !in studies { return Refused; }
      var study := studies[trial.studyId];
      if study.status != StudyRunning || study.cancelRequestedAt.Some? { return Refused; }
      if study.deadlineAt.Some? && study.deadlineAt.value <= now { return Refused; }
      var active := set t | t in trials && trials[t].studyId == trial.studyId && Live(trials[t], now);
      assert active == ActiveTrials(db, trial.studyId, now);
      if |active| >= study.maxConcurrentTrials { return Refused; }
      var claimable := set n | n in slots && n !in locked
                               && (slots[n].trialId.None? || LeaseExpired(slots[n].leaseExpiresAt, now));
      assert claimable == ClaimableSlots(db, now, locked);
      if claimable == {} { return Refused; }
      var slotNumber := FirstSlot(claimable);
      if exists m | m in slots :: m != slotNumber && slots[m].trialId == Some(trialId) {
        return Aborted;
      }
      slots := slots[slotNumber := slots[slotNumber].(trialId := Some(trialId),
                                                      leaseExpiresAt := Some(leaseExpiresAt),
                                                      stateVersion := slots[slotNumber].stateVersion + 1)];
      trials := trials[trialId := trial.(status := Running,
                                         startedAt := Some(now),
                                         leaseExpiresAt := Some(leaseExpiresAt),
                                         attemptCount := trial.attemptCount + 1,
                                         stateVersion := trial.stateVersion + 1)];
      return Granted(trials[trialId], slotNumber, slots[slotNumber]);
    }

    method ReleaseSlot(slotNumber: nat, trialId: TrialId, expectedVersion: nat) returns (released: bool)
      modifies this`slots
      ensures released <==> && slotNumber in old(slots) && old(slots)[slotNumber].trialId == Some(trialId)
                            && old(slots)[slotNumber].stateVersion == expectedVersion
      ensures slots == if released then old(slots)[slotNumber := Slot(None, None, expectedVersion + 1)] else old(slots)
      ensures Rows() == AutoMLModel.ReleaseSlot(old(Rows()), slotNumber, trialId, expectedVersion)
      ensures released == MayRelease(old(Rows()), slotNumber, trialId, expectedVersion)
    {
      released := && slotNumber in slots
                  && slots[slotNumber].trialId == Some(trialId)
                  && slots[slotNumber].stateVersion == expectedVersion;
      if released {
        slots := slots[slotNumber := Slot(None, None, expectedVersion + 1)];
      }
    }

    method ReclaimExpiredSlots(now: Time) returns (count: nat)
      modifies this`slots
      ensures slots.Keys == old(slots).Keys && forall n | n in slots ::
                var slot := old(slots)[n];
                slots[n] == if slot.trialId.Some? && slot.leaseExpiresAt.Some? && slot.leaseExpiresAt.value <= now
                            then Slot(None, None, slot.stateVersion + 1) else slot
      ensures Rows() == AutoMLModel.ReclaimExpiredSlots(old(Rows()), now)
      ensures count == |set n | n in old(slots) && Reclaimable(old(slots)[n], now)|
    {
      var due := set n | n in slots && Reclaimable(slots[n], now);
      slots := map n | n in slots :: if n in due then Slot(None, None, slots[n].stateVersion + 1) else slots[n];
      count := |due|;
    }

    method ReleaseExpiredTrials(now: Time) returns (count: nat)
      modifies this`trials
      ensures trials.Keys == old(trials).Keys && forall t | t in trials ::
                var trial := old(trials)[t];
                trials[t] == if && trial.status == Running && trial.leaseExpiresAt.Some? && trial.leaseExpiresAt.value <= now
                                && trial.attemptCount < trial.maxAttempts
                             then trial.(status := Queued, leaseExpiresAt := None, queueMessageId := None,
                                         errorCode := Some("expired_lease_recovered"),
                                         stateVersion := trial.stateVersion + 1)
                             else trial
      ensures Rows() == AutoMLModel.ReleaseExpiredTrials(old(Rows()), now)
      ensures count == |set t | t in old(trials) && RequeueIfExpired(old(trials)[t], now) != old(trials)[t]|
    {
      var due := set t | t in trials && Expired(trials[t], now) && trials[t].attemptCount < trials[t].maxAttempts;
      assert due == set t | t in old(trials) && RequeueIfExpired(old(trials)[t], now) != old(trials)[t];
      trials := map t | t in trials :: if t in due then RequeuedTrial(trials[t]) else trials[t];
      count := |due|;
    }

    method FailExhaustedExpiredTrials(now: Time) returns (count: nat)
      modifies this`trials
      ensures trials.Keys == old(trials).Keys && forall t | t in trials ::
                var trial := old(trials)[t];
                trials[t] == if && trial.status == Running && trial.leaseExpiresAt.Some? && trial.leaseExpiresAt.value <= now
                                && trial.attemptCount >= trial.maxAttempts
                             then trial.(status := Failed, leaseExpiresAt := None, finishedAt := Some(now),
                                         errorCode := Some("retry_exhausted"), stateVersion := trial.stateVersion + 1)
                             else trial
      ensures Rows() == AutoMLModel.FailExhaustedExpiredTrials(old(Rows()), now)
      ensures count == |set t | t in old(trials) && FailIfExhausted(old(trials)[t], now) != old(trials)[t]|
    {
      var due := set t | t in trials && Expired(trials[t], now) && trials[t].attemptCount >= trials[t].maxAttempts;
      assert due == set t | t in old(trials) && FailIfExhausted(old(trials)[t], now) != old(trials)[t];
      trials := map t | t in trials :: if t in due then ExhaustedTrial(trials[t], now) else trials[t];
      count := |due|;
    }

    method ConditionallyTransitionTrial(trialId: TrialId, expectedStatus: TrialStatus, expectedVersion: nat,
                                        newStatus: TrialStatus, values: TrialValues)
      returns (row: Option<Trial>)
      modifies this`trials
      ensures row.Some? <==> && trialId in old(trials) && old(trials)[trialId].status == expectedStatus
                             && old(trials)[trialId].stateVersion == expectedVersion
      ensures row.Some? ==> row.value == old(trials)[trialId].(status := newStatus,
                                                                leaseExpiresAt := Assign(values.leaseExpiresAt, old(trials)[trialId].leaseExpiresAt),
                                                                finishedAt := Assign(values.finishedAt, old(trials)[trialId].finishedAt),
                                                                cancelledAt := Assign(values.cancelledAt, old(trials)[trialId].cancelledAt),
                                                                queueMessageId := Assign(values.queueMessageId, old(trials)[trialId].queueMessageId),
                                                                errorCode := Assign(values.errorCode, old(trials)[trialId].errorCode),
                                                                stateVersion := old(trials)[trialId].stateVersion + 1)
      ensures trials == if row.Some? then old(trials)[trialId := row.value] else old(trials)
      ensures Rows() == TransitionTrial(old(Rows()), trialId, expectedStatus, expectedVersion, newStatus, values)
      ensures row == if MayTransitionTrial(old(Rows()), trialId, expectedStatus, expectedVersion)
                     then Some(Rows().trials[trialId]) else None
    {
      row := None;
      if trialId in trials {
        var trial := trials[trialId];
        if trial.status == expectedStatus && trial.stateVersion == expectedVersion {
          trials := trials[trialId := TransitionedTrial(trial, newStatus, values)];
          row := Some(trials[trialId]);
        }
      }
    }

    method UpdateTrialMetrics(trialId: TrialId, expectedVersion: nat, metrics: TrialMetrics)
      returns (row: Option<Trial>)
      modifies this`trials
      ensures row.Some? <==> && trialId in old(trials) && old(trials)[trialId].stateVersion == expectedVersion
      ensures row.Some? ==> row.value == old(trials)[trialId].(metrics := Some(metrics),
                                                                stateVersion := old(trials)[trialId].stateVersion + 1)
      ensures trials == if row.Some? then old(trials)[trialId := row.value] else old(trials)
      ensures Rows() == AutoMLModel.UpdateTrialMetrics(old(Rows()), trialId, expectedVersion, metrics)
      ensures row == if TrialVersionIs(old(Rows()), trialId, expectedVersion)
                     then Some(Rows().trials[trialId]) else None
    {
      row := None;
      if trialId in trials && trials[trialId].stateVersion == expectedVersion {
        trials := trials[trialId := trials[trialId].(metrics := Some(metrics), stateVersion := expectedVersion + 1)];
        row := Some(trials[trialId]);
      }
    }

    method UpdateTrialError(trialId: TrialId, expectedVersion: nat, errorCode: string)
      returns (row: Option<Trial>)
      modifies this`trials
      ensures row.Some? <==> && trialId in old(trials) && old(trials)[trialId].stateVersion == expectedVersion
      ensures row.Some? ==> row.value == old(trials)[trialId].(errorCode := Some(errorCode),
                                                                stateVersion := old(trials)[trialId].stateVersion + 1)
      ensures trials == if row.Some? then old(trials)[trialId := row.value] else old(trials)
      ensures Rows() == AutoMLModel.UpdateTrialError(old(Rows()), trialId, expectedVersion, errorCode)
      ensures row == if TrialVersionIs(old(Rows()), trialId, expectedVersion)
                     then Some(Rows().trials[trialId]) else None
    {
      row := None;
      if trialId in trials && trials[trialId].stateVersion == expectedVersion {
        trials := trials[trialId := trials[trialId].(errorCode := Some(errorCode),
                                                     stateVersion := expectedVersion + 1)];
        row := Some(trials[trialId]);
      }
    }

    method SetTrialQueueIdentifier(trialId: TrialId, queueMessageId: string, expectedVersion: nat)
      returns (row: Option<Trial>)
      modifies this`trials
      ensures row.Some? <==> && trialId in old(trials) && old(trials)[trialId].status == Queued
                             && old(trials)[trialId].stateVersion == expectedVersion
      ensures row.Some? ==> row.value == old(trials)[trialId].(queueMessageId := Some(queueMessageId),
                                                                stateVersion := old(trials)[trialId].stateVersion + 1)
      ensures trials == if row.Some? then old(trials)[trialId := row.value] else old(trials)
      ensures Rows() == AutoMLModel.SetTrialQueueIdentifier(old(Rows()), trialId, queueMessageId, expectedVersion)
      ensures row == if MayTransitionTrial(old(Rows()), trialId, Queued, expectedVersion)
                     then Some(Rows().trials[trialId]) else None
    {
      row := None;
      if trialId in trials && trials[trialId].status == Queued && trials[trialId].stateVersion == expectedVersion {
        trials := trials[trialId := trials[trialId].(queueMessageId := Some(queueMessageId),
                                                     stateVersion := expectedVersion + 1)];
        row := Some(trials[trialId]);
      }
    }

    method MarkQueuedTrialsCancelled(studyId: StudyId, cancelledAt: Time) returns (count: nat)
      modifies this`trials
      ensures trials.Keys == old(trials).Keys && forall t | t in trials ::
                var trial := old(trials)[t];
                trials[t] == if trial.studyId == studyId && trial.status == Queued
                             then trial.(status := Cancelled, cancelledAt := Some(cancelledAt),
                                         finishedAt := Some(cancelledAt), stateVersion := trial.stateVersion + 1)
                             else trial
      ensures Rows() == AutoMLModel.MarkQueuedTrialsCancelled(old(Rows()), studyId, cancelledAt)
      ensures count == |set t | t in old(trials) && old(trials)[t].studyId == studyId && old(trials)[t].status == Queued|
    {
      var due := set t | t in trials && trials[t].studyId == studyId && trials[t].status == Queued;
      trials := map t | t in trials :: if t in due then CancelledTrial(trials[t], cancelledAt) else trials[t];
      count := |due|;
    }

    method ConditionallyTransitionStudy(studyId: StudyId, expectedStatus: StudyStatus, expectedVersion: nat,
                                        newStatus: StudyStatus, values: StudyValues)
      returns (row: Option<Study>)
      modifies this`studies
      ensures row.Some? <==> && studyId in old(studies) && old(studies)[studyId].status == expectedStatus
                             && old(studies)[studyId].stateVersion == expectedVersion
      ensures row.Some? ==> row.value == old(studies)[studyId].(
                              status := newStatus, stateVersion := old(studies)[studyId].stateVersion + 1,
                              startedAt := Assign(values.startedAt, old(studies)[studyId].startedAt),
                              deadlineAt := Assign(values.deadlineAt, old(studies)[studyId].deadlineAt),
                              finishedAt := Assign(values.finishedAt, old(studies)[studyId].finishedAt),
                              cancelRequestedAt := Assign(values.cancelRequestedAt, old(studies)[studyId].cancelRequestedAt))
      ensures studies == if row.Some? then old(studies)[studyId := row.value] else old(studies)
      ensures Rows() == TransitionStudy(old(Rows()), studyId, expectedStatus, expectedVersion, newStatus, values)
      ensures row == if MayTransitionStudy(old(Rows()), studyId, expectedStatus, expectedVersion)
                     then Some(Rows().studies[studyId]) else None
    {
      row := None;
      if studyId in studies {
        var study := studies[studyId];
        if study.status == expectedStatus && study.stateVersion == expectedVersion {
          study := study.(status := newStatus, stateVersion := expectedVersion + 1);
          study := study.(startedAt := Assign(values.startedAt, study.startedAt));
          study := study.(deadlineAt := Assign(values.deadlineAt, study.deadlineAt));
          study := study.(finishedAt := Assign(values.finishedAt, study.finishedAt));
          study := study.(cancelRequestedAt := Assign(values.cancelRequestedAt, study.cancelRequestedAt));
          studies := studies[studyId := study];
          row := Some(study);
        }
      }
    }

    method RequestStudyCancellation(studyId: StudyId, expectedVersion: nat, requestedAt: Time)
      returns (row: Option<Study>)
      modifies this`studies
      ensures row.Some? <==> && studyId in old(studies) && old(studies)[studyId].status == StudyRunning
                             && old(studies)[studyId].stateVersion == expectedVersion && old(studies)[studyId].cancelRequestedAt.None?
      ensures row.Some? ==> row.value == old(studies)[studyId].(cancelRequestedAt := Some(requestedAt),
                                                                stateVersion := old(studies)[studyId].stateVersion + 1)
      ensures studies == if row.Some? then old(studies)[studyId := row.value] else old(studies)
      ensures Rows() == AutoMLModel.RequestStudyCancellation(old(Rows()), studyId, expectedVersion, requestedAt)
    {
      row := None;
      if studyId in studies {
        var study := studies[studyId];
        if study.status == StudyRunning && study.stateVersion == expectedVersion && study.cancelRequestedAt.None? {
          study := study.(cancelRequestedAt := Some(requestedAt), stateVersion := expectedVersion + 1);
          studies := studies[studyId := study];
          row := Some(study);
        }
      }
    }

    /** Adds one empty slot per missing number and disturbs no existing lease. */
    method InitializeSlots(count: nat)
      modifies this`slots
      ensures forall n: nat :: n in slots <==> n in old(slots) || 1 <= n <= count
      ensures forall n | n in slots :: slots[n] == if n in old(slots) then old(slots)[n] else Slot(None, None, 0)
      ensures Rows() == AutoMLModel.InitializeSlots(old(Rows()), count)
    {
      ghost var before := slots;
      var existing := slots.Keys;
      var number := 1;
      while number <= count
        invariant 1 <= number <= count + 1
        invariant slots == AllSlots(before, number - 1)
      {
        NextSlot(before, number);
        if number !in existing {
          slots := slots[number := Slot(None, None, 0)];
        }
        number := number + 1;
      }
    }
  }

  lemma NextSlot(slots: map<nat, Slot>, number: nat)
    requires number > 0
    ensures AllSlots(slots, number)
            == if number in slots then AllSlots(slots, number - 1) else AllSlots(slots, number - 1)[number := EMPTY_SLOT]
  {
  }

  /** The first row in slot order. */
  method FirstSlot(claimable: set<nat>) returns (slotNumber: nat)
    requires claimable != {}
    ensures slotNumber == Least(claimable)
  {
    LeastExists(claimable);
    assert exists n :: n in claimable && forall m | m in claimable :: n <= m by {
      var n :| IsLeast(n, claimable);
      assert n in claimable;
    }
    slotNumber :| slotNumber in claimable && forall m | m in claimable :: slotNumber <= m;
  }
}
