/**
 What a claim grants and how long it lasts, and what a cancellation request
 stops: the promises that start from the call itself.
 */
module AutoMLLeases {
  import opened Common
  import opened AutoMLModel
  import opened AutoMLProtocol
  import opened AutoMLSafety
  import opened AutoMLTheorems

  // ------------------------------------------------------------ the grant

  /** The slot is free or its lease is over. */
  predicate Free(slot: Slot, now: Time) {
    slot.trialId.None? || (slot.leaseExpiresAt.Some? && slot.leaseExpiresAt.value <= now)
  }

  /** The trials of a study that hold an unexpired lease. */
  function Holders(db: Db, studyId: StudyId, now: Time): set<TrialId> {
    set t | t in db.trials && db.trials[t].studyId == studyId && db.trials[t].status == Running
            && db.trials[t].leaseExpiresAt.Some? && now < db.trials[t].leaseExpiresAt.value
  }

  /** Exactly when a claim is granted, and which slot it takes. */
  lemma GrantedExactly(db: Db, t: TrialId, now: Time, locked: set<nat>, n: nat)
    ensures DecideClaim(db, t, now, locked) == Claimed(n) <==>
              && t in db.trials && db.trials[t].status == Queued
              && db.trials[t].attemptCount < db.trials[t].maxAttempts
              && db.trials[t].studyId in db.studies
              && (var study := db.studies[db.trials[t].studyId];
                  && study.status == StudyRunning && study.cancelRequestedAt == None
                  && (study.deadlineAt.Some? ==> now < study.deadlineAt.value)
                  && |Holders(db, db.trials[t].studyId, now)| < study.maxConcurrentTrials)
              && n in db.slots && n !in locked && Free(db.slots[n], now)
              && (forall m | m in db.slots && m !in locked && Free(db.slots[m], now) :: n <= m)
              && (forall m | m in db.slots && db.slots[m].trialId == Some(t) :: m == n)
  {
    if t in db.trials {
      assert Holders(db, db.trials[t].studyId, now) == ActiveTrials(db, db.trials[t].studyId, now);
    }
    var claimable := ClaimableSlots(db, now, locked);
    assert forall m :: m in claimable <==> m in db.slots && m !in locked && Free(db.slots[m], now);
    if claimable != {} {
      assert IsLeast(Least(claimable), claimable);
    }
  }

  /** A granted claim gives the trial and its slot the very lease that was asked
      for; the trial is live until then, and nobody else can take the slot. */
  lemma ClaimGrantsLease(db: Db, t: TrialId, now: Time, leaseExpiresAt: Time, locked: set<nat>, n: nat)
    requires DecideClaim(db, t, now, locked) == Claimed(n)
    ensures
      var db' := ClaimTrialAndSlot(db, t, now, leaseExpiresAt, locked);
      && t in db'.trials && n in db'.slots && db'.studies == db.studies
      && db'.trials[t].status == Running && db'.trials[t].startedAt == Some(now)
      && db'.trials[t].leaseExpiresAt == Some(leaseExpiresAt)
      && db'.trials[t].attemptCount == db.trials[t].attemptCount + 1
      && db'.slots[n].trialId == Some(t) && db'.slots[n].leaseExpiresAt == Some(leaseExpiresAt)
      && (forall other | other in db.trials && other != t ::
            other in db'.trials && db'.trials[other] == db.trials[other])
      && (forall m | m in db.slots && m != n :: m in db'.slots && db'.slots[m] == db.slots[m])
      && (forall time: Time | time < leaseExpiresAt ::
            t in Holders(db', db.trials[t].studyId, time)
            && !Free(db'.slots[n], time))
  {
  }

  // ------------------------------------------------------------- the lease

  /** Trial `t` still runs on attempt `attempt`, that is, without having left
      RUNNING since that attempt began. */
  predicate StillRuns(db: Db, t: TrialId, attempt: nat) {
    t in db.trials && db.trials[t].status == Running && db.trials[t].attemptCount == attempt
  }

  /** As long as that is so, the slot row is the one that was granted. */
  ghost predicate Holds(db: Db, t: TrialId, attempt: nat, n: nat, granted: Slot) {
    && t in db.trials && db.trials[t].attemptCount >= attempt
    && (StillRuns(db, t, attempt) ==>
          n in db.slots && db.slots[n] == granted && db.trials[t].leaseExpiresAt == granted.leaseExpiresAt)
  }

  lemma StepHolds(s: System, step: Step, t: TrialId, attempt: nat, n: nat, granted: Slot)
    requires Inv(s) && Allowed(s, step) && Holds(s.db, t, attempt, n, granted)
    requires granted.trialId == Some(t) && granted.leaseExpiresAt.Some?
    requires Apply(s, step).clock < granted.leaseExpiresAt.value
    ensures Holds(Apply(s, step).db, t, attempt, n, granted)
  {
    StepAttempts(s, step, t);
    var db, db' := s.db, Apply(s, step).db;
    if StillRuns(db', t, attempt) {
      if step.Claim? {
        ClaimLeavesHeld(s, step, t, n);
      } else {
        OnlyClaimsStart(s, step);
        assert Unstarted(db.trials[t], db'.trials[t]);
        RunningKeepsLease(s, step, t);
        OtherLeaveHeld(s, step, n);
      }
    }
  }

  lemma ClaimLeavesHeld(s: System, step: Step, t: TrialId, n: nat)
    requires step.Claim? && Allowed(s, step)
    requires t in s.db.trials && n in s.db.slots && s.db.trials[t].status == Running
    requires s.db.slots[n].trialId == Some(t) && s.db.slots[n].leaseExpiresAt.Some?
    requires s.clock < s.db.slots[n].leaseExpiresAt.value
    ensures t in Apply(s, step).db.trials && Apply(s, step).db.trials[t] == s.db.trials[t]
    ensures n in Apply(s, step).db.slots && Apply(s, step).db.slots[n] == s.db.slots[n]
  {
    assert n !in ClaimableSlots(s.db, step.now, step.locked);
  }

  lemma RunningKeepsLease(s: System, step: Step, t: TrialId)
    requires !step.Claim? && Allowed(s, step) && t in s.db.trials
    ensures t in Apply(s, step).db.trials
    ensures Apply(s, step).db.trials[t].status == Running ==>
              Apply(s, step).db.trials[t].leaseExpiresAt == s.db.trials[t].leaseExpiresAt
  {
  }

  lemma OtherLeaveHeld(s: System, step: Step, n: nat)
    requires Inv(s) && !step.Claim? && Allowed(s, step)
    requires n in s.db.slots && s.db.slots[n].trialId.Some? && s.db.slots[n].trialId.value in s.db.trials
    requires s.db.trials[s.db.slots[n].trialId.value].status == Running
    requires s.db.slots[n].leaseExpiresAt.Some? && s.clock < s.db.slots[n].leaseExpiresAt.value
    ensures n in Apply(s, step).db.slots && Apply(s, step).db.slots[n] == s.db.slots[n]
  {
    SlotsOnlyFreed(s, step);
  }

  lemma {:induction false} RunHolds(s: System, steps: seq<Step>, t: TrialId, attempt: nat, n: nat, granted: Slot)
    requires Inv(s) && Legal(s, steps) && Holds(s.db, t, attempt, n, granted)
    requires granted.trialId == Some(t) && granted.leaseExpiresAt.Some?
    requires Exec(s, steps).clock < granted.leaseExpiresAt.value
    ensures Holds(Exec(s, steps).db, t, attempt, n, granted)
    decreases |steps|
  {
    if steps != [] {
      var s1 := Apply(s, steps[0]);
      ClockAdvances(s1, steps[1..]);
      StepKeepsInv(s, steps[0]);
      StepHolds(s, steps[0], t, attempt, n, granted);
      RunHolds(s1, steps[1..], t, attempt, n, granted);
    }
  }

  lemma {:induction false} ClockAdvances(s: System, steps: seq<Step>)
    requires Legal(s, steps)
    ensures s.clock <= Exec(s, steps).clock
    decreases |steps|
  {
    if steps != [] {
      ClockAdvances(Apply(s, steps[0]), steps[1..]);
    }
  }

  /**
   A lease is good for its whole time.  Whatever happens after a granted claim,
   until the asked time the slot row stays exactly as granted, with that trial and
   that expiry, and no claim can take it, as long as the trial has not left RUNNING.
   */
  lemma LeaseHolds(s: System, claim: Step, later: seq<Step>, n: nat)
    requires Inv(s) && claim.Claim? && Legal(s, [claim] + later)
    requires DecideClaim(s.db, claim.trialId, claim.now, claim.locked) == Claimed(n)
    requires Exec(s, [claim] + later).clock < claim.leaseExpiresAt
    ensures
      var t, final := claim.trialId, Exec(s, [claim] + later);
      && t in final.db.trials
      && (StillRuns(final.db, t, s.db.trials[t].attemptCount + 1) ==>
            && final.db.trials[t].leaseExpiresAt == Some(claim.leaseExpiresAt)
            && n in final.db.slots
            && final.db.slots[n] == Slot(Some(t), Some(claim.leaseExpiresAt), s.db.slots[n].stateVersion + 1)
            && forall now: Time, other, locked | now <= final.clock ::
                 DecideClaim(final.db, other, now, locked) != Claimed(n))
  {
    var t, s1 := claim.trialId, Apply(s, claim);
    assert ([claim] + later)[1..] == later;
    ClaimGrantsLease(s.db, t, claim.now, claim.leaseExpiresAt, claim.locked, n);
    var granted := Slot(Some(t), Some(claim.leaseExpiresAt), s.db.slots[n].stateVersion + 1);
    StepKeepsInv(s, claim);
    RunHolds(s1, later, t, s.db.trials[t].attemptCount + 1, n, granted);
    var final := Exec(s1, later);
    if StillRuns(final.db, t, s.db.trials[t].attemptCount + 1) {
      forall now: Time, other, locked | now <= final.clock ensures DecideClaim(final.db, other, now, locked) != Claimed(n) {
        GrantedExactly(final.db, other, now, locked, n);
      }
    }
  }

  /** A released or reclaimed slot is free for the next claim at any time. */
  lemma FreedSlotsClaimable(db: Db, n: nat, t: TrialId, version: nat, now: Time, time: Time)
    ensures MayRelease(db, n, t, version) ==> n in ClaimableSlots(ReleaseSlot(db, n, t, version), time, {})
    ensures n in db.slots && Free(db.slots[n], now) ==> n in ClaimableSlots(ReclaimExpiredSlots(db, now), time, {})
    ensures n in db.slots && !Free(db.slots[n], now) ==>
              n in ReclaimExpiredSlots(db, now).slots && ReclaimExpiredSlots(db, now).slots[n] == db.slots[n]
  {
  }

  // --------------------------------------------------------- cancellation

  /** A request that meets a running study without an earlier one is recorded
      with its time, whatever version bookkeeping surrounds it. */
  lemma RequestRecorded(db: Db, studyId: StudyId, version: nat, at: Time)
    requires studyId in db.studies
    ensures
      var study, db' := db.studies[studyId], RequestStudyCancellation(db, studyId, version, at);
      && studyId in db'.studies && db'.trials == db.trials && db'.slots == db.slots
      && (if study.status == StudyRunning && study.stateVersion == version && study.cancelRequestedAt == None
          then db'.studies[studyId].cancelRequestedAt == Some(at) && db'.studies[studyId].stateVersion == version + 1
          else db' == db)
  {
  }

  /** From the call on: once a cancellation request has met its running study, no
      trial of the study is started in any continuation, be it there already or
      created later, and the request stays on record. */
  lemma RequestStopsStudy(s: System, request: Step, later: seq<Step>, t: TrialId)
    requires request.RequestCancellation? && Legal(s, [request] + later)
    requires request.studyId in s.db.studies
    requires
      var study := s.db.studies[request.studyId];
      study.status == StudyRunning && study.stateVersion == request.expectedVersion && study.cancelRequestedAt == None
    requires var final := Exec(s, [request] + later);
             t in final.db.trials && final.db.trials[t].studyId == request.studyId
    ensures StartsOf(s, [request] + later, t) == 0
    ensures
      var final := Exec(s, [request] + later);
      request.studyId in final.db.studies && final.db.studies[request.studyId].cancelRequestedAt.Some?
  {
    assert ([request] + later)[1..] == later;
    var s1 := Apply(s, request);
    RequestRecorded(s.db, request.studyId, request.expectedVersion, request.at);
    CancelledStudyStartsNothing(s1, later, request.studyId, t);
    RunEvolves(s1, later);
    assert StudyEvolves(s1.db.studies[request.studyId], Exec(s1, later).db.studies[request.studyId]);
  }

  /** Nothing of a study that is over is started any more. */
  lemma {:induction false} FinishedStudyStartsNothing(s: System, steps: seq<Step>, studyId: StudyId, t: TrialId)
    requires Legal(s, steps) && studyId in s.db.studies && StudyTerminal(s.db.studies[studyId].status)
    requires t in Exec(s, steps).db.trials && Exec(s, steps).db.trials[t].studyId == studyId
    ensures StartsOf(s, steps, t) == 0
    decreases |steps|
  {
    if steps != [] {
      var s1 := Apply(s, steps[0]);
      StepEvolves(s, steps[0]);
      RunEvolves(s, steps);
      if t in s.db.trials {
        assert TrialEvolves(s.db.trials[t], Exec(s, steps).db.trials[t]);
      }
      assert StudyEvolves(s.db.studies[studyId], s1.db.studies[studyId]);
      FinishedStudyStartsNothing(s1, steps[1..], studyId, t);
    }
  }
}
