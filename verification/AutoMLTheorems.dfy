/** The promises of the AutoML lease protocol, over every run. */
module AutoMLTheorems {
  import opened Common
  import opened AutoMLModel
  import opened AutoMLProtocol
  import opened AutoMLSafety

  // --------------------------------------------- mutual exclusion of leases

  function AllLive(db: Db, clock: Time): set<TrialId> {
    set t | t in db.trials && Live(db.trials[t], clock)
  }

  /** Distinct live trials sit in distinct slots. */
  lemma LiveAtMostSlots(db: Db, clock: Time)
    requires LiveTrialsBacked(db, clock)
    ensures |AllLive(db, clock)| <= |db.slots|
  {
    var holder := (n: nat) => if n in db.slots then db.slots[n].trialId else None;
    var live := set t | t in AllLive(db, clock) :: Some(t);
    forall x | x in live ensures exists n :: n in db.slots.Keys && holder(n) == x {
      var n :| n in db.slots && Backs(db.slots[n], x.value, db.trials[x.value]);
      assert holder(n) == x;
    }
    CoveredSize(live, db.slots.Keys, holder);
    var unwrap := (x: Option<TrialId>) => if x.Some? then x.value else 0;
    forall t | t in AllLive(db, clock) ensures exists x :: x in live && unwrap(x) == t {
      assert Some(t) in live && unwrap(Some(t)) == t;
    }
    CoveredSize(AllLive(db, clock), live, unwrap);
  }

  /** In every reachable state a live trial is backed by exactly one slot, with
      the same expiry; live trials never outnumber slots, nor, within a study,
      its concurrency limit. */
  lemma LeaseSafety(s: System, steps: seq<Step>)
    requires Initial(s) && Legal(s, steps)
    ensures
      var db, clock := Exec(s, steps).db, Exec(s, steps).clock;
      && (forall t | t in db.trials && Live(db.trials[t], clock) ::
            exists n :: n in db.slots && Backs(db.slots[n], t, db.trials[t])
                        && forall m | m in db.slots && db.slots[m].trialId == Some(t) :: m == n)
      && |AllLive(db, clock)| <= |db.slots|
      && forall studyId | studyId in db.studies ::
           |ActiveTrials(db, studyId, clock)| <= db.studies[studyId].maxConcurrentTrials
  {
    assert Inv(s);
    RunKeepsInv(s, steps);
    LiveAtMostSlots(Exec(s, steps).db, Exec(s, steps).clock);
    var db, clock := Exec(s, steps).db, Exec(s, steps).clock;
    forall t | t in db.trials && Live(db.trials[t], clock)
      ensures exists n :: n in db.slots && Backs(db.slots[n], t, db.trials[t])
                          && forall m | m in db.slots && db.slots[m].trialId == Some(t) :: m == n
    {
      var n :| n in db.slots && Backs(db.slots[n], t, db.trials[t]);
    }
  }

  // ------------------------------------------------------------- fencing

  lemma {:induction false} RunEvolves(s: System, steps: seq<Step>)
    requires Legal(s, steps)
    ensures TrialsEvolve(s.db, Exec(s, steps).db)
    ensures SlotsEvolve(s.db, Exec(s, steps).db)
    ensures StudiesEvolve(s.db, Exec(s, steps).db)
    decreases |steps|
  {
    if steps != [] {
      var s1 := Apply(s, steps[0]);
      StepEvolves(s, steps[0]);
      RunEvolves(s1, steps[1..]);
      var s2 := Exec(s, steps);
      forall t | t in s.db.trials ensures t in s2.db.trials && TrialEvolves(s.db.trials[t], s2.db.trials[t]) {
        assert TrialEvolves(s.db.trials[t], s1.db.trials[t]) && TrialEvolves(s1.db.trials[t], s2.db.trials[t]);
      }
      forall n | n in s.db.slots ensures n in s2.db.slots && SlotEvolves(s.db.slots[n], s2.db.slots[n]) {
        assert SlotEvolves(s.db.slots[n], s1.db.slots[n]) && SlotEvolves(s1.db.slots[n], s2.db.slots[n]);
      }
      forall i | i in s.db.studies ensures i in s2.db.studies && StudyEvolves(s.db.studies[i], s2.db.studies[i]) {
        assert StudyEvolves(s.db.studies[i], s1.db.studies[i]) && StudyEvolves(s1.db.studies[i], s2.db.studies[i]);
      }
    }
  }

  /** A row version names the row's contents: at two moments of a run with the
      same version the row is the same, however often it changed in between. */
  lemma VersionNamesRow(s: System, steps: seq<Step>)
    requires Legal(s, steps)
    ensures
      var db, db' := s.db, Exec(s, steps).db;
      && (forall t | t in db.trials :: t in db'.trials
            && db.trials[t].stateVersion <= db'.trials[t].stateVersion
            && (db.trials[t].stateVersion == db'.trials[t].stateVersion ==> db.trials[t] == db'.trials[t]))
      && (forall n | n in db.slots :: n in db'.slots
            && db.slots[n].stateVersion <= db'.slots[n].stateVersion
            && (db.slots[n].stateVersion == db'.slots[n].stateVersion ==> db.slots[n] == db'.slots[n]))
      && (forall i | i in db.studies :: i in db'.studies
            && db.studies[i].stateVersion <= db'.studies[i].stateVersion
            && (db.studies[i].stateVersion == db'.studies[i].stateVersion ==> db.studies[i] == db'.studies[i]))
  {
    RunEvolves(s, steps);
    var db, db' := s.db, Exec(s, steps).db;
    forall t | t in db.trials
      ensures t in db'.trials && db.trials[t].stateVersion <= db'.trials[t].stateVersion
              && (db.trials[t].stateVersion == db'.trials[t].stateVersion ==> db.trials[t] == db'.trials[t])
    {
      assert TrialEvolves(db.trials[t], db'.trials[t]);
    }
    forall n | n in db.slots
      ensures n in db'.slots && db.slots[n].stateVersion <= db'.slots[n].stateVersion
              && (db.slots[n].stateVersion == db'.slots[n].stateVersion ==> db.slots[n] == db'.slots[n])
    {
      assert SlotEvolves(db.slots[n], db'.slots[n]);
    }
    forall i | i in db.studies
      ensures i in db'.studies && db.studies[i].stateVersion <= db'.studies[i].stateVersion
              && (db.studies[i].stateVersion == db'.studies[i].stateVersion ==> db.studies[i] == db'.studies[i])
    {
      assert StudyEvolves(db.studies[i], db'.studies[i]);
    }
  }

  /** No call carrying this trial version changes anything. */
  ghost predicate TrialCallsInert(db: Db, trialId: TrialId, version: nat) {
    && (forall expected, newStatus, values ::
          TransitionTrial(db, trialId, expected, version, newStatus, values) == db)
    && (forall metrics :: UpdateTrialMetrics(db, trialId, version, metrics) == db)
    && (forall errorCode :: UpdateTrialError(db, trialId, version, errorCode) == db)
    && (forall message :: SetTrialQueueIdentifier(db, trialId, message, version) == db)
  }

  /**
   Fencing, including the case where the same trial comes back into the same
   slot: once any step has changed the handle's trial row (requeued, failed,
   cancelled or claimed again), no later call with the remembered version has
   an effect; likewise for its slot row and `release_slot`.
   */
  lemma Fencing(s: System, step: Step, later: seq<Step>, h: Handle)
    requires HandleKnown(s.db, h)
    requires Legal(s, [step] + later)
    ensures
      var db := Exec(s, [step] + later).db;
      && (Apply(s, step).db.trials[h.trialId] != s.db.trials[h.trialId] ==>
            TrialCallsInert(db, h.trialId, h.trialVersion))
      && (Apply(s, step).db.slots[h.slotNumber] != s.db.slots[h.slotNumber] ==>
            ReleaseSlot(db, h.slotNumber, h.trialId, h.slotVersion) == db)
  {
    var s1 := Apply(s, step);
    assert ([step] + later)[1..] == later;
    StepEvolves(s, step);
    VersionNamesRow(s1, later);
    assert TrialEvolves(s.db.trials[h.trialId], s1.db.trials[h.trialId]);
    assert SlotEvolves(s.db.slots[h.slotNumber], s1.db.slots[h.slotNumber]);
  }

  // ------------------------------------------------------------ attempts

  ghost predicate Starts(s: System, step: Step, trialId: TrialId) {
    step.Claim? && step.trialId == trialId && DecideClaim(s.db, trialId, step.now, step.locked).Claimed?
  }

  /** How often a run starts this trial. */
  ghost function StartsOf(s: System, steps: seq<Step>, trialId: TrialId): nat
    decreases |steps|
  {
    if steps == [] then 0
    else (if Starts(s, steps[0], trialId) then 1 else 0) + StartsOf(Apply(s, steps[0]), steps[1..], trialId)
  }

  ghost function AllStarts(s: System, steps: seq<Step>): nat
    decreases |steps|
  {
    if steps == [] then 0
    else
      (if steps[0].Claim? && Starts(s, steps[0], steps[0].trialId) then 1 else 0)
      + AllStarts(Apply(s, steps[0]), steps[1..])
  }

  function Attempts(db: Db): map<nat, nat> {
    map t | t in db.trials :: db.trials[t].attemptCount
  }

  function AttemptLimits(db: Db): map<nat, nat> {
    map t | t in db.trials :: db.trials[t].maxAttempts
  }

  lemma StepAttempts(s: System, step: Step, t: TrialId)
    requires Allowed(s, step) && t in s.db.trials
    ensures t in Apply(s, step).db.trials
    ensures Apply(s, step).db.trials[t].maxAttempts == s.db.trials[t].maxAttempts
    ensures Apply(s, step).db.trials[t].attemptCount
            == s.db.trials[t].attemptCount + if Starts(s, step, t) then 1 else 0
  {
    StepEvolves(s, step);
    assert TrialEvolves(s.db.trials[t], Apply(s, step).db.trials[t]);
    if !step.Claim? {
      assert Unstarted(s.db.trials[t], Apply(s, step).db.trials[t]);
    }
  }

  /** The attempt counter is exactly the number of starts. */
  lemma {:induction false} AttemptsCountStarts(s: System, steps: seq<Step>, t: TrialId)
    requires Inv(s) && Legal(s, steps) && t in s.db.trials
    ensures t in Exec(s, steps).db.trials
    ensures Exec(s, steps).db.trials[t].attemptCount == s.db.trials[t].attemptCount + StartsOf(s, steps, t)
    ensures s.db.trials[t].attemptCount + StartsOf(s, steps, t) <= s.db.trials[t].maxAttempts
    decreases |steps|
  {
    if steps != [] {
      StepAttempts(s, steps[0], t);
      StepKeepsInv(s, steps[0]);
      AttemptsCountStarts(Apply(s, steps[0]), steps[1..], t);
    }
  }

  lemma GrantCounts(db: Db, t: TrialId, now: Time, leaseExpiresAt: Time, locked: set<nat>)
    requires DecideClaim(db, t, now, locked).Claimed?
    ensures Total(Attempts(AutoMLModel.ClaimTrialAndSlot(db, t, now, leaseExpiresAt, locked))) == Total(Attempts(db)) + 1
  {
    var before := Attempts(db);
    assert Attempts(AutoMLModel.ClaimTrialAndSlot(db, t, now, leaseExpiresAt, locked)) == before[t := before[t] + 1];
    TotalUpdate(before, t, before[t] + 1);
  }

  lemma NewTrialsUnstarted(s: System, step: Step, t: TrialId)
    requires t !in s.db.trials && t in Apply(s, step).db.trials && Allowed(s, step)
    ensures Apply(s, step).db.trials[t].attemptCount == 0
  {
  }

  lemma StepCountsStarts(s: System, step: Step)
    requires Allowed(s, step)
    ensures Total(Attempts(Apply(s, step).db))
            == Total(Attempts(s.db)) + if step.Claim? && Starts(s, step, step.trialId) then 1 else 0
  {
    if step.Claim? && Starts(s, step, step.trialId) {
      GrantCounts(s.db, step.trialId, step.now, step.leaseExpiresAt, step.locked);
    } else {
      var before, after := Attempts(s.db), Attempts(Apply(s, step).db);
      forall t | t in before ensures t in after && after[t] == before[t] {
        StepAttempts(s, step, t);
      }
      forall t | t in after && t !in before ensures after[t] == 0 {
        NewTrialsUnstarted(s, step, t);
      }
      TotalZeroExtension(before, after);
    }
  }

  lemma {:induction false} RunCountsStarts(s: System, steps: seq<Step>)
    requires Legal(s, steps)
    ensures Total(Attempts(Exec(s, steps).db)) == Total(Attempts(s.db)) + AllStarts(s, steps)
    decreases |steps|
  {
    if steps != [] {
      StepCountsStarts(s, steps[0]);
      RunCountsStarts(Apply(s, steps[0]), steps[1..]);
    }
  }

  /** A run from the empty database starts trials exactly as often as the attempt
      counters say, so no more often than all attempt limits allow together. */
  lemma StartsBounded(s: System, steps: seq<Step>)
    requires Initial(s) && Legal(s, steps)
    ensures AllStarts(s, steps) == Total(Attempts(Exec(s, steps).db))
    ensures AllStarts(s, steps) <= Total(AttemptLimits(Exec(s, steps).db))
  {
    assert Inv(s);
    RunKeepsInv(s, steps);
    RunCountsStarts(s, steps);
    assert Attempts(s.db) == map[];
    TotalMonotone(Attempts(Exec(s, steps).db), AttemptLimits(Exec(s, steps).db));
  }

  // -------------------------------------------------------------- sweeps

  /** What both sweeps at `now` make of a row. */
  predicate Settled(before: Trial, after: Trial, now: Time) {
    if Expired(before, now)
    then after.status == if before.attemptCount < before.maxAttempts then Queued else Failed
    else after == before
  }

  lemma SweepRow(trial: Trial, now: Time, now': Time)
    ensures RequeueIfExpired(trial, now) == trial || FailIfExhausted(trial, now') == trial
    ensures FailIfExhausted(RequeueIfExpired(trial, now), now') == RequeueIfExpired(FailIfExhausted(trial, now'), now)
    ensures Settled(trial, FailIfExhausted(RequeueIfExpired(trial, now), now), now)
  {
  }

  /** The two expiry sweeps touch disjoint rows, commute even when run with
      different clocks, and together leave no expired RUNNING trial. */
  lemma SweepsPartition(db: Db, now: Time, now': Time)
    ensures forall t | t in db.trials ::
              ReleaseExpiredTrials(db, now).trials[t] == db.trials[t]
              || FailExhaustedExpiredTrials(db, now').trials[t] == db.trials[t]
    ensures FailExhaustedExpiredTrials(ReleaseExpiredTrials(db, now), now')
            == ReleaseExpiredTrials(FailExhaustedExpiredTrials(db, now'), now)
    ensures forall t | t in db.trials ::
              Settled(db.trials[t], FailExhaustedExpiredTrials(ReleaseExpiredTrials(db, now), now).trials[t], now)
  {
    forall t | t in db.trials
      ensures ReleaseExpiredTrials(db, now).trials[t] == db.trials[t]
              || FailExhaustedExpiredTrials(db, now').trials[t] == db.trials[t]
      ensures Settled(db.trials[t], FailExhaustedExpiredTrials(ReleaseExpiredTrials(db, now), now).trials[t], now)
    {
      SweepRow(db.trials[t], now, now');
    }
    SweepsCommute(db, now, now');
  }

  lemma SweepsCommute(db: Db, now: Time, now': Time)
    ensures FailExhaustedExpiredTrials(ReleaseExpiredTrials(db, now), now')
            == ReleaseExpiredTrials(FailExhaustedExpiredTrials(db, now'), now)
  {
    var a := FailExhaustedExpiredTrials(ReleaseExpiredTrials(db, now), now').trials;
    var b := ReleaseExpiredTrials(FailExhaustedExpiredTrials(db, now'), now).trials;
    forall t | t in db.trials ensures a[t] == b[t] {
      SweepRow(db.trials[t], now, now');
    }
    assert a == b;
  }

  // ---------------------------------------------------------- cancellation

  /** After a cancellation request no trial of the study is started again, in
      any continuation, whatever the sweeps requeue. */
  lemma {:induction false} CancellationFinal(s: System, steps: seq<Step>, t: TrialId)
    requires Legal(s, steps) && t in s.db.trials
    requires s.db.trials[t].studyId in s.db.studies
    requires s.db.studies[s.db.trials[t].studyId].cancelRequestedAt.Some?
    ensures StartsOf(s, steps, t) == 0
    decreases |steps|
  {
    if steps != [] {
      var s1 := Apply(s, steps[0]);
      StepEvolves(s, steps[0]);
      assert TrialEvolves(s.db.trials[t], s1.db.trials[t]);
      assert StudyEvolves(s.db.studies[s.db.trials[t].studyId], s1.db.studies[s.db.trials[t].studyId]);
      CancellationFinal(s1, steps[1..], t);
    }
  }

  /** Trials created for a cancelled study never start either. */
  lemma {:induction false} CancelledStudyStartsNothing(s: System, steps: seq<Step>, studyId: StudyId, t: TrialId)
    requires Legal(s, steps)
    requires studyId in s.db.studies && s.db.studies[studyId].cancelRequestedAt.Some?
    requires t in Exec(s, steps).db.trials && Exec(s, steps).db.trials[t].studyId == studyId
    ensures StartsOf(s, steps, t) == 0
    decreases |steps|
  {
    if t in s.db.trials {
      RunEvolves(s, steps);
      assert TrialEvolves(s.db.trials[t], Exec(s, steps).db.trials[t]);
      CancellationFinal(s, steps, t);
    } else if steps != [] {
      var s1 := Apply(s, steps[0]);
      StepEvolves(s, steps[0]);
      assert StudyEvolves(s.db.studies[studyId], s1.db.studies[studyId]);
      CancelledStudyStartsNothing(s1, steps[1..], studyId, t);
    }
  }

  /** A trial that reached a terminal status keeps it and never starts again. */
  lemma {:induction false} TerminalTrialsStay(s: System, steps: seq<Step>, t: TrialId)
    requires Legal(s, steps) && t in s.db.trials && TrialTerminal(s.db.trials[t].status)
    ensures t in Exec(s, steps).db.trials && Exec(s, steps).db.trials[t].status == s.db.trials[t].status
    ensures StartsOf(s, steps, t) == 0
    decreases |steps|
  {
    if steps != [] {
      StepEvolves(s, steps[0]);
      assert TrialEvolves(s.db.trials[t], Apply(s, steps[0]).db.trials[t]);
      TerminalTrialsStay(Apply(s, steps[0]), steps[1..], t);
    }
  }
}
