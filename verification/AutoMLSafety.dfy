/** What every run of the AutoML lease protocol keeps. */
module AutoMLSafety {
  import opened Common
  import opened AutoMLModel
  import opened AutoMLProtocol

  /** The slot carries this trial under the very lease the trial has. */
  predicate Backs(slot: Slot, trialId: TrialId, trial: Trial) {
    slot.trialId == Some(trialId) && slot.leaseExpiresAt == trial.leaseExpiresAt
  }

  ghost predicate OneSlotPerTrial(db: Db) {
    forall m, n | m in db.slots && n in db.slots && db.slots[m].trialId.Some?
                  && db.slots[m].trialId == db.slots[n].trialId :: m == n
  }

  ghost predicate LiveTrialsBacked(db: Db, clock: Time) {
    forall t | t in db.trials && Live(db.trials[t], clock) ::
      exists n :: n in db.slots && Backs(db.slots[n], t, db.trials[t])
  }

  ghost predicate StudiesWithinLimit(db: Db, clock: Time) {
    forall studyId | studyId in db.studies ::
      |ActiveTrials(db, studyId, clock)| <= db.studies[studyId].maxConcurrentTrials
  }

  ghost predicate TrialsWellFormed(db: Db) {
    forall t | t in db.trials ::
      db.trials[t].studyId in db.studies && db.trials[t].attemptCount <= db.trials[t].maxAttempts
  }

  /** A handle never remembers a version from the future. */
  predicate HandleKnown(db: Db, h: Handle) {
    && h.trialId in db.trials
    && h.trialVersion <= db.trials[h.trialId].stateVersion
    && h.slotNumber in db.slots
    && h.slotVersion <= db.slots[h.slotNumber].stateVersion
  }

  /** While the slot version is unchanged the slot still carries the trial. */
  predicate HandleFaithful(db: Db, h: Handle)
    requires HandleKnown(db, h)
  {
    h.slotVersion == db.slots[h.slotNumber].stateVersion ==>
      && db.slots[h.slotNumber].trialId == Some(h.trialId)
      && (h.finished ==> db.trials[h.trialId].status != Running)
  }

  ghost predicate HandlesFaithful(s: System) {
    forall h | h in s.handles :: HandleKnown(s.db, h) && HandleFaithful(s.db, h)
  }

  ghost predicate Inv(s: System) {
    && OneSlotPerTrial(s.db)
    && LiveTrialsBacked(s.db, s.clock)
    && StudiesWithinLimit(s.db, s.clock)
    && TrialsWellFormed(s.db)
    && HandlesFaithful(s)
  }

  // ------------------------------------------------ how rows may change

  /** Every write moves the version on; identity, limits and terminal statuses stay. */
  predicate TrialEvolves(before: Trial, after: Trial) {
    before == after
    || (&& before.stateVersion < after.stateVersion
        && after.studyId == before.studyId
        && after.maxAttempts == before.maxAttempts
        && (TrialTerminal(before.status) ==> after.status == before.status))
  }

  /** The trial was not started, nor its lease prolonged. */
  predicate Unstarted(before: Trial, after: Trial) {
    && after.attemptCount == before.attemptCount
    && (after.status == Running ==> before.status == Running)
    && (after.status == Running && after.leaseExpiresAt.Some? ==> after.leaseExpiresAt == before.leaseExpiresAt)
  }

  predicate SlotEvolves(before: Slot, after: Slot) {
    before == after || before.stateVersion < after.stateVersion
  }

  predicate StudyEvolves(before: Study, after: Study) {
    before == after
    || (&& before.stateVersion < after.stateVersion
        && after.maxConcurrentTrials == before.maxConcurrentTrials
        && (before.cancelRequestedAt.Some? ==> after.cancelRequestedAt.Some?)
        && (StudyTerminal(before.status) ==> after.status == before.status))
  }

  ghost predicate TrialsEvolve(before: Db, after: Db) {
    forall t | t in before.trials :: t in after.trials && TrialEvolves(before.trials[t], after.trials[t])
  }

  ghost predicate SlotsEvolve(before: Db, after: Db) {
    forall n | n in before.slots :: n in after.slots && SlotEvolves(before.slots[n], after.slots[n])
  }

  ghost predicate StudiesEvolve(before: Db, after: Db) {
    forall i | i in before.studies :: i in after.studies && StudyEvolves(before.studies[i], after.studies[i])
  }

  ghost predicate NothingStarted(before: Db, after: Db) {
    && (forall t | t in before.trials && t in after.trials :: Unstarted(before.trials[t], after.trials[t]))
    && (forall t | t in after.trials && t !in before.trials :: NewTrial(after.trials[t]) && after.trials[t].studyId in before.studies)
  }

  lemma StepEvolvesTrials(s: System, step: Step)
    requires Allowed(s, step)
    ensures TrialsEvolve(s.db, Apply(s, step).db)
  {
  }

  lemma StepEvolvesSlots(s: System, step: Step)
    requires Allowed(s, step)
    ensures SlotsEvolve(s.db, Apply(s, step).db)
  {
  }

  lemma StepEvolvesStudies(s: System, step: Step)
    requires Allowed(s, step)
    ensures StudiesEvolve(s.db, Apply(s, step).db)
  {
  }

  lemma OnlyClaimsStart(s: System, step: Step)
    requires Allowed(s, step) && !step.Claim?
    ensures NothingStarted(s.db, Apply(s, step).db)
  {
  }

  lemma StepEvolves(s: System, step: Step)
    requires Allowed(s, step)
    ensures TrialsEvolve(s.db, Apply(s, step).db)
    ensures SlotsEvolve(s.db, Apply(s, step).db)
    ensures StudiesEvolve(s.db, Apply(s, step).db)
    ensures !step.Claim? ==> NothingStarted(s.db, Apply(s, step).db)
  {
    StepEvolvesTrials(s, step);
    StepEvolvesSlots(s, step);
    StepEvolvesStudies(s, step);
    if !step.Claim? {
      OnlyClaimsStart(s, step);
    }
  }

  // ------------------------------------------------------- single steps

  lemma ClaimKeepsSlots(s: System, step: Step)
    requires Inv(s) && step.Claim? && Allowed(s, step)
    ensures OneSlotPerTrial(Apply(s, step).db)
    ensures LiveTrialsBacked(Apply(s, step).db, s.clock)
  {
    var db, db' := s.db, Apply(s, step).db;
    match DecideClaim(db, step.trialId, step.now, step.locked)
    case NotClaimed =>
    case UniqueViolation =>
    case Claimed(n) =>
      forall t | t in db'.trials && Live(db'.trials[t], s.clock)
        ensures exists m :: m in db'.slots && Backs(db'.slots[m], t, db'.trials[t])
      {
        if t == step.trialId {
          assert Backs(db'.slots[n], t, db'.trials[t]);
        } else {
          var m :| m in db.slots && Backs(db.slots[m], t, db.trials[t]);
          assert m != n;
          assert Backs(db'.slots[m], t, db'.trials[t]);
        }
      }
  }

  /** A lagging clock only sees more live trials. */
  lemma ActiveAntitone(db: Db, studyId: StudyId, earlier: Time, later: Time)
    requires earlier <= later
    ensures |ActiveTrials(db, studyId, later)| <= |ActiveTrials(db, studyId, earlier)|
  {
    SubsetSize(ActiveTrials(db, studyId, later), ActiveTrials(db, studyId, earlier));
  }

  lemma GrantAddsOne(db: Db, trialId: TrialId, now: Time, leaseExpiresAt: Time, locked: set<nat>,
                     studyId: StudyId, clock: Time)
    requires DecideClaim(db, trialId, now, locked).Claimed?
    ensures
      var db' := ClaimTrialAndSlot(db, trialId, now, leaseExpiresAt, locked);
      |ActiveTrials(db', studyId, clock)|
      <= |ActiveTrials(db, studyId, clock)| + if studyId == db.trials[trialId].studyId then 1 else 0
  {
    var db' := ClaimTrialAndSlot(db, trialId, now, leaseExpiresAt, locked);
    var before := ActiveTrials(db, studyId, clock);
    if studyId == db.trials[trialId].studyId {
      SubsetSize(ActiveTrials(db', studyId, clock), before + {trialId});
    } else {
      SubsetSize(ActiveTrials(db', studyId, clock), before);
    }
  }

  lemma ClaimKeepsLimit(s: System, step: Step)
    requires Inv(s) && step.Claim? && Allowed(s, step)
    ensures StudiesWithinLimit(Apply(s, step).db, s.clock)
  {
    if DecideClaim(s.db, step.trialId, step.now, step.locked).Claimed? {
      var db' := Apply(s, step).db;
      forall studyId | studyId in db'.studies
        ensures |ActiveTrials(db', studyId, s.clock)| <= db'.studies[studyId].maxConcurrentTrials
      {
        ActiveAntitone(s.db, studyId, step.now, s.clock);
        GrantAddsOne(s.db, step.trialId, step.now, step.leaseExpiresAt, step.locked, studyId, s.clock);
      }
    }
  }

  lemma ClaimKeepsHandles(s: System, step: Step)
    requires Inv(s) && step.Claim? && Allowed(s, step)
    ensures HandlesFaithful(Apply(s, step))
  {
  }

  lemma OtherStepsKeepLimit(s: System, step: Step)
    requires Inv(s) && !step.Claim? && Allowed(s, step)
    ensures StudiesWithinLimit(Apply(s, step).db, Apply(s, step).clock)
  {
    var s' := Apply(s, step);
    StepEvolves(s, step);
    forall studyId | studyId in s'.db.studies
      ensures |ActiveTrials(s'.db, studyId, s'.clock)| <= s'.db.studies[studyId].maxConcurrentTrials
    {
      var live' := ActiveTrials(s'.db, studyId, s'.clock);
      if studyId in s.db.studies {
        assert StudyEvolves(s.db.studies[studyId], s'.db.studies[studyId]);
        forall t | t in live' ensures t in ActiveTrials(s.db, studyId, s.clock) {
          assert t in s.db.trials && Unstarted(s.db.trials[t], s'.db.trials[t]);
        }
        SubsetSize(live', ActiveTrials(s.db, studyId, s.clock));
      } else {
        assert live' == {};
      }
    }
  }

  /** Apart from claims, a slot changes only by being freed, and only when its
      lease has run out or its trial no longer runs. */
  lemma SlotsOnlyFreed(s: System, step: Step)
    requires Inv(s) && !step.Claim? && Allowed(s, step)
    ensures forall n | n in Apply(s, step).db.slots ::
              || (n in s.db.slots && Apply(s, step).db.slots[n] == s.db.slots[n])
              || Apply(s, step).db.slots[n].trialId.None?
    ensures forall n | n in s.db.slots && s.db.slots[n].trialId.Some? ::
              || (n in Apply(s, step).db.slots && Apply(s, step).db.slots[n] == s.db.slots[n])
              || LeaseExpired(s.db.slots[n].leaseExpiresAt, s.clock)
              || (s.db.slots[n].trialId.value in s.db.trials
                  && s.db.trials[s.db.slots[n].trialId.value].status != Running)
  {
    if step.WorkerRelease? {
      assert HandleKnown(s.db, step.handle) && HandleFaithful(s.db, step.handle);
    }
  }

  lemma OtherStepsKeepSlots(s: System, step: Step)
    requires Inv(s) && !step.Claim? && Allowed(s, step)
    ensures OneSlotPerTrial(Apply(s, step).db)
    ensures LiveTrialsBacked(Apply(s, step).db, Apply(s, step).clock)
  {
    var db, db', clock' := s.db, Apply(s, step).db, Apply(s, step).clock;
    OnlyClaimsStart(s, step);
    SlotsOnlyFreed(s, step);
    forall t | t in db'.trials && Live(db'.trials[t], clock')
      ensures exists n :: n in db'.slots && Backs(db'.slots[n], t, db'.trials[t])
    {
      assert t in db.trials && Unstarted(db.trials[t], db'.trials[t]);
      var n :| n in db.slots && Backs(db.slots[n], t, db.trials[t]);
      assert Backs(db'.slots[n], t, db'.trials[t]);
    }
  }

  lemma OtherStepsKeepHandles(s: System, step: Step)
    requires Inv(s) && !step.Claim? && Allowed(s, step)
    ensures HandlesFaithful(Apply(s, step))
  {
    var s' := Apply(s, step);
    StepEvolves(s, step);
    forall h | h in s'.handles ensures HandleKnown(s'.db, h) && HandleFaithful(s'.db, h) {
      if h in s.handles {
        assert HandleKnown(s.db, h) && HandleFaithful(s.db, h);
        assert TrialEvolves(s.db.trials[h.trialId], s'.db.trials[h.trialId]);
        assert Unstarted(s.db.trials[h.trialId], s'.db.trials[h.trialId]);
        assert SlotEvolves(s.db.slots[h.slotNumber], s'.db.slots[h.slotNumber]);
      } else {
        assert HandleKnown(s.db, step.handle) && HandleFaithful(s.db, step.handle);
      }
    }
  }

  lemma OtherStepsKeepTrials(s: System, step: Step)
    requires Inv(s) && !step.Claim? && Allowed(s, step)
    ensures TrialsWellFormed(Apply(s, step).db)
  {
    var s' := Apply(s, step);
    StepEvolves(s, step);
    forall t | t in s'.db.trials
      ensures s'.db.trials[t].studyId in s'.db.studies && s'.db.trials[t].attemptCount <= s'.db.trials[t].maxAttempts
    {
      if t in s.db.trials {
        assert TrialEvolves(s.db.trials[t], s'.db.trials[t]) && Unstarted(s.db.trials[t], s'.db.trials[t]);
        assert s.db.trials[t].studyId in s.db.studies;
      }
    }
  }

  lemma StepKeepsInv(s: System, step: Step)
    requires Inv(s) && Allowed(s, step)
    ensures Inv(Apply(s, step))
  {
    if step.Claim? {
      ClaimKeepsSlots(s, step);
      ClaimKeepsLimit(s, step);
      ClaimKeepsHandles(s, step);
    } else {
      OtherStepsKeepSlots(s, step);
      OtherStepsKeepLimit(s, step);
      OtherStepsKeepHandles(s, step);
      OtherStepsKeepTrials(s, step);
    }
  }

  lemma {:induction false} RunKeepsInv(s: System, steps: seq<Step>)
    requires Inv(s) && Legal(s, steps)
    ensures Inv(Exec(s, steps))
    decreases |steps|
  {
    if steps != [] {
      StepKeepsInv(s, steps[0]);
      RunKeepsInv(Apply(s, steps[0]), steps[1..]);
    }
  }
}
