/**
 A slot is freed and its trial requeued by two different sweeps.  Between them
 the trial can collide with its own slot.
 */
module AutoMLCollision {
  import opened Common
  import opened AutoMLModel
  import opened AutoMLProtocol
  import opened AutoMLSafety
  import opened AutoMLService

  /** The collision is possible between repository calls: a requeued trial that
      an unreclaimed slot still carries can claim only that very slot. */
  lemma UnreclaimedSlotCollides(db: Db, t: TrialId, now: Time, locked: set<nat>, m: nat)
    requires OneSlotPerTrial(db)
    requires m in db.slots && db.slots[m].trialId == Some(t)
    requires Admissible(db, t, now) && ClaimableSlots(db, now, locked) != {}
    ensures DecideClaim(db, t, now, locked)
            == if Least(ClaimableSlots(db, now, locked)) == m then Claimed(m) else UniqueViolation
    ensures LeaseExpired(db.slots[m].leaseExpiresAt, now) && m !in locked ==>
              DecideClaim(ReclaimExpiredSlots(db, now), t, now, locked).Claimed?
  {
    var db' := ReclaimExpiredSlots(db, now);
    if LeaseExpired(db.slots[m].leaseExpiresAt, now) && m !in locked {
      assert m in ClaimableSlots(db', now, locked);
      assert ActiveTrials(db', db.trials[t].studyId, now) == ActiveTrials(db, db.trials[t].studyId, now);
    }
  }

  const EMPTY := System(Db(map[], map[], map[]), 0, {})

  /** Two slots, of which the trial was given the second while the first was locked. */
  function ClaimedSecond(study: Study, trial: Trial): System {
    System(Db(map[0 := study.(status := StudyRunning, stateVersion := 1)],
              map[0 := GrantedTrial(trial, 0, 1)],
              map[1 := EMPTY_SLOT, 2 := GrantedSlot(EMPTY_SLOT, 0, 1)]),
           0, {Handle(0, 1, 2, 1, false)})
  }

  predicate Fresh(study: Study, trial: Trial) {
    && NewStudy(study) && study.maxConcurrentTrials > 0 && study.deadlineAt.None?
    && NewTrial(trial) && trial.studyId == 0 && trial.maxAttempts > 1
  }

  /** The study started, its trial created and two slots added. */
  function Prepared(study: Study, trial: Trial): System {
    System(Db(map[0 := study.(status := StudyRunning, stateVersion := 1)], map[0 := trial],
              map[1 := EMPTY_SLOT, 2 := EMPTY_SLOT]), 0, {})
  }

  function Preparation(study: Study, trial: Trial): seq<Step> {
    [CreateStudy(0, study), MoveStudy(0, StudyQueued, 0, StudyRunning, StudyValues(Keep, Keep, Keep, Keep)),
     CreateTrial(0, trial), AddSlots(2)]
  }

  lemma PreparationWorks(study: Study, trial: Trial)
    requires Fresh(study, trial)
    ensures Legal(EMPTY, Preparation(study, trial)) && Exec(EMPTY, Preparation(study, trial)) == Prepared(study, trial)
  {
    var steps := Preparation(study, trial);
    var s1 := Apply(EMPTY, steps[0]);
    var s2 := Apply(s1, steps[1]);
    var s3 := Apply(s2, steps[2]);
    var s4 := Apply(s3, steps[3]);
    assert s2.db.studies == Prepared(study, trial).db.studies;
    assert SlotNumbers(2) == {1, 2};
    assert s4.db.slots == Prepared(study, trial).db.slots;
    assert steps[1..][1..] == steps[2..] && steps[2..][1..] == steps[3..] && steps[3..][1..] == [];
    assert Exec(s3, steps[3..]) == s4 && Legal(s3, steps[3..]);
    assert Exec(s2, steps[2..]) == s4 && Legal(s2, steps[2..]);
    assert Exec(s1, steps[1..]) == s4 && Legal(s1, steps[1..]);
  }

  lemma SecondSlotClaimed(study: Study, trial: Trial)
    requires Fresh(study, trial)
    ensures Apply(Prepared(study, trial), Claim(0, 0, 1, {1})) == ClaimedSecond(study, trial)
  {
    var db := Prepared(study, trial).db;
    assert ActiveTrials(db, 0, 0) == {};
    assert 2 in ClaimableSlots(db, 0, {1});
    assert ClaimableSlots(db, 0, {1}) == {2};
    assert DecideClaim(db, 0, 0, {1}) == Claimed(2);
  }

  lemma RequeuedCollides(study: Study, trial: Trial)
    requires Fresh(study, trial)
    ensures
      var s := Apply(Apply(ClaimedSecond(study, trial), Tick(1)), RequeueExpired(1));
      s.clock == 1 && DecideClaim(s.db, 0, 1, {}) == UniqueViolation
  {
    var db := Apply(Apply(ClaimedSecond(study, trial), Tick(1)), RequeueExpired(1)).db;
    assert db.trials[0].status == Queued;
    assert ActiveTrials(db, 0, 1) == {};
    assert 1 in ClaimableSlots(db, 1, {}) && 2 in ClaimableSlots(db, 1, {});
    assert db.slots[2].trialId == Some(0);
  }

  /** The collision does happen: from the empty tables, with any study and any
      trial that may be tried twice, a legal run of repository calls ends where
      the trial's next claim violates the unique constraint. */
  lemma CollisionReached(study: Study, trial: Trial) returns (steps: seq<Step>)
    requires Fresh(study, trial)
    ensures Initial(EMPTY) && Legal(EMPTY, steps)
    ensures Exec(EMPTY, steps).clock == 1 && DecideClaim(Exec(EMPTY, steps).db, 0, 1, {}) == UniqueViolation
  {
    var prepared := Prepared(study, trial);
    var rest := [Claim(0, 0, 1, {1}), Tick(1), RequeueExpired(1)];
    steps := Preparation(study, trial) + rest;
    PreparationWorks(study, trial);
    ExecConcat(EMPTY, Preparation(study, trial), rest);
    SecondSlotClaimed(study, trial);
    RequeuedCollides(study, trial);
    ExecThree(prepared, Claim(0, 0, 1, {1}), Tick(1), RequeueExpired(1));
  }
}
