/**
 The AutoML lease protocol as a state machine: one step per repository call, in
 any order, by any number of coordinators, workers and reconcilers whose clocks
 may lag behind the true one.
 */
module AutoMLProtocol {
  import opened Common
  import opened AutoMLModel

  /**
   What a worker remembers of its claim: the trial and slot rows it was granted
   and their versions.  `finished` records that its own transition out of
   RUNNING succeeded, which is when it goes on to release the slot.
   */
  datatype Handle = Handle(
    trialId: TrialId,
    trialVersion: nat,
    slotNumber: nat,
    slotVersion: nat,
    finished: bool)

  datatype System = System(db: Db, clock: Time, handles: set<Handle>)

  datatype Step =
    | Tick(to: Time)
    | CreateStudy(studyId: StudyId, study: Study)
    | CreateTrial(trialId: TrialId, trial: Trial)
    | AddSlots(count: nat)
    | Claim(trialId: TrialId, now: Time, leaseExpiresAt: Time, locked: set<nat>)
    | WorkerMetrics(handle: Handle, metrics: TrialMetrics)
    | WorkerFinish(handle: Handle, newTrialStatus: TrialStatus, trialValues: TrialValues)
    | WorkerRelease(handle: Handle)
    | Reclaim(now: Time)
    | RequeueExpired(now: Time)
    | FailExhausted(now: Time)
    | MoveTrial(trialId: TrialId, expectedTrialStatus: TrialStatus, expectedVersion: nat,
                newTrialStatus: TrialStatus, trialValues: TrialValues)
    | RecordMetrics(trialId: TrialId, expectedVersion: nat, metrics: TrialMetrics)
    | RecordError(trialId: TrialId, expectedVersion: nat, errorCode: string)
    | SetQueueIdentifier(trialId: TrialId, queueMessageId: string, expectedVersion: nat)
    | CancelQueuedTrials(studyId: StudyId, at: Time)
    | RequestCancellation(studyId: StudyId, expectedVersion: nat, at: Time)
    | Annotate(studyId: StudyId, expectedVersion: nat)
    | MoveStudy(studyId: StudyId, expectedStudyStatus: StudyStatus, expectedVersion: nat,
                newStudyStatus: StudyStatus, studyValues: StudyValues)

  predicate NewStudy(study: Study) {
    && study.status == StudyQueued
    && study.stateVersion == 0
    && study.cancelRequestedAt.None?
  }

  predicate NewTrial(trial: Trial) {
    && trial.status == Queued
    && trial.stateVersion == 0
    && trial.attemptCount == 0
    && 1 <= trial.maxAttempts <= 10
    && trial.leaseExpiresAt.None?
  }

  /**
   What callers of the repository keep to: no clock runs ahead of the true one,
   only a claim enters RUNNING, nothing leaves a terminal status, a
   cancellation request is never erased, and a worker releases its slot only
   after its own transition out of RUNNING.
   */
  predicate Allowed(s: System, step: Step) {
    match step
    case Tick(to) => s.clock <= to
    case CreateStudy(studyId, study) => studyId !in s.db.studies && NewStudy(study)
    case CreateTrial(trialId, trial) => trialId !in s.db.trials && trial.studyId in s.db.studies && NewTrial(trial)
    case AddSlots(_) => true
    case Claim(_, now, leaseExpiresAt, _) => now <= s.clock && now < leaseExpiresAt
    case WorkerMetrics(handle, _) => handle in s.handles && !handle.finished
    case WorkerFinish(handle, newStatus, _) => handle in s.handles && !handle.finished && newStatus != Running
    case WorkerRelease(handle) => handle in s.handles && handle.finished
    case Reclaim(now) => now <= s.clock
    case RequeueExpired(now) => now <= s.clock
    case FailExhausted(now) => now <= s.clock
    case MoveTrial(_, expected, _, newStatus, _) => !TrialTerminal(expected) && newStatus != Running
    case RecordMetrics(_, _, _) => true
    case RecordError(_, _, _) => true
    case SetQueueIdentifier(_, _, _) => true
    case CancelQueuedTrials(_, _) => true
    case RequestCancellation(_, _, _) => true
    case Annotate(_, _) => true
    case MoveStudy(_, expected, _, _, values) =>
      !StudyTerminal(expected) && values.cancelRequestedAt != Set(None)
  }

  ghost function ApplyDb(db: Db, step: Step): Db {
    match step
    case Tick(_) => db
    case CreateStudy(studyId, study) => db.(studies := db.studies[studyId := study])
    case CreateTrial(trialId, trial) => db.(trials := db.trials[trialId := trial])
    case AddSlots(count) => InitializeSlots(db, count)
    case Claim(trialId, now, leaseExpiresAt, locked) => ClaimTrialAndSlot(db, trialId, now, leaseExpiresAt, locked)
    case WorkerMetrics(h, metrics) => UpdateTrialMetrics(db, h.trialId, h.trialVersion, metrics)
    case WorkerFinish(h, newStatus, values) =>
      TransitionTrial(db, h.trialId, Running, h.trialVersion, newStatus, values)
    case WorkerRelease(h) => ReleaseSlot(db, h.slotNumber, h.trialId, h.slotVersion)
    case Reclaim(now) => ReclaimExpiredSlots(db, now)
    case RequeueExpired(now) => ReleaseExpiredTrials(db, now)
    case FailExhausted(now) => FailExhaustedExpiredTrials(db, now)
    case MoveTrial(trialId, expected, version, newStatus, values) =>
      TransitionTrial(db, trialId, expected, version, newStatus, values)
    case RecordMetrics(trialId, version, metrics) => UpdateTrialMetrics(db, trialId, version, metrics)
    case RecordError(trialId, version, errorCode) => UpdateTrialError(db, trialId, version, errorCode)
    case SetQueueIdentifier(trialId, message, version) => SetTrialQueueIdentifier(db, trialId, message, version)
    case CancelQueuedTrials(studyId, at) => MarkQueuedTrialsCancelled(db, studyId, at)
    case RequestCancellation(studyId, version, at) => RequestStudyCancellation(db, studyId, version, at)
    case Annotate(studyId, version) => AnnotateStudy(db, studyId, version)
    case MoveStudy(studyId, expected, version, newStatus, values) =>
      TransitionStudy(db, studyId, expected, version, newStatus, values)
  }

  /** A claim adds a handle; a worker's own successful write moves its handle on. */
  ghost function ApplyHandles(s: System, step: Step): set<Handle> {
    match step
    case Claim(trialId, now, _, locked) =>
      (match DecideClaim(s.db, trialId, now, locked)
       case Claimed(n) =>
         s.handles + {Handle(trialId, s.db.trials[trialId].stateVersion + 1, n, s.db.slots[n].stateVersion + 1, false)}
       case _ => s.handles)
    case WorkerMetrics(h, _) =>
      if TrialVersionIs(s.db, h.trialId, h.trialVersion)
      then s.handles - {h} + {h.(trialVersion := h.trialVersion + 1)}
      else s.handles
    case WorkerFinish(h, _, _) =>
      if MayTransitionTrial(s.db, h.trialId, Running, h.trialVersion)
      then s.handles - {h} + {h.(finished := true)}
      else s.handles
    case _ => s.handles
  }

  ghost function Apply(s: System, step: Step): System {
    System(ApplyDb(s.db, step), if step.Tick? then step.to else s.clock, ApplyHandles(s, step))
  }

  ghost predicate Legal(s: System, steps: seq<Step>)
    decreases |steps|
  {
    steps == [] || (Allowed(s, steps[0]) && Legal(Apply(s, steps[0]), steps[1..]))
  }

  ghost function Exec(s: System, steps: seq<Step>): System
    decreases |steps|
  {
    if steps == [] then s else Exec(Apply(s, steps[0]), steps[1..])
  }

  predicate Initial(s: System) {
    s.db == Db(map[], map[], map[]) && s.handles == {}
  }

  lemma {:induction false} ExecConcat(s: System, a: seq<Step>, b: seq<Step>)
    ensures Exec(s, a + b) == Exec(Exec(s, a), b)
    ensures Legal(s, a + b) <==> Legal(s, a) && Legal(Exec(s, a), b)
    decreases |a|
  {
    if a == [] {
      assert a + b == b;
    } else {
      assert (a + b)[1..] == a[1..] + b;
      ExecConcat(Apply(s, a[0]), a[1..], b);
    }
  }
}
