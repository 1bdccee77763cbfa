/**
 The tables behind the AutoML repository and the effect of each repository
 method on them, one guarded transaction per function.
 */
module AutoMLModel {
  import opened Common

  type Time = int
  type StudyId = nat
  type TrialId = nat

  datatype StudyStatus = StudyQueued | StudyRunning | StudySucceeded | StudyFailed | StudyCancelled

  datatype TrialStatus = Queued | Running | Succeeded | Failed | Pruned | Cancelled

  datatype TrialMetrics = TrialMetrics(
    foldMetrics: seq<map<string, real>>,
    aggregateMetrics: map<string, real>,
    primaryMetricValue: real,
    durationSeconds: real)

  datatype Study = Study(
    status: StudyStatus,
    stateVersion: nat,
    maxConcurrentTrials: nat,
    startedAt: Option<Time>,
    deadlineAt: Option<Time>,
    finishedAt: Option<Time>,
    cancelRequestedAt: Option<Time>)

  datatype Trial = Trial(
    studyId: StudyId,
    status: TrialStatus,
    attemptCount: nat,
    maxAttempts: nat,
    stateVersion: nat,
    leaseExpiresAt: Option<Time>,
    startedAt: Option<Time>,
    finishedAt: Option<Time>,
    cancelledAt: Option<Time>,
    queueMessageId: Option<string>,
    metrics: Option<TrialMetrics>,
    errorCode: Option<string>)

  datatype Slot = Slot(trialId: Option<TrialId>, leaseExpiresAt: Option<Time>, stateVersion: nat)

  datatype Db = Db(studies: map<StudyId, Study>, trials: map<TrialId, Trial>, slots: map<nat, Slot>)

  /** An assignment in the `values` argument of a conditional transition. */
  datatype Update<+T> = Keep | Set(value: T)

  datatype TrialValues = TrialValues(
    leaseExpiresAt: Update<Option<Time>>,
    finishedAt: Update<Option<Time>>,
    cancelledAt: Update<Option<Time>>,
    queueMessageId: Update<Option<string>>,
    errorCode: Update<Option<string>>)

  datatype StudyValues = StudyValues(
    startedAt: Update<Option<Time>>,
    deadlineAt: Update<Option<Time>>,
    finishedAt: Update<Option<Time>>,
    cancelRequestedAt: Update<Option<Time>>)

  datatype ClaimOutcome = NotClaimed | UniqueViolation | Claimed(slotNumber: nat)

  function Assign<T>(update: Update<T>, current: T): (result: T)
    ensures update.Set? ==> result == update.value
    ensures update.Keep? ==> result == current
  {
    match update
    case Keep => current
    case Set(value) => value
  }

  predicate StudyTerminal(status: StudyStatus) {
    status.StudySucceeded? || status.StudyFailed? || status.StudyCancelled?
  }

  predicate TrialTerminal(status: TrialStatus) {
    !status.Queued? && !status.Running?
  }

  /** `lease_expires_at <= now`; a null lease never satisfies it. */
  predicate LeaseExpired(lease: Option<Time>, now: Time) {
    lease.Some? && lease.value <= now
  }

  predicate Live(trial: Trial, now: Time) {
    trial.status == Running && trial.leaseExpiresAt.Some? && trial.leaseExpiresAt.value > now
  }

  predicate Expired(trial: Trial, now: Time) {
    trial.status == Running && LeaseExpired(trial.leaseExpiresAt, now)
  }

  function ActiveTrials(db: Db, studyId: StudyId, now: Time): set<TrialId> {
    set t | t in db.trials && db.trials[t].studyId == studyId && Live(db.trials[t], now)
  }

  /** Free or expired slots that no concurrent transaction has locked. */
  function ClaimableSlots(db: Db, now: Time, locked: set<nat>): set<nat> {
    set n | n in db.slots && n !in locked
            && (db.slots[n].trialId.None? || LeaseExpired(db.slots[n].leaseExpiresAt, now))
  }

  predicate HeldElsewhere(db: Db, trialId: TrialId, slotNumber: nat) {
    exists m | m in db.slots :: m != slotNumber && db.slots[m].trialId == Some(trialId)
  }

  /** What a study and a trial must satisfy before a slot is looked for. */
  predicate Admissible(db: Db, trialId: TrialId, now: Time) {
    && trialId in db.trials
    && var trial := db.trials[trialId];
    && trial.status == Queued
    && trial.attemptCount < trial.maxAttempts
    && trial.studyId in db.studies
    && var study := db.studies[trial.studyId];
    && study.status == StudyRunning
    && study.cancelRequestedAt.None?
    && !(study.deadlineAt.Some? && study.deadlineAt.value <= now)
    && |ActiveTrials(db, trial.studyId, now)| < study.maxConcurrentTrials
  }

  ghost function DecideClaim(db: Db, trialId: TrialId, now: Time, locked: set<nat>): ClaimOutcome {
    if !Admissible(db, trialId, now) || ClaimableSlots(db, now, locked) == {} then
      NotClaimed
    else
      var n := Least(ClaimableSlots(db, now, locked));
      if HeldElsewhere(db, trialId, n) then UniqueViolation else Claimed(n)
  }

  function GrantedTrial(trial: Trial, now: Time, leaseExpiresAt: Time): Trial {
    trial.(status := Running,
           startedAt := Some(now),
           leaseExpiresAt := Some(leaseExpiresAt),
           attemptCount := trial.attemptCount + 1,
           stateVersion := trial.stateVersion + 1)
  }

  function GrantedSlot(slot: Slot, trialId: TrialId, leaseExpiresAt: Time): Slot {
    Slot(Some(trialId), Some(leaseExpiresAt), slot.stateVersion + 1)
  }

  /** A claim that violates the unique constraint aborts and leaves no trace. */
  ghost function ClaimTrialAndSlot(db: Db, trialId: TrialId, now: Time, leaseExpiresAt: Time, locked: set<nat>): Db {
    match DecideClaim(db, trialId, now, locked)
    case NotClaimed => db
    case UniqueViolation => db
    case Claimed(n) =>
      db.(trials := db.trials[trialId := GrantedTrial(db.trials[trialId], now, leaseExpiresAt)],
          slots := db.slots[n := GrantedSlot(db.slots[n], trialId, leaseExpiresAt)])
  }

  function FreedSlot(slot: Slot): Slot {
    Slot(None, None, slot.stateVersion + 1)
  }

  predicate MayRelease(db: Db, slotNumber: nat, trialId: TrialId, expectedVersion: nat) {
    && slotNumber in db.slots
    && db.slots[slotNumber].trialId == Some(trialId)
    && db.slots[slotNumber].stateVersion == expectedVersion
  }

  function ReleaseSlot(db: Db, slotNumber: nat, trialId: TrialId, expectedVersion: nat): Db {
    if MayRelease(db, slotNumber, trialId, expectedVersion) then
      db.(slots := db.slots[slotNumber := FreedSlot(db.slots[slotNumber])])
    else
      db
  }

  predicate Reclaimable(slot: Slot, now: Time) {
    slot.trialId.Some? && LeaseExpired(slot.leaseExpiresAt, now)
  }

  function ReclaimExpiredSlots(db: Db, now: Time): Db {
    db.(slots := map n | n in db.slots ::
                   if Reclaimable(db.slots[n], now) then FreedSlot(db.slots[n]) else db.slots[n])
  }

  function RequeuedTrial(trial: Trial): Trial {
    trial.(status := Queued,
           leaseExpiresAt := None,
           queueMessageId := None,
           stateVersion := trial.stateVersion + 1,
           errorCode := Some("expired_lease_recovered"))
  }

  function RequeueIfExpired(trial: Trial, now: Time): Trial {
    if Expired(trial, now) && trial.attemptCount < trial.maxAttempts then RequeuedTrial(trial) else trial
  }

  function ReleaseExpiredTrials(db: Db, now: Time): Db {
    db.(trials := map t | t in db.trials :: RequeueIfExpired(db.trials[t], now))
  }

  function ExhaustedTrial(trial: Trial, now: Time): Trial {
    trial.(status := Failed,
           leaseExpiresAt := None,
           finishedAt := Some(now),
           stateVersion := trial.stateVersion + 1,
           errorCode := Some("retry_exhausted"))
  }

  function FailIfExhausted(trial: Trial, now: Time): Trial {
    if Expired(trial, now) && trial.attemptCount >= trial.maxAttempts then ExhaustedTrial(trial, now) else trial
  }

  function FailExhaustedExpiredTrials(db: Db, now: Time): Db {
    db.(trials := map t | t in db.trials :: FailIfExhausted(db.trials[t], now))
  }

  predicate MayTransitionTrial(db: Db, trialId: TrialId, expectedStatus: TrialStatus, expectedVersion: nat) {
    && trialId in db.trials
    && db.trials[trialId].status == expectedStatus
    && db.trials[trialId].stateVersion == expectedVersion
  }

  function TransitionedTrial(trial: Trial, newStatus: TrialStatus, values: TrialValues): Trial {
    trial.(status := newStatus,
           stateVersion := trial.stateVersion + 1,
           leaseExpiresAt := Assign(values.leaseExpiresAt, trial.leaseExpiresAt),
           finishedAt := Assign(values.finishedAt, trial.finishedAt),
           cancelledAt := Assign(values.cancelledAt, trial.cancelledAt),
           queueMessageId := Assign(values.queueMessageId, trial.queueMessageId),
           errorCode := Assign(values.errorCode, trial.errorCode))
  }

  function TransitionTrial(db: Db, trialId: TrialId, expectedStatus: TrialStatus, expectedVersion: nat,
                           newStatus: TrialStatus, values: TrialValues): Db
  {
    if MayTransitionTrial(db, trialId, expectedStatus, expectedVersion) then
      db.(trials := db.trials[trialId := TransitionedTrial(db.trials[trialId], newStatus, values)])
    else
      db
  }

  predicate TrialVersionIs(db: Db, trialId: TrialId, expectedVersion: nat) {
    trialId in db.trials && db.trials[trialId].stateVersion == expectedVersion
  }

  function UpdateTrialMetrics(db: Db, trialId: TrialId, expectedVersion: nat, metrics: TrialMetrics): Db {
    if TrialVersionIs(db, trialId, expectedVersion) then
      db.(trials := db.trials[trialId := db.trials[trialId].(metrics := Some(metrics),
                                                             stateVersion := expectedVersion + 1)])
    else
      db
  }

  function UpdateTrialError(db: Db, trialId: TrialId, expectedVersion: nat, errorCode: string): Db {
    if TrialVersionIs(db, trialId, expectedVersion) then
      db.(trials := db.trials[trialId := db.trials[trialId].(errorCode := Some(errorCode),
                                                             stateVersion := expectedVersion + 1)])
    else
      db
  }

  function SetTrialQueueIdentifier(db: Db, trialId: TrialId, queueMessageId: string, expectedVersion: nat): Db {
    if MayTransitionTrial(db, trialId, Queued, expectedVersion) then
      db.(trials := db.trials[trialId := db.trials[trialId].(queueMessageId := Some(queueMessageId),
                                                             stateVersion := expectedVersion + 1)])
    else
      db
  }

  function CancelledTrial(trial: Trial, cancelledAt: Time): Trial {
    trial.(status := Cancelled,
           cancelledAt := Some(cancelledAt),
           finishedAt := Some(cancelledAt),
           stateVersion := trial.stateVersion + 1)
  }

  function MarkQueuedTrialsCancelled(db: Db, studyId: StudyId, cancelledAt: Time): Db {
    db.(trials := map t | t in db.trials ::
                    if db.trials[t].studyId == studyId && db.trials[t].status == Queued
                    then CancelledTrial(db.trials[t], cancelledAt) else db.trials[t])
  }

  predicate MayTransitionStudy(db: Db, studyId: StudyId, expectedStatus: StudyStatus, expectedVersion: nat) {
    && studyId in db.studies
    && db.studies[studyId].status == expectedStatus
    && db.studies[studyId].stateVersion == expectedVersion
  }

  function TransitionStudy(db: Db, studyId: StudyId, expectedStatus: StudyStatus, expectedVersion: nat,
                           newStatus: StudyStatus, values: StudyValues): Db
  {
    if MayTransitionStudy(db, studyId, expectedStatus, expectedVersion) then
      var study := db.studies[studyId];
      db.(studies := db.studies[studyId := study.(
                     status := newStatus,
                     stateVersion := study.stateVersion + 1,
                     startedAt := Assign(values.startedAt, study.startedAt),
                     deadlineAt := Assign(values.deadlineAt, study.deadlineAt),
                     finishedAt := Assign(values.finishedAt, study.finishedAt),
                     cancelRequestedAt := Assign(values.cancelRequestedAt, study.cancelRequestedAt))])
    else
      db
  }

  function RequestStudyCancellation(db: Db, studyId: StudyId, expectedVersion: nat, requestedAt: Time): Db {
    if && MayTransitionStudy(db, studyId, StudyRunning, expectedVersion)
       && db.studies[studyId].cancelRequestedAt.None?
    then
      db.(studies := db.studies[studyId := db.studies[studyId].(cancelRequestedAt := Some(requestedAt),
                                                                stateVersion := expectedVersion + 1)])
    else
      db
  }

  /** The versioned study updates whose other columns are not modelled: error,
      best trial, champion job and study queue message. */
  function AnnotateStudy(db: Db, studyId: StudyId, expectedVersion: nat): Db {
    if studyId in db.studies && db.studies[studyId].stateVersion == expectedVersion then
      db.(studies := db.studies[studyId := db.studies[studyId].(stateVersion := expectedVersion + 1)])
    else
      db
  }

  const EMPTY_SLOT := Slot(None, None, 0)

  function SlotNumbers(count: nat): (numbers: set<nat>)
    ensures forall n :: n in numbers <==> 1 <= n <= count
  {
    if count == 0 then {} else SlotNumbers(count - 1) + {count}
  }

  function AllSlots(slots: map<nat, Slot>, count: nat): map<nat, Slot> {
    map n: nat | n in slots.Keys + SlotNumbers(count) :: if n in slots then slots[n] else EMPTY_SLOT
  }

  /** Adds the missing slots among 1..count and keeps the others. */
  function InitializeSlots(db: Db, count: nat): Db {
    db.(slots := AllSlots(db.slots, count))
  }
}
