/**
 The transactions the services build from repository calls: a worker commits
 its result and the release of its slot together or not at all, and the
 reconciler runs its three sweeps in one transaction.
 */
module AutoMLService {
  import opened Common
  import opened AutoMLModel
  import opened AutoMLProtocol
  import opened AutoMLSafety

  datatype Action =
    | Single(step: Step)
    | CompleteTrial(handle: Handle, metrics: Option<TrialMetrics>, newStatus: TrialStatus, values: TrialValues)
    | Reconcile(now: Time)

  /** Repository calls that services commit on their own. */
  predicate CommittedAlone(step: Step) {
    && !step.WorkerMetrics? && !step.WorkerFinish? && !step.WorkerRelease?
    && !step.Reclaim? && !step.RequeueExpired? && !step.FailExhausted?
    && !(step.MoveTrial? && step.expectedTrialStatus == Running)
  }

  ghost predicate Permitted(s: System, action: Action) {
    match action
    case Single(step) => CommittedAlone(step) && Allowed(s, step)
    case CompleteTrial(h, _, newStatus, _) =>
      && h in s.handles && !h.finished && newStatus != Running
      && (newStatus == Queued && Commits(s.db, h) ==>
            s.db.trials[h.trialId].attemptCount < s.db.trials[h.trialId].maxAttempts)
    case Reconcile(now) => now <= s.clock
  }

  /** The worker's closing transaction, rolled back unless every part succeeds. */
  function CompleteTransaction(db: Db, h: Handle, metrics: Option<TrialMetrics>,
                               newStatus: TrialStatus, values: TrialValues): Db
  {
    if h.trialId !in db.trials || db.trials[h.trialId].stateVersion != h.trialVersion then
      db
    else
      var measured :=
        if metrics.Some? then UpdateTrialMetrics(db, h.trialId, h.trialVersion, metrics.value) else db;
      var version := measured.trials[h.trialId].stateVersion;
      if !MayTransitionTrial(measured, h.trialId, Running, version) then
        db
      else
        var moved := TransitionTrial(measured, h.trialId, Running, version, newStatus, values);
        if MayRelease(moved, h.slotNumber, h.trialId, h.slotVersion)
        then ReleaseSlot(moved, h.slotNumber, h.trialId, h.slotVersion)
        else db
  }

  predicate Commits(db: Db, h: Handle) {
    MayTransitionTrial(db, h.trialId, Running, h.trialVersion) && MayRelease(db, h.slotNumber, h.trialId, h.slotVersion)
  }

  /** The repository calls an action leaves behind. */
  function Expand(s: System, action: Action): seq<Step> {
    match action
    case Single(step) => [step]
    case Reconcile(now) => [Reclaim(now), RequeueExpired(now), FailExhausted(now)]
    case CompleteTrial(h, metrics, newStatus, values) =>
      if !Commits(s.db, h) then []
      else if metrics.None? then
        [WorkerFinish(h, newStatus, values), WorkerRelease(h.(finished := true))]
      else
        var measured := h.(trialVersion := h.trialVersion + 1);
        [WorkerMetrics(h, metrics.value), WorkerFinish(measured, newStatus, values),
         WorkerRelease(measured.(finished := true))]
  }

  ghost function Perform(s: System, action: Action): System {
    Exec(s, Expand(s, action))
  }

  ghost predicate LegalActions(s: System, actions: seq<Action>)
    decreases |actions|
  {
    actions == [] || (Permitted(s, actions[0]) && LegalActions(Perform(s, actions[0]), actions[1..]))
  }

  ghost function PerformAll(s: System, actions: seq<Action>): System
    decreases |actions|
  {
    if actions == [] then s else PerformAll(Perform(s, actions[0]), actions[1..])
  }

  lemma ExecOne(s: System, a: Step)
    ensures Exec(s, [a]) == Apply(s, a)
    ensures Legal(s, [a]) <==> Allowed(s, a)
  {
    assert Exec(Apply(s, a), []) == Apply(s, a);
  }

  lemma ExecTwo(s: System, a: Step, b: Step)
    ensures Exec(s, [a, b]) == Apply(Apply(s, a), b)
    ensures Legal(s, [a, b]) <==> Allowed(s, a) && Allowed(Apply(s, a), b)
  {
    assert [a, b][1..] == [b];
    ExecOne(Apply(s, a), b);
  }

  lemma ExecThree(s: System, a: Step, b: Step, c: Step)
    ensures Exec(s, [a, b, c]) == Apply(Apply(Apply(s, a), b), c)
    ensures Legal(s, [a, b, c]) <==> Allowed(s, a) && Allowed(Apply(s, a), b) && Allowed(Apply(Apply(s, a), b), c)
  {
    assert [a, b, c][1..] == [b, c];
    ExecTwo(Apply(s, a), b, c);
  }

  /** Closing a trial is all or nothing, and when it commits it is a legal
      sequence of repository steps. */
  lemma CompletionIsAtomic(s: System, action: Action)
    requires action.CompleteTrial? && Permitted(s, action)
    ensures Legal(s, Expand(s, action))
    ensures Perform(s, action).db
            == CompleteTransaction(s.db, action.handle, action.metrics, action.newStatus, action.values)
    ensures !Commits(s.db, action.handle) ==> Perform(s, action).db == s.db
  {
    var h := action.handle;
    if Commits(s.db, h) {
      if action.metrics.None? {
        ExecTwo(s, WorkerFinish(h, action.newStatus, action.values), WorkerRelease(h.(finished := true)));
      } else {
        var measured := h.(trialVersion := h.trialVersion + 1);
        ExecThree(s, WorkerMetrics(h, action.metrics.value), WorkerFinish(measured, action.newStatus, action.values),
                  WorkerRelease(measured.(finished := true)));
      }
    }
  }

  /** What the committed transaction leaves to be read: the outcome, the metrics if
      there are any, the assigned columns, and a free slot. */
  lemma CompletionRecords(db: Db, h: Handle, metrics: Option<TrialMetrics>, newStatus: TrialStatus, values: TrialValues)
    requires h.trialId in db.trials && db.trials[h.trialId].status == Running
    requires db.trials[h.trialId].stateVersion == h.trialVersion
    requires h.slotNumber in db.slots && db.slots[h.slotNumber].trialId == Some(h.trialId)
    requires db.slots[h.slotNumber].stateVersion == h.slotVersion
    ensures
      var db' := CompleteTransaction(db, h, metrics, newStatus, values);
      && h.trialId in db'.trials && h.slotNumber in db'.slots
      && var before, after := db.trials[h.trialId], db'.trials[h.trialId];
         && after.status == newStatus
         && after.metrics == (if metrics.Some? then metrics else before.metrics)
         && (values.finishedAt.Set? ==> after.finishedAt == values.finishedAt.value)
         && (values.leaseExpiresAt.Set? ==> after.leaseExpiresAt == values.leaseExpiresAt.value)
         && (values.cancelledAt.Set? ==> after.cancelledAt == values.cancelledAt.value)
         && (values.queueMessageId.Set? ==> after.queueMessageId == values.queueMessageId.value)
         && (values.errorCode.Set? ==> after.errorCode == values.errorCode.value)
         && after.attemptCount == before.attemptCount && after.startedAt == before.startedAt
         && db'.slots[h.slotNumber] == Slot(None, None, h.slotVersion + 1)
  {
  }

  lemma ReconcileSteps(s: System, now: Time)
    requires now <= s.clock
    ensures
      var s1 := Apply(s, Reclaim(now));
      var s2 := Apply(s1, RequeueExpired(now));
      && Allowed(s, Reclaim(now)) && Allowed(s1, RequeueExpired(now)) && Allowed(s2, FailExhausted(now))
      && Apply(s2, FailExhausted(now)).db
         == FailExhaustedExpiredTrials(ReleaseExpiredTrials(ReclaimExpiredSlots(s.db, now), now), now)
  {
  }

  lemma ReconcileExpands(s: System, now: Time)
    requires now <= s.clock
    ensures Legal(s, Expand(s, Reconcile(now)))
    ensures Perform(s, Reconcile(now)).db
            == FailExhaustedExpiredTrials(ReleaseExpiredTrials(ReclaimExpiredSlots(s.db, now), now), now)
  {
    ReconcileSteps(s, now);
    ExecThree(s, Reclaim(now), RequeueExpired(now), FailExhausted(now));
  }

  lemma ActionIsLegal(s: System, action: Action)
    requires Permitted(s, action)
    ensures Legal(s, Expand(s, action))
  {
    match action
    case Single(step) => ExecOne(s, step);
    case CompleteTrial(_, _, _, _) => CompletionIsAtomic(s, action);
    case Reconcile(now) => ReconcileExpands(s, now);
  }

  /** The service level refines the protocol: every run of actions is a legal
      run of repository steps ending in the same state. */
  lemma {:induction false} ServiceRefinesProtocol(s: System, actions: seq<Action>) returns (steps: seq<Step>)
    requires LegalActions(s, actions)
    ensures Legal(s, steps) && Exec(s, steps) == PerformAll(s, actions)
    decreases |actions|
  {
    if actions == [] {
      steps := [];
    } else {
      ActionIsLegal(s, actions[0]);
      var rest := ServiceRefinesProtocol(Perform(s, actions[0]), actions[1..]);
      steps := Expand(s, actions[0]) + rest;
      ExecConcat(s, Expand(s, actions[0]), rest);
    }
  }

  // ----------------------------------------------- slots mirror running trials

  /** Every occupied slot belongs to a RUNNING trial with the same lease. */
  ghost predicate SlotsMirrorTrials(db: Db) {
    forall n | n in db.slots && db.slots[n].trialId.Some? ::
      && db.slots[n].leaseExpiresAt.Some?
      && db.slots[n].trialId.value in db.trials
      && db.trials[db.slots[n].trialId.value].status == Running
      && db.trials[db.slots[n].trialId.value].leaseExpiresAt == db.slots[n].leaseExpiresAt
  }

  lemma SingleKeepsMirror(s: System, step: Step)
    requires SlotsMirrorTrials(s.db) && CommittedAlone(step) && Allowed(s, step) && !step.Claim?
    ensures SlotsMirrorTrials(Apply(s, step).db)
  {
  }

  lemma ClaimKeepsMirror(s: System, step: Step)
    requires SlotsMirrorTrials(s.db) && step.Claim? && Allowed(s, step)
    ensures SlotsMirrorTrials(Apply(s, step).db)
  {
  }

  lemma CompletionKeepsMirror(s: System, action: Action)
    requires Inv(s) && SlotsMirrorTrials(s.db) && action.CompleteTrial? && Permitted(s, action)
    ensures SlotsMirrorTrials(Perform(s, action).db)
  {
    CompletionIsAtomic(s, action);
  }

  lemma ReconcileKeepsMirror(s: System, now: Time)
    requires SlotsMirrorTrials(s.db) && now <= s.clock
    ensures SlotsMirrorTrials(Perform(s, Reconcile(now)).db)
  {
    ReconcileExpands(s, now);
  }

  lemma ActionKeepsMirror(s: System, action: Action)
    requires Inv(s) && SlotsMirrorTrials(s.db) && Permitted(s, action)
    ensures Inv(Perform(s, action)) && SlotsMirrorTrials(Perform(s, action).db)
  {
    ActionIsLegal(s, action);
    RunKeepsInv(s, Expand(s, action));
    match action
    case Single(step) =>
      ExecOne(s, step);
      if step.Claim? { ClaimKeepsMirror(s, step); } else { SingleKeepsMirror(s, step); }
    case CompleteTrial(_, _, _, _) => CompletionKeepsMirror(s, action);
    case Reconcile(now) => ReconcileKeepsMirror(s, now);
  }

  lemma {:induction false} ActionsKeepMirror(s: System, actions: seq<Action>)
    requires Inv(s) && SlotsMirrorTrials(s.db) && LegalActions(s, actions)
    ensures Inv(PerformAll(s, actions)) && SlotsMirrorTrials(PerformAll(s, actions).db)
    decreases |actions|
  {
    if actions != [] {
      ActionKeepsMirror(s, actions[0]);
      ActionsKeepMirror(Perform(s, actions[0]), actions[1..]);
    }
  }

  /** In every state the services reach, a claim never trips over the unique
      constraint: it is granted exactly when the trial is admissible and some
      unlocked slot is free or expired. */
  lemma ClaimsNeverCollide(s: System, actions: seq<Action>, t: TrialId, now: Time, locked: set<nat>)
    requires Initial(s) && LegalActions(s, actions)
    ensures
      var db := PerformAll(s, actions).db;
      && DecideClaim(db, t, now, locked) != UniqueViolation
      && (DecideClaim(db, t, now, locked).Claimed? <==>
            Admissible(db, t, now) && ClaimableSlots(db, now, locked) != {})
  {
    assert Inv(s);
    ActionsKeepMirror(s, actions);
  }

  /** After a reconciliation nothing is left expired, occupied slots and running
      trials with a lease correspond, and unexpired rows are untouched. */
  lemma ReconcileRepairs(s: System, now: Time)
    requires Inv(s) && SlotsMirrorTrials(s.db) && now <= s.clock
    ensures
      var db := Perform(s, Reconcile(now)).db;
      && (forall t | t in db.trials :: !Expired(db.trials[t], now))
      && (forall n | n in db.slots && db.slots[n].trialId.Some? ::
            !LeaseExpired(db.slots[n].leaseExpiresAt, now) && n in s.db.slots && db.slots[n] == s.db.slots[n])
      && (forall t | t in s.db.trials && !Expired(s.db.trials[t], now) ::
            t in db.trials && db.trials[t] == s.db.trials[t])
  {
    ReconcileExpands(s, now);
  }

  // --------------------------------------------------- no trial is left behind

  /** The trial can still be claimed, or will expire for a sweep to find, or is done. */
  predicate Serviceable(trial: Trial) {
    && (trial.status == Queued ==> trial.attemptCount < trial.maxAttempts)
    && (trial.status == Running ==> trial.leaseExpiresAt.Some?)
  }

  ghost predicate AllServiceable(db: Db) {
    forall t | t in db.trials :: Serviceable(db.trials[t])
  }

  lemma SingleKeepsServiceable(s: System, step: Step)
    requires AllServiceable(s.db) && CommittedAlone(step) && Allowed(s, step)
    ensures AllServiceable(Apply(s, step).db)
  {
  }

  lemma CompletionKeepsServiceable(s: System, action: Action)
    requires AllServiceable(s.db) && action.CompleteTrial? && Permitted(s, action)
    ensures AllServiceable(Perform(s, action).db)
  {
    CompletionIsAtomic(s, action);
  }

  lemma ReconcileKeepsServiceable(s: System, now: Time)
    requires AllServiceable(s.db) && now <= s.clock
    ensures AllServiceable(Perform(s, Reconcile(now)).db)
  {
    ReconcileExpands(s, now);
  }

  lemma {:induction false} ActionsKeepServiceable(s: System, actions: seq<Action>)
    requires AllServiceable(s.db) && LegalActions(s, actions)
    ensures AllServiceable(PerformAll(s, actions).db)
    decreases |actions|
  {
    if actions != [] {
      match actions[0] {
        case Single(step) =>
          ExecOne(s, step);
          SingleKeepsServiceable(s, step);
        case CompleteTrial(_, _, _, _) => CompletionKeepsServiceable(s, actions[0]);
        case Reconcile(now) => ReconcileKeepsServiceable(s, now);
      }
      ActionsKeepServiceable(Perform(s, actions[0]), actions[1..]);
    }
  }

  /** In every state the services reach, no queued trial is out of attempts and
      every running trial has a lease; so right after a reconciliation every trial
      can be claimed, or runs under an unexpired lease, or is done. */
  lemma NoTrialLeftBehind(s: System, actions: seq<Action>, now: Time)
    requires Initial(s) && LegalActions(s, actions) && now <= PerformAll(s, actions).clock
    ensures AllServiceable(PerformAll(s, actions).db)
    ensures
      var db := Perform(PerformAll(s, actions), Reconcile(now)).db;
      forall t | t in db.trials ::
        || (db.trials[t].status == Queued && db.trials[t].attemptCount < db.trials[t].maxAttempts)
        || Live(db.trials[t], now)
        || TrialTerminal(db.trials[t].status)
  {
    assert Inv(s);
    ActionsKeepMirror(s, actions);
    ActionsKeepServiceable(s, actions);
    var reached := PerformAll(s, actions);
    ReconcileKeepsServiceable(reached, now);
    ReconcileRepairs(reached, now);
  }
}
