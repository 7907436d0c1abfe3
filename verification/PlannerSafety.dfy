/** What the planner's decisions rest on, across all of its tables. */
module PlannerSafety {
  import opened Results
  import opened Recovery
  import opened Continuations

  // ------------------------------------------------------- when C.1 lets pass

  predicate AllPresent(references: seq<Reference>) {
    forall r | r in references :: r.present
  }

  lemma {:induction false} NoneIsMissing(references: seq<Reference>, kinds: seq<ReferenceKind>)
    ensures FirstMissing(references, kinds).None? <==>
              forall kind | kind in kinds :: Reference(kind, false) !in references
    decreases |kinds|
  {
    if kinds != [] {
      NoneIsMissing(references, kinds[1..]);
    }
  }

  lemma AllKindsChecked(references: seq<Reference>)
    ensures FirstMissing(references, REFERENCE_KINDS).None? <==> AllPresent(references)
  {
    var kinds := REFERENCE_KINDS;
    NoneIsMissing(references, kinds);
    forall r | r in references ensures r.kind in kinds && r == Reference(r.kind, r.present) {
      match r.kind {
        case ArtifactRef => assert kinds[0] == r.kind;
        case ReviewInputRef => assert kinds[1] == r.kind;
        case SnapshotRef => assert kinds[2] == r.kind;
        case ChangeSetRef => assert kinds[3] == r.kind;
        case ProposalRef => assert kinds[4] == r.kind;
        case CastRef => assert kinds[5] == r.kind;
      }
    }
  }

  /** This driver holds the authority, or there was never one to hold. */
  predicate AuthorityHeld(state: State, lease: Lease) {
    && (lease.exists_ ==>
      lease.readable && lease.epoch == state.epoch && state.hasOwner && lease.owner in {OwnerDead, CurrentDriver})
    && (state.epoch > 0 ==> lease.exists_ && lease.owner == CurrentDriver)
  }

  /** Nothing that replay owes is left: no routed decision, restart,
      composition end or finalization. */
  predicate NothingOwed(p: Projection) {
    && FirstBlockedRoute(p.blockedRoutes).None? && !RoutedRequestMissing(p.state) && FirstRestart(p.restarts).None?
    && !AnyCompositionEnd(p.compositionEnds) && !p.finalizationEligible
  }

  predicate Cleared(p: Projection, o: Observations) {
    && !p.tailRepairRequired && !p.state.run.Terminal()
    && AuthorityHeld(p.state, o.lease)
    && !p.state.cancelRequested && !p.state.pendingPrepare
    && !((!o.lease.exists_ || o.lease.owner == CurrentDriver) && AnyBlockingDecision(p.state) &&
      !MissingDecisionRequest(p))
    && (p.state.openExecution.None? || p.state.openExecution.value == "adapter")
    && !o.rootDivergence && AllPresent(o.references) && NothingOwed(p)
  }

  /** C.1 goes on to another table exactly when the run is open, the authority
      is held, nothing waits for a person, every referenced object is there and
      replay owes nothing. */
  lemma ProceedsIffCleared(input: Input)
    ensures IsContinuation(Plan(input)) <==> Cleared(input.projection, input.observations)
  {
    AllKindsChecked(input.observations.references);
    PlanReplayedProceeds(input.projection);
    hide FirstMissing, FirstBlockedRoute, FirstRestart, RoutedRequestMissing, AnyBlockingDecision,
      MissingDecisionRequest,
      AnyCompositionEnd, PlanReplayed, NothingOwed, AllPresent;
  }

  lemma PlanReplayedProceeds(p: Projection)
    ensures IsContinuation(PlanReplayed(p)) <==> NothingOwed(p)
  {
    hide FirstBlockedRoute, FirstRestart, RoutedRequestMissing, AnyCompositionEnd;
  }

  // ---------------------------------------------------- what consequences rest on

  /** Writing off a process needs the proof that it is gone; judging a subject
      needs a match; removing a launch needs a free marker or an empty session. */
  predicate Founded(o: Observations, d: Decision) {
    d.Act? ==>
      match d.action.kind
      case RecoverUnstarted => o.handoff == HandoffSafe
      case RecoverUnprobed => !o.adapterSweepUnverifiable
      case RecoverIncomplete => !o.adapterSweepUnverifiable
      case RecoverCriterion => !o.criterionSweepUnverifiable
      case CaptureChanges => !o.worktreeMissing
      case RerunVerification => !o.worktreeMissing
      case FailWorktreeLost => o.worktreeMissing
      case ResumeCriterion => o.subject == SubjectMatched && o.launch == LaunchAbsent
      case AppendEvaluationCompleted => o.subject == SubjectMatched
      case AppendAcceptanceSuccess => o.subject == SubjectMatched
      case RemoveLaunch => o.launch in {LaunchMarkerFree, SessionEmpty}
      case _ => true
  }

  predicate GatePassed(p: Projection) {
    p.acceptance.Some? && p.acceptance.value.gate.required ==>
      p.acceptance.value.gate.requested && p.acceptance.value.gate.resolved && p.acceptance.value.gate.approved
  }

  /** An evaluated acceptance with no failure, nothing in flight, its gate
      passed and its subject unchanged. */
  predicate Acceptable(p: Projection, o: Observations, a: Acceptance) {
    && !(p.acceptance.Some? && p.acceptance.value.failed)
    && FirstFailed(a, a.planned).None? && FirstInFlight(a, a.planned).None?
    && a.evaluationCompleted && GatePassed(p) && o.subject == SubjectMatched
  }

  lemma RealizeIsFounded(o: Observations, caseId: CaseId, attempt: Attempt, scheduler: Scheduler)
    ensures var d := RealizeRecorded(caseId, attempt, scheduler);
      Founded(o, d) && d.Act? && d.action.kind == RealizeRecordedDisposition
  {
  }

  lemma AttemptIsFounded(input: Input)
    ensures Founded(input.observations, PlanAttempt(input))
  {
    var p := input.projection;
    if CurrentHead(p).Some? {
      HeadIsFounded(input, CurrentHead(p).value);
    }
  }

  lemma HeadIsFounded(input: Input, attempt: Attempt)
    ensures Founded(input.observations, PlanHead(input, attempt))
  {
    if attempt.state == Verifying {
      VerifyingIsFounded(input, attempt);
    } else {
      OtherHeadIsFounded(input, attempt);
    }
  }

  lemma VerifyingIsFounded(input: Input, attempt: Attempt)
    requires attempt.state == Verifying
    ensures Founded(input.observations, PlanHead(input, attempt))
  {
    hide FirstMissingQuestion, BlockingDecisionOf, RealizeRecorded;
  }

  lemma OtherHeadIsFounded(input: Input, attempt: Attempt)
    requires attempt.state != Verifying
    ensures Founded(input.observations, PlanHead(input, attempt))
  {
    RealizeIsFounded(input.observations, RealizeDisposition, attempt, input.projection.scheduler);
    hide FirstMissingQuestion, BlockingDecisionOf, RealizeRecorded;
  }

  predicate Succeeds(d: Decision) {
    d.Act? && d.action.kind == AppendAcceptanceSuccess
  }

  lemma EvaluatedIsFounded(p: Projection, o: Observations, attempt: Attempt)
    ensures Founded(o, PlanEvaluated(p, o, attempt))
  {
    hide GatePassed;
  }

  lemma EvaluatedSucceeds(p: Projection, o: Observations, attempt: Attempt)
    ensures Succeeds(PlanEvaluated(p, o, attempt)) <==> GatePassed(p) && o.subject == SubjectMatched
  {
    hide Founded;
  }

  lemma LaunchIsFounded(o: Observations, attemptId: Id)
    requires o.launch != LaunchAbsent
    ensures Founded(o, PlanLaunch(o.launch, attemptId)) && !Succeeds(PlanLaunch(o.launch, attemptId))
  {
  }

  lemma CriteriaIsFounded(o: Observations, id: Id, a: Acceptance)
    ensures Founded(o, PlanCriteria(o, id, a))
  {
    hide NextUnstarted, AllPassed, AnyCompleted;
    if AllPassed(a) || o.launch == LaunchAbsent {
      hide PlanLaunch;
    } else {
      LaunchIsFounded(o, id);
      hide Founded, PlanLaunch;
    }
  }

  lemma CriteriaDoNotSucceed(o: Observations, id: Id, a: Acceptance)
    ensures !Succeeds(PlanCriteria(o, id, a))
  {
    if o.launch != LaunchAbsent {
      LaunchIsFounded(o, id);
    }
    hide Founded, NextUnstarted, AllPassed, AnyCompleted, PlanLaunch;
  }

  lemma StartedIsFounded(p: Projection, o: Observations, attempt: Attempt, a: Acceptance)
    ensures Founded(o, PlanStarted(p, o, attempt, a))
  {
    RealizeIsFounded(o, AcceptanceFailed, attempt, p.scheduler);
    EvaluatedIsFounded(p, o, attempt);
    CriteriaIsFounded(o, attempt.attemptId, a);
    hide FirstFailed, FirstInFlight, RealizeRecorded, PlanEvaluated, PlanCriteria;
  }

  lemma StartedSucceeds(p: Projection, o: Observations, attempt: Attempt, a: Acceptance)
    ensures Succeeds(PlanStarted(p, o, attempt, a)) <==> Acceptable(p, o, a)
  {
    RealizeIsFounded(o, AcceptanceFailed, attempt, p.scheduler);
    EvaluatedSucceeds(p, o, attempt);
    CriteriaDoNotSucceed(o, attempt.attemptId, a);
    hide Founded, FirstFailed, FirstInFlight, RealizeRecorded, PlanEvaluated, PlanCriteria, GatePassed;
  }

  lemma AcceptanceIsFounded(input: Input)
    ensures Founded(input.observations, PlanAcceptance(input))
  {
    var p := input.projection;
    if CurrentHead(p).Some? {
      var attempt := CurrentHead(p).value;
      if StartedInState(p, attempt) {
        StartedIsFounded(p, input.observations, attempt, p.state.acceptances[attempt.attemptId]);
      }
      hide PlanStarted;
    }
  }

  lemma PlanIsFounded(input: Input)
    ensures Founded(input.observations, Plan(input))
  {
    hide FirstMissing, FirstBlockedRoute, FirstRestart, RoutedRequestMissing, AnyBlockingDecision,
      MissingDecisionRequest,
      AnyCompositionEnd;
  }

  lemma SchedulerIsFounded(input: Input)
    ensures Founded(input.observations, PlanScheduler(input))
  {
    hide FirstPromotable, FirstStartable, FirstRunning, CandidatePrecondition, WaivedCompletion;
  }

  /** Whatever table the executor's continuations end on, its decision rests on
      the observations it needs. */
  lemma {:induction false} FollowedIsFounded(input: Input, d: Decision, hops: nat)
    requires Founded(input.observations, d)
    ensures Founded(input.observations, Follow(input, d, hops))
    decreases hops
  {
    hide Founded, PlanAttempt, PlanAcceptance, PlanScheduler;
    if hops > 0 && IsContinuation(d) {
      AttemptIsFounded(input);
      AcceptanceIsFounded(input);
      SchedulerIsFounded(input);
      FollowedIsFounded(input, ContinuePlan(input, d.action.continuation), hops - 1);
    }
  }

  lemma FinalDecisionIsFounded(input: Input, hops: nat)
    ensures Founded(input.observations, Follow(input, Plan(input), hops))
  {
    PlanIsFounded(input);
    FollowedIsFounded(input, Plan(input), hops);
  }

  // -------------------------------------------------------- when acceptance succeeds

  /** Acceptance succeeds exactly for an acceptable evaluation of the head
      attempt. */
  lemma SuccessIffAcceptable(input: Input)
    ensures var p, d := input.projection, PlanAcceptance(input);
      Succeeds(d) <==>
        && CurrentHead(p).Some?
        && StartedInState(p, CurrentHead(p).value)
        && Acceptable(p, input.observations, p.state.acceptances[CurrentHead(p).value.attemptId])
  {
    var p := input.projection;
    if CurrentHead(p).Some? {
      var attempt := CurrentHead(p).value;
      if StartedInState(p, attempt) {
        StartedSucceeds(p, input.observations, attempt, p.state.acceptances[attempt.attemptId]);
      }
      hide PlanStarted, Acceptable;
    }
  }

  // ------------------------------------------------------------ verifying in order

  /** The interview of a draft, which must end with a blocking output. */
  predicate DraftInterview(p: Projection, a: Attempt) {
    p.scheduler.draft && a.movementId == p.scheduler.interview && !a.acceptanceStarted
  }

  predicate Captured(p: Projection, a: Attempt) {
    a.movementId in p.state.writers ==> a.changeSetRecorded
  }

  predicate Verified(p: Projection, a: Attempt) {
    a.attemptId in p.state.verifiedAttempts
  }

  /** A writer's changes are captured before anything else is done with it. */
  lemma CapturesFirst(input: Input, a: Attempt)
    requires a.state == Verifying
    ensures Chooses(PlanHead(input, a), CaptureChanges) <==>
              !DraftInterview(input.projection, a) && !Captured(input.projection, a) &&
                !input.observations.worktreeMissing
  {
  }

  /** Then the captured worktree is verified. */
  lemma VerifiesSecond(input: Input, a: Attempt)
    requires a.state == Verifying
    ensures Chooses(PlanHead(input, a), RerunVerification) <==>
              && !DraftInterview(input.projection, a) && Captured(input.projection, a)
              && !Verified(input.projection, a) && !input.observations.worktreeMissing
  {
  }

  /** Acceptance starts only behind both, and for a writer only while its
      worktree is still there. */
  lemma StartsAcceptanceThird(input: Input, a: Attempt)
    requires a.state == Verifying
    ensures Chooses(PlanHead(input, a), AppendAcceptanceStarted) <==>
              && !DraftInterview(input.projection, a) && !a.acceptanceStarted
              && Captured(input.projection, a) && Verified(input.projection, a)
              && (a.movementId in input.projection.state.writers ==> !input.observations.worktreeMissing)
  {
  }

  /** A lost worktree fails the attempt exactly while one of the three steps
      still needs it. */
  lemma WorktreeIsLost(input: Input, a: Attempt)
    requires a.state == Verifying
    ensures Chooses(PlanHead(input, a), FailWorktreeLost) <==>
              && !DraftInterview(input.projection, a) && input.observations.worktreeMissing
              && (|| !Captured(input.projection, a) || !Verified(input.projection, a)
                  || (a.movementId in input.projection.state.writers && !a.acceptanceStarted))
  {
  }

  /** What C.2 leaves to do for a verifying attempt, in this order: capture,
      verify, start acceptance. */
  function NextStep(p: Projection, o: Observations, a: Attempt): Option<ActionKind> {
    var writes := a.movementId in p.state.writers;
    if !Captured(p, a) then Some(if o.worktreeMissing then FailWorktreeLost else CaptureChanges)
    else if !Verified(p, a) then Some(if o.worktreeMissing then FailWorktreeLost else RerunVerification)
    else if a.acceptanceStarted then None
    else Some(if writes && o.worktreeMissing then FailWorktreeLost else AppendAcceptanceStarted)
  }

  /** Whenever C.1 lets pass, following the planner takes a verifying attempt
      through its steps one by one, and then to table C.3. */
  lemma VerifyingInOrder(input: Input, a: Attempt)
    requires Cleared(input.projection, input.observations) && CurrentHead(input.projection) == Some(a)
    requires a.state == Verifying && !DraftInterview(input.projection, a)
    ensures var d, next := Follow(input, Plan(input), 2), NextStep(input.projection, input.observations, a);
      && (next.Some? ==> Chooses(d, next.value))
      && (next.None? && !a.movementFailed && !a.finalGateRejected ==> d == PlanAcceptance(input))
  {
    hide Plan, PlanHead, PlanAcceptance, Cleared, NextStep, DraftInterview;
    ProceedsIffCleared(input);
    PlanHandsOver(input);
    PlanAttemptIsHead(input, a);
    HopFrom(input, Plan(input), 2);
    var next := NextStep(input.projection, input.observations, a);
    if next.Some? {
      HeadTakesNextStep(input, a);
    } else if !a.movementFailed && !a.finalGateRejected {
      AcceptanceFollows(input, a);
      HopFrom(input, PlanHead(input, a), 1);
    }
  }

  lemma HeadTakesNextStep(input: Input, a: Attempt)
    requires a.state == Verifying && !DraftInterview(input.projection, a)
    requires NextStep(input.projection, input.observations, a).Some?
    ensures Chooses(PlanHead(input, a), NextStep(input.projection, input.observations, a).value)
    ensures !IsContinuation(PlanHead(input, a))
  {
    CapturesFirst(input, a);
    VerifiesSecond(input, a);
    StartsAcceptanceThird(input, a);
    WorktreeIsLost(input, a);
    hide PlanHead, DraftInterview;
  }

  lemma AcceptanceFollows(input: Input, a: Attempt)
    requires a.state == Verifying && !DraftInterview(input.projection, a)
    requires NextStep(input.projection, input.observations, a).None? && !a.movementFailed && !a.finalGateRejected
    ensures IsContinuation(PlanHead(input, a)) && PlanHead(input, a).action.continuation == C3
  {
  }

  // --------------------------------------------------------- when nothing decides

  /** The attempt in flight was verified and says that its acceptance started,
      but the state has no such record. */
  predicate AcceptanceMissing(p: Projection, a: Attempt) {
    && a.state == Verifying && a.acceptanceStarted && !StartedInState(p, a)
    && a.attemptId in p.state.verifiedAttempts && (a.movementId in p.state.writers ==> a.changeSetRecorded)
    && !a.movementFailed && !a.finalGateRejected
  }

  lemma HeadContinuesToAcceptance(input: Input, a: Attempt)
    requires a.state in {Starting, AttemptRunning, Verifying} && !input.projection.state.run.Terminal()
    ensures IsContinuation(PlanHead(input, a)) && !StartedInState(input.projection, a) <==>
              AcceptanceMissing(input.projection, a)
  {
    hide FirstMissingQuestion, BlockingDecisionOf, RealizeRecorded;
  }

  lemma LostMeans(input: Input)
    ensures Lost(input) <==>
              && Cleared(input.projection, input.observations) && CurrentHead(input.projection).Some?
              && AcceptanceMissing(input.projection, CurrentHead(input.projection).value)
  {
    ProceedsIffCleared(input);
    var p := input.projection;
    if CurrentHead(p).Some? && InFlight(p) && !p.state.run.Terminal() {
      HeadContinuesToAcceptance(input, CurrentHead(p).value);
    }
    hide PlanHead, Plan, NothingOwed, AllPresent, AuthorityHeld, AnyBlockingDecision, MissingDecisionRequest,
      StartedInState;
  }

  /** The continuations of the planner end exactly unless C.1 lets pass and the
      head attempt's acceptance is missing from the state. */
  lemma ContinuationsEndExactly(input: Input)
    requires HasVerdicts(input.projection)
    ensures (exists hops :: !IsContinuation(Follow(input, Plan(input), hops))) <==>
              !(&& Cleared(input.projection, input.observations) && CurrentHead(input.projection).Some?
                && AcceptanceMissing(input.projection, CurrentHead(input.projection).value))
  {
    LostMeans(input);
    ContinuationsEndIff(input);
    hide Lost, Cleared, AcceptanceMissing, HasVerdicts, Plan, Follow;
  }
}
