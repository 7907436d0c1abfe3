/** The recovery planner: the tables C.1 to C.4 and the selector between units.
    Every table is a pure decision over already replayed facts and
    observations; nothing here reads files or inspects processes. */
module Recovery {
  import opened Results
  import NameOrder

  type Id = string

  datatype CaseId =
    | TailRepair | Terminal | StaleLease | OrphanLease | OwnerUnverifiable | LiveOwner | Cancellation
    | PendingPrepare | HumanGateWaiting | ReclaimAuthority | OpenExecution | RootSnapshotDivergence
    | MissingReference | BlockedProposalRoute | RoutedAmendment | RevisionRestart | CompositionTerminal
    | FinalizationRebuild | Continue | DraftNoBlockingOutput | RealizeDisposition | AppendQuestion
    | WaitingHuman | DecisionResume | UnstartedAttempt | UnprobedAttempt | IncompleteAttempt
    | CaptureChangeSet | PostHocVerification | StartAcceptance | MovementSucceededCase | RunFailedCase
    | FinalGateRejected | AcceptanceFailed | CriterionFailed | IncompleteCriterion | CriteriaPassed
    | RequestHumanGate | HumanGateApproved | HumanGateRejected | GateFreeCompletion | UnjournaledLaunch
    | FirstCriterion | NextCriterion | SchedulerCase | RecoveredComposition | BudgetExhausted

  datatype HaltReason =
    | OwnerUnknown | RootDivergence | MissingArtifact | MissingSnapshot | MissingChangeSet
    | MissingProposal | MissingCast | MissingPlan | SweepUnknown | HandoffUnknown

  datatype ActionKind =
    | RepairJournalTail | TerminalCleanup | RemoveStaleLease | QuarantineOrphanLease | RefuseResume
    | ExecuteCancellation | CompleteOrAbandonPrepare | ReturnWaitingHuman | Reclaim
    | CloseOpenExecution | AppendBlockedRoute | AppendRoutedRequest | SelectRevisionRestart
    | AppendCompositionTerminal | RebuildFinalization | ProceedAttempt | ProceedAcceptance | ProceedScheduler
    | AppendDraftFailure | RealizeRecordedDisposition | AppendQuestionRequest | SelectDecisionResume
    | RecoverUnstarted | RecoverUnprobed | RecoverIncomplete | CaptureChanges | FailWorktreeLost
    | RerunVerification | AppendAcceptanceStarted | AppendMovementSucceeded | AppendRunFailed
    | AppendFinalGateFailure | AppendAcceptanceFailure | RecoverCriterion | VerifySubject
    | AppendEvaluationCompleted | AppendGateRequest | AppendAcceptanceSuccess | AppendGateRejected
    | StabilizeLaunch | RemoveLaunch | ResumeCriterion | AppendMovementReady | AppendMovementStarted
    | SelectInitialPerformer | MaterializeSuccessor | RerunComposition | ComposeCandidate | AppendBudgetFailure

  /** Which table goes on after an action; none for most actions. */
  datatype Continuation = Nowhere | C2 | C3 | C4

  datatype Successor = Successor(movementId: Id, attemptId: Id, performer: Id, reason: string)

  datatype Action = Action(kind: ActionKind, replan: bool, continuation: Continuation, movementId: Id, attemptId: Id,
                           criterionId: Id, reason: string, successor: Option<Successor>, carriesCandidate: bool)

  /** An action, a named halt, or the selector's error sentinel. */
  datatype Decision =
    | Act(caseId: CaseId, action: Action)
    | Halt(caseId: CaseId, halt: HaltReason)
    | Invalid(caseId: CaseId)
  {
    predicate Valid() { !Invalid? }

    function ForMovement(id: Id): Decision { if Act? then this.(action := action.(movementId := id)) else this }
    function ForAttempt(id: Id): Decision { if Act? then this.(action := action.(attemptId := id)) else this }
    function ForCriterion(id: Id): Decision { if Act? then this.(action := action.(criterionId := id)) else this }
    function Because(text: string): Decision { if Act? then this.(action := action.(reason := text)) else this }
    function Then(next: Continuation): Decision {
      if Act? then this.(action := action.(continuation := next)) else this
    }

    function With(next: Successor): Decision {
      if Act? then this.(action := action.(successor := Some(next))) else this
    }
  }

  predicate Chooses(d: Decision, kind: ActionKind) {
    d.Act? && d.action.kind == kind
  }

  function Do(caseId: CaseId, kind: ActionKind, replan: bool): Decision {
    Act(caseId, Action(kind, replan, Nowhere, "", "", "", "", None, false))
  }

  // ------------------------------------------------------------------ inputs

  datatype RunState = NotStarted | RunRunning | RunWaitingHuman | RunSucceeded | RunFailed | RunCancelled {
    predicate Terminal() { RunSucceeded? || RunFailed? || RunCancelled? }
  }

  datatype MovementState =
    | Absent | Pending | Ready | Running | MovementWaiting | Succeeded | Failed | MovementCancelled | Inapplicable

  datatype AttemptState =
    | Starting | AttemptRunning | Verifying | Completed | Blocked | AttemptFailed | AttemptCancelled | Superseded

  datatype Outcome = NoOutcome | Pass | Fail | Error

  datatype CriterionRecord = CriterionRecord(started: bool, completed: bool, outcome: Outcome)

  datatype Acceptance = Acceptance(started: bool, planned: seq<Id>, criteria: map<Id, CriterionRecord>,
                                   evaluationCompleted: bool)
  {
    function Record(id: Id): CriterionRecord {
      if id in criteria then criteria[id] else CriterionRecord(false, false, NoOutcome)
    }
  }

  datatype PendingDecision = PendingDecision(attemptId: Id, blocking: bool)

  datatype State = State(
    run: RunState, epoch: nat, hasOwner: bool, scoreRevision: nat, cancelRequested: bool, pendingPrepare: bool,
    pendingDecisions: map<Id, PendingDecision>, openExecution: Option<string>, routedAmendments: map<Id, Id>,
    movements: map<Id, MovementState>, hasCandidate: bool, acceptances: map<Id, Acceptance>,
    probedAttempts: set<Id>, writers: set<Id>, verifiedAttempts: set<Id>)
  {
    function MovementOf(id: Id): MovementState { if id in movements then movements[id] else Absent }
  }

  datatype ScheduledMovement = ScheduledMovement(id: Id, needs: seq<Id>, repoWrite: bool, final: bool)

  datatype Scheduler = Scheduler(movements: seq<ScheduledMovement>, pendingSuccessor: Option<Successor>, draft: bool,
                                 interview: Id, gateWaived: bool, remainingTime: int)
  {
    predicate MaySelect(id: Id) { !draft || id == interview }
  }

  datatype Disposition = Disposition(charged: string)

  datatype Question = Question(decisionId: Id, durable: bool)

  datatype Attempt = Attempt(
    attemptId: Id, movementId: Id, scoreRevision: nat, state: AttemptState, dispositionRealized: bool,
    recordedDisposition: Option<Disposition>, questions: seq<Question>, changeSetRecorded: bool,
    acceptanceStarted: bool, movementSucceeded: bool, movementFailed: bool, finalGateRejected: bool, performer: Id)

  datatype Gate = Gate(required: bool, requested: bool, resolved: bool, approved: bool)

  /** What a review comes to: contested exactly when it has blocking findings. */
  datatype Verdict = Verdict(blocking: seq<Id>) {
    predicate Contested() { blocking != [] }
  }

  /** When a movement asks a person before it succeeds. */
  datatype GateMode = Never | OnContested | Always

  datatype GateAnswer = Unasked | Asked | Answered(approved: bool)

  predicate GateOpens(mode: GateMode, review: Option<Verdict>) {
    mode == Always || (mode == OnContested && review.Some? && review.value.Contested())
  }

  /** The gate as replay derives it from the recorded verdict. */
  function GateOf(mode: GateMode, review: Option<Verdict>, answer: GateAnswer): Gate {
    Gate(GateOpens(mode, review), !answer.Unasked?, answer.Answered?, answer.Answered? && answer.approved)
  }

  datatype AcceptanceFacts = AcceptanceFacts(failed: bool, gate: Gate)

  datatype BlockedRoute = BlockedRoute(proposalId: Id, attemptId: Id)

  datatype Restart = Restart(movementId: Id, attemptId: Id, approvalEvent: Id, performer: Id)

  datatype CompositionEnd = CompositionEnd(scope: string, target: Id, reason: string)

  datatype CompositionRetry = CompositionRetry(movementId: Id, recovered: bool)

  datatype Projection = Projection(
    state: State, tailRepairRequired: bool, blockedRoutes: seq<BlockedRoute>, restarts: seq<Restart>,
    compositionEnds: seq<CompositionEnd>, compositionRetry: Option<CompositionRetry>, headAttempt: Option<Attempt>,
    acceptance: Option<AcceptanceFacts>, scheduler: Scheduler, finalizationEligible: bool)

  datatype Owner = OwnerDead | OwnerLive | CurrentDriver | OwnerUnclear

  datatype Lease = Lease(exists_: bool, readable: bool, epoch: nat, owner: Owner)

  datatype ReferenceKind = ArtifactRef | ReviewInputRef | SnapshotRef | ChangeSetRef | ProposalRef | CastRef

  datatype Reference = Reference(kind: ReferenceKind, present: bool)

  datatype Handoff = HandoffSafe | HandoffUnverifiable | HandoffSweepFailed

  datatype Subject = SubjectUnverified | SubjectMatched | SubjectMismatched

  datatype Launch =
    | LaunchAbsent | Unstabilized | LaunchMarkerFree | SessionEmpty | LaunchHandoffUnverifiable
    | LaunchSweepUnverifiable

  datatype Observations = Observations(
    lease: Lease, rootDivergence: bool, references: seq<Reference>, planPresent: bool, snapshotPresent: bool,
    handoff: Handoff, adapterSweepUnverifiable: bool, worktreeMissing: bool, criterionSweepUnverifiable: bool,
    subject: Subject, launch: Launch)

  datatype Input = Input(projection: Projection, observations: Observations)

  // --------------------------------------------------------- helper predicates

  predicate AnyBlockingDecision(state: State) {
    exists id | id in state.pendingDecisions :: state.pendingDecisions[id].blocking
  }

  predicate BlockingDecisionOf(state: State, attemptId: Id) {
    exists id | id in state.pendingDecisions ::
      state.pendingDecisions[id].attemptId == attemptId && state.pendingDecisions[id].blocking
  }

  function FirstBlockedRoute(routes: seq<BlockedRoute>): Option<BlockedRoute> {
    if routes == [] then None
    else if routes[0].proposalId != "" && routes[0].attemptId != "" then Some(routes[0])
    else FirstBlockedRoute(routes[1..])
  }

  /** Some routed amendment lacks its pending decision. */
  predicate RoutedRequestMissing(state: State) {
    exists id | id in state.routedAmendments :: id != "" && state.routedAmendments[id] !in state.pendingDecisions
  }

  predicate UsableRestart(restart: Restart) {
    restart.movementId != "" && restart.attemptId != "" && restart.approvalEvent != "" && restart.performer != ""
  }

  /** The usable restart with the least movement; the earlier one on a tie. */
  function FirstRestart(restarts: seq<Restart>): Option<Restart> {
    if restarts == [] then None
    else
      var last := restarts[|restarts| - 1];
      match FirstRestart(restarts[..|restarts| - 1])
      case None => if UsableRestart(last) then Some(last) else None
      case Some(best) => if UsableRestart(last) && NameOrder.BytesBefore(last.movementId, best.movementId) then
        Some(last) else Some(best)
  }

  predicate UsableEnd(end: CompositionEnd) {
    end.scope != "" && end.target != "" && end.reason != ""
  }

  predicate AnyCompositionEnd(ends: seq<CompositionEnd>) {
    exists end | end in ends :: UsableEnd(end)
  }

  function MissingReferenceReason(kind: ReferenceKind): HaltReason {
    match kind
    case ArtifactRef => MissingArtifact
    case ReviewInputRef => MissingArtifact
    case SnapshotRef => MissingSnapshot
    case ChangeSetRef => MissingChangeSet
    case ProposalRef => MissingProposal
    case CastRef => MissingCast
  }

  /** The kinds of references, in table order. */
  const REFERENCE_KINDS := [ArtifactRef, ReviewInputRef, SnapshotRef, ChangeSetRef, ProposalRef, CastRef]

  /** The reason for the first kind, in table order, with a missing object. */
  function FirstMissing(references: seq<Reference>, kinds: seq<ReferenceKind>): Option<HaltReason> {
    if kinds == [] then None
    else if Reference(kinds[0], false) in references then Some(MissingReferenceReason(kinds[0]))
    else FirstMissing(references, kinds[1..])
  }

  function FirstMissingQuestion(questions: seq<Question>): Option<Question> {
    if questions == [] then None
    else if questions[0].decisionId != "" && !questions[0].durable then Some(questions[0])
    else FirstMissingQuestion(questions[1..])
  }

  /** The attempt of the current score revision, unless it was superseded. */
  function CurrentHead(p: Projection): Option<Attempt> {
    match p.headAttempt
    case None => None
    case Some(attempt) =>
      if attempt.scoreRevision != p.state.scoreRevision || attempt.state == Superseded then None else Some(attempt)
  }

  predicate InFlight(p: Projection) {
    match CurrentHead(p)
    case None => false
    case Some(attempt) => attempt.state in {Starting, AttemptRunning, Verifying}
  }

  predicate MissingDecisionRequest(p: Projection) {
    || FirstBlockedRoute(p.blockedRoutes).Some?
    || RoutedRequestMissing(p.state)
    || (CurrentHead(p).Some? && FirstMissingQuestion(CurrentHead(p).value.questions).Some?)
  }

  // ------------------------------------------------------------------ C.1

  function Proceed(kind: ActionKind, next: Continuation): Decision {
    Do(Continue, kind, false).Then(next)
  }

  function Plan(input: Input): Decision {
    var p, o := input.projection, input.observations;
    var state, lease := p.state, o.lease;
    if p.tailRepairRequired then Do(TailRepair, RepairJournalTail, true)
    else if state.run.Terminal() then Do(Terminal, TerminalCleanup, false)
    else if lease.exists_ && lease.readable && lease.epoch < state.epoch then Do(StaleLease, RemoveStaleLease, true)
    else if lease.exists_ && (!lease.readable || lease.epoch > state.epoch || !state.hasOwner) then
      if !lease.readable then Halt(OwnerUnverifiable, OwnerUnknown)
      else Do(OrphanLease, QuarantineOrphanLease, true)
    else if lease.exists_ && lease.epoch == state.epoch && lease.owner == OwnerLive then
      Do(LiveOwner, RefuseResume, false)
    else if lease.exists_ && lease.epoch == state.epoch && lease.owner == OwnerUnclear then
      Halt(OwnerUnverifiable, OwnerUnknown)
    else if state.cancelRequested then Do(Cancellation, ExecuteCancellation, false)
    else if state.pendingPrepare then
      if !o.planPresent then Halt(PendingPrepare, MissingPlan)
      else if !o.snapshotPresent then Halt(PendingPrepare, MissingSnapshot)
      else Do(PendingPrepare, CompleteOrAbandonPrepare, false)
    else if (!lease.exists_ || lease.owner == CurrentDriver) && AnyBlockingDecision(state) &&
      !MissingDecisionRequest(p) then
      Do(HumanGateWaiting, ReturnWaitingHuman, false)
    else if state.epoch > 0 && (!lease.exists_ || lease.owner == OwnerDead) then Do(ReclaimAuthority, Reclaim, false)
    else if state.openExecution.Some? && state.openExecution.value != "adapter" then
      Do(OpenExecution, CloseOpenExecution, true)
    else if o.rootDivergence then Halt(RootSnapshotDivergence, RootDivergence)
    else
      match FirstMissing(o.references, REFERENCE_KINDS)
      case Some(reason) => Halt(MissingReference, reason)
      case None => PlanReplayed(p)
  }

  /** The rest of C.1, which reads only replayed facts. */
  function PlanReplayed(p: Projection): Decision {
    if FirstBlockedRoute(p.blockedRoutes).Some? then Do(BlockedProposalRoute, AppendBlockedRoute, true)
    else if RoutedRequestMissing(p.state) then Do(RoutedAmendment, AppendRoutedRequest, true)
    else
      match FirstRestart(p.restarts)
      case Some(restart) =>
        Do(RevisionRestart, SelectRevisionRestart, false)
        .With(Successor(restart.movementId, restart.attemptId, restart.performer, "revision_restart")).Then(C4)
      case None =>
        if AnyCompositionEnd(p.compositionEnds) then Do(CompositionTerminal, AppendCompositionTerminal, true)
        else if p.finalizationEligible then Do(FinalizationRebuild, RebuildFinalization, true)
        else if CurrentHead(p).Some? then Proceed(ProceedAttempt, C2)
        else Proceed(ProceedScheduler, C4)
  }

  // ------------------------------------------------------------------ C.2

  function Failure(caseId: CaseId, kind: ActionKind, attemptId: Id, reason: string): Decision {
    Do(caseId, kind, true).ForAttempt(attemptId).Because(reason)
  }

  /** Carries out a durable disposition; a chosen retry goes on to C.4. */
  function RealizeRecorded(caseId: CaseId, attempt: Attempt, scheduler: Scheduler): Decision {
    var decision := Do(caseId, RealizeRecordedDisposition, true).ForAttempt(attempt.attemptId);
    match (attempt.recordedDisposition, scheduler.pendingSuccessor)
    case (Some(disposition), Some(next)) =>
      if (disposition.charged == "quality_retry" || disposition.charged == "fallback") &&
        next.attemptId == attempt.attemptId
      then Do(caseId, RealizeRecordedDisposition, false).ForAttempt(attempt.attemptId).With(next).Then(C4)
      else decision
    case _ => decision
  }

  function PlanAttempt(input: Input): Decision {
    match CurrentHead(input.projection)
    case None => Proceed(ProceedScheduler, C4)
    case Some(attempt) => PlanHead(input, attempt)
  }

  function PlanHead(input: Input, attempt: Attempt): Decision {
    var p, o := input.projection, input.observations;
    var id := attempt.attemptId;
    var verified := id in p.state.verifiedAttempts;
    var writes := attempt.movementId in p.state.writers;
    if attempt.state == Verifying && p.scheduler.draft && attempt.movementId == p.scheduler.interview &&
      !attempt.acceptanceStarted then
      Failure(DraftNoBlockingOutput, AppendDraftFailure, id, "draft_no_blocking_output")
    else if attempt.state == AttemptFailed && !attempt.dispositionRealized then
      RealizeRecorded(RealizeDisposition, attempt, p.scheduler)
    else if attempt.state == Blocked then
      if FirstMissingQuestion(attempt.questions).Some? then
        Do(AppendQuestion, AppendQuestionRequest, true).ForAttempt(id)
      else if BlockingDecisionOf(p.state, id) then Do(WaitingHuman, ReturnWaitingHuman, false)
      else
        Do(DecisionResume, SelectDecisionResume, false).ForAttempt(id)
        .With(Successor(attempt.movementId, id, attempt.performer, "decision_resume")).Then(C4)
    else if attempt.state == Starting then
      match o.handoff
      case HandoffUnverifiable => Halt(UnstartedAttempt, HandoffUnknown)
      case HandoffSweepFailed => Halt(UnstartedAttempt, SweepUnknown)
      case HandoffSafe => Failure(UnstartedAttempt, RecoverUnstarted, id, "attempt_never_started")
    else if attempt.state == AttemptRunning && id !in p.state.probedAttempts then
      if o.adapterSweepUnverifiable then Halt(UnprobedAttempt, SweepUnknown)
      else Failure(UnprobedAttempt, RecoverUnprobed, id, "probe_terminated_incomplete")
    else if attempt.state == AttemptRunning then
      if o.adapterSweepUnverifiable then Halt(IncompleteAttempt, SweepUnknown)
      else Failure(IncompleteAttempt, RecoverIncomplete, id, "attempt_terminated_incomplete")
    else if attempt.state == Verifying && writes && !attempt.changeSetRecorded then
      if o.worktreeMissing then Failure(CaptureChangeSet, FailWorktreeLost, id, "worktree_lost")
      else Do(CaptureChangeSet, CaptureChanges, true).ForAttempt(id)
    else if attempt.state == Verifying && !verified then
      if o.worktreeMissing then Failure(PostHocVerification, FailWorktreeLost, id, "worktree_lost")
      else Do(PostHocVerification, RerunVerification, true).ForAttempt(id)
    else if attempt.state == Verifying && writes && (attempt.changeSetRecorded || verified) &&
      !attempt.acceptanceStarted && o.worktreeMissing then
      Failure(StartAcceptance, FailWorktreeLost, id, "worktree_lost")
    else if attempt.state == Verifying && (attempt.changeSetRecorded || verified) && !attempt.acceptanceStarted then
      Do(StartAcceptance, AppendAcceptanceStarted, false).ForAttempt(id).Then(C3)
    else if attempt.state == Completed && !attempt.movementSucceeded then
      Do(MovementSucceededCase, AppendMovementSucceeded, true).ForAttempt(id)
    else if attempt.state == Completed then Proceed(ProceedScheduler, C4)
    else if attempt.movementFailed && !p.state.run.Terminal() then
      Do(RunFailedCase, AppendRunFailed, true).ForAttempt(id)
    else if attempt.finalGateRejected && !attempt.movementFailed then
      Do(FinalGateRejected, AppendFinalGateFailure, true).ForAttempt(id)
    else if attempt.acceptanceStarted then Proceed(ProceedAcceptance, C3).ForAttempt(id)
    else Proceed(ProceedScheduler, C4)
  }

  // ------------------------------------------------------------------ C.3

  function FirstFailed(a: Acceptance, planned: seq<Id>): Option<Id> {
    if planned == [] then None
    else if a.Record(planned[0]).completed && a.Record(planned[0]).outcome in {Fail, Error} then Some(planned[0])
    else FirstFailed(a, planned[1..])
  }

  function FirstInFlight(a: Acceptance, planned: seq<Id>): Option<Id> {
    if planned == [] then None
    else if a.Record(planned[0]).started && !a.Record(planned[0]).completed then Some(planned[0])
    else FirstInFlight(a, planned[1..])
  }

  function NextUnstarted(a: Acceptance, planned: seq<Id>): Option<Id> {
    if planned == [] then None
    else if !a.Record(planned[0]).started then Some(planned[0])
    else NextUnstarted(a, planned[1..])
  }

  predicate AllPassed(a: Acceptance) {
    forall id | id in a.planned :: a.Record(id).completed && a.Record(id).outcome == Pass
  }

  predicate AnyCompleted(a: Acceptance) {
    exists id | id in a.planned :: a.Record(id).completed
  }

  function FailureOf(outcome: Outcome): string {
    if outcome == Fail then "criterion_failed" else "criterion_errored"
  }

  function AcceptanceFailure(caseId: CaseId, attemptId: Id, criterionId: Id, reason: string): Decision {
    Do(caseId, AppendAcceptanceFailure, true).ForAttempt(attemptId).ForCriterion(criterionId).Because(reason)
  }

  function PlanAcceptance(input: Input): Decision {
    var p, o := input.projection, input.observations;
    match CurrentHead(p)
    case None => Proceed(ProceedScheduler, C4)
    case Some(attempt) =>
      var id := attempt.attemptId;
      if id !in p.state.acceptances || !p.state.acceptances[id].started then Proceed(ProceedScheduler, C4)
      else PlanStarted(p, o, attempt, p.state.acceptances[id])
  }

  function PlanStarted(p: Projection, o: Observations, attempt: Attempt, a: Acceptance): Decision {
    var id := attempt.attemptId;
    var failed, open := FirstFailed(a, a.planned), FirstInFlight(a, a.planned);
    if p.acceptance.Some? && p.acceptance.value.failed then RealizeRecorded(AcceptanceFailed, attempt, p.scheduler)
    else if failed.Some? then
      AcceptanceFailure(CriterionFailed, id, failed.value, FailureOf(a.Record(failed.value).outcome))
    else if open.Some? then
      if o.criterionSweepUnverifiable then Halt(IncompleteCriterion, SweepUnknown)
      else Do(IncompleteCriterion, RecoverCriterion, true).ForAttempt(id).ForCriterion(open.value)
    else if a.evaluationCompleted then PlanEvaluated(p, o, attempt)
    else PlanCriteria(o, id, a)
  }

  /** Nothing failed, nothing in flight, not yet evaluated. */
  function PlanCriteria(o: Observations, id: Id, a: Acceptance): Decision {
    if AllPassed(a) then
      match o.subject
      case SubjectMismatched => AcceptanceFailure(CriteriaPassed, id, "", "recovery_subject_mismatch")
      case SubjectMatched => Do(CriteriaPassed, AppendEvaluationCompleted, true).ForAttempt(id)
      case SubjectUnverified => Do(CriteriaPassed, VerifySubject, true).ForAttempt(id)
    else if o.launch != LaunchAbsent then PlanLaunch(o.launch, id)
    else
      var caseId := if AnyCompleted(a) then NextCriterion else FirstCriterion;
      match o.subject
      case SubjectMismatched => AcceptanceFailure(caseId, id, "", "recovery_subject_mismatch")
      case SubjectUnverified => Do(caseId, VerifySubject, true).ForAttempt(id)
      case SubjectMatched =>
        var next := NextUnstarted(a, a.planned);
        if next.Some? then Do(caseId, ResumeCriterion, true).ForAttempt(id).ForCriterion(next.value)
        else Proceed(ProceedScheduler, C4)
  }

  function PlanEvaluated(p: Projection, o: Observations, attempt: Attempt): Decision {
    var gate := if p.acceptance.Some? then p.acceptance.value.gate else Gate(false, false, false, false);
    var id := attempt.attemptId;
    if gate.required && !gate.requested then Do(RequestHumanGate, AppendGateRequest, true).ForAttempt(id)
    else if gate.required && !gate.resolved then Do(HumanGateWaiting, ReturnWaitingHuman, false)
    else if gate.required && !gate.approved then
      Do(HumanGateRejected, AppendGateRejected, true).ForAttempt(id).ForMovement(attempt.movementId)
    else
      var caseId := if gate.required then HumanGateApproved else GateFreeCompletion;
      match o.subject
      case SubjectMismatched => AcceptanceFailure(caseId, id, "", "recovery_subject_mismatch")
      case SubjectMatched => Do(caseId, AppendAcceptanceSuccess, true).ForAttempt(id).ForMovement(attempt.movementId)
      case SubjectUnverified => Do(caseId, VerifySubject, true).ForAttempt(id)
  }

  function PlanLaunch(launch: Launch, attemptId: Id): Decision
    requires launch != LaunchAbsent
  {
    match launch
    case LaunchHandoffUnverifiable => Halt(UnjournaledLaunch, HandoffUnknown)
    case LaunchSweepUnverifiable => Halt(UnjournaledLaunch, SweepUnknown)
    case LaunchMarkerFree => Do(UnjournaledLaunch, RemoveLaunch, true).ForAttempt(attemptId).Then(C3)
    case SessionEmpty => Do(UnjournaledLaunch, RemoveLaunch, true).ForAttempt(attemptId).Then(C3)
    case Unstabilized => Do(UnjournaledLaunch, StabilizeLaunch, true).ForAttempt(attemptId)
  }

  // ------------------------------------------------------------------ C.4

  predicate DependenciesSucceeded(state: State, needs: seq<Id>) {
    forall need | need in needs :: state.MovementOf(need) == Succeeded
  }

  /** A pending movement that may become ready; the final one needs the candidate. */
  predicate Promotable(state: State, s: Scheduler, m: ScheduledMovement) {
    && s.MaySelect(m.id) && state.MovementOf(m.id) == Pending && DependenciesSucceeded(state, m.needs)
    && !(m.final && !s.gateWaived && !state.hasCandidate)
  }

  predicate Startable(state: State, s: Scheduler, m: ScheduledMovement) {
    s.MaySelect(m.id) && state.MovementOf(m.id) in {Ready, Running}
  }

  function FirstPromotable(state: State, s: Scheduler, movements: seq<ScheduledMovement>): Option<ScheduledMovement> {
    if movements == [] then None
    else if Promotable(state, s, movements[0]) then Some(movements[0])
    else FirstPromotable(state, s, movements[1..])
  }

  function FirstStartable(state: State, s: Scheduler, movements: seq<ScheduledMovement>): Option<ScheduledMovement> {
    if movements == [] then None
    else if Startable(state, s, movements[0]) then Some(movements[0])
    else FirstStartable(state, s, movements[1..])
  }

  function FirstRunning(state: State, movements: seq<ScheduledMovement>): Option<ScheduledMovement> {
    if movements == [] then None
    else if state.MovementOf(movements[0].id) == Running then Some(movements[0])
    else FirstRunning(state, movements[1..])
  }

  /** Every writer before the final movement has succeeded. */
  predicate CandidatePrecondition(state: State, s: Scheduler) {
    forall m | m in s.movements && !m.final && m.repoWrite :: state.MovementOf(m.id) == Succeeded
  }

  predicate WaivedCompletion(state: State, s: Scheduler) {
    s.movements != [] && forall m | m in s.movements :: state.MovementOf(m.id) in {Succeeded, Inapplicable}
  }

  function BudgetExhaustion(state: State, s: Scheduler): Decision {
    match FirstRunning(state, s.movements)
    case Some(m) => Do(BudgetExhausted, AppendBudgetFailure, true).ForMovement(m.id).Because("budget_exhausted")
    case None => Do(BudgetExhausted, AppendRunFailed, true).Because("budget_exhausted")
  }

  /** The selector of one lifecycle choice between units. */
  function PlanBetweenUnit(state: State, s: Scheduler): Decision {
    if s.remainingTime == 0 then BudgetExhaustion(state, s)
    else if s.pendingSuccessor.Some? then
      var next := s.pendingSuccessor.value;
      Do(SchedulerCase, MaterializeSuccessor, true).With(next).ForMovement(next.movementId)
    else
      match FirstPromotable(state, s, s.movements)
      case Some(m) => Do(SchedulerCase, AppendMovementReady, true).ForMovement(m.id)
      case None =>
        match FirstStartable(state, s, s.movements)
        case Some(m) =>
          Do(SchedulerCase, if state.MovementOf(m.id) == Ready then
            AppendMovementStarted else SelectInitialPerformer, true).ForMovement(m.id)
        case None =>
          if s.gateWaived && WaivedCompletion(state, s) then
            Act(SchedulerCase, Action(ComposeCandidate, true, Nowhere, "", "", "", "", None, true))
          else if !s.gateWaived && !state.hasCandidate && CandidatePrecondition(state, s) then
            Do(SchedulerCase, ComposeCandidate, true)
          else Invalid(SchedulerCase)
  }

  function PlanScheduler(input: Input): Decision {
    var p := input.projection;
    if p.state.run.Terminal() then Do(Terminal, TerminalCleanup, false)
    else if InFlight(p) then Proceed(ProceedAttempt, C2)
    else
      var decision := PlanBetweenUnit(p.state, p.scheduler);
      if decision.caseId == BudgetExhausted then decision
      else if p.compositionRetry.Some? && p.compositionRetry.value.recovered then
        Do(RecoveredComposition, RerunComposition, true).ForMovement(p.compositionRetry.value.movementId)
      else if !decision.Valid() then Do(SchedulerCase, ProceedScheduler, false)
      else decision
  }
}
