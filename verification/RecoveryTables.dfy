/** The recovery tables as the design gives them: rows with a condition on the
    facts, read from the top, and the answer of each row. The planner decides
    by the first row that applies. */
module RecoveryTables {
  import opened Results
  import opened Recovery
  import NameOrder

  // ----------------------------------------------------------------- the facts

  function Plain(kind: ActionKind, replan: bool): Action {
    Action(kind, replan, Nowhere, "", "", "", "", None, false)
  }

  /** The attempt that the tables speak of: of the current revision and not superseded. */
  ghost predicate IsHead(p: Projection, a: Attempt) {
    p.headAttempt == Some(a) && a.scoreRevision == p.state.scoreRevision && a.state != Superseded
  }

  ghost predicate Unrouted(p: Projection) {
    exists r | r in p.blockedRoutes :: r.proposalId != "" && r.attemptId != ""
  }

  ghost predicate Unrequested(p: Projection) {
    exists id | id in p.state.routedAmendments ::
      id != "" && p.state.routedAmendments[id] !in p.state.pendingDecisions
  }

  ghost predicate Unasked(a: Attempt) {
    exists q | q in a.questions :: q.decisionId != "" && !q.durable
  }

  ghost predicate Usable(r: Restart) {
    r.movementId != "" && r.attemptId != "" && r.approvalEvent != "" && r.performer != ""
  }

  /** The usable restart of the least movement, the earlier one of two. */
  ghost predicate IsRestart(restarts: seq<Restart>, r: Restart) {
    exists i | 0 <= i < |restarts| ::
      && restarts[i] == r && Usable(r)
      && (forall j | 0 <= j < |restarts| && Usable(restarts[j]) ::
            !NameOrder.BytesBefore(restarts[j].movementId, r.movementId))
      && (forall j | 0 <= j < i && Usable(restarts[j]) :: restarts[j].movementId != r.movementId)
  }

  lemma {:induction false} RouteIff(routes: seq<BlockedRoute>)
    ensures FirstBlockedRoute(routes).Some? <==> exists r | r in routes :: r.proposalId != "" && r.attemptId != ""
    decreases |routes|
  {
    if routes != [] {
      RouteIff(routes[1..]);
      assert routes == [routes[0]] + routes[1..];
    }
  }

  lemma {:induction false} QuestionIff(questions: seq<Question>)
    ensures FirstMissingQuestion(questions).Some? <==> exists q | q in questions :: q.decisionId != "" && !q.durable
    decreases |questions|
  {
    if questions != [] {
      QuestionIff(questions[1..]);
      assert questions == [questions[0]] + questions[1..];
    }
  }

  lemma HeadIff(p: Projection)
    ensures CurrentHead(p).Some? <==> exists a :: IsHead(p, a)
    ensures forall a :: IsHead(p, a) <==> CurrentHead(p) == Some(a)
  {
    if CurrentHead(p).Some? {
      assert IsHead(p, CurrentHead(p).value);
    }
  }

  lemma {:induction false} RestartIff(restarts: seq<Restart>)
    ensures FirstRestart(restarts).None? <==> forall r | r in restarts :: !Usable(r)
    ensures FirstRestart(restarts).Some? ==> IsRestart(restarts, FirstRestart(restarts).value)
    decreases |restarts|
  {
    if restarts != [] {
      var init, last := restarts[..|restarts| - 1], restarts[|restarts| - 1];
      RestartIff(init);
      assert restarts == init + [last];
      hide FirstRestart;
      OneMoreRestart(init, last);
    }
  }

  lemma OneMoreRestart(init: seq<Restart>, last: Restart)
    requires FirstRestart(init).None? <==> forall r | r in init :: !Usable(r)
    requires FirstRestart(init).Some? ==> IsRestart(init, FirstRestart(init).value)
    ensures FirstRestart(init + [last]).Some? ==> IsRestart(init + [last], FirstRestart(init + [last]).value)
    ensures FirstRestart(init + [last]).None? <==> FirstRestart(init).None? && !Usable(last)
  {
    var all := init + [last];
    assert all[..|all| - 1] == init && all[|init|] == last;
    match FirstRestart(init) {
      case None =>
        if Usable(last) {
          NameOrder.BytesTrichotomy(last.movementId, last.movementId);
          assert forall j | 0 <= j < |init| :: all[j] in init;
          assert IsRestart(all, last);
        }
      case Some(best) =>
        NameOrder.BytesTrichotomy(last.movementId, best.movementId);
        if Usable(last) && NameOrder.BytesBefore(last.movementId, best.movementId) {
          NewBest(init, last, best);
        } else {
          var i :| 0 <= i < |init| && init[i] == best && Usable(best)
            && (forall j | 0 <= j < |init| && Usable(init[j]) ::
                  !NameOrder.BytesBefore(init[j].movementId, best.movementId))
            && (forall j | 0 <= j < i && Usable(init[j]) :: init[j].movementId != best.movementId);
          assert all[i] == best;
        }
    }
  }

  lemma NewBest(init: seq<Restart>, last: Restart, best: Restart)
    requires IsRestart(init, best) && Usable(last) && NameOrder.BytesBefore(last.movementId, best.movementId)
    ensures IsRestart(init + [last], last)
  {
    var all := init + [last];
    NameOrder.BytesTrichotomy(last.movementId, last.movementId);
    forall j | 0 <= j < |init| && Usable(init[j])
      ensures !NameOrder.BytesBefore(init[j].movementId, last.movementId) && init[j].movementId != last.movementId
    {
      NameOrder.BytesTrichotomy(last.movementId, best.movementId);
      if NameOrder.BytesBefore(init[j].movementId, last.movementId) {
        NameOrder.BytesBeforeThen(init[j].movementId, last.movementId, best.movementId);
      }
    }
    assert all[|init|] == last;
  }

  // ------------------------------------------------------------------- table C.1

  /** The condition of a row, taken by itself. */
  ghost predicate C1Row(row: CaseId, input: Input) {
    var p, o := input.projection, input.observations;
    var state, lease := p.state, o.lease;
    match row
    case TailRepair => p.tailRepairRequired
    case Terminal => state.run in {RunSucceeded, RunFailed, RunCancelled}
    case StaleLease => lease.exists_ && lease.readable && lease.epoch < state.epoch
    case OrphanLease => lease.exists_ && lease.readable && (lease.epoch > state.epoch || !state.hasOwner)
    case OwnerUnverifiable =>
      lease.exists_ && (!lease.readable || (lease.epoch == state.epoch && lease.owner == OwnerUnclear))
    case LiveOwner => lease.exists_ && lease.readable && lease.epoch == state.epoch && lease.owner == OwnerLive
    case Cancellation => state.cancelRequested
    case PendingPrepare => state.pendingPrepare
    case HumanGateWaiting =>
      && (!lease.exists_ || lease.owner == CurrentDriver)
      && (exists id | id in state.pendingDecisions :: state.pendingDecisions[id].blocking)
      && !Unrouted(p) && !Unrequested(p) && !(exists a :: IsHead(p, a) && Unasked(a))
    case ReclaimAuthority => state.epoch > 0 && (!lease.exists_ || lease.owner == OwnerDead)
    case OpenExecution => state.openExecution.Some? && state.openExecution.value != "adapter"
    case RootSnapshotDivergence => o.rootDivergence
    case MissingReference => exists r | r in o.references :: !r.present
    case BlockedProposalRoute => Unrouted(p)
    case RoutedAmendment => Unrequested(p)
    case RevisionRestart => exists r | r in p.restarts :: Usable(r)
    case CompositionTerminal => exists e | e in p.compositionEnds :: e.scope != "" && e.target != "" && e.reason != ""
    case FinalizationRebuild => p.finalizationEligible
    case Continue => true
    case _ => false
  }

  /** The place of a row in the table. */
  function C1Place(row: CaseId): nat {
    match row
    case TailRepair => 0 case Terminal => 1 case StaleLease => 2 case OrphanLease => 3 case OwnerUnverifiable => 4
    case LiveOwner => 5 case Cancellation => 6 case PendingPrepare => 7 case HumanGateWaiting => 8
    case ReclaimAuthority => 9 case OpenExecution => 10 case RootSnapshotDivergence => 11 case MissingReference => 12
    case BlockedProposalRoute => 13 case RoutedAmendment => 14 case RevisionRestart => 15
    case CompositionTerminal => 16 case FinalizationRebuild => 17 case _ => 18
  }

  function ReferencePlace(kind: ReferenceKind): nat {
    match kind
    case ArtifactRef => 0 case ReviewInputRef => 1 case SnapshotRef => 2
    case ChangeSetRef => 3 case ProposalRef => 4 case CastRef => 5
  }

  /** The halt names the first kind of reference, in this order, that is missing. */
  ghost predicate IsMissing(references: seq<Reference>, reason: HaltReason) {
    exists r | r in references ::
      && !r.present
      && (forall s | s in references && !s.present :: ReferencePlace(r.kind) <= ReferencePlace(s.kind))
      && reason == match r.kind
         case ArtifactRef => MissingArtifact case ReviewInputRef => MissingArtifact
         case SnapshotRef => MissingSnapshot case ChangeSetRef => MissingChangeSet
         case ProposalRef => MissingProposal case CastRef => MissingCast
  }

  /** The answer of a row. */
  ghost predicate C1Answer(row: CaseId, input: Input, d: Decision) {
    var p, o := input.projection, input.observations;
    match row
    case TailRepair => d == Act(row, Plain(RepairJournalTail, true))
    case Terminal => d == Act(row, Plain(TerminalCleanup, false))
    case StaleLease => d == Act(row, Plain(RemoveStaleLease, true))
    case OrphanLease => d == Act(row, Plain(QuarantineOrphanLease, true))
    case OwnerUnverifiable => d == Halt(row, OwnerUnknown)
    case LiveOwner => d == Act(row, Plain(RefuseResume, false))
    case Cancellation => d == Act(row, Plain(ExecuteCancellation, false))
    case PendingPrepare =>
      if !o.planPresent then d == Halt(row, MissingPlan)
      else if !o.snapshotPresent then d == Halt(row, MissingSnapshot)
      else d == Act(row, Plain(CompleteOrAbandonPrepare, false))
    case HumanGateWaiting => d == Act(row, Plain(ReturnWaitingHuman, false))
    case ReclaimAuthority => d == Act(row, Plain(Reclaim, false))
    case OpenExecution => d == Act(row, Plain(CloseOpenExecution, true))
    case RootSnapshotDivergence => d == Halt(row, RootDivergence)
    case MissingReference => d.Halt? && d.caseId == row && IsMissing(o.references, d.halt)
    case BlockedProposalRoute => d == Act(row, Plain(AppendBlockedRoute, true))
    case RoutedAmendment => d == Act(row, Plain(AppendRoutedRequest, true))
    case RevisionRestart =>
      exists r :: IsRestart(p.restarts, r) && d == Act(row, Plain(SelectRevisionRestart, false)
        .(continuation := C4, successor := Some(Successor(r.movementId, r.attemptId, r.performer, "revision_restart"))))
    case CompositionTerminal => d == Act(row, Plain(AppendCompositionTerminal, true))
    case FinalizationRebuild => d == Act(row, Plain(RebuildFinalization, true))
    case Continue =>
      d == Act(row, if exists a :: IsHead(p, a) then Plain(ProceedAttempt, false).(continuation := C2)
                    else Plain(ProceedScheduler, false).(continuation := C4))
    case _ => false
  }

  lemma MissingIff(references: seq<Reference>)
    ensures FirstMissing(references, REFERENCE_KINDS).Some? <==> exists r | r in references :: !r.present
    ensures FirstMissing(references, REFERENCE_KINDS).Some? ==>
              IsMissing(references, FirstMissing(references, REFERENCE_KINDS).value)
  {
    MissingFrom(references, 0);
    assert REFERENCE_KINDS[0..] == REFERENCE_KINDS;
  }

  lemma {:induction false} MissingFrom(references: seq<Reference>, k: nat)
    requires k <= 6
    requires forall r | r in references && !r.present :: k <= ReferencePlace(r.kind)
    ensures FirstMissing(references, REFERENCE_KINDS[k..]).Some? <==> exists r | r in references :: !r.present
    ensures FirstMissing(references, REFERENCE_KINDS[k..]).Some? ==>
              IsMissing(references, FirstMissing(references, REFERENCE_KINDS[k..]).value)
    decreases 6 - k
  {
    var kinds := REFERENCE_KINDS[k..];
    if k == 6 {
      assert kinds == [];
      assert forall r: Reference :: ReferencePlace(r.kind) < 6;
    } else {
      var kind := kinds[0];
      assert kind == REFERENCE_KINDS[k] && ReferencePlace(kind) == k && kinds[1..] == REFERENCE_KINDS[k + 1..];
      if Reference(kind, false) in references {
        assert IsMissing(references, MissingReferenceReason(kind));
      } else {
        forall r | r in references && !r.present ensures k + 1 <= ReferencePlace(r.kind) {
          assert r == Reference(r.kind, false);
          SamePlace(r.kind, kind);
        }
        MissingFrom(references, k + 1);
      }
    }
  }

  lemma SamePlace(a: ReferenceKind, b: ReferenceKind)
    ensures ReferencePlace(a) == ReferencePlace(b) ==> a == b
  {
  }

  lemma C1Facts(p: Projection, o: Observations)
    ensures AnyBlockingDecision(p.state) <==>
              exists id | id in p.state.pendingDecisions :: p.state.pendingDecisions[id].blocking
    ensures MissingDecisionRequest(p) <==> Unrouted(p) || Unrequested(p) || exists a :: IsHead(p, a) && Unasked(a)
    ensures FirstBlockedRoute(p.blockedRoutes).Some? <==> Unrouted(p)
    ensures RoutedRequestMissing(p.state) <==> Unrequested(p)
    ensures FirstRestart(p.restarts).Some? <==> exists r | r in p.restarts :: Usable(r)
    ensures AnyCompositionEnd(p.compositionEnds) <==>
              exists e | e in p.compositionEnds :: e.scope != "" && e.target != "" && e.reason != ""
    ensures CurrentHead(p).Some? <==> exists a :: IsHead(p, a)
  {
    RouteIff(p.blockedRoutes);
    RestartIff(p.restarts);
    HeadIff(p);
    if CurrentHead(p).Some? {
      QuestionIff(CurrentHead(p).value.questions);
    }
    hide FirstBlockedRoute, FirstRestart, FirstMissingQuestion, CurrentHead;
  }

  /** The rows that read only replayed facts. */
  lemma ReplayedApplies(input: Input)
    ensures var d := PlanReplayed(input.projection);
      C1Row(d.caseId, input) && C1Answer(d.caseId, input, d) && C1Place(d.caseId) >= 13
  {
    ReplayedRow(input);
    ReplayedAnswer(input);
    hide PlanReplayed, C1Row, C1Answer;
  }

  lemma ReplayedRow(input: Input)
    ensures var d := PlanReplayed(input.projection); C1Row(d.caseId, input) && C1Place(d.caseId) >= 13
  {
    C1Facts(input.projection, input.observations);
    hide C1Answer, FirstBlockedRoute, FirstRestart, RoutedRequestMissing, AnyBlockingDecision, MissingDecisionRequest,
      AnyCompositionEnd, CurrentHead, Unrouted, Unrequested, Unasked, IsHead, Usable;
  }

  lemma ReplayedAnswer(input: Input)
    ensures C1Answer(PlanReplayed(input.projection).caseId, input, PlanReplayed(input.projection))
  {
    HeadIff(input.projection);
    RestartIff(input.projection.restarts);
    hide C1Row, FirstBlockedRoute, FirstRestart, RoutedRequestMissing, AnyCompositionEnd, CurrentHead, IsMissing,
      IsRestart, IsHead, Usable;
  }

  lemma ReplayedNothingAbove(input: Input, row: CaseId)
    requires C1Row(row, input) && C1Place(row) >= 13
    ensures C1Place(PlanReplayed(input.projection).caseId) <= C1Place(row)
  {
    C1Facts(input.projection, input.observations);
    hide FirstBlockedRoute, FirstRestart, RoutedRequestMissing, AnyBlockingDecision, MissingDecisionRequest,
      AnyCompositionEnd, CurrentHead, Unrouted, Unrequested, IsHead, Usable;
  }

  lemma C1Applies(input: Input)
    ensures C1Row(Plan(input).caseId, input) && C1Answer(Plan(input).caseId, input, Plan(input))
  {
    PlanRow(input);
    PlanAnswer(input);
    hide Plan, C1Row, C1Answer;
  }

  lemma PlanRow(input: Input)
    ensures C1Row(Plan(input).caseId, input)
  {
    C1Facts(input.projection, input.observations);
    MissingIff(input.observations.references);
    ReplayedApplies(input);
    hide C1Answer, PlanReplayed, FirstMissing, FirstBlockedRoute, FirstRestart, RoutedRequestMissing,
      AnyBlockingDecision, MissingDecisionRequest, AnyCompositionEnd, CurrentHead, IsMissing, IsRestart, Unrouted,
      Unrequested, Unasked, IsHead, Usable;
  }

  lemma PlanAnswer(input: Input)
    ensures C1Answer(Plan(input).caseId, input, Plan(input))
  {
    MissingIff(input.observations.references);
    ReplayedApplies(input);
    hide C1Row, PlanReplayed, FirstMissing, AnyBlockingDecision, MissingDecisionRequest, IsMissing, IsRestart, IsHead;
  }

  lemma ControlNothingAbove(input: Input, row: CaseId)
    requires C1Row(row, input) && C1Place(row) < 8
    ensures C1Place(Plan(input).caseId) <= C1Place(row)
  {
    hide PlanReplayed, FirstMissing, AnyBlockingDecision, MissingDecisionRequest, CurrentHead, Unrouted, Unrequested,
      Unasked, IsHead, Usable;
  }

  lemma ObservedNothingAbove(input: Input, row: CaseId)
    requires C1Row(row, input) && 8 <= C1Place(row) < 13
    ensures C1Place(Plan(input).caseId) <= C1Place(row)
  {
    C1Facts(input.projection, input.observations);
    MissingIff(input.observations.references);
    hide PlanReplayed, FirstMissing, FirstBlockedRoute, FirstRestart, RoutedRequestMissing, AnyBlockingDecision,
      MissingDecisionRequest, AnyCompositionEnd, CurrentHead, IsMissing, Unrouted, Unrequested, Unasked, IsHead, Usable;
  }

  lemma PassesToReplayed(input: Input)
    ensures C1Place(Plan(input).caseId) < 13 || Plan(input) == PlanReplayed(input.projection)
  {
    hide PlanReplayed, FirstMissing, AnyBlockingDecision, MissingDecisionRequest;
  }

  lemma C1NothingAbove(input: Input, row: CaseId)
    requires C1Row(row, input)
    ensures C1Place(Plan(input).caseId) <= C1Place(row)
  {
    hide Plan, PlanReplayed, C1Row;
    if C1Place(row) < 8 {
      ControlNothingAbove(input, row);
    } else if C1Place(row) < 13 {
      ObservedNothingAbove(input, row);
    } else {
      PassesToReplayed(input);
      ReplayedNothingAbove(input, row);
    }
  }

  /** The planner picks a row of C.1 that applies, gives its answer, and no row
      above it applies. */
  lemma C1FromTheTop(input: Input)
    ensures var d := Plan(input);
      && C1Row(d.caseId, input) && C1Answer(d.caseId, input, d)
      && forall row | C1Row(row, input) :: C1Place(d.caseId) <= C1Place(row)
  {
    hide Plan, C1Row, C1Answer;
    C1Applies(input);
    forall row | C1Row(row, input) ensures C1Place(Plan(input).caseId) <= C1Place(row) {
      C1NothingAbove(input, row);
    }
  }

  // ------------------------------------------------------------------- table C.2

  ghost predicate Waits(p: Projection, a: Attempt) {
    exists id | id in p.state.pendingDecisions ::
      p.state.pendingDecisions[id].attemptId == a.attemptId && p.state.pendingDecisions[id].blocking
  }

  ghost predicate C2Row(row: CaseId, input: Input, a: Attempt) {
    var p, o := input.projection, input.observations;
    match row
    case DraftNoBlockingOutput =>
      a.state == Verifying && p.scheduler.draft && a.movementId == p.scheduler.interview && !a.acceptanceStarted
    case RealizeDisposition => a.state == AttemptFailed && !a.dispositionRealized
    case AppendQuestion => a.state == Blocked && Unasked(a)
    case WaitingHuman => a.state == Blocked && Waits(p, a)
    case DecisionResume => a.state == Blocked
    case UnstartedAttempt => a.state == Starting
    case UnprobedAttempt => a.state == AttemptRunning && a.attemptId !in p.state.probedAttempts
    case IncompleteAttempt => a.state == AttemptRunning
    case CaptureChangeSet => a.state == Verifying && a.movementId in p.state.writers && !a.changeSetRecorded
    case PostHocVerification => a.state == Verifying && a.attemptId !in p.state.verifiedAttempts
    case StartAcceptance => a.state == Verifying && !a.acceptanceStarted
    case MovementSucceededCase => a.state == Completed && !a.movementSucceeded
    case RunFailedCase => a.state != Completed && a.movementFailed &&
      p.state.run !in {RunSucceeded, RunFailed, RunCancelled}
    case FinalGateRejected => a.state != Completed && a.finalGateRejected && !a.movementFailed
    case Continue => true
    case _ => false
  }

  function C2Place(row: CaseId): nat {
    match row
    case DraftNoBlockingOutput => 0 case RealizeDisposition => 1 case AppendQuestion => 2 case WaitingHuman => 3
    case DecisionResume => 4 case UnstartedAttempt => 5 case UnprobedAttempt => 6 case IncompleteAttempt => 7
    case CaptureChangeSet => 8 case PostHocVerification => 9 case StartAcceptance => 10
    case MovementSucceededCase => 11 case RunFailedCase => 12 case FinalGateRejected => 13 case _ => 14
  }

  /** The failure that a row records for the attempt. */
  function Fails(row: CaseId, kind: ActionKind, a: Attempt, reason: string): Decision {
    Act(row, Plain(kind, true).(attemptId := a.attemptId, reason := reason))
  }

  function Records(row: CaseId, kind: ActionKind, a: Attempt): Decision {
    Act(row, Plain(kind, true).(attemptId := a.attemptId))
  }

  /** A recorded disposition is carried out once. One that chose a successor of
      this attempt hands it to C.4, any other goes back to the top. */
  function Realizes(row: CaseId, a: Attempt, s: Scheduler): Decision {
    if && a.recordedDisposition.Some? && a.recordedDisposition.value.charged in {"quality_retry", "fallback"}
       && s.pendingSuccessor.Some? && s.pendingSuccessor.value.attemptId == a.attemptId then
      Act(row, Plain(RealizeRecordedDisposition, false)
        .(attemptId := a.attemptId, successor := s.pendingSuccessor, continuation := C4))
    else Records(row, RealizeRecordedDisposition, a)
  }

  ghost predicate C2Answer(row: CaseId, input: Input, a: Attempt, d: Decision) {
    var p, o := input.projection, input.observations;
    match row
    case DraftNoBlockingOutput => d == Fails(row, AppendDraftFailure, a, "draft_no_blocking_output")
    case RealizeDisposition => d == Realizes(row, a, p.scheduler)
    case AppendQuestion => d == Records(row, AppendQuestionRequest, a)
    case WaitingHuman => d == Act(row, Plain(ReturnWaitingHuman, false))
    case DecisionResume =>
      d == Act(row, Plain(SelectDecisionResume, false).(attemptId := a.attemptId, continuation := C4,
        successor := Some(Successor(a.movementId, a.attemptId, a.performer, "decision_resume"))))
    case UnstartedAttempt =>
      d == if o.handoff == HandoffUnverifiable then Halt(row, HandoffUnknown)
           else if o.handoff == HandoffSweepFailed then Halt(row, SweepUnknown)
           else Fails(row, RecoverUnstarted, a, "attempt_never_started")
    case UnprobedAttempt =>
      d == if o.adapterSweepUnverifiable then Halt(row, SweepUnknown)
           else Fails(row, RecoverUnprobed, a, "probe_terminated_incomplete")
    case IncompleteAttempt =>
      d == if o.adapterSweepUnverifiable then Halt(row, SweepUnknown)
           else Fails(row, RecoverIncomplete, a, "attempt_terminated_incomplete")
    case CaptureChangeSet =>
      d == if o.worktreeMissing then
        Fails(row, FailWorktreeLost, a, "worktree_lost") else Records(row, CaptureChanges, a)
    case PostHocVerification =>
      d == if o.worktreeMissing then Fails(row, FailWorktreeLost, a, "worktree_lost")
           else Records(row, RerunVerification, a)
    case StartAcceptance =>
      d == if a.movementId in p.state.writers && o.worktreeMissing then Fails(row, FailWorktreeLost, a, "worktree_lost")
           else Act(row, Plain(AppendAcceptanceStarted, false).(attemptId := a.attemptId, continuation := C3))
    case MovementSucceededCase => d == Records(row, AppendMovementSucceeded, a)
    case RunFailedCase => d == Records(row, AppendRunFailed, a)
    case FinalGateRejected => d == Records(row, AppendFinalGateFailure, a)
    case Continue =>
      d == Act(row, if a.state != Completed && a.acceptanceStarted
                    then Plain(ProceedAcceptance, false).(attemptId := a.attemptId, continuation := C3)
                    else Plain(ProceedScheduler, false).(continuation := C4))
    case _ => false
  }

  lemma RealizesAsPlanned(row: CaseId, a: Attempt, s: Scheduler)
    ensures RealizeRecorded(row, a, s) == Realizes(row, a, s)
    ensures Realizes(row, a, s).caseId == row
  {
  }

  lemma C2Facts(p: Projection, a: Attempt)
    ensures FirstMissingQuestion(a.questions).Some? <==> Unasked(a)
    ensures BlockingDecisionOf(p.state, a.attemptId) <==> Waits(p, a)
  {
    QuestionIff(a.questions);
  }

  lemma C2Applies(input: Input, a: Attempt)
    ensures var d := PlanHead(input, a); C2Row(d.caseId, input, a) && C2Answer(d.caseId, input, a, d)
  {
    hide PlanHead, C2Row, C2Answer;
    if a.state == Verifying {
      VerifyingApplies(input, a);
    } else if a.state in {Blocked, AttemptFailed} {
      StoppedApplies(input, a);
    } else {
      OtherApplies(input, a);
    }
  }

  lemma VerifyingApplies(input: Input, a: Attempt)
    requires a.state == Verifying
    ensures var d := PlanHead(input, a); C2Row(d.caseId, input, a) && C2Answer(d.caseId, input, a, d)
  {
    VerifyingRow(input, a);
    VerifyingAnswer(input, a);
    hide PlanHead, C2Row, C2Answer;
  }

  lemma VerifyingRow(input: Input, a: Attempt)
    requires a.state == Verifying
    ensures C2Row(PlanHead(input, a).caseId, input, a)
  {
    hide C2Answer, FirstMissingQuestion, BlockingDecisionOf, RealizeRecorded, Realizes, Unasked, Waits;
  }

  ghost predicate StepsDone(p: Projection, a: Attempt) {
    && (a.movementId in p.state.writers ==> a.changeSetRecorded) && a.attemptId in p.state.verifiedAttempts
    && a.acceptanceStarted
  }

  /** The next step of a verifying attempt. */
  function StepOf(p: Projection, o: Observations, a: Attempt): Decision {
    if p.scheduler.draft && a.movementId == p.scheduler.interview && !a.acceptanceStarted then
      Fails(DraftNoBlockingOutput, AppendDraftFailure, a, "draft_no_blocking_output")
    else if a.movementId in p.state.writers && !a.changeSetRecorded then
      if o.worktreeMissing then Fails(CaptureChangeSet, FailWorktreeLost, a, "worktree_lost")
      else Records(CaptureChangeSet, CaptureChanges, a)
    else if a.attemptId !in p.state.verifiedAttempts then
      if o.worktreeMissing then Fails(PostHocVerification, FailWorktreeLost, a, "worktree_lost")
      else Records(PostHocVerification, RerunVerification, a)
    else if a.movementId in p.state.writers && o.worktreeMissing then
      Fails(StartAcceptance, FailWorktreeLost, a, "worktree_lost")
    else Act(StartAcceptance, Plain(AppendAcceptanceStarted, false).(attemptId := a.attemptId, continuation := C3))
  }

  lemma VerifyingHead(input: Input, a: Attempt)
    requires a.state == Verifying && !StepsDone(input.projection, a)
    ensures PlanHead(input, a) == StepOf(input.projection, input.observations, a)
  {
    hide FirstMissingQuestion, BlockingDecisionOf, RealizeRecorded;
  }

  lemma VerifyingEnd(input: Input, a: Attempt)
    requires a.state == Verifying && StepsDone(input.projection, a)
    ensures PlanHead(input, a) == EndOf(input.projection, a)
  {
    hide FirstMissingQuestion, BlockingDecisionOf, RealizeRecorded;
  }

  /** What is left for an attempt that needs no step of its own. */
  function EndOf(p: Projection, a: Attempt): Decision {
    if a.movementFailed && p.state.run !in {RunSucceeded, RunFailed, RunCancelled} then
      Records(RunFailedCase, AppendRunFailed, a)
    else if a.finalGateRejected && !a.movementFailed then Records(FinalGateRejected, AppendFinalGateFailure, a)
    else
      Act(Continue, if a.acceptanceStarted
          then Plain(ProceedAcceptance, false).(attemptId := a.attemptId, continuation := C3)
          else Plain(ProceedScheduler, false).(continuation := C4))
  }

  lemma EndAnswers(input: Input, a: Attempt)
    requires a.state != Completed
    ensures C2Answer(EndOf(input.projection, a).caseId, input, a, EndOf(input.projection, a))
  {
    hide Realizes;
  }

  lemma VerifyingAnswer(input: Input, a: Attempt)
    requires a.state == Verifying
    ensures C2Answer(PlanHead(input, a).caseId, input, a, PlanHead(input, a))
  {
    if !StepsDone(input.projection, a) {
      VerifyingHead(input, a);
      hide PlanHead, Realizes, Unasked, Waits;
    } else {
      VerifyingEnd(input, a);
      EndAnswers(input, a);
      hide PlanHead, C2Answer, EndOf;
    }
  }

  lemma BlockedHead(input: Input, a: Attempt)
    requires a.state == Blocked
    ensures PlanHead(input, a) ==
      if Unasked(a) then Records(AppendQuestion, AppendQuestionRequest, a)
      else if Waits(input.projection, a) then Act(WaitingHuman, Plain(ReturnWaitingHuman, false))
      else Act(DecisionResume, Plain(SelectDecisionResume, false).(attemptId := a.attemptId, continuation := C4,
             successor := Some(Successor(a.movementId, a.attemptId, a.performer, "decision_resume"))))
  {
    hide FirstMissingQuestion, BlockingDecisionOf, RealizeRecorded, Unasked, Waits;
    C2Facts(input.projection, a);
  }

  lemma StoppedApplies(input: Input, a: Attempt)
    requires a.state in {Blocked, AttemptFailed}
    ensures var d := PlanHead(input, a); C2Row(d.caseId, input, a) && C2Answer(d.caseId, input, a, d)
  {
    hide PlanHead, C2Row, C2Answer;
    if a.state == Blocked {
      BlockedApplies(input, a);
    } else {
      FailedApplies(input, a);
    }
  }

  lemma BlockedApplies(input: Input, a: Attempt)
    requires a.state == Blocked
    ensures var d := PlanHead(input, a); C2Row(d.caseId, input, a) && C2Answer(d.caseId, input, a, d)
  {
    hide PlanHead, Realizes, Unasked, Waits;
    BlockedHead(input, a);
  }

  lemma FailedApplies(input: Input, a: Attempt)
    requires a.state == AttemptFailed
    ensures var d := PlanHead(input, a); C2Row(d.caseId, input, a) && C2Answer(d.caseId, input, a, d)
  {
    hide PlanHead, Realizes, Unasked, Waits;
    FailedHead(input, a);
  }

  lemma FailedHead(input: Input, a: Attempt)
    requires a.state == AttemptFailed
    ensures var d, p := PlanHead(input, a), input.projection;
      if !a.dispositionRealized then d == Realizes(RealizeDisposition, a, p.scheduler) && d.caseId == RealizeDisposition
      else d == EndOf(p, a)
  {
    hide FirstMissingQuestion, BlockingDecisionOf, RealizeRecorded, Realizes, Unasked, Waits;
    RealizesAsPlanned(RealizeDisposition, a, input.projection.scheduler);
  }

  lemma OtherApplies(input: Input, a: Attempt)
    requires a.state !in {Verifying, Blocked, AttemptFailed}
    ensures var d := PlanHead(input, a); C2Row(d.caseId, input, a) && C2Answer(d.caseId, input, a, d)
  {
    hide PlanHead, C2Row, C2Answer;
    if a.state in {Starting, AttemptRunning} {
      RunningApplies(input, a);
    } else {
      EndedApplies(input, a);
    }
  }

  lemma RunningApplies(input: Input, a: Attempt)
    requires a.state in {Starting, AttemptRunning}
    ensures var d := PlanHead(input, a); C2Row(d.caseId, input, a) && C2Answer(d.caseId, input, a, d)
  {
    hide FirstMissingQuestion, BlockingDecisionOf, RealizeRecorded, Realizes, Unasked, Waits;
  }

  lemma EndedApplies(input: Input, a: Attempt)
    requires a.state !in {Verifying, Blocked, AttemptFailed, Starting, AttemptRunning}
    ensures var d := PlanHead(input, a); C2Row(d.caseId, input, a) && C2Answer(d.caseId, input, a, d)
  {
    hide FirstMissingQuestion, BlockingDecisionOf, RealizeRecorded, Realizes, Unasked, Waits;
  }

  lemma C2NothingAbove(input: Input, a: Attempt, row: CaseId)
    requires C2Row(row, input, a)
    ensures C2Place(PlanHead(input, a).caseId) <= C2Place(row)
  {
    hide PlanHead, C2Row;
    if a.state == Verifying {
      VerifyingNothingAbove(input, a, row);
    } else if a.state in {Blocked, AttemptFailed} {
      StoppedNothingAbove(input, a, row);
    } else {
      OtherNothingAbove(input, a, row);
    }
  }

  lemma VerifyingNothingAbove(input: Input, a: Attempt, row: CaseId)
    requires C2Row(row, input, a) && a.state == Verifying
    ensures C2Place(PlanHead(input, a).caseId) <= C2Place(row)
  {
    hide FirstMissingQuestion, BlockingDecisionOf, RealizeRecorded, Unasked, Waits;
  }

  lemma StoppedNothingAbove(input: Input, a: Attempt, row: CaseId)
    requires C2Row(row, input, a) && a.state in {Blocked, AttemptFailed}
    ensures C2Place(PlanHead(input, a).caseId) <= C2Place(row)
  {
    hide PlanHead, Realizes, Unasked, Waits;
    if a.state == Blocked {
      BlockedHead(input, a);
    } else {
      FailedHead(input, a);
    }
  }

  lemma OtherNothingAbove(input: Input, a: Attempt, row: CaseId)
    requires C2Row(row, input, a) && a.state !in {Verifying, Blocked, AttemptFailed}
    ensures C2Place(PlanHead(input, a).caseId) <= C2Place(row)
  {
    hide FirstMissingQuestion, BlockingDecisionOf, RealizeRecorded, Unasked, Waits;
  }

  /** The planner picks a row of C.2 that applies to the head attempt, gives its
      answer, and no row above it applies. Without a head it goes on to C.4. */
  lemma C2FromTheTop(input: Input)
    ensures forall a | IsHead(input.projection, a) ::
      var d := PlanAttempt(input);
      && C2Row(d.caseId, input, a) && C2Answer(d.caseId, input, a, d)
      && forall row | C2Row(row, input, a) :: C2Place(d.caseId) <= C2Place(row)
    ensures !(exists a :: IsHead(input.projection, a)) ==>
              PlanAttempt(input) == Act(Continue, Plain(ProceedScheduler, false).(continuation := C4))
  {
    HeadIff(input.projection);
    hide C2Row, C2Answer, PlanHead, CurrentHead, IsHead;
    forall a, row | IsHead(input.projection, a) && C2Row(row, input, a)
      ensures C2Place(PlanHead(input, a).caseId) <= C2Place(row)
    {
      C2NothingAbove(input, a, row);
    }
    forall a | IsHead(input.projection, a)
      ensures C2Row(PlanHead(input, a).caseId, input, a) &&
                C2Answer(PlanHead(input, a).caseId, input, a, PlanHead(input, a))
    {
      C2Applies(input, a);
    }
  }

  /** A blocked attempt: a question is asked for exactly when one is not durable
      yet; the run waits exactly when all are and a blocking decision of this
      attempt is open; the attempt is resumed, with its movement and performer,
      exactly when none is. */
  lemma BlockedIff(input: Input, a: Attempt)
    requires IsHead(input.projection, a) && a.state == Blocked
    ensures var d, p := PlanAttempt(input), input.projection;
      && (Chooses(d, AppendQuestionRequest) <==> exists q | q in a.questions :: q.decisionId != "" && !q.durable)
      && (Chooses(d, ReturnWaitingHuman) <==>
            && (forall q | q in a.questions :: q.decisionId != "" ==> q.durable)
            && exists id | id in p.state.pendingDecisions ::
                 p.state.pendingDecisions[id].attemptId == a.attemptId && p.state.pendingDecisions[id].blocking)
      && (Chooses(d, SelectDecisionResume) <==>
            && (forall q | q in a.questions :: q.decisionId != "" ==> q.durable)
            && forall id | id in p.state.pendingDecisions ::
                 p.state.pendingDecisions[id].attemptId == a.attemptId ==> !p.state.pendingDecisions[id].blocking)
      && (Chooses(d, SelectDecisionResume) ==>
            && d.action.attemptId == a.attemptId && d.action.continuation == C4
            && d.action.successor == Some(Successor(a.movementId, a.attemptId, a.performer, "decision_resume")))
  {
    HeadIff(input.projection);
    BlockedHead(input, a);
    hide PlanHead, CurrentHead;
  }

  // ------------------------------------------------------------------- table C.3

  datatype Mark = FailedMark | OpenMark | UnstartedMark

  /** A criterion failed, is in flight, or was not started. */
  ghost predicate Has(acceptance: Acceptance, mark: Mark, id: Id) {
    var record := acceptance.Record(id);
    match mark
    case FailedMark => record.completed && (record.outcome == Fail || record.outcome == Error)
    case OpenMark => record.started && !record.completed
    case UnstartedMark => !record.started
  }

  ghost predicate Any(acceptance: Acceptance, mark: Mark, planned: seq<Id>) {
    exists id | id in planned :: Has(acceptance, mark, id)
  }

  ghost predicate EachPassed(acceptance: Acceptance) {
    forall id | id in acceptance.planned :: acceptance.Record(id).completed && acceptance.Record(id).outcome == Pass
  }

  ghost predicate NoneCompleted(acceptance: Acceptance) {
    forall id | id in acceptance.planned :: !acceptance.Record(id).completed
  }

  lemma PassedIff(acceptance: Acceptance)
    ensures AllPassed(acceptance) <==> EachPassed(acceptance)
    ensures AnyCompleted(acceptance) <==> !NoneCompleted(acceptance)
  {
  }

  /** The first criterion in plan order with the mark. */
  ghost predicate IsFirst(acceptance: Acceptance, mark: Mark, planned: seq<Id>, id: Id) {
    exists i | 0 <= i < |planned| ::
      planned[i] == id && Has(acceptance, mark, id) && forall j | 0 <= j < i :: !Has(acceptance, mark, planned[j])
  }

  /** The gate of the acceptance; none is required as long as nothing says so. */
  function GateIn(p: Projection): Gate {
    if p.acceptance.Some? then p.acceptance.value.gate else Gate(false, false, false, false)
  }

  /** The row Continue is for records that lack a verdict: nothing failed, open or
      unstarted, and yet not everything passed. */
  ghost predicate C3Row(row: CaseId, p: Projection, o: Observations, acceptance: Acceptance) {
    var gate := GateIn(p);
    match row
    case AcceptanceFailed => p.acceptance.Some? && p.acceptance.value.failed
    case CriterionFailed => Any(acceptance, FailedMark, acceptance.planned)
    case IncompleteCriterion => Any(acceptance, OpenMark, acceptance.planned)
    case RequestHumanGate => acceptance.evaluationCompleted && gate.required && !gate.requested
    case HumanGateWaiting => acceptance.evaluationCompleted && gate.required && !gate.resolved
    case HumanGateRejected => acceptance.evaluationCompleted && gate.required && !gate.approved
    case HumanGateApproved => acceptance.evaluationCompleted && gate.required
    case GateFreeCompletion => acceptance.evaluationCompleted
    case CriteriaPassed => EachPassed(acceptance)
    case UnjournaledLaunch => o.launch != LaunchAbsent
    case Continue => o.subject == SubjectMatched && !Any(acceptance, UnstartedMark, acceptance.planned)
    case FirstCriterion => NoneCompleted(acceptance)
    case NextCriterion => true
    case _ => false
  }

  function C3Place(row: CaseId): nat {
    match row
    case AcceptanceFailed => 0 case CriterionFailed => 1 case IncompleteCriterion => 2 case RequestHumanGate => 3
    case HumanGateWaiting => 4 case HumanGateRejected => 5 case HumanGateApproved => 6 case GateFreeCompletion => 7
    case CriteriaPassed => 8 case UnjournaledLaunch => 9 case Continue => 10 case FirstCriterion => 11 case _ => 12
  }

  /** A consequence that needs the subject as acceptance bound it: a mismatch
      fails the acceptance, and without a verdict the subject is verified first. */
  ghost predicate OnSubject(row: CaseId, o: Observations, a: Attempt, d: Decision, matched: Decision) {
    d == match o.subject
         case SubjectMatched => matched
         case SubjectMismatched => Fails(row, AppendAcceptanceFailure, a, "recovery_subject_mismatch")
         case SubjectUnverified => Records(row, VerifySubject, a)
  }

  function Accepts(row: CaseId, a: Attempt): Decision {
    Act(row, Plain(AppendAcceptanceSuccess, true).(attemptId := a.attemptId, movementId := a.movementId))
  }

  ghost predicate C3Answer(row: CaseId, p: Projection, o: Observations, a: Attempt, acceptance: Acceptance, d: Decision)
  {
    match row
    case AcceptanceFailed => d == Realizes(row, a, p.scheduler)
    case CriterionFailed =>
      exists id :: IsFirst(acceptance, FailedMark, acceptance.planned, id) &&
        d == Act(row, Plain(AppendAcceptanceFailure, true).(attemptId := a.attemptId, criterionId := id,
          reason := if acceptance.Record(id).outcome == Fail then "criterion_failed" else "criterion_errored"))
    case IncompleteCriterion =>
      if o.criterionSweepUnverifiable then d == Halt(row, SweepUnknown)
      else
        exists id :: IsFirst(acceptance, OpenMark, acceptance.planned, id) &&
          d == Act(row, Plain(RecoverCriterion, true).(attemptId := a.attemptId, criterionId := id))
    case RequestHumanGate => d == Records(row, AppendGateRequest, a)
    case HumanGateWaiting => d == Act(row, Plain(ReturnWaitingHuman, false))
    case HumanGateRejected =>
      d == Act(row, Plain(AppendGateRejected, true).(attemptId := a.attemptId, movementId := a.movementId))
    case HumanGateApproved => OnSubject(row, o, a, d, Accepts(row, a))
    case GateFreeCompletion => OnSubject(row, o, a, d, Accepts(row, a))
    case CriteriaPassed => OnSubject(row, o, a, d, Records(row, AppendEvaluationCompleted, a))
    case UnjournaledLaunch =>
      d == (match o.launch
            case LaunchHandoffUnverifiable => Halt(row, HandoffUnknown)
            case LaunchSweepUnverifiable => Halt(row, SweepUnknown)
            case Unstabilized => Records(row, StabilizeLaunch, a)
            case _ => Act(row, Plain(RemoveLaunch, true).(attemptId := a.attemptId, continuation := C3)))
    case Continue => d == Act(row, Plain(ProceedScheduler, false).(continuation := C4))
    case FirstCriterion => Resumes(row, o, a, acceptance, d)
    case NextCriterion => Resumes(row, o, a, acceptance, d)
    case _ => false
  }

  /** The first criterion in plan order that was not started is resumed. */
  ghost predicate Resumes(row: CaseId, o: Observations, a: Attempt, acceptance: Acceptance, d: Decision) {
    if o.subject == SubjectMatched then
      exists id :: IsFirst(acceptance, UnstartedMark, acceptance.planned, id) &&
        d == Act(row, Plain(ResumeCriterion, true).(attemptId := a.attemptId, criterionId := id))
    else OnSubject(row, o, a, d, d)
  }

  lemma {:induction false} FailedIff(acceptance: Acceptance, planned: seq<Id>)
    ensures var first := FirstFailed(acceptance, planned);
      && (first.Some? <==> Any(acceptance, FailedMark, planned))
      && (first.Some? ==> IsFirst(acceptance, FailedMark, planned, first.value))
    decreases |planned|
  {
    if planned != [] {
      FailedIff(acceptance, planned[1..]);
      FirstBehind(acceptance, FailedMark, planned, FirstFailed(acceptance, planned[1..]));
      hide IsFirst, Any;
    }
  }

  lemma {:induction false} OpenIff(acceptance: Acceptance, planned: seq<Id>)
    ensures var first := FirstInFlight(acceptance, planned);
      && (first.Some? <==> Any(acceptance, OpenMark, planned))
      && (first.Some? ==> IsFirst(acceptance, OpenMark, planned, first.value))
    decreases |planned|
  {
    if planned != [] {
      OpenIff(acceptance, planned[1..]);
      FirstBehind(acceptance, OpenMark, planned, FirstInFlight(acceptance, planned[1..]));
      hide IsFirst, Any;
    }
  }

  lemma {:induction false} UnstartedIff(acceptance: Acceptance, planned: seq<Id>)
    ensures var first := NextUnstarted(acceptance, planned);
      && (first.Some? <==> Any(acceptance, UnstartedMark, planned))
      && (first.Some? ==> IsFirst(acceptance, UnstartedMark, planned, first.value))
    decreases |planned|
  {
    if planned != [] {
      UnstartedIff(acceptance, planned[1..]);
      FirstBehind(acceptance, UnstartedMark, planned, NextUnstarted(acceptance, planned[1..]));
      hide IsFirst, Any;
    }
  }

  /** The first one of a list is its head, or the first one behind it. */
  lemma FirstBehind(acceptance: Acceptance, mark: Mark, planned: seq<Id>, rest: Option<Id>)
    requires planned != [] && (rest.Some? <==> Any(acceptance, mark, planned[1..]))
    requires rest.Some? ==> IsFirst(acceptance, mark, planned[1..], rest.value)
    ensures Any(acceptance, mark, planned) <==> Has(acceptance, mark, planned[0]) || rest.Some?
    ensures Has(acceptance, mark, planned[0]) ==> IsFirst(acceptance, mark, planned, planned[0])
    ensures !Has(acceptance, mark, planned[0]) && rest.Some? ==> IsFirst(acceptance, mark, planned, rest.value)
  {
    hide Has;
    assert planned == [planned[0]] + planned[1..];
    if !Has(acceptance, mark, planned[0]) && rest.Some? {
      var i :| 0 <= i < |planned[1..]| && planned[1..][i] == rest.value && Has(acceptance, mark, rest.value) &&
        forall j | 0 <= j < i :: !Has(acceptance, mark, planned[1..][j]);
      assert planned[i + 1] == rest.value;
      assert forall j | 0 < j < i + 1 :: planned[j] == planned[1..][j - 1];
    }
  }

  /** The row of an evaluated acceptance. */
  lemma EvaluatedCase(p: Projection, o: Observations, a: Attempt)
    ensures var gate := GateIn(p);
      PlanEvaluated(p, o, a).caseId ==
        if gate.required && !gate.requested then RequestHumanGate
        else if gate.required && !gate.resolved then HumanGateWaiting
        else if gate.required && !gate.approved then HumanGateRejected
        else if gate.required then HumanGateApproved
        else GateFreeCompletion
  {
  }

  lemma EvaluatedRow(p: Projection, o: Observations, a: Attempt, acceptance: Acceptance)
    requires acceptance.evaluationCompleted
    ensures var d := PlanEvaluated(p, o, a); C3Row(d.caseId, p, o, acceptance) && C3Place(d.caseId) >= 3
  {
    EvaluatedCase(p, o, a);
    hide C3Answer, PlanEvaluated, Any, EachPassed, NoneCompleted, GateIn;
  }

  predicate GateStands(gate: Gate) {
    gate.required && !(gate.requested && gate.resolved && gate.approved)
  }

  lemma GateAnswer(p: Projection, o: Observations, a: Attempt, acceptance: Acceptance)
    requires GateStands(GateIn(p))
    ensures C3Answer(PlanEvaluated(p, o, a).caseId, p, o, a, acceptance, PlanEvaluated(p, o, a))
  {
    hide C3Row, Any, Resumes, Realizes, OnSubject, IsFirst;
  }

  lemma CompletionForm(p: Projection, o: Observations, a: Attempt)
    requires !GateStands(GateIn(p))
    ensures var d, row := PlanEvaluated(p, o, a), if GateIn(p).required then HumanGateApproved else GateFreeCompletion;
      d.caseId == row && OnSubject(row, o, a, d, Accepts(row, a))
  {
  }

  lemma CompletionAnswer(p: Projection, o: Observations, a: Attempt, acceptance: Acceptance)
    requires !GateStands(GateIn(p))
    ensures C3Answer(PlanEvaluated(p, o, a).caseId, p, o, a, acceptance, PlanEvaluated(p, o, a))
  {
    CompletionForm(p, o, a);
    hide C3Row, PlanEvaluated, OnSubject, Accepts, Any, Resumes, Realizes, IsFirst;
  }

  lemma EvaluatedAnswer(p: Projection, o: Observations, a: Attempt, acceptance: Acceptance)
    ensures C3Answer(PlanEvaluated(p, o, a).caseId, p, o, a, acceptance, PlanEvaluated(p, o, a))
  {
    hide C3Answer, PlanEvaluated;
    if GateStands(GateIn(p)) {
      GateAnswer(p, o, a, acceptance);
    } else {
      CompletionAnswer(p, o, a, acceptance);
    }
  }

  lemma EvaluatedTable(p: Projection, o: Observations, a: Attempt, acceptance: Acceptance)
    requires acceptance.evaluationCompleted
    ensures var d := PlanEvaluated(p, o, a);
      && C3Row(d.caseId, p, o, acceptance) && C3Answer(d.caseId, p, o, a, acceptance, d)
      && C3Place(d.caseId) >= 3
  {
    EvaluatedRow(p, o, a, acceptance);
    EvaluatedAnswer(p, o, a, acceptance);
    hide C3Row, C3Answer, PlanEvaluated;
  }

  lemma EvaluatedNothingAbove(p: Projection, o: Observations, a: Attempt, acceptance: Acceptance, row: CaseId)
    requires acceptance.evaluationCompleted && C3Row(row, p, o, acceptance) && C3Place(row) >= 3
    ensures C3Place(PlanEvaluated(p, o, a).caseId) <= C3Place(row)
  {
    EvaluatedCase(p, o, a);
    hide C3Answer, PlanEvaluated, Any, EachPassed, NoneCompleted, GateIn;
  }

  lemma LaunchTable(p: Projection, o: Observations, a: Attempt, acceptance: Acceptance)
    requires o.launch != LaunchAbsent
    ensures PlanLaunch(o.launch, a.attemptId).caseId == UnjournaledLaunch
    ensures C3Answer(UnjournaledLaunch, p, o, a, acceptance, PlanLaunch(o.launch, a.attemptId))
  {
  }

  lemma PassedForm(o: Observations, a: Attempt, acceptance: Acceptance)
    requires AllPassed(acceptance)
    ensures var d := PlanCriteria(o, a.attemptId, acceptance);
      d.caseId == CriteriaPassed &&
        OnSubject(CriteriaPassed, o, a, d, Records(CriteriaPassed, AppendEvaluationCompleted, a))
  {
    hide NextUnstarted, PlanLaunch, AllPassed, AnyCompleted;
  }

  lemma ResumeForm(o: Observations, a: Attempt, acceptance: Acceptance)
    requires !AllPassed(acceptance) && o.launch == LaunchAbsent
    ensures var d := PlanCriteria(o, a.attemptId, acceptance);
      if o.subject == SubjectMatched && !Any(acceptance, UnstartedMark, acceptance.planned) then
        d == Act(Continue, Plain(ProceedScheduler, false).(continuation := C4))
      else
        d.caseId == (if AnyCompleted(acceptance) then NextCriterion else FirstCriterion) &&
          Resumes(d.caseId, o, a, acceptance, d)
  {
    UnstartedIff(acceptance, acceptance.planned);
    hide NextUnstarted, IsFirst, Any, AllPassed, AnyCompleted;
  }

  /** The rows behind the evaluation that is still to come. */
  lemma CriteriaForms(o: Observations, a: Attempt, acceptance: Acceptance)
    ensures var d := PlanCriteria(o, a.attemptId, acceptance);
      && (AllPassed(acceptance) ==> d.caseId == CriteriaPassed)
      && (!AllPassed(acceptance) && o.launch != LaunchAbsent ==> d == PlanLaunch(o.launch, a.attemptId))
      && (!AllPassed(acceptance) && o.launch == LaunchAbsent ==>
            d.caseId == if o.subject == SubjectMatched && !Any(acceptance, UnstartedMark, acceptance.planned) then
              Continue
                        else if AnyCompleted(acceptance) then NextCriterion else FirstCriterion)
  {
    hide PlanLaunch, AllPassed, AnyCompleted, OnSubject, Resumes, Any, Plain, Records;
    if AllPassed(acceptance) {
      PassedForm(o, a, acceptance);
      hide PlanCriteria;
    } else if o.launch == LaunchAbsent {
      ResumeForm(o, a, acceptance);
      hide PlanCriteria;
    }
  }

  lemma CriteriaRow(p: Projection, o: Observations, a: Attempt, acceptance: Acceptance)
    ensures var d := PlanCriteria(o, a.attemptId, acceptance);
      C3Row(d.caseId, p, o, acceptance) && C3Place(d.caseId) >= 3
  {
    hide PlanCriteria, PlanLaunch, C3Answer, Any, AllPassed, AnyCompleted, EachPassed, NoneCompleted;
    CriteriaForms(o, a, acceptance);
    PassedIff(acceptance);
    if AllPassed(acceptance) {
      assert C3Row(CriteriaPassed, p, o, acceptance);
    } else if o.launch != LaunchAbsent {
      LaunchTable(p, o, a, acceptance);
      assert C3Row(UnjournaledLaunch, p, o, acceptance);
    }
  }

  lemma CriteriaApplies(p: Projection, o: Observations, a: Attempt, acceptance: Acceptance)
    ensures var d := PlanCriteria(o, a.attemptId, acceptance);
      && C3Row(d.caseId, p, o, acceptance) && C3Answer(d.caseId, p, o, a, acceptance, d)
      && C3Place(d.caseId) >= 3
  {
    CriteriaRow(p, o, a, acceptance);
    CriteriaForms(o, a, acceptance);
    hide PlanCriteria, PlanLaunch, C3Row, Any, OnSubject, Resumes, Realizes, AllPassed, AnyCompleted, IsFirst;
    if AllPassed(acceptance) {
      PassedForm(o, a, acceptance);
    } else if o.launch != LaunchAbsent {
      LaunchTable(p, o, a, acceptance);
    } else {
      ResumeForm(o, a, acceptance);
    }
  }

  lemma CriteriaNothingAbove(p: Projection, o: Observations, a: Attempt, acceptance: Acceptance, row: CaseId)
    requires !acceptance.evaluationCompleted && C3Row(row, p, o, acceptance) && C3Place(row) >= 3
    ensures C3Place(PlanCriteria(o, a.attemptId, acceptance).caseId) <= C3Place(row)
  {
    CriteriaForms(o, a, acceptance);
    if o.launch != LaunchAbsent {
      LaunchTable(p, o, a, acceptance);
    }
    PassedIff(acceptance);
    hide PlanCriteria, C3Answer, PlanLaunch, Any, AllPassed, AnyCompleted, EachPassed, NoneCompleted;
  }

  /** The rows ahead of both. */
  lemma StartedForms(p: Projection, o: Observations, a: Attempt, acceptance: Acceptance)
    ensures var d := PlanStarted(p, o, a, acceptance);
      if p.acceptance.Some? && p.acceptance.value.failed then
        d == Realizes(AcceptanceFailed, a, p.scheduler) && d.caseId == AcceptanceFailed
      else if Any(acceptance, FailedMark, acceptance.planned) then
        d.caseId == CriterionFailed && C3Answer(CriterionFailed, p, o, a, acceptance, d)
      else if Any(acceptance, OpenMark, acceptance.planned) then
        d.caseId == IncompleteCriterion && C3Answer(IncompleteCriterion, p, o, a, acceptance, d)
      else d == if acceptance.evaluationCompleted then
        PlanEvaluated(p, o, a) else PlanCriteria(o, a.attemptId, acceptance)
  {
    FailedIff(acceptance, acceptance.planned);
    OpenIff(acceptance, acceptance.planned);
    RealizesAsPlanned(AcceptanceFailed, a, p.scheduler);
    hide FirstFailed, FirstInFlight, RealizeRecorded, Realizes, PlanEvaluated, PlanCriteria, IsFirst, Any,
      Resumes, OnSubject;
  }

  lemma StartedApplies(p: Projection, o: Observations, a: Attempt, acceptance: Acceptance)
    ensures var d := PlanStarted(p, o, a, acceptance);
      C3Row(d.caseId, p, o, acceptance) && C3Answer(d.caseId, p, o, a, acceptance, d)
  {
    StartedForms(p, o, a, acceptance);
    if acceptance.evaluationCompleted {
      EvaluatedTable(p, o, a, acceptance);
    } else {
      CriteriaApplies(p, o, a, acceptance);
    }
    hide PlanStarted, Realizes, PlanEvaluated, PlanCriteria, IsFirst, Any, Resumes, OnSubject, Plain;
  }

  lemma StartedNothingAbove(p: Projection, o: Observations, a: Attempt, acceptance: Acceptance, row: CaseId)
    requires C3Row(row, p, o, acceptance)
    ensures C3Place(PlanStarted(p, o, a, acceptance).caseId) <= C3Place(row)
  {
    StartedForms(p, o, a, acceptance);
    hide PlanStarted, Realizes, PlanEvaluated, PlanCriteria, C3Answer, Any;
    if C3Place(row) >= 3 {
      hide C3Row;
      if acceptance.evaluationCompleted {
        EvaluatedNothingAbove(p, o, a, acceptance, row);
      } else {
        CriteriaNothingAbove(p, o, a, acceptance, row);
      }
    }
  }

  /** The planner picks a row of C.3 that applies to the started acceptance of
      the head attempt, gives its answer, and no row above it applies. Without
      one it goes on to C.4. */
  lemma C3FromTheTop(input: Input)
    ensures var p, o, d := input.projection, input.observations, PlanAcceptance(input);
      && (forall a | IsHead(p, a) && a.attemptId in p.state.acceptances && p.state.acceptances[a.attemptId].started ::
            var acceptance := p.state.acceptances[a.attemptId];
            && C3Row(d.caseId, p, o, acceptance) && C3Answer(d.caseId, p, o, a, acceptance, d)
            && forall row | C3Row(row, p, o, acceptance) :: C3Place(d.caseId) <= C3Place(row))
      && ((forall a | IsHead(p, a) :: a.attemptId !in p.state.acceptances || !p.state.acceptances[a.attemptId].started)
            ==> d == Act(Continue, Plain(ProceedScheduler, false).(continuation := C4)))
  {
    var p, o := input.projection, input.observations;
    HeadIff(p);
    hide C3Row, C3Answer, PlanStarted, CurrentHead, IsHead;
    forall a | IsHead(p, a) && a.attemptId in p.state.acceptances
      ensures var acceptance := p.state.acceptances[a.attemptId];
        var d := PlanStarted(p, o, a, acceptance);
        && C3Row(d.caseId, p, o, acceptance) && C3Answer(d.caseId, p, o, a, acceptance, d)
        && forall row | C3Row(row, p, o, acceptance) :: C3Place(d.caseId) <= C3Place(row)
    {
      var acceptance := p.state.acceptances[a.attemptId];
      StartedApplies(p, o, a, acceptance);
      forall row | C3Row(row, p, o, acceptance)
        ensures C3Place(PlanStarted(p, o, a, acceptance).caseId) <= C3Place(row)
      {
        StartedNothingAbove(p, o, a, acceptance, row);
      }
    }
  }

  // ------------------------------------------------------------------- table C.4

  ghost predicate Selectable(s: Scheduler, id: Id) {
    s.draft ==> id == s.interview
  }

  /** Pending, its needs succeeded, and for the final movement the candidate there
      unless its gate is waived. */
  ghost predicate CanBecomeReady(state: State, s: Scheduler, m: ScheduledMovement) {
    && Selectable(s, m.id) && m.id in state.movements && state.movements[m.id] == Pending
    && (forall need | need in m.needs :: need in state.movements && state.movements[need] == Succeeded)
    && (m.final ==> s.gateWaived || state.hasCandidate)
  }

  ghost predicate CanGoOn(state: State, s: Scheduler, m: ScheduledMovement) {
    && Selectable(s, m.id) && m.id in state.movements
    && (state.movements[m.id] == Ready || state.movements[m.id] == Running)
  }

  /** The movement at place i of the declaration, and at no place before it, can
      become ready. */
  ghost predicate FirstReady(state: State, s: Scheduler, i: nat) {
    && i < |s.movements| && CanBecomeReady(state, s, s.movements[i])
    && forall j | 0 <= j < i :: !CanBecomeReady(state, s, s.movements[j])
  }

  ghost predicate FirstGoing(state: State, s: Scheduler, i: nat) {
    && i < |s.movements| && CanGoOn(state, s, s.movements[i])
    && forall j | 0 <= j < i :: !CanGoOn(state, s, s.movements[j])
  }

  ghost predicate FirstRunningAt(state: State, s: Scheduler, i: nat) {
    && i < |s.movements| && state.MovementOf(s.movements[i].id) == Running
    && forall j | 0 <= j < i :: state.MovementOf(s.movements[j].id) != Running
  }

  lemma {:induction false} PromotableFrom(state: State, s: Scheduler, k: nat)
    requires k <= |s.movements| && forall j | 0 <= j < k :: !CanBecomeReady(state, s, s.movements[j])
    ensures var first := FirstPromotable(state, s, s.movements[k..]);
      && (first.Some? ==> exists i: nat :: FirstReady(state, s, i) && first.value == s.movements[i])
      && (first.None? ==> forall j | 0 <= j < |s.movements| :: !CanBecomeReady(state, s, s.movements[j]))
    decreases |s.movements| - k
  {
    if k < |s.movements| {
      var rest := s.movements[k..];
      assert rest[0] == s.movements[k] && rest[1..] == s.movements[k + 1..];
      assert Promotable(state, s, rest[0]) <==> CanBecomeReady(state, s, s.movements[k]);
      hide Promotable, CanBecomeReady;
      if Promotable(state, s, rest[0]) {
        assert FirstReady(state, s, k);
      } else {
        PromotableFrom(state, s, k + 1);
      }
    }
  }

  lemma {:induction false} StartableFrom(state: State, s: Scheduler, k: nat)
    requires k <= |s.movements| && forall j | 0 <= j < k :: !CanGoOn(state, s, s.movements[j])
    ensures var first := FirstStartable(state, s, s.movements[k..]);
      && (first.Some? ==> exists i: nat :: FirstGoing(state, s, i) && first.value == s.movements[i])
      && (first.None? ==> forall j | 0 <= j < |s.movements| :: !CanGoOn(state, s, s.movements[j]))
    decreases |s.movements| - k
  {
    if k < |s.movements| {
      var rest := s.movements[k..];
      assert rest[0] == s.movements[k] && rest[1..] == s.movements[k + 1..];
      assert Startable(state, s, rest[0]) <==> CanGoOn(state, s, s.movements[k]);
      hide Startable, CanGoOn;
      if Startable(state, s, rest[0]) {
        assert FirstGoing(state, s, k);
      } else {
        StartableFrom(state, s, k + 1);
      }
    }
  }

  lemma {:induction false} RunningFrom(state: State, s: Scheduler, k: nat)
    requires k <= |s.movements| && forall j | 0 <= j < k :: state.MovementOf(s.movements[j].id) != Running
    ensures var first := FirstRunning(state, s.movements[k..]);
      && (first.Some? ==> exists i: nat :: FirstRunningAt(state, s, i) && first.value == s.movements[i])
      && (first.None? ==> forall j | 0 <= j < |s.movements| :: state.MovementOf(s.movements[j].id) != Running)
    decreases |s.movements| - k
  {
    if k < |s.movements| {
      var rest := s.movements[k..];
      assert rest[0] == s.movements[k] && rest[1..] == s.movements[k + 1..];
      if state.MovementOf(rest[0].id) == Running {
        assert FirstRunningAt(state, s, k);
      } else {
        RunningFrom(state, s, k + 1);
      }
    }
  }

  /** The one step of the selector between units. A selected successor comes
      first; then, in declaration order, the first movement that can become
      ready; then the first that is ready or running; then the candidate. */
  ghost predicate OneStep(state: State, s: Scheduler, d: Decision) {
    if s.pendingSuccessor.Some? then
      d == Act(SchedulerCase, Plain(MaterializeSuccessor, true)
        .(successor := s.pendingSuccessor, movementId := s.pendingSuccessor.value.movementId))
    else if exists i: nat :: FirstReady(state, s, i) then
      exists i: nat :: FirstReady(state, s, i) &&
        d == Act(SchedulerCase, Plain(AppendMovementReady, true).(movementId := s.movements[i].id))
    else if exists i: nat :: FirstGoing(state, s, i) then
      exists i: nat :: FirstGoing(state, s, i) &&
        var id := s.movements[i].id;
        d == Act(SchedulerCase, Plain(if state.MovementOf(id) == Ready then AppendMovementStarted
                                      else SelectInitialPerformer, true).(movementId := id))
    else if s.gateWaived then
      if s.movements != [] && forall m | m in s.movements ::
           state.MovementOf(m.id) == Succeeded || state.MovementOf(m.id) == Inapplicable then
        d == Act(SchedulerCase, Plain(ComposeCandidate, true).(carriesCandidate := true))
      else d == Invalid(SchedulerCase)
    else if !state.hasCandidate && forall m | m in s.movements && m.repoWrite && !m.final ::
      state.MovementOf(m.id) == Succeeded then
      d == Act(SchedulerCase, Plain(ComposeCandidate, true))
    else d == Invalid(SchedulerCase)
  }

  ghost predicate NoneReady(state: State, s: Scheduler) {
    forall j | 0 <= j < |s.movements| :: !CanBecomeReady(state, s, s.movements[j])
  }

  lemma PromotableIff(state: State, s: Scheduler)
    ensures var first := FirstPromotable(state, s, s.movements);
      && (first.Some? <==> exists i: nat :: FirstReady(state, s, i))
      && (first.Some? ==> exists i: nat :: FirstReady(state, s, i) && first.value == s.movements[i])
  {
    PromotableFrom(state, s, 0);
    assert s.movements[0..] == s.movements;
    hide CanBecomeReady, FirstPromotable;
  }

  lemma StartableIff(state: State, s: Scheduler)
    ensures var first := FirstStartable(state, s, s.movements);
      && (first.Some? <==> exists i: nat :: FirstGoing(state, s, i))
      && (first.Some? ==> exists i: nat :: FirstGoing(state, s, i) && first.value == s.movements[i])
  {
    StartableFrom(state, s, 0);
    assert s.movements[0..] == s.movements;
    hide CanGoOn, FirstStartable;
  }

  lemma RunningIff(state: State, s: Scheduler)
    ensures var first := FirstRunning(state, s.movements);
      && (first.Some? <==> exists i: nat :: FirstRunningAt(state, s, i))
      && (first.Some? ==> exists i: nat :: FirstRunningAt(state, s, i) && first.value == s.movements[i])
  {
    RunningFrom(state, s, 0);
    assert s.movements[0..] == s.movements;
    hide FirstRunning;
  }

  /** The selector takes that step as long as there is time. */
  lemma SelectsOneStep(state: State, s: Scheduler)
    requires s.remainingTime != 0
    ensures OneStep(state, s, PlanBetweenUnit(state, s))
  {
    PromotableIff(state, s);
    StartableIff(state, s);
    hide FirstPromotable, FirstStartable, FirstReady, FirstGoing;
  }

  /** Without time a running movement fails first, in declaration order, and
      without one the run. */
  lemma ExhaustsBudget(state: State, s: Scheduler)
    requires s.remainingTime == 0
    ensures var d := PlanBetweenUnit(state, s);
      if exists i: nat :: FirstRunningAt(state, s, i) then
        exists i: nat :: FirstRunningAt(state, s, i) && d == Act(BudgetExhausted,
          Plain(AppendBudgetFailure, true).(movementId := s.movements[i].id, reason := "budget_exhausted"))
      else d == Act(BudgetExhausted, Plain(AppendRunFailed, true).(reason := "budget_exhausted"))
  {
    RunningIff(state, s);
    hide FirstRunning, FirstRunningAt, FirstPromotable, FirstStartable;
  }

  /** The rows of C.4, in order: a terminal run, an attempt still in flight, the
      spent budget, a composition that recovery closed, and the one step. A step
      that the selector cannot find is answered by going nowhere. */
  lemma C4FromTheTop(input: Input)
    ensures var p, d := input.projection, PlanScheduler(input);
      var step := PlanBetweenUnit(p.state, p.scheduler);
      if p.state.run in {RunSucceeded, RunFailed, RunCancelled} then d == Act(Terminal, Plain(TerminalCleanup, false))
      else if exists a :: IsHead(p, a) && a.state in {Starting, AttemptRunning, Verifying} then
        d == Act(Continue, Plain(ProceedAttempt, false).(continuation := C2))
      else if p.scheduler.remainingTime == 0 then d == step
      else if p.compositionRetry.Some? && p.compositionRetry.value.recovered then
        d == Act(RecoveredComposition, Plain(RerunComposition, true)
          .(movementId := p.compositionRetry.value.movementId))
      else if step.Invalid? then d == Act(SchedulerCase, Plain(ProceedScheduler, false))
      else d == step
  {
    var p := input.projection;
    HeadIff(p);
    StepCase(p.state, p.scheduler);
    hide PlanBetweenUnit, IsHead;
  }

  lemma StepCase(state: State, s: Scheduler)
    ensures PlanBetweenUnit(state, s).caseId == BudgetExhausted <==> s.remainingTime == 0
    ensures s.remainingTime == 0 ==> PlanBetweenUnit(state, s).Valid()
  {
    hide FirstPromotable, FirstStartable, FirstRunning, CandidatePrecondition, WaivedCompletion;
  }
}
