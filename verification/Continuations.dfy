/** Following the planner from table to table on one unchanged input. */
module Continuations {
  import opened Results
  import opened Recovery

  /** Whether the executor goes straight on to another table. */
  predicate IsContinuation(d: Decision) {
    d.Act? &&
    match d.action.kind
    case ProceedAttempt => d.action.continuation == C2
    case ProceedAcceptance => d.action.continuation == C3
    case ProceedScheduler => d.action.continuation == C4
    case _ => false
  }

  function ContinuePlan(input: Input, next: Continuation): Decision {
    match next
    case C2 => PlanAttempt(input)
    case C3 => PlanAcceptance(input)
    case C4 => PlanScheduler(input)
    case Nowhere => Invalid(Continue)
  }

  /** The decision reached after following at most `hops` continuations. */
  function Follow(input: Input, d: Decision, hops: nat): Decision
    decreases hops
  {
    if hops == 0 || !IsContinuation(d) then d
    else Follow(input, ContinuePlan(input, d.action.continuation), hops - 1)
  }

  /** The executor's loop over continuations, until another decision or the bound. */
  method ExecuteContinuations(input: Input, bound: nat) returns (decision: Decision)
    ensures decision == Follow(input, Plan(input), bound)
  {
    hide Plan, ContinuePlan;
    decision := Plan(input);
    var left := bound;
    while left > 0 && IsContinuation(decision)
      invariant Follow(input, decision, left) == Follow(input, Plan(input), bound)
    {
      decision := ContinuePlan(input, decision.action.continuation);
      left := left - 1;
    }
  }

  // ------------------------------------------------------- what replay promises

  predicate StartedInState(p: Projection, attempt: Attempt) {
    attempt.attemptId in p.state.acceptances && p.state.acceptances[attempt.attemptId].started
  }

  /** Completed criteria were started and have a verdict. */
  ghost predicate RecordsHaveVerdicts(a: Acceptance) {
    forall id | id in a.planned :: a.Record(id).completed ==>
      a.Record(id).started && a.Record(id).outcome in {Pass, Fail, Error}
  }

  ghost predicate HasVerdicts(p: Projection) {
    forall id | id in p.state.acceptances :: RecordsHaveVerdicts(p.state.acceptances[id])
  }

  // ---------------------------------------------------------------- the tables

  /** C.1 hands over to C.4 only when there is no head attempt. */
  lemma PlanHandsOver(input: Input)
    ensures Plan(input).Valid()
    ensures IsContinuation(Plan(input)) ==>
      && Plan(input).action.continuation == (if CurrentHead(input.projection).Some? then C2 else C4)
      && !input.projection.state.run.Terminal()
  {
  }

  lemma RealizeIsFinal(caseId: CaseId, attempt: Attempt, scheduler: Scheduler)
    ensures var d := RealizeRecorded(caseId, attempt, scheduler); d.Act? && d.action.kind == RealizeRecordedDisposition
  {
  }

  /** C.2 hands an attempt in flight over to C.3 only, once acceptance started. */
  lemma AttemptHandsOver(input: Input, attempt: Attempt)
    ensures var d := PlanHead(input, attempt);
      && d.Valid()
      && (IsContinuation(d) ==> d.action.continuation == C3 || d.action.continuation == C4)
      && (IsContinuation(d) && d.action.continuation == C3 ==> attempt.acceptanceStarted)
      && (IsContinuation(d) && attempt.state in {Starting, AttemptRunning, Verifying} ==>
            d.action.continuation == C3 && attempt.state == Verifying)
  {
    hide RealizeRecorded, FirstMissingQuestion, BlockingDecisionOf;
    RealizeIsFinal(RealizeDisposition, attempt, input.projection.scheduler);
    if attempt.state == Verifying {
      VerifyingHandsOver(input, attempt);
    }
  }

  lemma VerifyingHandsOver(input: Input, attempt: Attempt)
    requires attempt.state == Verifying
    ensures var d := PlanHead(input, attempt);
      && d.Valid()
      && (IsContinuation(d) ==> d.action.continuation == C3 && attempt.acceptanceStarted)
  {
    hide RealizeRecorded, FirstMissingQuestion, BlockingDecisionOf;
  }

  lemma {:induction false} EachIsJudged(a: Acceptance, planned: seq<Id>)
    requires forall id | id in planned :: id in a.planned
    requires RecordsHaveVerdicts(a)
    requires FirstFailed(a, planned).None? && FirstInFlight(a, planned).None? && NextUnstarted(a, planned).None?
    ensures forall id | id in planned :: a.Record(id).completed && a.Record(id).outcome == Pass
    decreases |planned|
  {
    if planned != [] {
      assert planned[0] in planned;
      EachIsJudged(a, planned[1..]);
    }
  }

  lemma EvaluatedIsFinal(p: Projection, o: Observations, attempt: Attempt)
    ensures PlanEvaluated(p, o, attempt).Valid() && !IsContinuation(PlanEvaluated(p, o, attempt))
    ensures o.launch != LaunchAbsent ==>
      PlanLaunch(o.launch, attempt.attemptId).Valid() && !IsContinuation(PlanLaunch(o.launch, attempt.attemptId))
  {
  }

  /** The end of C.3 is never reached: with nothing failed, open or unstarted,
      every criterion passed. */
  lemma StartedIsFinal(p: Projection, o: Observations, attempt: Attempt, a: Acceptance)
    requires RecordsHaveVerdicts(a)
    ensures PlanStarted(p, o, attempt, a).Valid() && !IsContinuation(PlanStarted(p, o, attempt, a))
  {
    hide RealizeRecorded, PlanEvaluated, PlanLaunch, FirstFailed, FirstInFlight, NextUnstarted, RecordsHaveVerdicts,
      AnyCompleted;
    RealizeIsFinal(AcceptanceFailed, attempt, p.scheduler);
    EvaluatedIsFinal(p, o, attempt);
    if FirstFailed(a, a.planned).None? && FirstInFlight(a, a.planned).None? && NextUnstarted(a, a.planned).None? {
      EachIsJudged(a, a.planned);
    }
  }

  /** C.3 goes on to C.4 exactly when the state does not know of the acceptance. */
  lemma AcceptanceHandsOver(input: Input, attempt: Attempt)
    requires HasVerdicts(input.projection) && CurrentHead(input.projection) == Some(attempt)
    ensures PlanAcceptance(input).Valid()
    ensures if StartedInState(input.projection, attempt) then !IsContinuation(PlanAcceptance(input))
            else PlanAcceptance(input) == Proceed(ProceedScheduler, C4)
  {
    hide PlanStarted, RecordsHaveVerdicts;
    if StartedInState(input.projection, attempt) {
      StartedIsFinal(input.projection, input.observations, attempt,
        input.projection.state.acceptances[attempt.attemptId]);
    }
  }

  lemma SchedulerHandsOver(input: Input)
    requires !input.projection.state.run.Terminal()
    ensures PlanScheduler(input).Valid()
    ensures if InFlight(input.projection) then PlanScheduler(input) == Proceed(ProceedAttempt, C2)
            else !IsContinuation(PlanScheduler(input))
  {
  }

  // ------------------------------------------------------------- where it ends

  /** C.2 sends the head attempt, still in flight, to C.3, but the state has no
      record that its acceptance started. */
  predicate Lost(input: Input) {
    && IsContinuation(Plan(input)) && CurrentHead(input.projection).Some? && InFlight(input.projection)
    && IsContinuation(PlanAttempt(input))
    && !StartedInState(input.projection, CurrentHead(input.projection).value)
  }

  lemma HopFrom(input: Input, d: Decision, hops: nat)
    requires hops > 0 && IsContinuation(d)
    ensures Follow(input, d, hops) == Follow(input, ContinuePlan(input, d.action.continuation), hops - 1)
  {
  }

  /** From C.1 at most three continuations lead to a valid action or halt, and
      two when the records of the head attempt's acceptance agree. */
  lemma ContinuationsEnd(input: Input)
    requires HasVerdicts(input.projection) && !Lost(input)
    ensures var d := Follow(input, Plan(input), 3); d.Valid() && !IsContinuation(d)
    ensures (CurrentHead(input.projection).Some? ==>
               (CurrentHead(input.projection).value.acceptanceStarted <==>
                 StartedInState(input.projection, CurrentHead(input.projection).value)))
            ==> var d := Follow(input, Plan(input), 2); d.Valid() && !IsContinuation(d)
  {
    hide Plan, PlanAttempt, PlanHead, PlanAcceptance, PlanScheduler, HasVerdicts, StartedInState;
    var p := input.projection;
    PlanHandsOver(input);
    var first := Plan(input);
    if IsContinuation(first) {
      SchedulerHandsOver(input);
      HopFrom(input, first, 3);
      HopFrom(input, first, 2);
      var second := ContinuePlan(input, first.action.continuation);
      if CurrentHead(p).Some? {
        var attempt := CurrentHead(p).value;
        PlanAttemptIsHead(input, attempt);
        AttemptHandsOver(input, attempt);
        AcceptanceHandsOver(input, attempt);
        if IsContinuation(second) {
          HopFrom(input, second, 2);
          HopFrom(input, second, 1);
          var third := ContinuePlan(input, second.action.continuation);
          if IsContinuation(third) {
            HopFrom(input, third, 1);
          }
        }
      }
    }
  }

  lemma PlanAttemptIsHead(input: Input, attempt: Attempt)
    requires CurrentHead(input.projection) == Some(attempt)
    ensures PlanAttempt(input) == PlanHead(input, attempt)
  {
  }

  /** Why the records have to agree: if they did not on an attempt in flight,
      C.2, C.3 and C.4 would hand over to each other for ever. */
  lemma {:induction false} LostCycles(input: Input, hops: nat)
    requires HasVerdicts(input.projection) && Lost(input)
    ensures IsContinuation(Follow(input, Proceed(ProceedAttempt, C2), hops))
    decreases hops
  {
    hide Plan, PlanAttempt, PlanHead, PlanAcceptance, PlanScheduler, HasVerdicts, StartedInState;
    var attempt := CurrentHead(input.projection).value;
    PlanHandsOver(input);
    PlanAttemptIsHead(input, attempt);
    AttemptHandsOver(input, attempt);
    AcceptanceHandsOver(input, attempt);
    SchedulerHandsOver(input);
    if hops > 0 {
      HopFrom(input, Proceed(ProceedAttempt, C2), hops);
      if hops > 1 {
        HopFrom(input, PlanAttempt(input), hops - 1);
        if hops > 2 {
          HopFrom(input, Proceed(ProceedScheduler, C4), hops - 2);
          LostCycles(input, hops - 3);
        }
      }
    }
  }

  /** The planner's continuations end exactly when the attempt is not lost. */
  lemma ContinuationsEndIff(input: Input)
    requires HasVerdicts(input.projection)
    ensures (exists hops :: !IsContinuation(Follow(input, Plan(input), hops))) <==> !Lost(input)
  {
    if Lost(input) {
      forall hops ensures IsContinuation(Follow(input, Plan(input), hops)) {
        LostCycles(input, hops);
        PlanToAttempt(input);
      }
    } else {
      ContinuationsEnd(input);
    }
  }

  lemma PlanToAttempt(input: Input)
    requires IsContinuation(Plan(input)) && CurrentHead(input.projection).Some?
    ensures Plan(input) == Proceed(ProceedAttempt, C2)
  {
  }
}
