/** Whole live runs: one selector decision per iteration, its effect on the
    movement states, then the next decision. */
module Lifecycle {
  import opened Results
  import opened Recovery
  import D = Dependencies
  import C = Closures

  // ---------------------------------------------------------- compiled scores

  function View(movements: seq<ScheduledMovement>): (view: seq<D.Movement>)
    ensures |view| == |movements|
    ensures forall i | 0 <= i < |movements| :: view[i] == D.Movement(movements[i].id, movements[i].needs)
  {
    seq(|movements|, i requires 0 <= i < |movements| => D.Movement(movements[i].id, movements[i].needs))
  }

  ghost function Graph(s: Scheduler): map<Id, D.Movement> {
    D.ById(View(s.movements))
  }

  ghost function Ids(s: Scheduler): set<Id> {
    set m | m in s.movements :: m.id
  }

  /** What the score rules guarantee of a finalized score, started with budget
      left; `drafts` are the movements of the draft phase. */
  ghost predicate Compiled(s: Scheduler, drafts: set<Id>) {
    && s.remainingTime != 0 && s.pendingSuccessor.None? && !s.draft && s.movements != []
    && (forall i, j | 0 <= i < j < |s.movements| :: s.movements[i].id != s.movements[j].id)
    && (forall m, need | m in s.movements && need in m.needs :: need in Ids(s))
    && !D.Cyclic(Graph(s), Ids(s))
    && (forall m | m in s.movements && m.id in drafts :: !m.repoWrite)
    && if s.gateWaived then forall m | m in s.movements :: !m.final else HasFinal(s, drafts)
  }

  /** Exactly one final movement: no writer, needed by nobody, and reaching
      every movement that is not a draft. */
  ghost predicate HasFinal(s: Scheduler, drafts: set<Id>) {
    exists f | f in s.movements :: IsFinal(s, drafts, f)
  }

  ghost predicate IsFinal(s: Scheduler, drafts: set<Id>, f: ScheduledMovement) {
    && f in s.movements && f.final && !f.repoWrite
    && (forall m | m in s.movements :: m.final ==> m == f)
    && (forall m | m in s.movements :: f.id !in m.needs)
    && (forall m | m in s.movements && m.id !in drafts :: C.Reaches(Graph(s), f.id, m.id))
  }

  /** No movement outside the draft phase waits for one inside it, and the
      final movement is outside. */
  predicate Runnable(s: Scheduler, drafts: set<Id>) {
    && (forall m | m in s.movements && m.id !in drafts :: forall need | need in m.needs :: need !in drafts)
    && (forall m | m in s.movements && m.final && !s.gateWaived :: m.id !in drafts)
  }

  // --------------------------------------------------------------------- steps

  function InitialMovements(movements: seq<ScheduledMovement>, drafts: set<Id>): (states: map<Id, MovementState>)
    ensures forall id | id in states :: states[id] == if id in drafts then Inapplicable else Pending
    ensures forall m | m in movements :: m.id in states
  {
    if movements == [] then map[]
    else
      var last := movements[|movements| - 1];
      var first := if last.id in drafts then Inapplicable else Pending;
      InitialMovements(movements[..|movements| - 1], drafts)[last.id := first]
  }

  function Start(s: Scheduler, drafts: set<Id>): State {
    State(RunRunning, 1, true, 1, false, false, map[], None, map[], InitialMovements(s.movements, drafts), false, map[],
      {}, {}, {})
  }

  function FinalIds(s: Scheduler): set<Id> {
    set m | m in s.movements && m.final :: m.id
  }

  /** What the live loop's handling of a decision does to the replayed state
      when its unit of work succeeds. */
  function Effect(s: Scheduler, state: State, d: Decision): State {
    if !d.Act? then state
    else
      var id := d.action.movementId;
      match d.action.kind
      case AppendMovementReady => state.(movements := state.movements[id := Ready])
      case AppendMovementStarted => state.(movements := state.movements[id := Running])
      case SelectInitialPerformer =>
        state.(movements := state.movements[id := Succeeded],
               run := if id in FinalIds(s) then RunSucceeded else state.run)
      case ComposeCandidate =>
        state.(hasCandidate := true, run := if d.action.carriesCandidate then RunSucceeded else state.run)
      case _ => state
  }

  ghost function Next(s: Scheduler, state: State): State {
    if state.run == RunSucceeded then state else Effect(s, state, PlanBetweenUnit(state, s))
  }

  /** The state after n iterations. */
  ghost function Iterate(s: Scheduler, state: State, n: nat): State
    decreases n
  {
    if n == 0 then state else Iterate(s, Next(s, state), n - 1)
  }

  // ----------------------------------------------------------------- invariant

  /** Every movement is in one of the states of a healthy run. */
  ghost predicate Healthy(s: Scheduler, drafts: set<Id>, state: State) {
    forall m | m in s.movements ::
      if m.id in drafts then state.MovementOf(m.id) == Inapplicable
      else state.MovementOf(m.id) in {Pending, Ready, Running, Succeeded}
  }

  /** Work starts only after all needs succeeded, and for the final movement
      only after the candidate exists. */
  ghost predicate Ordered(s: Scheduler, drafts: set<Id>, state: State) {
    forall m | m in s.movements && state.MovementOf(m.id) in {Ready, Running, Succeeded} ::
      DependenciesSucceeded(state, m.needs) && (m.final && !s.gateWaived ==> state.hasCandidate)
  }

  /** A running movement is the only one, and the first the selector looks at. */
  ghost predicate OneRunning(s: Scheduler, state: State) {
    forall i | 0 <= i < |s.movements| && state.MovementOf(s.movements[i].id) == Running ::
      && (forall m | m in s.movements :: !Promotable(state, s, m))
      && (forall j | 0 <= j < i :: !Startable(state, s, s.movements[j]))
      && (forall j | i < j < |s.movements| :: state.MovementOf(s.movements[j].id) != Running)
  }

  ghost predicate CandidateSound(s: Scheduler, state: State) {
    state.hasCandidate && !s.gateWaived ==> CandidatePrecondition(state, s)
  }

  /** The run succeeds with its final movement or, when waived, with all of them. */
  ghost predicate Outcomes(s: Scheduler, state: State) {
    && state.run in {RunRunning, RunSucceeded}
    && (state.run == RunSucceeded ==>
          if s.gateWaived then WaivedCompletion(state, s)
          else exists m | m in s.movements :: m.final && state.MovementOf(m.id) == Succeeded)
    && (!s.gateWaived && state.run == RunRunning ==>
      forall m | m in s.movements && m.final :: state.MovementOf(m.id) != Succeeded)
  }

  ghost predicate Inv(s: Scheduler, drafts: set<Id>, state: State) {
    Healthy(s, drafts, state) && Ordered(s, drafts, state) && OneRunning(s, state) && CandidateSound(s, state) &&
      Outcomes(s, state)
  }

  // ------------------------------------------------------------ the selector

  lemma {:induction false} FirstPromotableIs(state: State, s: Scheduler, movements: seq<ScheduledMovement>)
    ensures match FirstPromotable(state, s, movements)
      case None => forall m | m in movements :: !Promotable(state, s, m)
      case Some(m) => m in movements && Promotable(state, s, m)
    decreases |movements|
  {
    if movements != [] {
      FirstPromotableIs(state, s, movements[1..]);
    }
  }

  lemma {:induction false} FirstStartableIs(state: State, s: Scheduler, movements: seq<ScheduledMovement>)
    returns (i: nat)
    ensures match FirstStartable(state, s, movements)
      case None => forall m | m in movements :: !Startable(state, s, m)
      case Some(m) => i < |movements| && movements[i] == m && Startable(state, s, m)
                      && forall j | 0 <= j < i :: !Startable(state, s, movements[j])
    decreases |movements|
  {
    i := 0;
    if movements != [] && !Startable(state, s, movements[0]) {
      var k := FirstStartableIs(state, s, movements[1..]);
      i := k + 1;
    }
  }

  /** The four ways a between-unit decision comes about. */
  datatype Choice = Promote(m: ScheduledMovement) | Begin(i: nat) | Finish(i: nat) | Compose | Stuck

  /** What the selector has found when it chooses. */
  ghost predicate Grounds(s: Scheduler, state: State, choice: Choice) {
    && (choice.Promote? ==> choice.m in s.movements && Promotable(state, s, choice.m))
    && (choice.Begin? ==> choice.i < |s.movements| && state.MovementOf(s.movements[choice.i].id) == Ready)
    && (choice.Finish? ==> choice.i < |s.movements| && state.MovementOf(s.movements[choice.i].id) == Running)
    && (choice.Compose? ==>
          if s.gateWaived then WaivedCompletion(state, s) else !state.hasCandidate && CandidatePrecondition(state, s))
    && (!choice.Promote? ==> forall m | m in s.movements :: !Promotable(state, s, m))
    && (choice.Begin? || choice.Finish? ==> forall j | 0 <= j < choice.i :: !Startable(state, s, s.movements[j]))
    && (choice.Compose? || choice.Stuck? ==> forall m | m in s.movements :: !Startable(state, s, m))
    && (choice.Stuck? ==>
          if s.gateWaived then !WaivedCompletion(state, s) else state.hasCandidate || !CandidatePrecondition(state, s))
  }

  lemma Chosen(s: Scheduler, state: State) returns (choice: Choice)
    requires s.remainingTime != 0 && s.pendingSuccessor.None?
    ensures Grounds(s, state, choice)
    ensures choice.Promote? ==>
              PlanBetweenUnit(state, s) == Do(SchedulerCase, AppendMovementReady, true).ForMovement(choice.m.id)
    ensures choice.Begin? ==>
      PlanBetweenUnit(state, s) == Do(SchedulerCase, AppendMovementStarted, true).ForMovement(s.movements[choice.i].id)
    ensures choice.Finish? ==>
      PlanBetweenUnit(state, s) == Do(SchedulerCase, SelectInitialPerformer, true).ForMovement(s.movements[choice.i].id)
    ensures choice.Compose? ==>
      && PlanBetweenUnit(state, s).Act? && PlanBetweenUnit(state, s).action.kind == ComposeCandidate
      && PlanBetweenUnit(state, s).action.carriesCandidate == s.gateWaived
    ensures choice.Stuck? ==> PlanBetweenUnit(state, s) == Invalid(SchedulerCase)
  {
    hide Promotable;
    FirstPromotableIs(state, s, s.movements);
    var i := FirstStartableIs(state, s, s.movements);
    match FirstPromotable(state, s, s.movements)
    case Some(m) => choice := Promote(m);
    case None =>
      match FirstStartable(state, s, s.movements)
      case Some(m) => choice := if state.MovementOf(m.id) == Ready then Begin(i) else Finish(i);
      case None =>
        choice := if PlanBetweenUnit(state, s).Valid() then Compose else Stuck;
  }

  // --------------------------------------------------------- the invariant holds

  ghost predicate DistinctIds(s: Scheduler) {
    forall m, n | m in s.movements && n in s.movements && m.id == n.id :: m == n
  }

  lemma CompiledIsDistinct(s: Scheduler, drafts: set<Id>)
    requires Compiled(s, drafts)
    ensures DistinctIds(s)
  {
    hide HasFinal, Ids, Graph;
    forall m, n | m in s.movements && n in s.movements && m.id == n.id ensures m == n {
      var i :| 0 <= i < |s.movements| && s.movements[i] == m;
      var j :| 0 <= j < |s.movements| && s.movements[j] == n;
    }
  }

  lemma StartHolds(s: Scheduler, drafts: set<Id>)
    requires Compiled(s, drafts)
    ensures Inv(s, drafts, Start(s, drafts))
  {
    hide Compiled, InitialMovements;
    var state := Start(s, drafts);
    forall m | m in s.movements ensures state.MovementOf(m.id) == if m.id in drafts then Inapplicable else Pending {
    }
    assert Outcomes(s, state);
  }

  function Put(state: State, id: Id, to: MovementState): State {
    state.(movements := state.movements[id := to])
  }

  /** Succeeded needs stay succeeded while a movement that was not succeeded moves on. */
  lemma NeedsStay(state: State, id: Id, to: MovementState, needs: seq<Id>)
    requires state.MovementOf(id) != Succeeded
    ensures DependenciesSucceeded(state, needs) ==> DependenciesSucceeded(Put(state, id, to), needs)
    ensures to != Succeeded ==>
              (DependenciesSucceeded(state, needs) <==> DependenciesSucceeded(Put(state, id, to), needs))
  {
    forall need | need in needs
      ensures to != Succeeded ==>
                (state.MovementOf(need) == Succeeded <==> Put(state, id, to).MovementOf(need) == Succeeded) {
    }
  }

  lemma PromoteHolds(s: Scheduler, drafts: set<Id>, state: State, m: ScheduledMovement)
    requires DistinctIds(s) && Inv(s, drafts, state) && state.run == RunRunning
    requires m in s.movements && Promotable(state, s, m)
    ensures Inv(s, drafts, Put(state, m.id, Ready))
  {
    var after := Put(state, m.id, Ready);
    forall n | n in s.movements && after.MovementOf(n.id) in {Ready, Running, Succeeded}
      ensures DependenciesSucceeded(after, n.needs) && (n.final && !s.gateWaived ==> after.hasCandidate)
    {
      NeedsStay(state, m.id, Ready, n.needs);
    }
    assert forall i | 0 <= i < |s.movements| :: state.MovementOf(s.movements[i].id) != Running;
    assert CandidateSound(s, after);
  }

  lemma BeginHolds(s: Scheduler, drafts: set<Id>, state: State, i: nat)
    requires DistinctIds(s) && Inv(s, drafts, state) && state.run == RunRunning
    requires i < |s.movements| && state.MovementOf(s.movements[i].id) == Ready
    requires forall m | m in s.movements :: !Promotable(state, s, m)
    requires forall j | 0 <= j < i :: !Startable(state, s, s.movements[j])
    requires forall j, k | 0 <= j < k < |s.movements| :: s.movements[j].id != s.movements[k].id
    requires forall m | m in s.movements :: s.MaySelect(m.id)
    ensures Inv(s, drafts, Put(state, s.movements[i].id, Running))
  {
    var id := s.movements[i].id;
    var after := Put(state, id, Running);
    forall n | n in s.movements
      ensures after.MovementOf(n.id) in {Ready, Running, Succeeded} ==>
        DependenciesSucceeded(after, n.needs) && (n.final && !s.gateWaived ==> after.hasCandidate)
      ensures !Promotable(after, s, n)
    {
      NeedsStay(state, id, Running, n.needs);
    }
    forall k | 0 <= k < |s.movements| && k != i ensures after.MovementOf(s.movements[k].id) != Running {
      if k < i {
        assert !Startable(state, s, s.movements[k]);
      } else {
        assert Startable(state, s, s.movements[i]);
      }
    }
    forall j | 0 <= j < i ensures !Startable(after, s, s.movements[j]) {
      assert !Startable(state, s, s.movements[j]);
    }
    assert CandidateSound(s, after);
  }

  lemma FinishHolds(s: Scheduler, drafts: set<Id>, state: State, i: nat)
    requires DistinctIds(s) && Inv(s, drafts, state) && state.run == RunRunning
    requires i < |s.movements| && state.MovementOf(s.movements[i].id) == Running
    requires s.gateWaived ==> forall m | m in s.movements :: !m.final
    requires forall j | 0 <= j < i :: !Startable(state, s, s.movements[j])
    requires forall m | m in s.movements :: s.MaySelect(m.id)
    ensures var id := s.movements[i].id;
      Inv(s, drafts, Put(state, id, Succeeded).(run := if id in FinalIds(s) then RunSucceeded else state.run))
  {
    var id := s.movements[i].id;
    var after := Put(state, id, Succeeded).(run := if id in FinalIds(s) then RunSucceeded else state.run);
    FinishOrdered(s, drafts, state, id, after);
    FinishOutcomes(s, state, s.movements[i], after);
    hide Ordered, Promotable, Outcomes;
    forall k | 0 <= k < |s.movements| ensures after.MovementOf(s.movements[k].id) != Running {
      if k < i {
        assert !Startable(state, s, s.movements[k]);
      }
    }
    hide Startable;
    assert CandidateSound(s, after);
  }

  lemma FinishOutcomes(s: Scheduler, state: State, m: ScheduledMovement, after: State)
    requires DistinctIds(s) && Outcomes(s, state) && state.run == RunRunning && m in s.movements
    requires s.gateWaived ==> forall n | n in s.movements :: !n.final
    requires after == Put(state, m.id, Succeeded).(run := if m.id in FinalIds(s) then RunSucceeded else state.run)
    ensures Outcomes(s, after)
  {
  }

  lemma FinishOrdered(s: Scheduler, drafts: set<Id>, state: State, id: Id, after: State)
    requires Ordered(s, drafts, state) && state.MovementOf(id) == Running
    requires after.movements == state.movements[id := Succeeded] && after.hasCandidate == state.hasCandidate
    ensures Ordered(s, drafts, after)
  {
    forall n | n in s.movements && after.MovementOf(n.id) in {Ready, Running, Succeeded}
      ensures DependenciesSucceeded(after, n.needs) && (n.final && !s.gateWaived ==> after.hasCandidate)
    {
      NeedsStay(state, id, Succeeded, n.needs);
    }
  }

  lemma ComposeHolds(s: Scheduler, drafts: set<Id>, state: State)
    requires Inv(s, drafts, state) && state.run == RunRunning
    requires forall m | m in s.movements :: !Startable(state, s, m) && s.MaySelect(m.id)
    requires if s.gateWaived then WaivedCompletion(state, s) else CandidatePrecondition(state, s)
    ensures Inv(s, drafts, state.(hasCandidate := true, run := if s.gateWaived then RunSucceeded else state.run))
  {
    var after := state.(hasCandidate := true, run := if s.gateWaived then RunSucceeded else state.run);
    forall n | n in s.movements ensures DependenciesSucceeded(state, n.needs) == DependenciesSucceeded(after, n.needs) {
    }
    forall i | 0 <= i < |s.movements| ensures after.MovementOf(s.movements[i].id) != Running {
      assert !Startable(state, s, s.movements[i]);
    }
  }

  ghost function Chose(s: Scheduler, state: State, choice: Choice): State
    requires choice.Begin? || choice.Finish? ==> choice.i < |s.movements|
  {
    match choice
    case Promote(m) => Put(state, m.id, Ready)
    case Begin(i) => Put(state, s.movements[i].id, Running)
    case Finish(i) =>
      var id := s.movements[i].id;
      Put(state, id, Succeeded).(run := if id in FinalIds(s) then RunSucceeded else state.run)
    case Compose => state.(hasCandidate := true, run := if s.gateWaived then RunSucceeded else state.run)
    case Stuck => state
  }

  lemma ChosenIndex(s: Scheduler, state: State, choice: Choice)
    requires Grounds(s, state, choice)
    ensures choice.Begin? || choice.Finish? ==> choice.i < |s.movements|
  {
  }

  lemma EffectIs(s: Scheduler, state: State, choice: Choice, d: Decision)
    requires choice.Begin? || choice.Finish? ==> choice.i < |s.movements|
    requires choice.Promote? ==> d == Do(SchedulerCase, AppendMovementReady, true).ForMovement(choice.m.id)
    requires choice.Begin? ==> d == Do(SchedulerCase, AppendMovementStarted, true).ForMovement(s.movements[choice.i].id)
    requires choice.Finish? ==>
               d == Do(SchedulerCase, SelectInitialPerformer, true).ForMovement(s.movements[choice.i].id)
    requires choice.Compose? ==>
               d.Act? && d.action.kind == ComposeCandidate && d.action.carriesCandidate == s.gateWaived
    requires choice.Stuck? ==> d.Invalid?
    ensures Effect(s, state, d) == Chose(s, state, choice)
    ensures choice.Stuck? <==> !d.Valid()
  {
    hide FinalIds;
    if choice.Finish? {
      assert d.action.kind == SelectInitialPerformer && d.action.movementId == s.movements[choice.i].id;
    } else if choice.Begin? {
      assert d.action.kind == AppendMovementStarted && d.action.movementId == s.movements[choice.i].id;
    } else if choice.Promote? {
      assert d.action.kind == AppendMovementReady && d.action.movementId == choice.m.id;
    }
  }

  /** The next state, by the way the decision came about. */
  lemma NextIs(s: Scheduler, state: State) returns (choice: Choice)
    requires s.remainingTime != 0 && s.pendingSuccessor.None? && state.run == RunRunning
    ensures Grounds(s, state, choice) && Next(s, state) == Chose(s, state, choice)
    ensures choice.Stuck? <==> !PlanBetweenUnit(state, s).Valid()
  {
    hide PlanBetweenUnit, FinalIds, Grounds, Effect;
    choice := Chosen(s, state);
    ChosenIndex(s, state, choice);
    EffectIs(s, state, choice, PlanBetweenUnit(state, s));
  }

  lemma ChoiceHolds(s: Scheduler, drafts: set<Id>, state: State, choice: Choice)
    requires Compiled(s, drafts) && Inv(s, drafts, state) && state.run == RunRunning && Grounds(s, state, choice)
    ensures Inv(s, drafts, Chose(s, state, choice))
  {
    CompiledIsDistinct(s, drafts);
    CompiledParts(s, drafts);
    hide Inv, Compiled, Promotable, Startable, CandidatePrecondition, WaivedCompletion, DistinctIds, FinalIds;
    match choice
    case Promote(m) => PromoteHolds(s, drafts, state, m);
    case Begin(i) => BeginHolds(s, drafts, state, i);
    case Finish(i) => FinishHolds(s, drafts, state, i);
    case Compose => ComposeHolds(s, drafts, state);
    case Stuck =>
  }

  lemma ChoiceWorks(s: Scheduler, state: State, choice: Choice)
    requires state.run == RunRunning && Grounds(s, state, choice) && !choice.Stuck?
    ensures Measure(s, Chose(s, state, choice)) < Measure(s, state)
  {
    hide FinalIds, Work, CandidatePrecondition, WaivedCompletion;
    match choice
    case Promote(m) =>
      WorkLess(s, state, m, Ready);
    case Begin(i) =>
      WorkLess(s, state, s.movements[i], Running);
    case Finish(i) =>
      WorkLess(s, state, s.movements[i], Succeeded);
    case Compose =>
      WorkAfter(s.movements, state, Chose(s, state, choice));
  }

  /** One iteration keeps the invariant and, unless the run has succeeded or
      the selector is stuck, strictly lowers the measure. */
  lemma StepHolds(s: Scheduler, drafts: set<Id>, state: State)
    requires Compiled(s, drafts) && Inv(s, drafts, state)
    ensures Inv(s, drafts, Next(s, state))
    ensures state.run == RunRunning && PlanBetweenUnit(state, s).Valid() ==>
              Measure(s, Next(s, state)) < Measure(s, state)
  {
    CompiledParts(s, drafts);
    InvParts(s, drafts, state);
    if state.run == RunRunning {
      hide Inv, Compiled, PlanBetweenUnit, Grounds, Measure, Chose, Next;
      var choice := NextIs(s, state);
      ChoiceHolds(s, drafts, state, choice);
      if !choice.Stuck? {
        ChoiceWorks(s, state, choice);
      }
    }
  }

  lemma CompiledParts(s: Scheduler, drafts: set<Id>)
    requires Compiled(s, drafts)
    ensures s.remainingTime != 0 && s.pendingSuccessor.None? && forall m | m in s.movements :: s.MaySelect(m.id)
    ensures forall j, k | 0 <= j < k < |s.movements| :: s.movements[j].id != s.movements[k].id
    ensures s.gateWaived ==> forall m | m in s.movements :: !m.final
  {
  }

  lemma InvParts(s: Scheduler, drafts: set<Id>, state: State)
    requires Inv(s, drafts, state)
    ensures state.run in {RunRunning, RunSucceeded}
    ensures forall m | m in s.movements && m.final && !s.gateWaived && state.run == RunRunning ::
              state.MovementOf(m.id) != Succeeded
  {
  }

  function Weight(state: MovementState): nat {
    match state
    case Pending => 3
    case Ready => 2
    case Running => 1
    case _ => 0
  }

  function Work(movements: seq<ScheduledMovement>, state: State): nat {
    if movements == [] then 0 else Weight(state.MovementOf(movements[0].id)) + Work(movements[1..], state)
  }

  /** What is left to do: work on the movements, the candidate, the run itself. */
  function Measure(s: Scheduler, state: State): nat {
    Work(s.movements, state) + (if state.hasCandidate then 0 else 1) + (if state.run == RunSucceeded then 0 else 1)
  }

  lemma {:induction false} WorkAfter(movements: seq<ScheduledMovement>, state: State, after: State)
    requires forall m | m in movements :: Weight(after.MovementOf(m.id)) <= Weight(state.MovementOf(m.id))
    ensures Work(movements, after) <= Work(movements, state)
    ensures (exists m | m in movements :: Weight(after.MovementOf(m.id)) < Weight(state.MovementOf(m.id)))
      ==> Work(movements, after) < Work(movements, state)
    decreases |movements|
  {
    if movements != [] {
      WorkAfter(movements[1..], state, after);
      assert movements[0] in movements;
    }
  }

  lemma WorkLess(s: Scheduler, state: State, m: ScheduledMovement, to: MovementState)
    requires m in s.movements && Weight(to) < Weight(state.MovementOf(m.id))
    ensures forall run: RunState :: Work(s.movements, Put(state, m.id, to).(run := run)) < Work(s.movements, state)
    ensures Work(s.movements, Put(state, m.id, to)) < Work(s.movements, state)
  {
    assert Put(state, m.id, to) == Put(state, m.id, to).(run := state.run);
    forall run: RunState ensures Work(s.movements, Put(state, m.id, to).(run := run)) < Work(s.movements, state) {
      var after := Put(state, m.id, to).(run := run);
      assert Weight(after.MovementOf(m.id)) < Weight(state.MovementOf(m.id));
      WorkAfter(s.movements, state, after);
    }
  }

  // ------------------------------------------------------------------ progress

  lemma GraphNeeds(s: Scheduler, m: ScheduledMovement)
    requires forall j, k | 0 <= j < k < |s.movements| :: s.movements[j].id != s.movements[k].id
    requires m in s.movements
    ensures D.NeedsOf(Graph(s), m.id) == m.needs
  {
    var i :| 0 <= i < |s.movements| && s.movements[i] == m;
    var view := View(s.movements);
    assert view[i] in view;
    C.DeclaredNeeds(view, view[i]);
  }

  /** Ids of pending movements that do not wait for the candidate. */
  ghost function Waiting(s: Scheduler, state: State): set<Id> {
    set m | m in s.movements && state.MovementOf(m.id) == Pending && (m.final ==> s.gateWaived) :: m.id
  }

  /** A declared need is a movement, and never the final one. */
  lemma NeedIsMovement(s: Scheduler, drafts: set<Id>, m: ScheduledMovement, need: Id) returns (n: ScheduledMovement)
    requires Compiled(s, drafts) && m in s.movements && need in m.needs
    ensures n in s.movements && n.id == need && !n.final
  {
    assert need in Ids(s);
    n :| n in s.movements && n.id == need;
    if !s.gateWaived {
      var f :| f in s.movements && IsFinal(s, drafts, f);
    }
  }

  /** Between units, a movement outside the draft phase is pending or done. */
  lemma SettledState(s: Scheduler, drafts: set<Id>, state: State, m: ScheduledMovement)
    requires Inv(s, drafts, state) && m in s.movements && m.id !in drafts
    requires !Startable(state, s, m) && s.MaySelect(m.id)
    ensures state.MovementOf(m.id) in {Pending, Succeeded}
  {
  }

  lemma DraftState(s: Scheduler, drafts: set<Id>, state: State, m: ScheduledMovement)
    requires Inv(s, drafts, state) && m in s.movements && state.MovementOf(m.id) != Inapplicable
    ensures m.id !in drafts
  {
  }

  lemma WaitsForWaiting(s: Scheduler, drafts: set<Id>, state: State, m: ScheduledMovement)
    requires Compiled(s, drafts) && Inv(s, drafts, state) && Runnable(s, drafts)
    requires m in s.movements && state.MovementOf(m.id) == Pending && (m.final ==> s.gateWaived)
    requires forall n | n in s.movements :: !Promotable(state, s, n) && !Startable(state, s, n)
    ensures exists need | need in m.needs :: need in Waiting(s, state)
  {
    CompiledParts(s, drafts);
    hide Compiled, Inv, Startable;
    DraftState(s, drafts, state, m);
    assert !Promotable(state, s, m);
    var need :| need in m.needs && state.MovementOf(need) != Succeeded;
    var n := NeedIsMovement(s, drafts, m, need);
    SettledState(s, drafts, state, n);
    assert need in Waiting(s, state);
  }

  lemma WaitingMovement(s: Scheduler, state: State, id: Id) returns (m: ScheduledMovement)
    requires id in Waiting(s, state)
    ensures m in s.movements && m.id == id && state.MovementOf(m.id) == Pending && (m.final ==> s.gateWaived)
  {
    m :| m in s.movements && m.id == id && state.MovementOf(m.id) == Pending && (m.final ==> s.gateWaived);
  }

  lemma WaitingIsDeclared(s: Scheduler, state: State)
    ensures Waiting(s, state) <= Ids(s)
  {
  }

  /** When nothing can be promoted or started, nothing waits: a waiting
      movement would be part of a cycle. */
  lemma NothingWaits(s: Scheduler, drafts: set<Id>, state: State)
    requires Compiled(s, drafts) && Inv(s, drafts, state) && Runnable(s, drafts)
    requires forall n | n in s.movements :: !Promotable(state, s, n) && !Startable(state, s, n)
    ensures Waiting(s, state) == {}
  {
    CompiledParts(s, drafts);
    CompiledIsAcyclic(s, drafts);
    WaitingIsDeclared(s, state);
    hide Inv, Compiled, Startable, Promotable, Runnable, Waiting, Ids, Graph;
    var stuck := Waiting(s, state);
    if stuck != {} {
      forall id | id in stuck ensures D.NeedsInside(Graph(s), stuck, id) {
        WaitsInside(s, drafts, state, id);
      }
      D.StuckIsCyclic(Graph(s), stuck, Ids(s));
    }
  }

  lemma WaitsInside(s: Scheduler, drafts: set<Id>, state: State, id: Id)
    requires Compiled(s, drafts) && Inv(s, drafts, state) && Runnable(s, drafts)
    requires forall n | n in s.movements :: !Promotable(state, s, n) && !Startable(state, s, n)
    requires id in Waiting(s, state)
    ensures D.NeedsInside(Graph(s), Waiting(s, state), id)
  {
    CompiledParts(s, drafts);
    hide Inv, Compiled, Startable, Promotable, Runnable, Waiting, Ids, Graph;
    var m := WaitingMovement(s, state, id);
    WaitsForWaiting(s, drafts, state, m);
    GraphNeeds(s, m);
  }

  lemma CompiledIsAcyclic(s: Scheduler, drafts: set<Id>)
    requires Compiled(s, drafts)
    ensures !D.Cyclic(Graph(s), Ids(s))
  {
  }

  /** Every compiled lifecycle that is runnable always has a next effect. */
  lemma NoDeadlock(s: Scheduler, drafts: set<Id>, state: State)
    requires Compiled(s, drafts) && Inv(s, drafts, state) && Runnable(s, drafts) && state.run == RunRunning
    ensures PlanBetweenUnit(state, s).Valid()
  {
    CompiledParts(s, drafts);
    var choice: Choice;
    {
      hide PlanBetweenUnit, Inv, Compiled, Grounds, Next;
      choice := NextIs(s, state);
    }
    if choice.Stuck? {
      NothingWaits(s, drafts, state);
      AllButFinalSucceeded(s, drafts, state);
      if !s.gateWaived {
        FinalIsPromotable(s, drafts, state);
      }
    }
  }

  lemma AllButFinalSucceeded(s: Scheduler, drafts: set<Id>, state: State)
    requires Compiled(s, drafts) && Inv(s, drafts, state) && Waiting(s, state) == {}
    requires forall n | n in s.movements :: !Startable(state, s, n) && s.MaySelect(n.id)
    ensures forall m | m in s.movements && (m.final ==> s.gateWaived) && m.id !in drafts ::
              state.MovementOf(m.id) == Succeeded
    ensures if s.gateWaived then WaivedCompletion(state, s) else CandidatePrecondition(state, s)
  {
    forall m | m in s.movements && (m.final ==> s.gateWaived) && m.id !in drafts
      ensures state.MovementOf(m.id) == Succeeded {
      assert !Startable(state, s, m);
      assert state.MovementOf(m.id) == Pending ==> m.id in Waiting(s, state);
    }
  }

  lemma FinalOf(s: Scheduler, drafts: set<Id>) returns (f: ScheduledMovement)
    requires Compiled(s, drafts) && !s.gateWaived
    ensures IsFinal(s, drafts, f)
  {
    f :| f in s.movements && IsFinal(s, drafts, f);
  }

  lemma RunningFinal(s: Scheduler, drafts: set<Id>, state: State, f: ScheduledMovement)
    requires Inv(s, drafts, state) && !s.gateWaived && state.run == RunRunning && f in s.movements && f.final
    ensures state.MovementOf(f.id) != Succeeded
  {
  }

  lemma FinalIsPromotable(s: Scheduler, drafts: set<Id>, state: State)
    requires Compiled(s, drafts) && Inv(s, drafts, state) && Runnable(s, drafts) && !s.gateWaived
    requires state.run == RunRunning && state.hasCandidate
    requires forall m | m in s.movements && !m.final && m.id !in drafts :: state.MovementOf(m.id) == Succeeded
    requires forall n | n in s.movements :: !Startable(state, s, n) && s.MaySelect(n.id)
    ensures exists f | f in s.movements :: Promotable(state, s, f)
  {
    var f := FinalOf(s, drafts);
    RunningFinal(s, drafts, state, f);
    hide Compiled, Inv;
    SettledState(s, drafts, state, f);
    forall need | need in f.needs ensures state.MovementOf(need) == Succeeded {
      var n := NeedIsMovement(s, drafts, f, need);
    }
    assert Promotable(state, s, f);
  }

  // --------------------------------------------------------------- whole runs

  lemma StartedNeeds(s: Scheduler, drafts: set<Id>, state: State, id: Id, need: Id)
    requires Compiled(s, drafts) && Inv(s, drafts, state)
    requires need in D.NeedsOf(Graph(s), id) && state.MovementOf(id) in {Ready, Running, Succeeded}
    ensures state.MovementOf(need) == Succeeded
  {
    CompiledParts(s, drafts);
    var view := View(s.movements);
    var i :| 0 <= i < |view| && view[i] == D.ById(view)[id];
    assert s.movements[i] in s.movements && s.movements[i].id == id;
    assert DependenciesSucceeded(state, s.movements[i].needs);
  }

  lemma {:induction false} SucceededAlongPath(s: Scheduler, drafts: set<Id>, state: State, path: seq<Id>)
    requires Compiled(s, drafts) && Inv(s, drafts, state)
    requires C.NeedPath(Graph(s), path) && state.MovementOf(path[0]) == Succeeded
    ensures state.MovementOf(path[|path| - 1]) == Succeeded
    decreases |path|
  {
    if |path| > 1 {
      C.RestOfPath(Graph(s), path);
      StartedNeeds(s, drafts, state, path[0], path[1]);
      SucceededAlongPath(s, drafts, state, path[1..]);
    }
  }

  /** A run succeeds only when every movement outside the draft phase has. */
  lemma SuccessIsComplete(s: Scheduler, drafts: set<Id>, state: State)
    requires Compiled(s, drafts) && Inv(s, drafts, state) && state.run == RunSucceeded
    ensures forall m | m in s.movements && m.id !in drafts :: state.MovementOf(m.id) == Succeeded
  {
    forall m | m in s.movements && m.id !in drafts ensures state.MovementOf(m.id) == Succeeded {
      if !s.gateWaived {
        var f := FinalOf(s, drafts);
        FinalSucceeded(s, drafts, state, f);
        var path :| C.Connects(Graph(s), path, f.id, m.id);
        SucceededAlongPath(s, drafts, state, path);
      } else {
        WaivedSucceeded(s, drafts, state, m);
      }
    }
  }

  lemma FinalSucceeded(s: Scheduler, drafts: set<Id>, state: State, f: ScheduledMovement)
    requires Inv(s, drafts, state) && state.run == RunSucceeded && !s.gateWaived && IsFinal(s, drafts, f)
    ensures state.MovementOf(f.id) == Succeeded
  {
  }

  lemma WaivedSucceeded(s: Scheduler, drafts: set<Id>, state: State, m: ScheduledMovement)
    requires Inv(s, drafts, state) && state.run == RunSucceeded && s.gateWaived && m in s.movements && m.id !in drafts
    ensures state.MovementOf(m.id) == Succeeded
  {
  }

  /** A score that is not runnable never succeeds. */
  lemma UnrunnableNeverSucceeds(s: Scheduler, drafts: set<Id>, state: State)
    requires Compiled(s, drafts) && Inv(s, drafts, state) && !Runnable(s, drafts)
    ensures state.run == RunRunning
  {
    if state.run == RunSucceeded {
      SuccessIsComplete(s, drafts, state);
      if m, need :| m in s.movements && m.id !in drafts && need in m.needs && need in drafts {
        var n := NeedIsMovement(s, drafts, m, need);
        SucceededNeeds(s, drafts, state, m, n);
      } else {
        var f :| f in s.movements && f.final && !s.gateWaived && f.id in drafts;
        var only := FinalOf(s, drafts);
        FinalSucceeded(s, drafts, state, only);
        DraftIsInapplicable(s, drafts, state, f);
      }
    }
  }

  lemma SucceededNeeds(s: Scheduler, drafts: set<Id>, state: State, m: ScheduledMovement, need: ScheduledMovement)
    requires Inv(s, drafts, state) && m in s.movements && need in s.movements && need.id in m.needs
    requires need.id in drafts
    ensures state.MovementOf(m.id) != Succeeded
  {
  }

  lemma DraftIsInapplicable(s: Scheduler, drafts: set<Id>, state: State, m: ScheduledMovement)
    requires Inv(s, drafts, state) && m in s.movements && m.id in drafts
    ensures state.MovementOf(m.id) == Inapplicable
  {
  }

  lemma {:induction false} IterateHolds(s: Scheduler, drafts: set<Id>, state: State, n: nat)
    requires Compiled(s, drafts) && Inv(s, drafts, state)
    ensures Inv(s, drafts, Iterate(s, state, n))
    decreases n
  {
    hide Inv, Compiled, Next;
    if n > 0 {
      StepHolds(s, drafts, state);
      IterateHolds(s, drafts, Next(s, state), n - 1);
    }
  }

  lemma IterateOnce(s: Scheduler, state: State, n: nat)
    ensures Iterate(s, state, 0) == state && Iterate(s, state, n + 1) == Iterate(s, Next(s, state), n)
  {
  }

  ghost predicate Ended(s: Scheduler, state: State) {
    state.run == RunSucceeded || !PlanBetweenUnit(state, s).Valid()
  }

  lemma EndedOrCloser(s: Scheduler, drafts: set<Id>, state: State)
    requires Compiled(s, drafts) && Inv(s, drafts, state)
    ensures !Ended(s, state) ==> Inv(s, drafts, Next(s, state)) && Measure(s, Next(s, state)) < Measure(s, state)
  {
    InvParts(s, drafts, state);
    hide Inv, Compiled, Next, PlanBetweenUnit, Measure;
    StepHolds(s, drafts, state);
  }

  /** Every run ends, within as many steps as the measure says. */
  lemma {:induction false} RunEnds(s: Scheduler, drafts: set<Id>, state: State) returns (n: nat)
    requires Compiled(s, drafts) && Inv(s, drafts, state)
    ensures Ended(s, Iterate(s, state, n)) && n <= Measure(s, state)
    decreases Measure(s, state)
  {
    hide *;
    IterateOnce(s, state, 0);
    EndedOrCloser(s, drafts, state);
    n := 0;
    if !Ended(s, state) {
      var k := RunEnds(s, drafts, Next(s, state));
      IterateOnce(s, state, k);
      n := k + 1;
    }
  }

  /** In every reachable state: at most one movement runs, work has started
      only on movements whose needs all succeeded, and on the final movement
      only once the candidate exists. */
  lemma RunIsSafe(s: Scheduler, drafts: set<Id>, n: nat)
    requires Compiled(s, drafts)
    ensures var state := Iterate(s, Start(s, drafts), n);
      && (forall m, k | m in s.movements && k in s.movements ::
            state.MovementOf(m.id) == Running && state.MovementOf(k.id) == Running ==> m == k)
      && (forall m | m in s.movements && state.MovementOf(m.id) in {Ready, Running, Succeeded} ::
            DependenciesSucceeded(state, m.needs) && (m.final && !s.gateWaived ==> state.hasCandidate))
      && (state.run == RunSucceeded ==>
        forall m | m in s.movements && m.id !in drafts :: state.MovementOf(m.id) == Succeeded)
  {
    StartHolds(s, drafts);
    IterateHolds(s, drafts, Start(s, drafts), n);
    var state := Iterate(s, Start(s, drafts), n);
    SafeState(s, drafts, state);
    if state.run == RunSucceeded {
      SuccessIsComplete(s, drafts, state);
    }
  }

  lemma SafeState(s: Scheduler, drafts: set<Id>, state: State)
    requires Inv(s, drafts, state)
    ensures forall m, k | m in s.movements && k in s.movements ::
      state.MovementOf(m.id) == Running && state.MovementOf(k.id) == Running ==> m == k
    ensures forall m | m in s.movements && state.MovementOf(m.id) in {Ready, Running, Succeeded} ::
      DependenciesSucceeded(state, m.needs) && (m.final && !s.gateWaived ==> state.hasCandidate)
  {
    forall m, k | m in s.movements && k in s.movements && state.MovementOf(m.id) == Running &&
      state.MovementOf(k.id) == Running
      ensures m == k
    {
      var i :| 0 <= i < |s.movements| && s.movements[i] == m;
      var j :| 0 <= j < |s.movements| && s.movements[j] == k;
    }
  }

  /** The live loop never meets the selector's error sentinel exactly when the
      score is runnable; it then ends in success. */
  lemma LifecycleTheorem(s: Scheduler, drafts: set<Id>)
    requires Compiled(s, drafts)
    ensures Runnable(s, drafts) <==>
      forall n :: var state := Iterate(s, Start(s, drafts), n);
        state.run == RunRunning ==> PlanBetweenUnit(state, s).Valid()
    ensures Runnable(s, drafts) <==> exists n :: Iterate(s, Start(s, drafts), n).run == RunSucceeded
  {
    StartHolds(s, drafts);
    var start := Start(s, drafts);
    hide Inv, Compiled, Start, PlanBetweenUnit, Runnable;
    forall n ensures var state := Iterate(s, start, n);
      && (Runnable(s, drafts) && state.run == RunRunning ==> PlanBetweenUnit(state, s).Valid())
      && (!Runnable(s, drafts) ==> state.run == RunRunning)
      && state.run in {RunRunning, RunSucceeded}
    {
      var state := Iterate(s, start, n);
      IterateHolds(s, drafts, start, n);
      InvParts(s, drafts, state);
      if !Runnable(s, drafts) {
        UnrunnableNeverSucceeds(s, drafts, state);
      } else if state.run == RunRunning {
        NoDeadlock(s, drafts, state);
      }
    }
    var end := RunEnds(s, drafts, start);
  }

  datatype LiveOutcome = LiveSucceeded | Interrupted

  /** The live loop, while every unit of work succeeds. */
  method LiveRunLoop(s: Scheduler, drafts: set<Id>) returns (outcome: LiveOutcome, state: State)
    requires Compiled(s, drafts)
    ensures outcome == LiveSucceeded <==> Runnable(s, drafts)
    ensures outcome == LiveSucceeded ==>
              forall m | m in s.movements && m.id !in drafts :: state.MovementOf(m.id) == Succeeded
  {
    hide Inv, Compiled, PlanBetweenUnit, Runnable, Measure, Effect;
    state := Start(s, drafts);
    StartHolds(s, drafts);
    while true
      invariant Inv(s, drafts, state)
      decreases Measure(s, state)
    {
      InvParts(s, drafts, state);
      if state.run == RunSucceeded {
        if !Runnable(s, drafts) {
          UnrunnableNeverSucceeds(s, drafts, state);
        }
        SuccessIsComplete(s, drafts, state);
        return LiveSucceeded, state;
      }
      var decision := PlanBetweenUnit(state, s);
      if !decision.Valid() {
        if Runnable(s, drafts) {
          NoDeadlock(s, drafts, state);
        }
        return Interrupted, state;
      }
      StepHolds(s, drafts, state);
      state := Effect(s, state, decision);
    }
  }

  const INTERVIEW := ScheduledMovement("interview", [], false, false)
  const LAST := ScheduledMovement("last", ["interview"], false, true)

  /** Two movements, the final one of which needs the draft movement. */
  function DraftNeed(): Scheduler {
    Scheduler([INTERVIEW, LAST], None, false, "", false, 1)
  }

  lemma DraftNeedGraph()
    ensures var g := Graph(DraftNeed());
      Ids(DraftNeed()) == {"interview", "last"} && D.NeedsOf(g, "interview") == [] &&
        D.NeedsOf(g, "last") == ["interview"]
  {
    var s := DraftNeed();
    assert s.movements[0] == INTERVIEW && s.movements[1] == LAST;
    GraphNeeds(s, INTERVIEW);
    GraphNeeds(s, LAST);
  }

  lemma DraftNeedIsAcyclic()
    ensures !D.Cyclic(Graph(DraftNeed()), Ids(DraftNeed()))
  {
    DraftNeedGraph();
    hide Graph, Ids;
    var g, ids := Graph(DraftNeed()), Ids(DraftNeed());
    var order := ["interview", "last"];
    assert order[..0] == [] && order[..1] == ["interview"];
    assert D.IsOrder(g, ids, order);
    forall cycle ensures !D.IsCycle(g, ids, cycle) {
      if D.IsCycle(g, ids, cycle) {
        D.CyclicHasNoOrder(g, ids, order, cycle);
      }
    }
  }

  lemma DraftNeedHasFinal()
    ensures HasFinal(DraftNeed(), {"interview"})
  {
    var s := DraftNeed();
    assert s.movements[0] == INTERVIEW && s.movements[1] == LAST;
    hide Graph;
    C.ReachesItself(Graph(s), "last");
    assert IsFinal(s, {"interview"}, LAST);
  }

  /** The smallest score that the rules accept and that is not runnable. */
  lemma DraftNeedIsAccepted()
    ensures Compiled(DraftNeed(), {"interview"}) && !Runnable(DraftNeed(), {"interview"})
  {
    var s := DraftNeed();
    DraftNeedGraph();
    DraftNeedIsAcyclic();
    DraftNeedHasFinal();
    hide Graph, Ids, HasFinal;
    assert s.movements[0] == INTERVIEW && s.movements[1] == LAST;
    assert LAST in s.movements && "interview" in LAST.needs;
  }
}
