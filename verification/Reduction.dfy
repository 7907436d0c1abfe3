/** What loading a journal makes of its attempts and their acceptances: the
    reducer's records, and beside them the facts that recovery reads off the
    same entries. */
module Reduction {
  import opened Results
  import opened Recovery
  import opened Continuations
  import opened PlannerSafety

  /** The journal entries that touch an attempt or its acceptance. */
  datatype Entry =
    | PerformerSelected(attemptId: Id, movementId: Id, performer: Id, scoreRevision: nat)
    | AdapterStarted(attemptId: Id)
    | AdapterProbed(attemptId: Id)
    | PerformerCompleted(attemptId: Id)
    | ChangeSetRecorded(attemptId: Id)
    | VerificationPassed(attemptId: Id)
    | AcceptanceStarted(attemptId: Id, planned: seq<Id>)
    | CriterionStarted(attemptId: Id, criterionId: Id)
    | CriterionCompleted(attemptId: Id, criterionId: Id, outcome: Outcome)
    | EvaluationCompleted(attemptId: Id, passed: seq<Id>, review: Option<Verdict>)
    | AcceptanceRejected(attemptId: Id, disposition: Disposition)
    | AttemptEnded(attemptId: Id, end: AttemptState, disposition: Disposition)
    | GateRequested(decisionId: Id, attemptId: Id, movementId: Id)
    | GateResolved(decisionId: Id, approved: bool)
    | DecisionDropped(decisionId: Id)
    | MovementSucceeded(attemptId: Id, endsRun: bool)
    | MovementFailed(attemptId: Id, gateRejected: bool, endsRun: bool)
    | RunEnded
    | RunCancelled(attempts: set<Id>)
    | AmendmentApproved(scoreRevision: nat, superseded: set<Id>)
    | Unrelated

  // -------------------------------------------------------------- the reducer

  datatype AttemptRecord = AttemptRecord(movementId: Id, scoreRevision: nat, state: AttemptState) {
    predicate Ended() { state in {Completed, Blocked, AttemptFailed, AttemptCancelled, Superseded} }
  }

  /** A human gate that waits for its decision, and one that has it. */
  datatype PendingGate = PendingGate(attemptId: Id, movementId: Id)

  datatype Resolution = Resolution(decisionId: Id, movementId: Id, approved: bool)

  datatype Records = Records(scoreRevision: nat, attempts: map<Id, AttemptRecord>, probed: set<Id>,
                             changeSets: set<Id>, verified: set<Id>, acceptances: map<Id, Acceptance>,
                             gates: map<Id, PendingGate>, resolved: map<Id, Resolution>)
  {
    /** What became of the gate of an attempt. */
    function AnswerOf(id: Id, movementId: Id): GateAnswer {
      if id in resolved && resolved[id].movementId == movementId then Answered(resolved[id].approved)
      else if exists d | d in gates :: gates[d] == PendingGate(id, movementId) then Asked
      else Unasked
    }

    function Closed(ends: bool): Records { if ends then this.(gates := map[]) else this }

    predicate In(id: Id, states: set<AttemptState>) { id in attempts && attempts[id].state in states }

    predicate Live(ids: set<Id>) { forall id | id in ids :: id in attempts && !attempts[id].Ended() }

    function Acceptance(id: Id): Acceptance {
      if id in acceptances then acceptances[id] else Recovery.Acceptance.Acceptance(false, [], map[], false)
    }

    function Moved(id: Id, state: AttemptState): Records
      requires id in attempts
    {
      this.(attempts := attempts[id := attempts[id].(state := state)])
    }

    function AllMoved(ids: set<Id>, state: AttemptState): Records {
      this.(attempts := map id | id in attempts ::
                          if id in ids then attempts[id].(state := state) else attempts[id])
    }

    function With(id: Id, acceptance: Acceptance): Records {
      this.(acceptances := acceptances[id := acceptance])
    }
  }

  /** The outcomes of a completion are a pass for every planned criterion, in order. */
  predicate MatchesPlan(a: Acceptance, passed: seq<Id>) {
    passed == a.planned && forall id | id in a.planned :: a.Record(id).completed && a.Record(id).outcome == Pass
  }

  /** One entry, or none when the reducer refuses it and with it the journal. */
  function Reduce(l: Records, e: Entry): Option<Records> {
    match e
    case PerformerSelected(id, movementId, _, revision) =>
      if id == "" || id in l.attempts then None
      else Some(l.(attempts := l.attempts[id := AttemptRecord(movementId, revision, Starting)]))
    case AdapterStarted(id) =>
      if l.In(id, {Starting}) then Some(l.Moved(id, AttemptRunning)) else None
    case AdapterProbed(id) =>
      if l.In(id, {AttemptRunning}) && id !in l.probed then Some(l.(probed := l.probed + {id})) else None
    case PerformerCompleted(id) =>
      if l.In(id, {AttemptRunning}) && id in l.probed then Some(l.Moved(id, Verifying)) else None
    case ChangeSetRecorded(id) =>
      if l.In(id, {Verifying}) && id !in l.changeSets then Some(l.(changeSets := l.changeSets + {id})) else None
    case VerificationPassed(id) =>
      if l.In(id, {Verifying}) && id !in l.verified then Some(l.(verified := l.verified + {id})) else None
    case AcceptanceStarted(id, planned) =>
      if l.In(id, {Verifying}) && id in l.verified && !l.Acceptance(id).started
      then Some(l.With(id, Recovery.Acceptance.Acceptance(true, planned, map[], false))) else None
    case CriterionStarted(id, criterionId) =>
      var a := l.Acceptance(id);
      if l.In(id, {Verifying}) && a.started && criterionId in a.planned && !a.Record(criterionId).started
      then Some(l.With(id, a.(criteria := a.criteria[criterionId := CriterionRecord(true, false, NoOutcome)])))
        else None
    case CriterionCompleted(id, criterionId, outcome) =>
      var a := l.Acceptance(id);
      var record := a.Record(criterionId);
      if l.In(id, {Verifying}) && record.started && !record.completed && outcome in {Pass, Fail, Error}
      then Some(l.With(id, a.(criteria := a.criteria[criterionId := record.(completed := true, outcome := outcome)])))
        else None
    case EvaluationCompleted(id, passed, _) =>
      var a := l.Acceptance(id);
      if l.In(id, {Verifying}) && a.started && !a.evaluationCompleted && MatchesPlan(a, passed)
      then Some(l.With(id, a.(evaluationCompleted := true))) else None
    case AcceptanceRejected(id, _) =>
      if l.In(id, {Verifying}) && l.Acceptance(id).started then Some(l.Moved(id, AttemptFailed)) else None
    case AttemptEnded(id, end, _) =>
      if || (end == Completed && l.In(id, {Verifying}) && l.Acceptance(id).evaluationCompleted)
         || (end == Blocked && l.In(id, {AttemptRunning}) && id in l.probed)
         || (end == AttemptFailed && l.In(id, {Starting, AttemptRunning, Verifying}))
      then Some(l.Moved(id, end)) else None
    case GateRequested(decisionId, id, movementId) =>
      if decisionId in l.gates then None else Some(l.(gates := l.gates[decisionId := PendingGate(id, movementId)]))
    case GateResolved(decisionId, approved) =>
      if decisionId !in l.gates then None
      else
        var gate := l.gates[decisionId];
        Some(l.(resolved := l.resolved[gate.attemptId := Resolution(decisionId, gate.movementId, approved)],
                gates := l.gates - {decisionId}))
    case DecisionDropped(decisionId) => Some(l.(gates := l.gates - {decisionId}))
    case MovementSucceeded(id, endsRun) =>
      if l.In(id, {Completed}) then Some(l.Closed(endsRun)) else None
    case MovementFailed(id, gateRejected, endsRun) =>
      if !gateRejected then Some(l)
      else if l.In(id, {Verifying}) then Some(l.Moved(id, AttemptFailed).Closed(endsRun))
      else None
    case RunEnded => Some(l.Closed(true))
    case RunCancelled(ids) =>
      if l.Live(ids) then Some(l.AllMoved(ids, AttemptCancelled).Closed(true)) else None
    case AmendmentApproved(revision, ids) =>
      if l.Live(ids) then Some(l.AllMoved(ids, Superseded).(scoreRevision := revision).Closed(true)) else None
    case Unrelated => Some(l)
  }

  /** The journal, newest entry last. */
  function Reduced(first: Records, journal: seq<Entry>): Option<Records>
    decreases |journal|
  {
    if journal == [] then Some(first)
    else
      match Reduced(first, journal[..|journal| - 1])
      case None => None
      case Some(l) => Reduce(l, journal[|journal| - 1])
  }

  function Empty(scoreRevision: nat): Records {
    Records(scoreRevision, map[], {}, {}, {}, map[], map[], map[])
  }

  // -------------------------------------------------------- what recovery reads

  datatype Facts = Facts(attempts: map<Id, Attempt>, order: seq<Id>, failed: set<Id>, reviews: map<Id, Verdict>)

  /** Facts about attempts that no entry selected are dropped. */
  function Note(f: Facts, e: Entry): Facts {
    match e
    case PerformerSelected(id, movementId, performer, revision) =>
      var attempt := Attempt(id, movementId, revision, Starting, false, None, [], false, false, false, false, false,
        performer);
      f.(attempts := f.attempts[id := attempt], order := f.order + [id])
    case ChangeSetRecorded(id) =>
      if id in f.attempts then f.(attempts := f.attempts[id := f.attempts[id].(changeSetRecorded := true)]) else f
    case AcceptanceStarted(id, _) =>
      if id in f.attempts then f.(attempts := f.attempts[id := f.attempts[id].(acceptanceStarted := true)]) else f
    case EvaluationCompleted(id, _, Some(verdict)) => f.(reviews := f.reviews[id := verdict])
    case MovementSucceeded(id, _) =>
      if id in f.attempts then f.(attempts := f.attempts[id := f.attempts[id].(movementSucceeded := true)]) else f
    case MovementFailed(id, gateRejected, _) =>
      if id in f.attempts then
        f.(attempts := f.attempts[id := f.attempts[id].(movementFailed := true, dispositionRealized := true,
                                                        finalGateRejected := gateRejected)])
      else f
    case AcceptanceRejected(id, disposition) =>
      if id in f.attempts then
        f.(attempts := f.attempts[id := f.attempts[id].(recordedDisposition := Some(disposition))], failed := f.failed +
          {id})
      else f
    case AttemptEnded(id, AttemptFailed, disposition) =>
      if id in f.attempts then
        f.(attempts := f.attempts[id := f.attempts[id].(recordedDisposition := Some(disposition))])
      else f
    case _ => f
  }

  function Noted(first: Facts, journal: seq<Entry>): Facts
    decreases |journal|
  {
    if journal == [] then first else Note(Noted(first, journal[..|journal| - 1]), journal[|journal| - 1])
  }

  const NO_FACTS := Facts(map[], [], {}, map[])

  /** The attempt selected last among those of the current revision that were
      not superseded, in its reduced state. */
  function HeadOf(f: Facts, l: Records, order: seq<Id>): Option<Attempt> {
    if order == [] then None
    else
      var id := order[|order| - 1];
      if id in f.attempts && id in l.attempts && f.attempts[id].scoreRevision == l.scoreRevision &&
        l.attempts[id].state != Superseded
      then Some(f.attempts[id].(state := l.attempts[id].state))
      else HeadOf(f, l, order[..|order| - 1])
  }

  /** The two records of a head attempt agree in what is modelled here; its
      questions and its final gate come from elsewhere. */
  predicate SameAttempt(a: Attempt, b: Attempt) {
    && a.attemptId == b.attemptId && a.movementId == b.movementId && a.scoreRevision == b.scoreRevision
    && a.state == b.state
    && a.changeSetRecorded == b.changeSetRecorded && a.acceptanceStarted == b.acceptanceStarted
    && a.movementSucceeded == b.movementSucceeded && a.movementFailed == b.movementFailed
  }

  /** The projection is one that loading the journal gives. */
  ghost predicate Loaded(p: Projection, journal: seq<Entry>, revision: nat, mode: GateMode) {
    var reduced, facts := Reduced(Empty(revision), journal), Noted(NO_FACTS, journal);
    && reduced.Some?
    && var l := reduced.value;
    var head := HeadOf(facts, l, facts.order);
    && p.state.scoreRevision == l.scoreRevision && p.state.acceptances == l.acceptances
    && p.state.verifiedAttempts == l.verified && p.state.probedAttempts == l.probed
    && (p.headAttempt.Some? <==> head.Some?)
    && (head.Some? ==>
          && SameAttempt(p.headAttempt.value, head.value)
          && var id := head.value.attemptId;
          if l.Acceptance(id).started then
            var gate := GateOf(mode, ReviewIn(facts, id), l.AnswerOf(id, head.value.movementId));
            p.acceptance == Some(AcceptanceFacts(id in facts.failed, gate))
          else p.acceptance.None?)
  }

  function ReviewIn(f: Facts, id: Id): Option<Verdict> {
    if id in f.reviews then Some(f.reviews[id]) else None
  }

  // ------------------------------------------------------------- they agree

  /** A record that reduction can leave: verdicts on started criteria of the
      plan only, and a completion only of passes. */
  ghost predicate Sound(a: Acceptance) {
    && a.started
    && (forall id | id in a.criteria :: id in a.planned && a.criteria[id].started)
    && (forall id | id in a.criteria && a.criteria[id].completed :: a.criteria[id].outcome in {Pass, Fail, Error})
    && (a.evaluationCompleted ==> forall id | id in a.planned :: a.Record(id).completed && a.Record(id).outcome == Pass)
  }

  /** The reducer and the facts tell the same story of an attempt. */
  ghost predicate AgreeOn(l: Records, f: Facts, id: Id) {
    && (id in l.attempts <==> id in f.attempts)
    && (id in f.attempts ==>
          && f.attempts[id].attemptId == id
          && (f.attempts[id].acceptanceStarted <==> id in l.acceptances)
          && (f.attempts[id].changeSetRecorded <==> id in l.changeSets))
    && (id in l.acceptances ==> Sound(l.acceptances[id]) && id in l.verified)
    && (id in l.verified || id in l.changeSets ==>
          l.In(id, {Verifying, Completed, AttemptFailed, AttemptCancelled, Superseded}))
    && (id in f.failed ==> l.In(id, {AttemptFailed}))
    && (id in f.reviews ==> id in l.acceptances && l.acceptances[id].evaluationCompleted)
  }

  ghost predicate Agree(l: Records, f: Facts) {
    forall id :: AgreeOn(l, f, id)
  }

  lemma EntryKeepsAgreement(l: Records, f: Facts, e: Entry)
    requires Agree(l, f) && Reduce(l, e).Some?
    ensures Agree(Reduce(l, e).value, Note(f, e))
  {
    hide AgreeOn, Reduce, Note;
    forall id ensures AgreeOn(Reduce(l, e).value, Note(f, e), id) {
      assert AgreeOn(l, f, id);
      EntryKeeps(l, f, e, id);
    }
  }

  lemma EntryKeeps(l: Records, f: Facts, e: Entry, id: Id)
    requires AgreeOn(l, f, id) && Reduce(l, e).Some?
    ensures AgreeOn(Reduce(l, e).value, Note(f, e), id)
  {
    if e.CriterionStarted? || e.CriterionCompleted? || e.EvaluationCompleted? {
      CriterionEntryKeeps(l, f, e, id);
    } else if e.RunCancelled? || e.AmendmentApproved? {
      WithdrawalKeeps(l, f, e, id);
    } else if e.GateRequested? || e.GateResolved? || e.DecisionDropped? || e.RunEnded? || e.MovementSucceeded? {
      GateEntryKeeps(l, f, e, id);
    } else if e.AcceptanceRejected? || e.MovementFailed? {
      RejectionKeeps(l, f, e, id);
    } else if e.AttemptEnded? {
      EndKeeps(l, f, e, id);
    } else {
      hide Sound;
      if e.AcceptanceStarted? {
        FreshIsSound(e.planned);
      }
    }
  }

  lemma FreshIsSound(planned: seq<Id>)
    ensures Sound(Recovery.Acceptance.Acceptance(true, planned, map[], false))
  {
  }

  lemma GateEntryKeeps(l: Records, f: Facts, e: Entry, id: Id)
    requires AgreeOn(l, f, id) && Reduce(l, e).Some?
    requires e.GateRequested? || e.GateResolved? || e.DecisionDropped? || e.RunEnded? || e.MovementSucceeded?
    ensures AgreeOn(Reduce(l, e).value, Note(f, e), id)
  {
    hide Sound;
  }

  lemma RejectionKeeps(l: Records, f: Facts, e: Entry, id: Id)
    requires AgreeOn(l, f, id) && Reduce(l, e).Some?
    requires e.AcceptanceRejected? || e.MovementFailed?
    ensures AgreeOn(Reduce(l, e).value, Note(f, e), id)
  {
    hide Sound;
  }

  lemma EndKeeps(l: Records, f: Facts, e: Entry, id: Id)
    requires AgreeOn(l, f, id) && Reduce(l, e).Some? && e.AttemptEnded?
    ensures AgreeOn(Reduce(l, e).value, Note(f, e), id)
  {
    hide Sound;
  }

  lemma WithdrawalKeeps(l: Records, f: Facts, e: Entry, id: Id)
    requires AgreeOn(l, f, id) && Reduce(l, e).Some?
    requires e.RunCancelled? || e.AmendmentApproved?
    ensures AgreeOn(Reduce(l, e).value, Note(f, e), id)
  {
    hide Sound;
  }

  lemma CriterionEntryKeeps(l: Records, f: Facts, e: Entry, id: Id)
    requires AgreeOn(l, f, id) && Reduce(l, e).Some?
    requires e.CriterionStarted? || e.CriterionCompleted? || e.EvaluationCompleted?
    ensures AgreeOn(Reduce(l, e).value, Note(f, e), id)
  {
  }

  lemma {:induction false} JournalsAgree(revision: nat, journal: seq<Entry>)
    requires Reduced(Empty(revision), journal).Some?
    ensures Agree(Reduced(Empty(revision), journal).value, Noted(NO_FACTS, journal))
    decreases |journal|
  {
    hide Agree, Reduce, Note;
    if journal == [] {
      EmptyAgrees(revision);
    } else {
      var before := journal[..|journal| - 1];
      JournalsAgree(revision, before);
      EntryKeepsAgreement(Reduced(Empty(revision), before).value, Noted(NO_FACTS, before), journal[|journal| - 1]);
    }
  }

  lemma EmptyAgrees(revision: nat)
    ensures Agree(Empty(revision), NO_FACTS)
  {
  }

  // ------------------------------------------------- what a loaded input can be

  lemma {:induction false} HeadIsNoted(f: Facts, l: Records, order: seq<Id>)
    requires Agree(l, f) && HeadOf(f, l, order).Some?
    ensures var head := HeadOf(f, l, order).value;
      && head.attemptId in l.attempts
      && l.attempts[head.attemptId].state == head.state
      && (head.acceptanceStarted <==> head.attemptId in l.acceptances)
    decreases |order|
  {
    var id := order[|order| - 1];
    assert AgreeOn(l, f, id);
    if !(id in f.attempts && id in l.attempts && f.attempts[id].scoreRevision == l.scoreRevision &&
      l.attempts[id].state != Superseded) {
      HeadIsNoted(f, l, order[..|order| - 1]);
    }
  }

  /** On every input loaded from a journal, an attempt says that its acceptance
      started exactly when the state has the record, and records have verdicts. */
  lemma LoadedAgrees(p: Projection, journal: seq<Entry>, revision: nat, mode: GateMode)
    requires Loaded(p, journal, revision, mode)
    ensures HasVerdicts(p)
    ensures forall a | p.headAttempt == Some(a) :: a.acceptanceStarted <==> StartedInState(p, a)
  {
    JournalsAgree(revision, journal);
    var l, f := Reduced(Empty(revision), journal).value, Noted(NO_FACTS, journal);
    forall id | id in p.state.acceptances
      ensures RecordsHaveVerdicts(p.state.acceptances[id]) && p.state.acceptances[id].started {
      assert AgreeOn(l, f, id);
    }
    if p.headAttempt.Some? {
      HeadIsNoted(f, l, f.order);
    }
  }

  /** From every journal the planner reaches a valid action or halt within two
      continuations. */
  lemma JournalsReachADecision(input: Input, journal: seq<Entry>, revision: nat, mode: GateMode)
    requires Loaded(input.projection, journal, revision, mode)
    ensures var d := Follow(input, Plan(input), 2); d.Valid() && !IsContinuation(d)
  {
    LoadedAgrees(input.projection, journal, revision, mode);
    hide Loaded, HasVerdicts, StartedInState, Plan, Follow;
    HeadIsCurrent(input.projection);
    NothingIsLost(input);
    ContinuationsEnd(input);
  }

  lemma HeadIsCurrent(p: Projection)
    ensures CurrentHead(p).Some? ==> CurrentHead(p) == p.headAttempt
  {
  }

  /** No attempt is lost whose records agree. */
  lemma NothingIsLost(input: Input)
    requires forall a | input.projection.headAttempt == Some(a) :: a.acceptanceStarted <==>
               StartedInState(input.projection, a)
    ensures !Lost(input)
  {
    LostMeans(input);
    HeadIsCurrent(input.projection);
    hide Cleared, StartedInState, Lost;
  }

  /** A verdict in the record is in the journal. */
  lemma {:induction false} VerdictIsRecorded(revision: nat, journal: seq<Entry>, id: Id, criterion: Id)
    requires Reduced(Empty(revision), journal).Some?
    ensures var record := Reduced(Empty(revision), journal).value.Acceptance(id).Record(criterion);
      record.completed ==> CriterionCompleted(id, criterion, record.outcome) in journal
    decreases |journal|
  {
    if journal != [] {
      var before, e := journal[..|journal| - 1], journal[|journal| - 1];
      VerdictIsRecorded(revision, before, id, criterion);
      VerdictIsNew(Reduced(Empty(revision), before).value, e, id, criterion);
      assert forall x | x in before :: x in journal;
      assert e in journal;
    }
  }

  lemma VerdictIsNew(l: Records, e: Entry, id: Id, criterion: Id)
    requires Reduce(l, e).Some?
    ensures var was, now := l.Acceptance(id).Record(criterion), Reduce(l, e).value.Acceptance(id).Record(criterion);
      now.completed ==> now == was || e == CriterionCompleted(id, criterion, now.outcome)
  {
    if !(e.AcceptanceStarted? || e.CriterionStarted? || e.CriterionCompleted? || e.EvaluationCompleted?) {
      assert Reduce(l, e).value.acceptances == l.acceptances;
      hide Reduce;
    }
  }

  /** Gates on record, pending or resolved, come from the journal. */
  ghost predicate GatesRecorded(l: Records, journal: seq<Entry>) {
    && (forall d | d in l.gates :: GateRequested(d, l.gates[d].attemptId, l.gates[d].movementId) in journal)
    && (forall id | id in l.resolved ::
          && GateRequested(l.resolved[id].decisionId, id, l.resolved[id].movementId) in journal
          && GateResolved(l.resolved[id].decisionId, l.resolved[id].approved) in journal)
  }

  lemma GatesKept(l: Records, before: seq<Entry>, e: Entry)
    requires GatesRecorded(l, before) && Reduce(l, e).Some?
    ensures GatesRecorded(Reduce(l, e).value, before + [e])
  {
  }

  lemma {:induction false} GateIsRecorded(revision: nat, journal: seq<Entry>)
    requires Reduced(Empty(revision), journal).Some?
    ensures GatesRecorded(Reduced(Empty(revision), journal).value, journal)
    decreases |journal|
  {
    hide Reduce;
    if journal != [] {
      var before, e := journal[..|journal| - 1], journal[|journal| - 1];
      GateIsRecorded(revision, before);
      GatesKept(Reduced(Empty(revision), before).value, before, e);
      assert journal == before + [e];
    }
  }

  /** An approval of the attempt's gate, asked for and given. */
  ghost predicate Approved(journal: seq<Entry>, id: Id) {
    exists d, movementId :: GateRequested(d, id, movementId) in journal && GateResolved(d, true) in journal
  }

  /** An attempt succeeds only when the journal holds a pass for every criterion
      of its plan, no rejection, and an approval whenever the gate opens on the
      recorded verdict. */
  lemma SuccessIsRecorded(input: Input, journal: seq<Entry>, revision: nat, mode: GateMode)
    requires Loaded(input.projection, journal, revision, mode)
    requires Succeeds(PlanAcceptance(input))
    ensures var p := input.projection;
      && CurrentHead(p).Some?
      && var id := CurrentHead(p).value.attemptId;
      && id in p.state.acceptances
      && (forall c | c in p.state.acceptances[id].planned :: CriterionCompleted(id, c, Pass) in journal)
      && id !in Noted(NO_FACTS, journal).failed
      && (GateOpens(mode, ReviewIn(Noted(NO_FACTS, journal), id)) ==> Approved(journal, id))
  {
    SuccessIffAcceptable(input);
    JournalsAgree(revision, journal);
    GateIsRecorded(revision, journal);
    var p, l, f := input.projection, Reduced(Empty(revision), journal).value, Noted(NO_FACTS, journal);
    HeadIsCurrent(p);
    HeadIsNoted(f, l, f.order);
    var id := CurrentHead(p).value.attemptId;
    assert AgreeOn(l, f, id);
    forall c | c in p.state.acceptances[id].planned ensures CriterionCompleted(id, c, Pass) in journal {
      VerdictIsRecorded(revision, journal, id, c);
    }
    hide PlanAcceptance, Reduced, Noted, HeadOf, Agree, AgreeOn;
  }
}
