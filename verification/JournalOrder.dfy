/** The order that the reducer forces on every journal it loads: an attempt
    passes each of its milestones once, and none behind its end. */
module JournalOrder {
  import opened Results
  import opened Recovery
  import opened Reduction

  /** What an entry says that can happen once. */
  datatype Milestone =
    | Selected(id: Id) | Launched(id: Id) | Probed(id: Id) | Performed(id: Id) | Captured(id: Id) | Checked(id: Id)
    | Accepting(id: Id) | Judging(id: Id, criterion: Id) | Judged(id: Id,
      criterion: Id) | Evaluated(id: Id) | Over(id: Id)

  function MilestoneOf(e: Entry): Option<Milestone> {
    match e
    case PerformerSelected(id, _, _, _) => Some(Selected(id))
    case AdapterStarted(id) => Some(Launched(id))
    case AdapterProbed(id) => Some(Probed(id))
    case PerformerCompleted(id) => Some(Performed(id))
    case ChangeSetRecorded(id) => Some(Captured(id))
    case VerificationPassed(id) => Some(Checked(id))
    case AcceptanceStarted(id, _) => Some(Accepting(id))
    case CriterionStarted(id, criterion) => Some(Judging(id, criterion))
    case CriterionCompleted(id, criterion, _) => Some(Judged(id, criterion))
    case EvaluationCompleted(id, _, _) => Some(Evaluated(id))
    case AcceptanceRejected(id, _) => Some(Over(id))
    case AttemptEnded(id, _, _) => Some(Over(id))
    case _ => None
  }

  /** Whether the records have passed a milestone. */
  ghost predicate Passed(l: Records, m: Milestone) {
    m.id in l.attempts &&
    match m
    case Selected(_) => true
    case Launched(id) => l.attempts[id].state != Starting
    case Probed(id) => id in l.probed
    case Performed(id) => l.attempts[id].state != Starting && l.attempts[id].state != AttemptRunning
    case Captured(id) => id in l.changeSets
    case Checked(id) => id in l.verified
    case Accepting(id) => l.Acceptance(id).started
    case Judging(id, criterion) => l.Acceptance(id).started && l.Acceptance(id).Record(criterion).started
    case Judged(id, criterion) =>
      l.Acceptance(id).started && l.Acceptance(id).Record(criterion).started &&
        l.Acceptance(id).Record(criterion).completed
    case Evaluated(id) => l.Acceptance(id).started && l.Acceptance(id).evaluationCompleted
    case Over(id) => l.attempts[id].Ended()
  }

  ghost predicate AllStarted(l: Records) {
    forall id | id in l.acceptances :: l.acceptances[id].started
  }

  lemma StillStarted(l: Records, e: Entry)
    requires AllStarted(l) && Reduce(l, e).Some?
    ensures AllStarted(Reduce(l, e).value)
  {
  }

  predicate JudgingEntry(e: Entry) {
    e.AcceptanceStarted? || e.CriterionStarted? || e.CriterionCompleted? || e.EvaluationCompleted?
  }

  /** Other entries leave every acceptance as it is and drop no attempt. */
  lemma OtherEntry(l: Records, e: Entry)
    requires Reduce(l, e).Some? && !JudgingEntry(e)
    ensures Reduce(l, e).value.acceptances == l.acceptances && l.attempts.Keys <= Reduce(l, e).value.attempts.Keys
  {
  }

  lemma StillPassed(l: Records, e: Entry, m: Milestone)
    requires Passed(l, m) && Reduce(l, e).Some?
    ensures Passed(Reduce(l, e).value, m)
  {
    hide Passed, Reduce, MilestoneOf;
    if m.Judging? || m.Judged? || m.Accepting? || m.Evaluated? {
      JudgedStillPassed(l, e, m);
    } else {
      StepStillPassed(l, e, m);
    }
  }

  lemma JudgedStillPassed(l: Records, e: Entry, m: Milestone)
    requires Passed(l, m) && Reduce(l, e).Some?
    requires m.Judging? || m.Judged? || m.Accepting? || m.Evaluated?
    ensures Passed(Reduce(l, e).value, m)
  {
    if JudgingEntry(e) {
      OwnEntryPasses(l, e, m);
    } else {
      OtherEntry(l, e);
      hide Reduce;
    }
  }

  lemma OwnEntryPasses(l: Records, e: Entry, m: Milestone)
    requires Passed(l, m) && Reduce(l, e).Some?
    requires m.Judging? || m.Judged? || m.Accepting? || m.Evaluated?
    requires JudgingEntry(e)
    ensures Passed(Reduce(l, e).value, m)
  {
  }

  lemma StepStillPassed(l: Records, e: Entry, m: Milestone)
    requires Passed(l, m) && Reduce(l, e).Some?
    requires !(m.Judging? || m.Judged? || m.Accepting? || m.Evaluated?)
    ensures Passed(Reduce(l, e).value, m)
  {
  }

  /** An accepted entry passes its milestone, which was not passed before, of an
      attempt that had not ended. */
  lemma PassesNow(l: Records, e: Entry)
    requires AllStarted(l) && Reduce(l, e).Some? && MilestoneOf(e).Some?
    ensures var m := MilestoneOf(e).value;
      !Passed(l, m) && Passed(Reduce(l, e).value, m) && !Passed(l, Over(m.id))
  {
  }

  lemma {:induction false} MilestonesPassed(revision: nat, journal: seq<Entry>)
    requires Reduced(Empty(revision), journal).Some?
    ensures forall e | e in journal && MilestoneOf(e).Some? ::
              Passed(Reduced(Empty(revision), journal).value, MilestoneOf(e).value)
    ensures AllStarted(Reduced(Empty(revision), journal).value)
    decreases |journal|
  {
    hide Reduce, Passed, MilestoneOf;
    if journal != [] {
      var before, last := journal[..|journal| - 1], journal[|journal| - 1];
      var l := Reduced(Empty(revision), before).value;
      MilestonesPassed(revision, before);
      StillStarted(l, last);
      assert journal == before + [last];
      forall e | e in journal && MilestoneOf(e).Some?
        ensures Passed(Reduced(Empty(revision), journal).value, MilestoneOf(e).value)
      {
        if e in before {
          StillPassed(l, last, MilestoneOf(e).value);
        } else {
          PassesNow(l, last);
        }
      }
    }
  }

  /** In a journal that loads, no milestone is passed twice, and none of an
      attempt is passed behind its end. */
  lemma {:induction false} OnceEach(revision: nat, journal: seq<Entry>, i: nat, j: nat)
    requires Reduced(Empty(revision), journal).Some? && i < j < |journal|
    requires MilestoneOf(journal[i]).Some? && MilestoneOf(journal[j]).Some?
    ensures MilestoneOf(journal[i]) != MilestoneOf(journal[j])
    ensures MilestoneOf(journal[i]).value.Over? ==>
              MilestoneOf(journal[i]).value.id != MilestoneOf(journal[j]).value.id
    decreases |journal|
  {
    hide Reduce, Passed, MilestoneOf;
    var before := journal[..|journal| - 1];
    if j < |journal| - 1 {
      OnceEach(revision, before, i, j);
    } else {
      MilestonesPassed(revision, before);
      assert journal[i] == before[i] && before[i] in before;
      PassesNow(Reduced(Empty(revision), before).value, journal[j]);
    }
  }

  // -------------------------------------------------------------- what comes first

  ghost predicate Happened(journal: seq<Entry>, m: Milestone) {
    exists e | e in journal :: MilestoneOf(e) == Some(m)
  }

  /** The milestones that have to lie behind an attempt for an entry. */
  function Before(e: Entry): seq<Milestone> {
    match e
    case AdapterStarted(id) => [Selected(id)]
    case AdapterProbed(id) => [Selected(id), Launched(id)]
    case PerformerCompleted(id) => [Launched(id), Probed(id)]
    case ChangeSetRecorded(id) => [Performed(id)]
    case VerificationPassed(id) => [Performed(id)]
    case AcceptanceStarted(id, _) => [Performed(id), Checked(id)]
    case CriterionStarted(id, _) => [Accepting(id)]
    case CriterionCompleted(id, criterion, _) => [Judging(id, criterion)]
    case EvaluationCompleted(id, passed, _) => [Accepting(id)] + AllJudged(id, passed)
    case AcceptanceRejected(id, _) => [Accepting(id)]
    case AttemptEnded(id, end, _) =>
      if end == Completed then [Evaluated(id)] else if end == Blocked then
        [Launched(id), Probed(id)] else [Selected(id)]
    case _ => []
  }

  function AllJudged(id: Id, criteria: seq<Id>): (milestones: seq<Milestone>)
    ensures |milestones| == |criteria| && forall i | 0 <= i < |criteria| :: milestones[i] == Judged(id, criteria[i])
  {
    seq(|criteria|, i requires 0 <= i < |criteria| => Judged(id, criteria[i]))
  }

  /** The milestones that the records show, and that a later entry can rest on. */
  ghost predicate Shown(l: Records, m: Milestone) {
    match m
    case Selected(id) => id in l.attempts
    case Launched(id) => l.In(id, {AttemptRunning})
    case Probed(id) => id in l.probed
    case Performed(id) => l.In(id, {Verifying})
    case Checked(id) => id in l.verified
    case Accepting(id) => l.Acceptance(id).started
    case Judging(id, criterion) => l.Acceptance(id).Record(criterion).started
    case Judged(id, criterion) => l.Acceptance(id).Record(criterion).completed
    case Evaluated(id) => l.Acceptance(id).evaluationCompleted
    case _ => false
  }

  lemma NewlyShown(l: Records, e: Entry, m: Milestone)
    requires Reduce(l, e).Some? && Shown(Reduce(l, e).value, m)
    ensures Shown(l, m) || MilestoneOf(e) == Some(m)
  {
    hide Shown, Reduce, MilestoneOf;
    if m.Judging? || m.Judged? || m.Accepting? || m.Evaluated? {
      JudgedNewlyShown(l, e, m);
    } else {
      StepNewlyShown(l, e, m);
    }
  }

  lemma JudgedNewlyShown(l: Records, e: Entry, m: Milestone)
    requires Reduce(l, e).Some? && Shown(Reduce(l, e).value, m)
    requires m.Judging? || m.Judged? || m.Accepting? || m.Evaluated?
    ensures Shown(l, m) || MilestoneOf(e) == Some(m)
  {
    if JudgingEntry(e) {
      OwnEntryShows(l, e, m);
    } else {
      OtherEntry(l, e);
      hide Reduce;
    }
  }

  lemma OwnEntryShows(l: Records, e: Entry, m: Milestone)
    requires Reduce(l, e).Some? && Shown(Reduce(l, e).value, m)
    requires m.Judging? || m.Judged? || m.Accepting? || m.Evaluated?
    requires JudgingEntry(e)
    ensures Shown(l, m) || MilestoneOf(e) == Some(m)
  {
  }

  lemma StepNewlyShown(l: Records, e: Entry, m: Milestone)
    requires Reduce(l, e).Some? && Shown(Reduce(l, e).value, m)
    requires !(m.Judging? || m.Judged? || m.Accepting? || m.Evaluated?)
    ensures Shown(l, m) || MilestoneOf(e) == Some(m)
  {
  }

  lemma {:induction false} ShownHappened(revision: nat, journal: seq<Entry>, m: Milestone)
    requires Reduced(Empty(revision), journal).Some? && Shown(Reduced(Empty(revision), journal).value, m)
    ensures Happened(journal, m)
    decreases |journal|
  {
    hide Reduce, Shown, MilestoneOf;
    if journal == [] {
      NothingShown(revision, m);
    } else {
      var before, last := journal[..|journal| - 1], journal[|journal| - 1];
      assert journal == before + [last];
      NewlyShown(Reduced(Empty(revision), before).value, last, m);
      if MilestoneOf(last) != Some(m) {
        ShownHappened(revision, before, m);
      }
    }
  }

  lemma NothingShown(revision: nat, m: Milestone)
    ensures !Shown(Empty(revision), m)
  {
  }

  /** The reducer accepts an entry only when the records show all it rests on. */
  lemma AcceptedBehind(l: Records, e: Entry, m: Milestone)
    requires Reduce(l, e).Some? && m in Before(e)
    ensures Shown(l, m)
  {
  }

  /** In a journal that loads, everything an entry rests on comes before it. */
  lemma RestsOnEarlier(revision: nat, journal: seq<Entry>, j: nat, m: Milestone)
    requires Reduced(Empty(revision), journal).Some? && j < |journal|
    requires m in Before(journal[j])
    ensures exists i | 0 <= i < j :: MilestoneOf(journal[i]) == Some(m)
  {
    LoadsUpTo(revision, journal, j);
    var before := journal[..j];
    AcceptedBehind(Reduced(Empty(revision), before).value, journal[j], m);
    ShownHappened(revision, before, m);
    var e :| e in before && MilestoneOf(e) == Some(m);
    var i :| 0 <= i < |before| && before[i] == e;
    assert journal[i] == e;
  }

  /** A journal that loads, loads up to each of its entries. */
  lemma {:induction false} LoadsUpTo(revision: nat, journal: seq<Entry>, j: nat)
    requires Reduced(Empty(revision), journal).Some? && j < |journal|
    ensures Reduced(Empty(revision), journal[..j]).Some?
    ensures Reduce(Reduced(Empty(revision), journal[..j]).value, journal[j]).Some?
    decreases |journal|
  {
    hide Reduce;
    var before := journal[..|journal| - 1];
    if j < |before| {
      LoadsUpTo(revision, before, j);
      assert before[..j] == journal[..j];
    }
  }
}
