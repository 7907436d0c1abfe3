/** Acceptance evaluation and its recovery: whatever prefix of a live
    evaluation reaches the journal before a crash, the planner's table C.3
    goes on exactly where the journal stops. The verdict of a review is the one
    thing that the prefix cannot give back. */
module AcceptanceRuns {
  import opened Results
  import opened Sequences
  import opened Recovery

  /** The journal events of one started acceptance. */
  datatype Event =
    | Started(id: Id)
    | Judged(id: Id, outcome: Outcome)
    | Rejected(id: Id)
    | Evaluated(review: Option<Verdict>)

  /** What running or checking one criterion comes to. A command records its
      start once, or reports that it was not spawned. */
  datatype Run = Run(command: bool, recorded: bool, spawnFailed: bool, failed: bool, cancelled: bool,
                     outcome: Outcome, budgetExhausted: bool)
  {
    predicate WellBehaved() {
      && outcome in {Pass, Fail, Error}
      && (command ==> !(recorded && spawnFailed) && (failed || cancelled || recorded || spawnFailed))
      && (!command ==> !failed && !cancelled && !budgetExhausted)
    }

    predicate StartIsRecorded() { !command || recorded || (spawnFailed && !failed) }
    predicate Interrupted() { command && (failed || cancelled) }
    predicate Calm() { !Interrupted() && !budgetExhausted }
  }

  /** The journals an evaluation can leave behind: criteria in plan order, each
      started and then judged, up to a rejection or the completion. */
  ghost predicate IsTrace(planned: seq<Id>, journal: seq<Event>) {
    journal != [] ==>
      if planned == [] then |journal| == 1 && journal[0].Evaluated?
      else
        && journal[0] == Started(planned[0])
        && (|journal| > 1 ==>
              && journal[1].Judged? && journal[1].id == planned[0] && journal[1].outcome in {Pass, Fail, Error}
              && if journal[1].outcome == Pass then IsTrace(planned[1..], journal[2..])
                 else |journal| > 2 ==> journal[2..] == [Rejected(planned[0])])
  }

  /** The journal ends with the completion of its evaluation. */
  ghost predicate Completes(journal: seq<Event>) {
    journal != [] && journal[|journal| - 1].Evaluated?
  }

  // --------------------------------------------------------------- the live run

  /** The journal of an evaluation that nothing interrupts, with the verdict
      that its completion carries. */
  function Live(planned: seq<Id>, judge: Id -> Outcome, verdict: Option<Verdict>): seq<Event> {
    if planned == [] then [Evaluated(verdict)]
    else
      [Started(planned[0]), Judged(planned[0], judge(planned[0]))]
      + if judge(planned[0]) == Pass then Live(planned[1..], judge, verdict) else [Rejected(planned[0])]
  }

  /** The verdict that an evaluation holds after these criteria passed: that of
      the last review among them. */
  function VerdictOf(ids: seq<Id>, reviews: map<Id, Verdict>): Option<Verdict> {
    if ids == [] then None
    else if ids[|ids| - 1] in reviews then Some(reviews[ids[|ids| - 1]])
    else VerdictOf(ids[..|ids| - 1], reviews)
  }

  /** The verdict is that of the last review. */
  lemma {:induction false} VerdictIsLast(ids: seq<Id>, reviews: map<Id, Verdict>, verdict: Verdict)
    ensures VerdictOf(ids, reviews) == Some(verdict) <==>
              exists i | 0 <= i < |ids| ::
                && ids[i] in reviews && reviews[ids[i]] == verdict
                && forall j | i < j < |ids| :: ids[j] !in reviews
    decreases |ids|
  {
    if ids != [] {
      var init := ids[..|ids| - 1];
      VerdictIsLast(init, reviews, verdict);
      assert forall i | 0 <= i < |init| :: init[i] == ids[i];
    }
  }

  /** The journal of criteria that all passed. */
  function Passes(ids: seq<Id>): seq<Event> {
    if ids == [] then [] else Passes(ids[..|ids| - 1]) + [Started(ids[|ids| - 1]), Judged(ids[|ids| - 1], Pass)]
  }

  /** A journal without its completion. */
  ghost function Uncompleted(journal: seq<Event>): seq<Event> {
    if Completes(journal) then journal[..|journal| - 1] else journal
  }

  function EachPasses(): Id -> Outcome {
    id => Pass
  }

  function Outcomes(runs: Id -> Run): Id -> Outcome {
    id => runs(id).outcome
  }

  /** The first criterion behind which the evaluation does not go on. */
  ghost predicate StopsFirst(criteria: seq<Id>, runs: Id -> Run, k: nat) {
    && k < |criteria| && !Clears(runs(criteria[k]))
    && forall i | 0 <= i < k :: Clears(runs(criteria[i]))
  }

  ghost predicate Clears(run: Run) {
    !(run.command && (run.failed || run.cancelled)) && !run.budgetExhausted && run.outcome == Pass
  }

  /** What that criterion leaves: a start if there was one, a judgement unless its
      command was cut short, and a rejection unless the time is spent. */
  ghost function LeftBy(id: Id, run: Run): seq<Event> {
    if run.command && (run.failed || run.cancelled) then
      if run.recorded || (run.spawnFailed && !run.failed) then [Started(id)] else []
    else if run.budgetExhausted then [Started(id), Judged(id, run.outcome)]
    else [Started(id), Judged(id, run.outcome), Rejected(id)]
  }

  ghost predicate LeftBehind(criteria: seq<Id>, runs: Id -> Run, journal: seq<Event>) {
    forall k: nat | StopsFirst(criteria, runs, k) ::
      journal == Passes(criteria[..k]) + LeftBy(criteria[k], runs(criteria[k]))
  }

  lemma StopsHere(criteria: seq<Id>, runs: Id -> Run, k: nat, journal: seq<Event>)
    requires k < |criteria| && forall i | 0 <= i < k :: runs(criteria[i]).Calm() && runs(criteria[i]).outcome == Pass
    requires !(runs(criteria[k]).Calm() && runs(criteria[k]).outcome == Pass)
    requires journal == Passes(criteria[..k]) + LeftBy(criteria[k], runs(criteria[k]))
    ensures LeftBehind(criteria, runs, journal)
  {
    hide LeftBy, Passes;
    assert forall j: nat | StopsFirst(criteria, runs, j) :: j == k;
  }

  lemma NeverStops(criteria: seq<Id>, runs: Id -> Run, journal: seq<Event>)
    requires forall i | 0 <= i < |criteria| :: runs(criteria[i]).Calm() && runs(criteria[i]).outcome == Pass
    ensures LeftBehind(criteria, runs, journal)
  {
    hide LeftBy, Passes;
  }

  /** Evaluates criteria in order, appending an event before and after each.
      The verdict of a review stays in memory until the completion. A review is
      refused when no artifact can be read. */
  method EvaluateStartedCriteria(criteria: seq<Id>, runs: Id -> Run, reviews: map<Id, Verdict>, readable: bool,
                                 complete: bool)
    returns (journal: seq<Event>, completed: bool, refused: bool)
    requires forall id | id in criteria :: runs(id).WellBehaved() && (id in reviews ==> !runs(id).command)
    ensures refused <==> !readable && exists id | id in criteria :: id in reviews
    ensures refused ==> journal == []
    ensures IsTrace(criteria, journal)
    ensures completed <==> Completes(journal)
    ensures completed <==>
              complete && !refused && forall id | id in criteria :: runs(id).Calm() && runs(id).outcome == Pass
    ensures !refused && (forall id | id in criteria :: runs(id).Calm()) ==>
              var live := Live(criteria, Outcomes(runs), VerdictOf(criteria, reviews));
              journal == if complete then live else Uncompleted(live)
    ensures !refused ==> LeftBehind(criteria, runs, journal)
  {
    hide IsTrace, Passes, Live, VerdictOf, LeftBehind;
    ghost var judge := Outcomes(runs);
    ghost var whole := VerdictOf(criteria, reviews);
    journal := [];
    TraceEnds(criteria, None);
    if !readable && exists id | id in criteria :: id in reviews {
      return [], false, true;
    }
    var verdict: Option<Verdict> := None;
    NoPasses(criteria, reviews);
    for k := 0 to |criteria|
      invariant journal == Passes(criteria[..k])
      invariant verdict == VerdictOf(criteria[..k], reviews)
      invariant forall i | 0 <= i < k :: runs(criteria[i]).Calm() && runs(criteria[i]).outcome == Pass
    {
      var id, run := criteria[k], runs(criteria[k]);
      assert criteria[k] in criteria;
      StopsAt(criteria, k, run.outcome);
      if run.StartIsRecorded() {
        journal := journal + [Started(id)];
      }
      if run.Interrupted() {
        assert Passes(criteria[..k]) + [] == Passes(criteria[..k]);
        StopsHere(criteria, runs, k, journal);
        return journal, false, false;
      }
      if id in reviews && run.outcome == Pass {
        verdict := Some(reviews[id]);
      }
      journal := journal + [Judged(id, run.outcome)];
      assert journal == Passes(criteria[..k]) + [Started(id), Judged(id, run.outcome)];
      if run.budgetExhausted {
        StopsHere(criteria, runs, k, journal);
        return journal, false, false;
      }
      if run.outcome != Pass {
        journal := journal + [Rejected(id)];
        assert journal == Passes(criteria[..k]) + [Started(id), Judged(id, run.outcome), Rejected(id)];
        LiveStopsAt(criteria, k, judge, whole);
        StopsHere(criteria, runs, k, journal);
        return journal, false, false;
      }
      OneMorePass(criteria, k, reviews);
    }
    assert criteria[..|criteria|] == criteria;
    AfterAllPasses(criteria, judge, verdict);
    if !complete {
      NeverStops(criteria, runs, journal);
      return journal, false, false;
    }
    journal := journal + [Evaluated(verdict)];
    NeverStops(criteria, runs, journal);
    return journal, true, false;
  }

  /** What stands in the journal when every criterion passed. */
  lemma AfterAllPasses(criteria: seq<Id>, judge: Id -> Outcome, verdict: Option<Verdict>)
    requires forall i | 0 <= i < |criteria| :: judge(criteria[i]) == Pass
    ensures var before, live := Passes(criteria), Live(criteria, judge, verdict);
      && IsTrace(criteria, before) && !Completes(before)
      && IsTrace(criteria, before + [Evaluated(verdict)])
      && live == before + [Evaluated(verdict)] && Uncompleted(live) == before
  {
    hide IsTrace, Passes, Live;
    assert criteria[..|criteria|] == criteria && criteria[|criteria|..] == [];
    TraceEnds([], verdict);
    PassesThenRest(criteria, |criteria|, judge, verdict);
    NothingLive(judge, verdict);
    TailAfterPasses(criteria, |criteria|, []);
    TailAfterPasses(criteria, |criteria|, [Evaluated(verdict)]);
    NoEvaluatedInPasses(criteria);
    assert Passes(criteria) + [] == Passes(criteria);
    assert (Passes(criteria) + [Evaluated(verdict)])[..|Passes(criteria)|] == Passes(criteria);
  }

  /** The live journal of criteria of which one does not pass. */
  lemma LiveStopsAt(criteria: seq<Id>, k: nat, judge: Id -> Outcome, verdict: Option<Verdict>)
    requires k < |criteria| && (forall i | 0 <= i < k :: judge(criteria[i]) == Pass) && judge(criteria[k]) != Pass
    ensures var id, live := criteria[k], Live(criteria, judge, verdict);
      live == Passes(criteria[..k]) + [Started(id), Judged(id, judge(id)), Rejected(id)] && Uncompleted(live) == live
  {
    hide IsTrace, Passes, Live;
    PassesThenRest(criteria, k, judge, verdict);
    LiveStops(criteria[k..], judge, verdict);
  }

  lemma OneMorePass(ids: seq<Id>, k: nat, reviews: map<Id, Verdict>)
    requires k < |ids|
    ensures Passes(ids[..k + 1]) == Passes(ids[..k]) + [Started(ids[k]), Judged(ids[k], Pass)]
    ensures VerdictOf(ids[..k + 1], reviews) ==
              if ids[k] in reviews then Some(reviews[ids[k]]) else VerdictOf(ids[..k], reviews)
  {
    assert ids[..k + 1][..k] == ids[..k];
  }

  lemma NoPasses(ids: seq<Id>, reviews: map<Id, Verdict>)
    ensures Passes(ids[..0]) == [] && VerdictOf(ids[..0], reviews).None?
  {
  }

  lemma LiveStops(planned: seq<Id>, judge: Id -> Outcome, verdict: Option<Verdict>)
    requires planned != [] && judge(planned[0]) != Pass
    ensures Live(planned, judge, verdict) ==
              [Started(planned[0]), Judged(planned[0], judge(planned[0])), Rejected(planned[0])]
  {
  }

  lemma LiveGoesOn(planned: seq<Id>, judge: Id -> Outcome, verdict: Option<Verdict>)
    requires planned != [] && judge(planned[0]) == Pass
    ensures Live(planned, judge, verdict) ==
              [Started(planned[0]), Judged(planned[0], Pass)] + Live(planned[1..], judge, verdict)
  {
  }

  lemma NothingLive(judge: Id -> Outcome, verdict: Option<Verdict>)
    ensures Live([], judge, verdict) == [Evaluated(verdict)]
  {
  }

  lemma TraceEnds(planned: seq<Id>, verdict: Option<Verdict>)
    ensures IsTrace(planned, []) && IsTrace([], [Evaluated(verdict)])
  {
  }

  lemma {:induction false} PassesFront(ids: seq<Id>)
    requires ids != []
    ensures Passes(ids) == [Started(ids[0]), Judged(ids[0], Pass)] + Passes(ids[1..])
    decreases |ids|
  {
    if |ids| > 1 {
      var init := ids[..|ids| - 1];
      PassesFront(init);
      assert init[1..] == ids[1..][..|ids| - 2];
    }
  }

  /** After k passed criteria, exactly the traces of the rest go on a trace. */
  lemma {:induction false} TailAfterPasses(planned: seq<Id>, k: nat, tail: seq<Event>)
    requires k <= |planned|
    ensures IsTrace(planned, Passes(planned[..k]) + tail) <==> IsTrace(planned[k..], tail)
    decreases k
  {
    if k == 0 {
      assert planned[..0] == [] && planned[0..] == planned && Passes([]) + tail == tail;
    } else {
      PassesFront(planned[..k]);
      assert planned[..k][1..] == planned[1..][..k - 1] && planned[1..][k - 1..] == planned[k..];
      var rest := Passes(planned[1..][..k - 1]) + tail;
      var journal := Passes(planned[..k]) + tail;
      hide Passes;
      assert journal == [Started(planned[0]), Judged(planned[0], Pass)] + rest;
      assert journal[2..] == rest && journal[0] == Started(planned[0]) && journal[1] == Judged(planned[0], Pass);
      TailAfterPasses(planned[1..], k - 1, tail);
    }
  }

  lemma {:induction false} NoEvaluatedInPasses(ids: seq<Id>)
    ensures forall e | e in Passes(ids) :: !e.Evaluated?
    decreases |ids|
  {
    if ids != [] {
      NoEvaluatedInPasses(ids[..|ids| - 1]);
    }
  }

  lemma {:induction false} PassesThenRest(planned: seq<Id>, k: nat, judge: Id -> Outcome, verdict: Option<Verdict>)
    requires k <= |planned| && forall i | 0 <= i < k :: judge(planned[i]) == Pass
    ensures Live(planned, judge, verdict) == Passes(planned[..k]) + Live(planned[k..], judge, verdict)
    decreases k
  {
    if k == 0 {
      assert planned[0..] == planned && planned[..0] == [];
    } else {
      hide Live, Passes;
      PassesThenRest(planned, k - 1, judge, verdict);
      var rest, two := planned[k - 1..], [Started(planned[k - 1]), Judged(planned[k - 1], Pass)];
      assert rest[0] == planned[k - 1] && rest[1..] == planned[k..];
      LiveGoesOn(rest, judge, verdict);
      OneMorePass(planned, k - 1, map[]);
      Associative(Passes(planned[..k - 1]), two, Live(planned[k..], judge, verdict));
    }
  }

  /** Where the loop can stop inside the criterion at position k. */
  lemma StopsAt(planned: seq<Id>, k: nat, outcome: Outcome)
    requires k < |planned| && outcome in {Pass, Fail, Error}
    ensures var before, id := Passes(planned[..k]), planned[k];
      && IsTrace(planned, before) && IsTrace(planned, before + [Started(id)])
      && IsTrace(planned, before + [Started(id), Judged(id, outcome)])
      && (outcome != Pass ==> IsTrace(planned, before + [Started(id), Judged(id, outcome), Rejected(id)]))
      && !Completes(before)
  {
    var before, id := Passes(planned[..k]), planned[k];
    assert before + [] == before;
    TailAfterPasses(planned, k, []);
    TailAfterPasses(planned, k, [Started(id)]);
    var two := [Started(id), Judged(id, outcome)];
    assert two[2..] == [];
    assert IsTrace(planned[k..], two);
    TailAfterPasses(planned, k, two);
    var three := [Started(id), Judged(id, outcome), Rejected(id)];
    assert three[2..] == [Rejected(id)];
    TailAfterPasses(planned, k, three);
    NoEvaluatedInPasses(planned[..k]);
  }

  /** A crash cuts the journal anywhere, and what is left is a trace. */
  lemma {:induction false} PrefixIsTrace(planned: seq<Id>, journal: seq<Event>, n: nat)
    requires IsTrace(planned, journal) && n <= |journal|
    ensures IsTrace(planned, journal[..n])
    decreases |journal|
  {
    if planned != [] && n > 2 && journal[1].outcome == Pass {
      PrefixIsTrace(planned[1..], journal[2..], n - 2);
      assert journal[..n][2..] == journal[2..][..n - 2];
    } else if planned != [] && n > 2 {
      assert journal[..n] == journal;
    }
  }

  /** No trace starts a criterion twice, and only a full pass is completed. */
  lemma {:induction false} StartedOnce(planned: seq<Id>, journal: seq<Event>)
    requires Distinct(planned) && IsTrace(planned, journal)
    ensures |journal| <= 2 * |planned| + 1
    ensures forall i | 0 <= i < |journal| && !journal[i].Evaluated? :: journal[i].id in planned
    ensures forall i, j | 0 <= i < j < |journal| && journal[i].Started? :: journal[j] != journal[i]
    ensures forall i | 0 <= i < |journal| - 1 :: !journal[i].Evaluated?
    ensures Completes(journal) ==> journal == Passes(planned) + [journal[|journal| - 1]]
    decreases |planned|
  {
    if planned != [] && |journal| > 1 && journal[1].outcome == Pass {
      var rest := journal[2..];
      StartedOnce(planned[1..], rest);
      forall i | 2 <= i < |journal| ensures journal[i] == rest[i - 2] {}
      PassesFront(planned);
    }
  }

  // -------------------------------------------------------------------- replay

  datatype Replay = Replay(acceptance: Acceptance, failed: bool, review: Option<Verdict>)

  function Apply(r: Replay, e: Event): Replay {
    var a := r.acceptance;
    match e
    case Started(id) => r.(acceptance := a.(criteria := a.criteria[id := CriterionRecord(true, false, NoOutcome)]))
    case Judged(id, outcome) =>
      r.(acceptance := a.(criteria := a.criteria[id := CriterionRecord(a.Record(id).started, true, outcome)]))
    case Rejected(_) => r.(failed := true)
    case Evaluated(review) => r.(acceptance := a.(evaluationCompleted := true), review := review)
  }

  function Replayed(r: Replay, journal: seq<Event>): Replay
    decreases |journal|
  {
    if journal == [] then r else Replayed(Apply(r, journal[0]), journal[1..])
  }

  /** The state just after acceptance started, before any criterion. */
  function Opened(planned: seq<Id>): Replay {
    Replay(Acceptance(true, planned, map[], false), false, None)
  }

  // ------------------------------------------------------ what recovery must do

  /** Where a trace stops, read off the journal alone. */
  datatype Stop =
    | AtStart(id: Id)
    | InFlight(id: Id)
    | Unrejected(id: Id, outcome: Outcome)
    | Rejection
    | AllJudged
    | Completion(review: Option<Verdict>)

  ghost function StopOf(planned: seq<Id>, journal: seq<Event>): Stop
    requires IsTrace(planned, journal)
  {
    if journal == [] then if planned == [] then AllJudged else AtStart(planned[0])
    else if planned == [] then Completion(journal[0].review)
    else if |journal| == 1 then InFlight(planned[0])
    else if journal[1].outcome == Pass then StopOf(planned[1..], journal[2..])
    else if |journal| == 2 then Unrejected(planned[0], journal[1].outcome)
    else Rejection
  }

  /** The event that can come next where a trace stopped. */
  ghost predicate Next(stop: Stop, e: Event) {
    match stop
    case AtStart(id) => e == Started(id)
    case InFlight(id) => e.Judged? && e.id == id && e.outcome in {Pass, Fail, Error}
    case Unrejected(_, _) => e.Rejected?
    case AllJudged => e.Evaluated?
    case _ => false
  }

  lemma {:induction false} LastIsNext(planned: seq<Id>, events: seq<Event>)
    requires IsTrace(planned, events) && events != []
    ensures IsTrace(planned, events[..|events| - 1])
    ensures Next(StopOf(planned, events[..|events| - 1]), events[|events| - 1])
    decreases |planned|
  {
    PrefixIsTrace(planned, events, |events| - 1);
    if planned != [] && |events| > 2 && events[1].outcome == Pass {
      LastIsNext(planned[1..], events[2..]);
      assert events[..|events| - 1][2..] == events[2..][..|events| - 3];
    }
  }

  ghost predicate Untouched(r: Replay, planned: seq<Id>) {
    && !r.failed && !r.acceptance.evaluationCompleted && r.review.None?
    && forall id | id in planned :: id !in r.acceptance.criteria
  }

  ghost predicate PassedAll(a: Acceptance, planned: seq<Id>) {
    forall id | id in planned :: a.Record(id).completed && a.Record(id).outcome == Pass
  }

  /** The facts table C.3 reads, in terms of where the trace stops. */
  ghost predicate Shows(r: Replay, planned: seq<Id>, stop: Stop) {
    var a := r.acceptance;
    && (r.failed <==> stop.Rejection?)
    && (a.evaluationCompleted <==> stop.Completion?)
    && r.review == (if stop.Completion? then stop.review else None)
    && (FirstFailed(a, planned).Some? <==> stop.Unrejected? || stop.Rejection?)
    && (stop.Unrejected? ==> FirstFailed(a, planned) == Some(stop.id) && a.Record(stop.id).outcome == stop.outcome)
    && (FirstInFlight(a, planned) == if stop.InFlight? then Some(stop.id) else None)
    && (PassedAll(a, planned) <==> stop.AllJudged? || stop.Completion?)
    && (stop.AtStart? ==> NextUnstarted(a, planned) == Some(stop.id))
  }

  lemma {:induction false} UntouchedIsQuiet(r: Replay, planned: seq<Id>)
    requires Untouched(r, planned)
    ensures FirstFailed(r.acceptance, planned) == None && FirstInFlight(r.acceptance, planned) == None
    ensures planned != [] ==>
              !PassedAll(r.acceptance, planned) && NextUnstarted(r.acceptance, planned) == Some(planned[0])
    decreases |planned|
  {
    if planned != [] {
      assert planned[0] in planned;
      UntouchedIsQuiet(r, planned[1..]);
    }
  }

  /** Replay leaves the criteria outside the trace alone. */
  lemma {:induction false} ReplayKeeps(r: Replay, journal: seq<Event>, id: Id)
    requires forall e | e in journal :: !e.Evaluated? ==> e.id != id
    ensures Replayed(r, journal).acceptance.Record(id) == r.acceptance.Record(id)
    ensures Replayed(r, journal).acceptance.planned == r.acceptance.planned
    ensures Replayed(r, journal).acceptance.started == r.acceptance.started
    decreases |journal|
  {
    if journal != [] {
      ReplayKeeps(Apply(r, journal[0]), journal[1..], id);
    }
  }

  /** A criterion that passed changes nothing about where the rest stops. */
  lemma ShowsBehind(r: Replay, planned: seq<Id>, stop: Stop)
    requires planned != [] && Shows(r, planned[1..], stop)
    requires r.acceptance.Record(planned[0]) == CriterionRecord(true, true, Pass)
    ensures Shows(r, planned, stop)
  {
    assert planned == [planned[0]] + planned[1..];
  }

  /** The replayed record shows exactly where the trace stops. */
  lemma {:induction false} ReplayShows(r: Replay, planned: seq<Id>, journal: seq<Event>)
    requires Untouched(r, planned) && Distinct(planned) && IsTrace(planned, journal)
    ensures Shows(Replayed(r, journal), planned, StopOf(planned, journal))
    decreases |planned|
  {
    UntouchedIsQuiet(r, planned);
    if planned != [] && journal != [] {
      var id, rest := planned[0], planned[1..];
      var here := if |journal| == 1 then journal else journal[..2];
      var seen := Replayed(r, here);
      ReplayHead(r, id, here);
      assert Untouched(seen, rest);
      if |journal| > 1 {
        ReplaySplit(r, journal, 2);
      }
      if |journal| > 1 && journal[1].outcome == Pass {
        hide Untouched, Shows, Replayed;
        ReplayShows(seen, rest, journal[2..]);
        StartedOnce(rest, journal[2..]);
        ReplayKeeps(seen, journal[2..], id);
        ShowsBehind(Replayed(r, journal), planned, StopOf(rest, journal[2..]));
      } else {
        UntouchedIsQuiet(seen, rest);
      }
    }
  }

  lemma ReplayHead(r: Replay, id: Id, here: seq<Event>)
    requires here == [Started(id)] || (|here| == 2 && here[0] == Started(id) && here[1].Judged? && here[1].id == id)
    ensures var seen := Replayed(r, here);
      && seen.failed == r.failed && seen.acceptance.evaluationCompleted == r.acceptance.evaluationCompleted
      && seen.review == r.review
      && seen.acceptance.Record(id) ==
        CriterionRecord(true, |here| == 2, if |here| == 2 then here[1].outcome else NoOutcome)
      && seen.acceptance.criteria.Keys == r.acceptance.criteria.Keys + {id}
  {
    var next := Apply(r, here[0]);
    if |here| == 2 {
      assert here[1..] == [here[1]] && here[1..][1..] == [];
      assert Replayed(next, here[1..]) == Replayed(Apply(next, here[1]), []);
    } else {
      assert here[1..] == [];
    }
  }

  lemma UntouchedOpened(planned: seq<Id>)
    ensures Untouched(Opened(planned), planned)
  {
  }

  lemma ReplayLast(r: Replay, journal: seq<Event>)
    requires journal != []
    ensures Replayed(r, journal) == Apply(Replayed(r, journal[..|journal| - 1]), journal[|journal| - 1])
  {
    var n := |journal| - 1;
    ReplaySplit(r, journal, n);
    assert journal[n..] == [journal[n]] && journal[n..][1..] == [];
  }

  lemma {:induction false} ReplaySplit(r: Replay, journal: seq<Event>, n: nat)
    requires n <= |journal|
    ensures Replayed(r, journal) == Replayed(Replayed(r, journal[..n]), journal[n..])
    decreases n
  {
    if n == 0 {
      assert journal[0..] == journal;
    } else {
      ReplaySplit(Apply(r, journal[0]), journal[1..], n - 1);
      assert journal[1..][..n - 1] == journal[..n][1..] && journal[1..][n - 1..] == journal[n..];
    }
  }

  /** A settled recovery input: the subject matches, no launch is left
      unjournaled, and the criterion's session can be swept. */
  predicate Settled(o: Observations) {
    o.subject == SubjectMatched && o.launch == LaunchAbsent && !o.criterionSweepUnverifiable
  }

  /** The facts around an acceptance that recovery does not change: the rest
      of the input, the movement's gate mode and the answer to its gate. */
  datatype Scene = Scene(p: Projection, o: Observations, attempt: Attempt, mode: GateMode, answer: GateAnswer) {
    /** The projection with the acceptance facts that replay derives. */
    function With(failed: bool, review: Option<Verdict>): Projection {
      p.(acceptance := Some(AcceptanceFacts(failed, GateOf(mode, review, answer))))
    }
  }

  /** Table C.3 on the replayed journal. */
  function PlanOn(scene: Scene, r: Replay): Decision {
    PlanStarted(scene.With(r.failed, r.review), scene.o, scene.attempt, r.acceptance)
  }

  /** The one continuation of a trace that stopped there. */
  ghost predicate Continues(scene: Scene, decision: Decision, stop: Stop) {
    match stop
    case AtStart(id) => Chooses(decision, ResumeCriterion) && decision.action.criterionId == id
    case InFlight(id) => Chooses(decision, RecoverCriterion) && decision.action.criterionId == id
    case Unrejected(id, outcome) =>
      decision == AcceptanceFailure(CriterionFailed, scene.attempt.attemptId, id, FailureOf(outcome))
    case AllJudged => Chooses(decision, AppendEvaluationCompleted)
    case Rejection => decision == RealizeRecorded(AcceptanceFailed, scene.attempt, scene.p.scheduler)
    case Completion(review) => decision == PlanEvaluated(scene.With(false, review), scene.o, scene.attempt)
  }

  /** Table C.3 picks the one continuation of the trace: it starts only the
      first unstarted criterion, recovers the one in flight, rejects an
      unrejected failure, and completes exactly when every criterion passed. */
  lemma PlannerGoesOn(scene: Scene, planned: seq<Id>, journal: seq<Event>)
    requires Distinct(planned) && IsTrace(planned, journal) && Settled(scene.o)
    ensures Continues(scene, PlanOn(scene, Replayed(Opened(planned), journal)), StopOf(planned, journal))
  {
    hide RealizeRecorded, PlanEvaluated, StopOf, IsTrace, FirstFailed, FirstInFlight, NextUnstarted, Replayed, GateOf;
    var first := Opened(planned);
    ReplayShows(first, planned, journal);
    ReplayFixed(first, journal);
    var r := Replayed(first, journal);
    assert AllPassed(r.acceptance) <==> PassedAll(r.acceptance, planned);
  }

  lemma {:induction false} ReplayFixed(r: Replay, journal: seq<Event>)
    ensures Replayed(r, journal).acceptance.planned == r.acceptance.planned
    ensures Replayed(r, journal).acceptance.started == r.acceptance.started
    decreases |journal|
  {
    if journal != [] {
      ReplayFixed(Apply(r, journal[0]), journal[1..]);
    }
  }

  // ----------------------------------------------------------- the recovery run

  /** The journal that recovery heads for: the criterion in flight becomes an
      error, everything else goes on as a live run without a verdict would. */
  ghost function Finished(planned: seq<Id>, journal: seq<Event>, judge: Id -> Outcome): seq<Event>
    requires IsTrace(planned, journal)
    decreases |planned|
  {
    if journal == [] then Live(planned, judge, None)
    else if planned == [] then journal
    else if |journal| == 1 then journal + [Judged(planned[0], Error), Rejected(planned[0])]
    else if journal[1].outcome == Pass then journal[..2] + Finished(planned[1..], journal[2..], judge)
    else if |journal| == 2 then journal + [Rejected(planned[0])]
    else journal
  }

  /** What the handler of the chosen action appends. */
  function Appended(kind: ActionKind, id: Id, judge: Id -> Outcome): seq<Event> {
    match kind
    case ResumeCriterion => [Started(id), Judged(id, judge(id))] + if judge(id) == Pass then [] else [Rejected(id)]
    case RecoverCriterion => [Judged(id, Error), Rejected(id)]
    case AppendAcceptanceFailure => [Rejected(id)]
    case AppendEvaluationCompleted => [Evaluated(None)]
    case _ => []
  }

  ghost function AddedAt(stop: Stop, judge: Id -> Outcome): seq<Event> {
    match stop
    case AtStart(id) => Appended(ResumeCriterion, id, judge)
    case InFlight(id) => Appended(RecoverCriterion, id, judge)
    case Unrejected(id, _) => Appended(AppendAcceptanceFailure, id, judge)
    case AllJudged => Appended(AppendEvaluationCompleted, "", judge)
    case _ => []
  }

  ghost predicate Judges(judge: Id -> Outcome) {
    forall id :: judge(id) in {Pass, Fail, Error}
  }

  /** The longer journal is a trace heading where the shorter one was heading;
      standing still means being there. */
  ghost predicate OnCourse(planned: seq<Id>, journal: seq<Event>, next: seq<Event>, judge: Id -> Outcome)
    requires IsTrace(planned, journal)
  {
    && IsTrace(planned, next)
    && next <= Finished(planned, next, judge) == Finished(planned, journal, judge)
    && (next == journal ==> Finished(planned, journal, judge) == journal)
  }

  /** One recovery action keeps the trace and the journal it is heading for. */
  lemma {:induction false} ActionKeepsCourse(planned: seq<Id>, journal: seq<Event>, judge: Id -> Outcome)
    requires IsTrace(planned, journal) && Judges(judge)
    ensures OnCourse(planned, journal, journal + AddedAt(StopOf(planned, journal), judge), judge)
    decreases |planned|
  {
    hide OnCourse, Finished, AddedAt;
    if planned == [] || journal == [] {
      AtFirstCriterion(planned, journal, judge);
    } else if |journal| > 1 && journal[1].outcome == Pass {
      ActionKeepsCourse(planned[1..], journal[2..], judge);
      StopAfterPass(planned, journal);
      CourseAfterPass(planned, journal, AddedAt(StopOf(planned, journal), judge), judge);
    } else {
      AtStoppedCriterion(planned, journal, judge);
    }
  }

  lemma StopAfterPass(planned: seq<Id>, journal: seq<Event>)
    requires IsTrace(planned, journal) && planned != [] && |journal| > 1 && journal[1].outcome == Pass
    ensures IsTrace(planned[1..], journal[2..]) && StopOf(planned, journal) == StopOf(planned[1..], journal[2..])
    ensures journal == [Started(planned[0]), Judged(planned[0], Pass)] + journal[2..]
  {
  }

  lemma AtStoppedCriterion(planned: seq<Id>, journal: seq<Event>, judge: Id -> Outcome)
    requires IsTrace(planned, journal) && planned != [] && journal != [] &&
               (|journal| > 1 ==> journal[1].outcome != Pass)
    ensures OnCourse(planned, journal, journal + AddedAt(StopOf(planned, journal), judge), judge)
  {
    var next := journal + AddedAt(StopOf(planned, journal), judge);
    assert |journal| <= 2 ==> next[2..] == [Rejected(planned[0])];
  }

  lemma PassStep(planned: seq<Id>, rest: seq<Event>, judge: Id -> Outcome)
    requires planned != [] && IsTrace(planned[1..], rest)
    ensures var journal := [Started(planned[0]), Judged(planned[0], Pass)] + rest;
      && IsTrace(planned, journal)
      && Finished(planned, journal, judge) ==
        [Started(planned[0]), Judged(planned[0], Pass)] + Finished(planned[1..], rest, judge)
  {
    var head := [Started(planned[0]), Judged(planned[0], Pass)];
    assert (head + rest)[2..] == rest && (head + rest)[..2] == head;
  }

  lemma CourseAfterPass(planned: seq<Id>, journal: seq<Event>, added: seq<Event>, judge: Id -> Outcome)
    requires IsTrace(planned, journal) && planned != [] && |journal| > 1 && journal[1].outcome == Pass
    requires OnCourse(planned[1..], journal[2..], journal[2..] + added, judge)
    ensures OnCourse(planned, journal, journal + added, judge)
  {
    StopAfterPass(planned, journal);
    hide Finished, IsTrace;
    var head, rest := [Started(planned[0]), Judged(planned[0], Pass)], journal[2..];
    var next := rest + added;
    PassStep(planned, rest, judge);
    PassStep(planned, next, judge);
    UnderHead(head, next, Finished(planned[1..], next, judge));
    assert journal + added == head + next by { Associative(head, rest, added); }
  }

  lemma UnderHead(head: seq<Event>, rest: seq<Event>, whole: seq<Event>)
    requires rest <= whole
    ensures head + rest <= head + whole
  {
  }

  lemma AtFirstCriterion(planned: seq<Id>, journal: seq<Event>, judge: Id -> Outcome)
    requires IsTrace(planned, journal) && Judges(judge) && (planned == [] || journal == [])
    ensures OnCourse(planned, journal, journal + AddedAt(StopOf(planned, journal), judge), judge)
  {
    var next := journal + AddedAt(StopOf(planned, journal), judge);
    if planned == [] {
      assert next == journal || next == [Evaluated(None)];
    } else if judge(planned[0]) == Pass {
      assert next[2..] == [] && next[..2] == next;
    } else {
      assert next[2..] == [Rejected(planned[0])];
    }
  }

  ghost predicate StartsReview(journal: seq<Event>, from: nat, review: set<Id>) {
    exists i | from <= i < |journal| :: journal[i].Started? && journal[i].id in review
  }

  /** The journal up to the first review that starts at or behind a position. */
  ghost function BeforeReview(journal: seq<Event>, from: nat, review: set<Id>): (front: seq<Event>)
    requires from <= |journal|
    ensures front <= journal && from <= |front|
    ensures forall i | from <= i < |front| && journal[i].Started? :: journal[i].id !in review
    ensures |front| < |journal| ==> journal[|front|].Started? && journal[|front|].id in review
    decreases |journal| - from
  {
    if from == |journal| then journal
    else if journal[from].Started? && journal[from].id in review then journal[..from]
    else BeforeReview(journal, from + 1, review)
  }

  /** The journal that recovery leaves: the one it heads for, or the part of it
      ahead of the review at which it is refused. */
  ghost function Recovered(planned: seq<Id>, journal: seq<Event>, judge: Id -> Outcome, review: set<Id>): seq<Event>
    requires IsTrace(planned, journal) && Judges(judge)
  {
    StaysOnCourse(planned, journal, judge);
    BeforeReview(Finished(planned, journal, judge), |journal|, review)
  }

  /** Recovers an acceptance from its journal: plans on the replayed record,
      carries the action out, and plans again. Resuming a review criterion is
      refused, because the recovery evaluator is given no artifact reader; the
      completion is appended without a verdict, because none was recorded. */
  method RecoverAcceptance(planned: seq<Id>, start: seq<Event>, runs: Id -> Run, reviews: map<Id, Verdict>,
                           scene: Scene)
    returns (journal: seq<Event>, refused: bool, decision: Decision)
    requires Distinct(planned) && IsTrace(planned, start) && Settled(scene.o)
    requires forall id :: runs(id).WellBehaved() && runs(id).Calm() && (id in reviews ==> !runs(id).command)
    ensures Judges(Outcomes(runs)) && IsTrace(planned, journal)
    ensures journal == Recovered(planned, start, Outcomes(runs), reviews.Keys)
    ensures refused <==> journal != Finished(planned, start, Outcomes(runs))
    ensures decision == PlanOn(scene, Replayed(Opened(planned), journal))
  {
    hide IsTrace, Finished, StopOf, Replayed, PlanOn, Live, AddedAt, Continues, Settled, Uncompleted;
    var judge := Outcomes(runs);
    ghost var goal := Finished(planned, start, judge);
    journal := start;
    StaysOnCourse(planned, start, judge);
    while true
      invariant start <= journal <= goal && IsTrace(planned, journal) && Finished(planned, journal, judge) == goal
      invariant forall i | |start| <= i < |journal| && journal[i].Started? :: journal[i].id !in reviews
      decreases |goal| - |journal|
    {
      decision := PlanOn(scene, Replayed(Opened(planned), journal));
      PlannerGoesOn(scene, planned, journal);
      ActionKeepsCourse(planned, journal, judge);
      ghost var stop := StopOf(planned, journal);
      OverIsQuiet(scene, decision, stop, judge);
      if !GoesOn(decision) {
        ReachedBefore(planned, start, judge, reviews.Keys, journal);
        return journal, false, decision;
      }
      var id := decision.action.criterionId;
      var added := Appended(decision.action.kind, id, judge);
      if decision.action.kind == ResumeCriterion {
        assert [id][0] == id;
        ResumedAlone(id, judge, VerdictOf([id], reviews));
        assert (journal + AddedAt(stop, judge))[|journal|] == Started(id);
        var none;
        added, none, refused := EvaluateStartedCriteria([id], runs, reviews, false, false);
        if refused {
          ReachedBefore(planned, start, judge, reviews.Keys, journal);
          return journal, true, decision;
        }
      }
      journal := journal + added;
    }
  }

  /** A journal on the way that is complete, or at a review, is the one that
      recovery leaves. */
  lemma ReachedBefore(planned: seq<Id>, start: seq<Event>, judge: Id -> Outcome, review: set<Id>, journal: seq<Event>)
    requires IsTrace(planned, start) && Judges(judge) && start <= journal <= Finished(planned, start, judge)
    requires forall i | |start| <= i < |journal| && journal[i].Started? :: journal[i].id !in review
    requires var goal := Finished(planned, start, judge);
      |journal| < |goal| ==> goal[|journal|].Started? && goal[|journal|].id in review
    ensures journal == Recovered(planned, start, judge, review)
  {
    StaysOnCourse(planned, start, judge);
    hide Finished;
    var goal, front := Finished(planned, start, judge), Recovered(planned, start, judge, review);
    assert front == goal[..|front|] && journal == goal[..|journal|];
  }

  lemma StaysOnCourse(planned: seq<Id>, journal: seq<Event>, judge: Id -> Outcome)
    requires IsTrace(planned, journal) && Judges(judge)
    ensures journal <= Finished(planned, journal, judge)
  {
    ActionKeepsCourse(planned, journal, judge);
  }

  /** The action appends to the journal of the criteria. */
  predicate GoesOn(decision: Decision) {
    && decision.Act?
    && decision.action.kind in {ResumeCriterion, RecoverCriterion, AppendAcceptanceFailure, AppendEvaluationCompleted}
  }

  /** Once an acceptance is rejected or completed, no criterion action follows;
      until then one always does. */
  lemma OverIsQuiet(scene: Scene, decision: Decision, stop: Stop, judge: Id -> Outcome)
    requires Continues(scene, decision, stop) && Settled(scene.o)
    ensures GoesOn(decision) <==> !stop.Rejection? && !stop.Completion?
    ensures AddedAt(stop, judge) == if GoesOn(decision) then
              Appended(decision.action.kind, decision.action.criterionId, judge) else []
  {
  }

  lemma ResumedAlone(id: Id, judge: Id -> Outcome, verdict: Option<Verdict>)
    ensures Uncompleted(Live([id], judge, verdict)) == Appended(ResumeCriterion, id, judge)
  {
    assert [id][1..] == [];
    if judge(id) == Pass {
      assert Live([id], judge, verdict) == [Started(id), Judged(id, Pass), Evaluated(verdict)];
    }
  }

  // ------------------------------------------------- when a crash is transparent

  lemma {:induction false} NoVerdictIff(ids: seq<Id>, reviews: map<Id, Verdict>)
    ensures VerdictOf(ids, reviews).None? <==> forall id | id in ids :: id !in reviews
    decreases |ids|
  {
    if ids != [] {
      NoVerdictIff(ids[..|ids| - 1], reviews);
      assert ids == ids[..|ids| - 1] + [ids[|ids| - 1]];
    }
  }

  ghost predicate PassesAll(planned: seq<Id>, judge: Id -> Outcome) {
    forall id | id in planned :: judge(id) == Pass
  }

  /** The verdict matters to a live journal exactly when it completes. */
  lemma {:induction false} VerdictMatters(planned: seq<Id>, judge: Id -> Outcome, verdict: Option<Verdict>)
    ensures Completes(Live(planned, judge, verdict)) <==> PassesAll(planned, judge)
    ensures Completes(Live(planned, judge, verdict)) ==>
              var live := Live(planned, judge, verdict); live[|live| - 1] == Evaluated(verdict)
    ensures Live(planned, judge, verdict) == Live(planned, judge, None) <==> verdict.None? || !PassesAll(planned, judge)
    decreases |planned|
  {
    if planned != [] {
      assert planned == [planned[0]] + planned[1..];
      if judge(planned[0]) == Pass {
        VerdictMatters(planned[1..], judge, verdict);
        var live, none := Live(planned, judge, verdict), Live(planned, judge, None);
        assert live[2..] == Live(planned[1..], judge, verdict) && none[2..] == Live(planned[1..], judge, None);
        assert live == live[..2] + live[2..] && none == none[..2] + none[2..] && live[..2] == none[..2];
      }
    }
  }

  /** Recovery finishes a prefix of a live journal as the live run without a
      verdict, unless the completion is already there. */
  lemma {:induction false} FinishedIsLive(planned: seq<Id>, journal: seq<Event>, judge: Id -> Outcome,
                                          verdict: Option<Verdict>)
    requires IsTrace(planned, journal) && Judges(judge) && journal <= Live(planned, judge, verdict)
    requires !StopOf(planned, journal).InFlight?
    ensures Finished(planned, journal, judge) == Live(planned, judge, if Completes(journal) then verdict else None)
    decreases |planned|
  {
    if planned != [] && |journal| > 1 {
      var live := Live(planned, judge, verdict);
      assert live[1] == journal[1];
      if journal[1].outcome == Pass {
        var head, rest := journal[..2], journal[2..];
        assert head == [Started(planned[0]), Judged(planned[0], Pass)] && journal == head + rest;
        assert live == head + Live(planned[1..], judge, verdict) && rest <= live[2..];
        assert Finished(planned, journal, judge) == head + Finished(planned[1..], rest, judge);
        FinishedIsLive(planned[1..], rest, judge, verdict);
        assert Completes(journal) <==> Completes(rest);
        hide IsTrace, Finished, StopOf, Completes;
      }
    }
  }

  /** Some review lies ahead, with nothing but passes in front of it. */
  predicate ReviewAhead(ids: seq<Id>, judge: Id -> Outcome, review: set<Id>) {
    ids != [] && (ids[0] in review || (judge(ids[0]) == Pass && ReviewAhead(ids[1..], judge, review)))
  }

  /** Recovery is refused exactly when a review lies ahead. */
  lemma {:induction false} RefusedIff(planned: seq<Id>, journal: seq<Event>, judge: Id -> Outcome, review: set<Id>)
    requires IsTrace(planned, journal) && Judges(judge)
    ensures StartsReview(Finished(planned, journal, judge), |journal|, review) <==>
              ReviewAhead(Unstarted(planned, journal), judge, review)
    ensures Recovered(planned, journal, judge, review) != Finished(planned, journal, judge) <==>
              ReviewAhead(Unstarted(planned, journal), judge, review)
    decreases |planned|
  {
    StaysOnCourse(planned, journal, judge);
    var goal := Finished(planned, journal, judge);
    if journal == [] {
      LiveReview(planned, judge, review);
    } else if planned != [] && |journal| > 1 && journal[1].outcome == Pass {
      RefusedIff(planned[1..], journal[2..], judge, review);
      var inner := Finished(planned[1..], journal[2..], judge);
      assert goal == journal[..2] + inner;
      ShiftedReview(journal[..2], inner, |journal| - 2, review);
    }
  }

  lemma ShiftedReview(head: seq<Event>, rest: seq<Event>, from: nat, review: set<Id>)
    ensures StartsReview(head + rest, |head| + from, review) <==> StartsReview(rest, from, review)
  {
    if StartsReview(rest, from, review) {
      var i :| from <= i < |rest| && rest[i].Started? && rest[i].id in review;
      assert (head + rest)[|head| + i] == rest[i];
    }
    if StartsReview(head + rest, |head| + from, review) {
      var i :| |head| + from <= i < |head + rest| && (head + rest)[i].Started? && (head + rest)[i].id in review;
      assert rest[i - |head|] == (head + rest)[i];
    }
  }

  lemma {:induction false} LiveReview(planned: seq<Id>, judge: Id -> Outcome, review: set<Id>)
    ensures StartsReview(Live(planned, judge, None), 0, review) <==> ReviewAhead(planned, judge, review)
    decreases |planned|
  {
    if planned != [] {
      var live := Live(planned, judge, None);
      assert live[0] == Started(planned[0]);
      if judge(planned[0]) == Pass {
        LiveReview(planned[1..], judge, review);
        var head := [Started(planned[0]), Judged(planned[0], Pass)];
        assert live == head + Live(planned[1..], judge, None);
        ShiftedReview(head, Live(planned[1..], judge, None), 0, review);
      }
    }
  }

  lemma {:induction false} InFlightFinish(planned: seq<Id>, journal: seq<Event>, judge: Id -> Outcome)
    requires IsTrace(planned, journal) && StopOf(planned, journal).InFlight?
    ensures var id := StopOf(planned, journal).id;
      Finished(planned, journal, judge) == journal + [Judged(id, Error), Rejected(id)]
    ensures Unstarted(planned, journal) == [] && !Completes(journal)
    decreases |planned|
  {
    hide Live;
    if |journal| > 1 {
      var head, rest := journal[..2], journal[2..];
      InFlightFinish(planned[1..], rest, judge);
      assert journal == head + rest && rest != [];
      assert rest[|rest| - 1] == journal[|journal| - 1];
      assert Finished(planned, journal, judge) == head + Finished(planned[1..], rest, judge);
    }
  }

  lemma {:induction false} InFlightLive(planned: seq<Id>, journal: seq<Event>, judge: Id -> Outcome,
                                        verdict: Option<Verdict>)
    requires IsTrace(planned, journal) && journal <= Live(planned, judge, verdict) && StopOf(planned, journal).InFlight?
    ensures var id, live := StopOf(planned, journal).id, Live(planned, judge, verdict);
      && |live| > |journal| && live[|journal|] == Judged(id, judge(id))
      && (judge(id) == Error ==> live == journal + [Judged(id, Error), Rejected(id)])
    decreases |planned|
  {
    var live := Live(planned, judge, verdict);
    if |journal| == 1 {
      assert live[..2] == [Started(planned[0]), Judged(planned[0], judge(planned[0]))];
    } else {
      assert live[1] == journal[1];
      var head, rest := journal[..2], journal[2..];
      assert live == head + Live(planned[1..], judge, verdict);
      assert rest <= live[2..] && StopOf(planned, journal) == StopOf(planned[1..], rest);
      hide Live, StopOf, IsTrace;
      InFlightLive(planned[1..], rest, judge, verdict);
      assert journal == head + rest;
    }
  }

  /** A criterion in flight ends as an error, and nothing is started behind it. */
  lemma InFlightEnds(planned: seq<Id>, journal: seq<Event>, judge: Id -> Outcome, verdict: Option<Verdict>)
    requires IsTrace(planned, journal) && journal <= Live(planned, judge, verdict) && StopOf(planned, journal).InFlight?
    ensures var id := StopOf(planned, journal).id;
      && Finished(planned, journal, judge) == journal + [Judged(id, Error), Rejected(id)]
      && (Finished(planned, journal, judge) == Live(planned, judge, verdict) <==> judge(id) == Error)
    ensures Unstarted(planned, journal) == [] && !Completes(journal)
  {
    hide Live, Finished, StopOf, IsTrace, Unstarted, Completes;
    InFlightFinish(planned, journal, judge);
    InFlightLive(planned, journal, judge, verdict);
    var id := StopOf(planned, journal).id;
    assert Finished(planned, journal, judge)[|journal|] == Judged(id, Error);
  }

  /** Recovery leaves the journal of the live run exactly when: a criterion in
      flight would have been an error; the completion was recorded; or no review
      lies ahead and either none is planned or some criterion does not pass. A
      review that was judged leaves no verdict to complete the evaluation with,
      and one that lies ahead is refused. */
  lemma TransparentIff(planned: seq<Id>, journal: seq<Event>, judge: Id -> Outcome, reviews: map<Id, Verdict>)
    requires IsTrace(planned, journal) && Judges(judge) && journal <= Live(planned, judge, VerdictOf(planned, reviews))
    ensures var stop := StopOf(planned, journal);
      Recovered(planned, journal, judge, reviews.Keys) == Live(planned, judge, VerdictOf(planned, reviews)) <==>
        if stop.InFlight? then judge(stop.id) == Error
        else
          || Completes(journal)
          || (&& !ReviewAhead(Unstarted(planned, journal), judge, reviews.Keys)
              && ((forall id | id in planned :: id !in reviews) || !PassesAll(planned, judge)))
  {
    hide Live, Finished, StopOf, IsTrace, Recovered, ReviewAhead, PassesAll, Judges, Unstarted, Completes;
    var verdict := VerdictOf(planned, reviews);
    RefusedIff(planned, journal, judge, reviews.Keys);
    RecoveredWithin(planned, journal, judge, reviews.Keys);
    Ended(planned, journal, judge, verdict);
    if StopOf(planned, journal).InFlight? {
      InFlightEnds(planned, journal, judge, verdict);
    } else {
      FinishedIsLive(planned, journal, judge, verdict);
      LiveSize(planned, judge, verdict);
      VerdictMatters(planned, judge, verdict);
      NoVerdictIff(planned, reviews);
      if Completes(journal) {
        CompletedIsOver(planned, journal);
      }
      NothingAhead([], judge, reviews.Keys);
    }
  }

  lemma RecoveredWithin(planned: seq<Id>, journal: seq<Event>, judge: Id -> Outcome, review: set<Id>)
    requires IsTrace(planned, journal) && Judges(judge)
    ensures Recovered(planned, journal, judge, review) <= Finished(planned, journal, judge)
  {
  }

  lemma {:induction false} CompletedIsOver(planned: seq<Id>, journal: seq<Event>)
    requires IsTrace(planned, journal) && Completes(journal)
    ensures Unstarted(planned, journal) == [] && StopOf(planned, journal).Completion?
    decreases |planned|
  {
    if planned != [] {
      CompletedIsOver(planned[1..], journal[2..]);
    }
  }

  lemma {:induction false} LiveSize(planned: seq<Id>, judge: Id -> Outcome, verdict: Option<Verdict>)
    ensures |Live(planned, judge, verdict)| == |Live(planned, judge, None)|
    decreases |planned|
  {
    if planned != [] && judge(planned[0]) == Pass {
      LiveSize(planned[1..], judge, verdict);
    }
  }

  /** Whatever the outcomes still to come, recovery leaves the journal of the
      live run exactly when the journal already ends the evaluation or holds
      what ends it, or it stops outside a criterion and no review is planned. */
  lemma AlwaysTransparentIff(planned: seq<Id>, journal: seq<Event>, reviews: map<Id, Verdict>)
    requires IsTrace(planned, journal)
    ensures (forall judge | Judges(judge) && journal <= Live(planned, judge, VerdictOf(planned, reviews)) ::
               Recovered(planned, journal, judge, reviews.Keys) ==
                 Live(planned, judge, VerdictOf(planned, reviews))) <==>
            || (!StopOf(planned, journal).InFlight? && forall id | id in planned :: id !in reviews)
            || StopOf(planned, journal).Completion? || StopOf(planned, journal).Rejection?
            || StopOf(planned, journal).Unrejected?
  {
    hide Recovered, ReviewAhead;
    var verdict, stop := VerdictOf(planned, reviews), StopOf(planned, journal);
    var passes := EachPasses();
    assert Judges(passes) && PassesAll(planned, passes);
    if stop.InFlight? || ((stop.AtStart? || stop.AllJudged?) && exists id | id in planned :: id in reviews) {
      OnlyPassed(planned, journal, passes, verdict);
      TransparentIff(planned, journal, passes, reviews);
    }
    forall judge | Judges(judge) && journal <= Live(planned, judge, verdict)
        && ((!stop.InFlight? && forall id | id in planned :: id !in reviews)
            || stop.Completion? || stop.Rejection? || stop.Unrejected?)
      ensures Recovered(planned, journal, judge, reviews.Keys) == Live(planned, judge, verdict)
    {
      Ended(planned, journal, judge, verdict);
      TransparentIff(planned, journal, judge, reviews);
      NothingAhead(Unstarted(planned, journal), judge, reviews.Keys);
    }
  }

  lemma {:induction false} NothingAhead(ids: seq<Id>, judge: Id -> Outcome, review: set<Id>)
    requires forall id | id in ids :: id !in review
    ensures !ReviewAhead(ids, judge, review)
    decreases |ids|
  {
    if ids != [] {
      NothingAhead(ids[1..], judge, review);
    }
  }

  /** A journal that stops between criteria or inside one is that of criteria
      that passed. */
  lemma {:induction false} OnlyPassed(planned: seq<Id>, journal: seq<Event>, judge: Id -> Outcome,
                                      verdict: Option<Verdict>)
    requires IsTrace(planned, journal) && PassesAll(planned, judge)
    requires var stop := StopOf(planned, journal); stop.AtStart? || stop.AllJudged? || stop.InFlight?
    ensures journal <= Live(planned, judge, verdict) && !Completes(journal)
    decreases |planned|
  {
    if planned != [] && |journal| > 1 {
      OnlyPassed(planned[1..], journal[2..], judge, verdict);
      assert journal == [Started(planned[0]), Judged(planned[0], Pass)] + journal[2..];
    }
  }

  /** A journal that stops elsewhere has nothing left to start, and ends the
      evaluation or holds what ends it. */
  lemma {:induction false} Ended(planned: seq<Id>, journal: seq<Event>, judge: Id -> Outcome, verdict: Option<Verdict>)
    requires IsTrace(planned, journal) && journal <= Live(planned, judge, verdict)
    ensures var stop := StopOf(planned, journal);
      && (forall id | id in Unstarted(planned, journal) :: id in planned)
      && (!stop.AtStart? ==> Unstarted(planned, journal) == [])
      && (stop.Completion? ==> Completes(journal))
      && (stop.Rejection? || stop.Unrejected? ==> !PassesAll(planned, judge))
    decreases |planned|
  {
    if planned != [] && |journal| > 1 {
      var live := Live(planned, judge, verdict);
      assert live[1] == journal[1];
      if journal[1].outcome == Pass {
        assert live[2..] == Live(planned[1..], judge, verdict);
        assert journal[2..] <= live[2..];
        Ended(planned[1..], journal[2..], judge, verdict);
      }
    }
  }

  lemma NothingRefused(planned: seq<Id>, journal: seq<Event>, judge: Id -> Outcome, review: set<Id>)
    requires IsTrace(planned, journal) && Judges(judge)
    requires forall id | id in Unstarted(planned, journal) :: id !in review
    ensures !StartsReview(Finished(planned, journal, judge), |journal|, review)
  {
    StartsUnstarted(planned, journal, judge);
    var whole := Finished(planned, journal, judge);
    forall i | |journal| <= i < |whole| && whole[i].Started? ensures whole[i].id !in review {
      assert whole[|journal|..][i - |journal|] == whole[i];
    }
  }

  // ------------------------------------------------------- the gate behind a crash

  lemma {:induction false} LiveIsTrace(planned: seq<Id>, judge: Id -> Outcome, verdict: Option<Verdict>)
    requires Judges(judge)
    ensures var live := Live(planned, judge, verdict);
      IsTrace(planned, live) && StopOf(planned, live) == if PassesAll(planned, judge) then
        Completion(verdict) else Rejection
    decreases |planned|
  {
    if planned != [] {
      var live := Live(planned, judge, verdict);
      assert planned == [planned[0]] + planned[1..];
      if judge(planned[0]) == Pass {
        LiveIsTrace(planned[1..], judge, verdict);
        assert live[2..] == Live(planned[1..], judge, verdict);
      } else {
        assert live[2..] == [Rejected(planned[0])];
      }
    }
  }

  /** The decision behind a live run: the gate of the recorded verdict when
      every criterion passed, the recorded failure otherwise. */
  lemma LiveDecides(scene: Scene, planned: seq<Id>, judge: Id -> Outcome, verdict: Option<Verdict>)
    requires Distinct(planned) && Judges(judge) && Settled(scene.o)
    ensures PlanOn(scene, Replayed(Opened(planned), Live(planned, judge, verdict))) ==
              if PassesAll(planned, judge) then PlanEvaluated(scene.With(false, verdict), scene.o, scene.attempt)
              else RealizeRecorded(AcceptanceFailed, scene.attempt, scene.p.scheduler)
  {
    hide PlanOn, Replayed, Live, IsTrace, StopOf, Judges, PassesAll, PlanEvaluated, RealizeRecorded;
    LiveIsTrace(planned, judge, verdict);
    PlannerGoesOn(scene, planned, Live(planned, judge, verdict));
  }

  /** Behind a completed evaluation C.3 asks for the gate exactly when it opens
      on the recorded verdict, and lets the attempt succeed otherwise. */
  lemma GateDecides(scene: Scene, review: Option<Verdict>)
    requires Settled(scene.o) && scene.answer.Unasked?
    ensures Chooses(PlanEvaluated(scene.With(false, review), scene.o, scene.attempt),
                    if GateOpens(scene.mode, review) then AppendGateRequest else AppendAcceptanceSuccess)
  {
  }

  lemma {:induction false} InFlightIsRejected(planned: seq<Id>, journal: seq<Event>, judge: Id -> Outcome)
    requires IsTrace(planned, journal) && Judges(judge) && StopOf(planned, journal).InFlight?
    ensures IsTrace(planned, Finished(planned, journal, judge))
    ensures StopOf(planned, Finished(planned, journal, judge)) == Rejection
    decreases |planned|
  {
    var goal := Finished(planned, journal, judge);
    if |journal| > 1 {
      InFlightIsRejected(planned[1..], journal[2..], judge);
      assert goal[2..] == Finished(planned[1..], journal[2..], judge);
    } else {
      assert goal[2..] == [Rejected(planned[0])];
    }
  }

  /** A refused recovery stands at the start of a review. */
  lemma StandsAtReview(planned: seq<Id>, journal: seq<Event>, judge: Id -> Outcome, review: set<Id>)
    requires IsTrace(planned, journal) && Judges(judge) && ReviewAhead(Unstarted(planned, journal), judge, review)
    ensures var left := Recovered(planned, journal, judge, review);
      IsTrace(planned, left) && StopOf(planned, left).AtStart? && StopOf(planned, left).id in review
  {
    hide Finished, IsTrace, StopOf, ReviewAhead;
    RefusedIff(planned, journal, judge, review);
    FinishedIsTrace(planned, journal, judge);
    var goal, left := Finished(planned, journal, judge), Recovered(planned, journal, judge, review);
    PrefixIsTrace(planned, goal, |left| + 1);
    LastIsNext(planned, goal[..|left| + 1]);
    assert goal[..|left| + 1][..|left|] == left;
  }

  lemma {:induction false} FinishedIsTrace(planned: seq<Id>, journal: seq<Event>, judge: Id -> Outcome)
    requires IsTrace(planned, journal) && Judges(judge)
    ensures IsTrace(planned, Finished(planned, journal, judge))
    decreases |planned|
  {
    var goal := Finished(planned, journal, judge);
    if journal == [] {
      LiveIsTrace(planned, judge, None);
    } else if planned != [] && |journal| > 1 && journal[1].outcome == Pass {
      FinishedIsTrace(planned[1..], journal[2..], judge);
      assert goal[2..] == Finished(planned[1..], journal[2..], judge);
    } else if planned != [] && |journal| <= 2 {
      assert goal[2..] == [Rejected(planned[0])];
    }
  }

  /** The decision that recovery leaves behind a crash anywhere in a live run. */
  lemma DecisionAfterCrash(scene: Scene, planned: seq<Id>, journal: seq<Event>, judge: Id -> Outcome,
                           reviews: map<Id, Verdict>)
    requires IsTrace(planned, journal) && Distinct(planned) && Judges(judge) && Settled(scene.o)
    requires journal <= Live(planned, judge, VerdictOf(planned, reviews))
    ensures var left := Recovered(planned, journal, judge, reviews.Keys);
            var decision := PlanOn(scene, Replayed(Opened(planned), left));
      if ReviewAhead(Unstarted(planned, journal), judge, reviews.Keys) then
        Chooses(decision, ResumeCriterion) && decision.action.criterionId in reviews
      else if StopOf(planned, journal).InFlight? || !PassesAll(planned, judge) then
        decision == RealizeRecorded(AcceptanceFailed, scene.attempt, scene.p.scheduler)
      else
        var review := if Completes(journal) then VerdictOf(planned, reviews) else None;
        decision == PlanEvaluated(scene.With(false, review), scene.o, scene.attempt)
  {
    hide PlanOn, Replayed, Live, Finished, IsTrace, StopOf, Recovered, ReviewAhead, Unstarted, PassesAll, Judges,
      PlanEvaluated, RealizeRecorded, Completes;
    var left := Recovered(planned, journal, judge, reviews.Keys);
    RefusedIff(planned, journal, judge, reviews.Keys);
    if ReviewAhead(Unstarted(planned, journal), judge, reviews.Keys) {
      StandsAtReview(planned, journal, judge, reviews.Keys);
      PlannerGoesOn(scene, planned, left);
    } else if StopOf(planned, journal).InFlight? {
      InFlightIsRejected(planned, journal, judge);
      PlannerGoesOn(scene, planned, left);
    } else {
      FinishedIsLive(planned, journal, judge, VerdictOf(planned, reviews));
      LiveDecides(scene, planned, judge, if Completes(journal) then VerdictOf(planned, reviews) else None);
    }
  }

  /** The decision behind the evaluation survives a crash exactly when no review
      lies ahead and: some criterion does not pass, or the completion was
      recorded, or the crash was outside a criterion and the gate does not wait
      for a contested verdict or gets none. */
  lemma GateSurvivesIff(scene: Scene, planned: seq<Id>, journal: seq<Event>, judge: Id -> Outcome,
                        reviews: map<Id, Verdict>)
    requires IsTrace(planned, journal) && Distinct(planned) && Judges(judge) && Settled(scene.o)
    requires journal <= Live(planned, judge, VerdictOf(planned, reviews))
    requires Completes(journal) || scene.answer.Unasked?
    ensures var verdict := VerdictOf(planned, reviews);
            var live := PlanOn(scene, Replayed(Opened(planned), Live(planned, judge, verdict)));
            var left := Recovered(planned, journal, judge, reviews.Keys);
      PlanOn(scene, Replayed(Opened(planned), left)) == live <==>
        && !ReviewAhead(Unstarted(planned, journal), judge, reviews.Keys)
        && (|| !PassesAll(planned, judge) || Completes(journal)
            || (&& !StopOf(planned, journal).InFlight?
                && (scene.mode != OnContested || verdict.None? || !verdict.value.Contested())))
  {
    hide PlanOn, Replayed, Live, Finished, IsTrace, StopOf, Recovered, ReviewAhead, Unstarted, PassesAll, Judges,
      PlanEvaluated, RealizeRecorded, Completes, GateOf, Settled;
    var verdict := VerdictOf(planned, reviews);
    DecisionAfterCrash(scene, planned, journal, judge, reviews);
    LiveDecides(scene, planned, judge, verdict);
    DecisionsDiffer(scene, verdict);
    if !Completes(journal) {
      GateDecides(scene, verdict);
      GateDecides(scene, None);
      SameGate(scene, verdict, None);
    }
    if StopOf(planned, journal).InFlight? {
      InFlightEnds(planned, journal, judge, verdict);
    }
  }

  /** A failure, a resumption and a gate decision are three different things. */
  lemma DecisionsDiffer(scene: Scene, review: Option<Verdict>)
    ensures !Chooses(RealizeRecorded(AcceptanceFailed, scene.attempt, scene.p.scheduler), ResumeCriterion)
    ensures !Chooses(PlanEvaluated(scene.With(false, review), scene.o, scene.attempt), ResumeCriterion)
    ensures PlanEvaluated(scene.With(false, review), scene.o, scene.attempt) !=
              RealizeRecorded(AcceptanceFailed, scene.attempt, scene.p.scheduler)
  {
  }

  lemma SameGate(scene: Scene, a: Option<Verdict>, b: Option<Verdict>)
    ensures GateOpens(scene.mode, a) == GateOpens(scene.mode, b) ==> scene.With(false, a) == scene.With(false, b)
  {
  }

  const CONTESTED_PLAN: seq<Id> := ["review", "tests"]
  const CONTESTED_REVIEWS: map<Id, Verdict> := map["review" := Verdict(["finding"])]
  const CRASHED_BEHIND_REVIEW: seq<Event> := [Started("review"), Judged("review", Pass)]

  lemma ContestedCrash()
    ensures var planned, crashed := CONTESTED_PLAN, CRASHED_BEHIND_REVIEW;
      && Distinct(planned) && IsTrace(planned, crashed) && !StopOf(planned, crashed).InFlight?
      && Unstarted(planned, crashed) == ["tests"] && !Completes(crashed)
      && VerdictOf(planned, CONTESTED_REVIEWS) == Some(Verdict(["finding"]))
      && crashed <= Live(planned, EachPasses(), VerdictOf(planned, CONTESTED_REVIEWS))
  {
    var planned := CONTESTED_PLAN;
    assert planned[1..] == ["tests"] && planned[..1] == ["review"] && CRASHED_BEHIND_REVIEW[2..] == [];
    assert VerdictOf(planned, CONTESTED_REVIEWS) == VerdictOf(["review"], CONTESTED_REVIEWS);
  }

  /** A contested review followed by a criterion: when the run crashes between
      the two, recovery is not refused, and the attempt succeeds without the
      gate that the live run asks for. */
  lemma ContestedGateIsBypassed(scene: Scene)
    requires Settled(scene.o) && scene.mode == OnContested && scene.answer.Unasked?
    ensures var planned, reviews, judge := CONTESTED_PLAN, CONTESTED_REVIEWS, EachPasses();
      && IsTrace(planned, CRASHED_BEHIND_REVIEW)
      && var live := Live(planned, judge, VerdictOf(planned, reviews));
      var left := Recovered(planned, CRASHED_BEHIND_REVIEW, judge, reviews.Keys);
      && CRASHED_BEHIND_REVIEW <= live && left == Finished(planned, CRASHED_BEHIND_REVIEW, judge)
      && Chooses(PlanOn(scene, Replayed(Opened(planned), live)), AppendGateRequest)
      && Chooses(PlanOn(scene, Replayed(Opened(planned), left)), AppendAcceptanceSuccess)
  {
    hide PlanOn, Replayed, Live, Finished, IsTrace, StopOf, Recovered, Unstarted, PlanEvaluated, RealizeRecorded,
      VerdictOf, Completes, Chooses, Settled;
    var planned, reviews, judge := CONTESTED_PLAN, CONTESTED_REVIEWS, EachPasses();
    ContestedCrash();
    NothingAhead(["tests"], judge, reviews.Keys);
    RefusedIff(planned, CRASHED_BEHIND_REVIEW, judge, reviews.Keys);
    DecisionAfterCrash(scene, planned, CRASHED_BEHIND_REVIEW, judge, reviews);
    LiveDecides(scene, planned, judge, VerdictOf(planned, reviews));
    GateDecides(scene, VerdictOf(planned, reviews));
    GateDecides(scene, None);
  }

  /** The criteria that a trace has not come to; none once it stopped inside
      or behind a criterion that did not pass. */
  ghost function Unstarted(planned: seq<Id>, journal: seq<Event>): seq<Id>
    requires IsTrace(planned, journal)
    decreases |planned|
  {
    if journal == [] then planned
    else if planned == [] || |journal| == 1 || journal[1].outcome != Pass then []
    else Unstarted(planned[1..], journal[2..])
  }

  lemma {:induction false} LiveStartsPlanned(planned: seq<Id>, judge: Id -> Outcome)
    ensures var live := Live(planned, judge, None);
      && (forall e | e in live && e.Started? :: e.id in planned)
      && (PassesAll(planned, judge) ==> forall id | id in planned :: Started(id) in live)
    decreases |planned|
  {
    if planned != [] {
      LiveStartsPlanned(planned[1..], judge);
      assert planned == [planned[0]] + planned[1..];
    }
  }

  /** What a recovery can still start: nothing but the unstarted criteria, and
      all of them when every outcome is a pass. */
  lemma {:induction false} StartsUnstarted(planned: seq<Id>, journal: seq<Event>, judge: Id -> Outcome)
    requires IsTrace(planned, journal) && Judges(judge)
    ensures journal <= Finished(planned, journal, judge)
    ensures var rest := Finished(planned, journal, judge)[|journal|..];
      && (forall e | e in rest && e.Started? :: e.id in Unstarted(planned, journal))
      && ((forall id :: judge(id) == Pass) ==> forall id | id in Unstarted(planned, journal) :: Started(id) in rest)
    decreases |planned|
  {
    StaysOnCourse(planned, journal, judge);
    var whole := Finished(planned, journal, judge);
    if journal == [] {
      LiveStartsPlanned(planned, judge);
      assert whole[0..] == whole;
    } else if planned != [] && |journal| > 1 && journal[1].outcome == Pass {
      StartsUnstarted(planned[1..], journal[2..], judge);
      var inner := Finished(planned[1..], journal[2..], judge);
      assert whole == journal[..2] + inner;
      assert whole[|journal|..] == inner[|journal| - 2..];
    }
  }

  /** Recovery is never refused, whatever the outcomes, exactly when no review
      criterion is left unstarted. */
  lemma ResumableIff(planned: seq<Id>, journal: seq<Event>, review: set<Id>)
    requires IsTrace(planned, journal)
    ensures (forall judge | Judges(judge) :: !StartsReview(Finished(planned, journal, judge), |journal|, review)) <==>
            forall id | id in Unstarted(planned, journal) :: id !in review
  {
    if forall id | id in Unstarted(planned, journal) :: id !in review {
      forall judge | Judges(judge) ensures !StartsReview(Finished(planned, journal, judge), |journal|, review) {
        NothingRefused(planned, journal, judge, review);
      }
    } else {
      var id :| id in Unstarted(planned, journal) && id in review;
      var judge := EachPasses();
      assert Judges(judge);
      StartsUnstarted(planned, journal, judge);
      var whole := Finished(planned, journal, judge);
      var k :| 0 <= k < |whole[|journal|..]| && whole[|journal|..][k] == Started(id);
      assert whole[|journal| + k] == Started(id);
      assert StartsReview(whole, |journal|, review);
    }
  }

  /** A crash before an unstarted review criterion leaves a run that recovery
      cannot finish: whatever the review would come to, nothing is appended. */
  lemma ReviewIsNotResumed(judge: Id -> Outcome)
    requires Judges(judge)
    ensures IsTrace(["review"], []) && Recovered(["review"], [], judge, {"review"}) == []
    ensures Recovered(["review"], [], judge, {"review"}) != Finished(["review"], [], judge)
  {
    assert Finished(["review"], [], judge)[0] == Started("review");
  }
}
