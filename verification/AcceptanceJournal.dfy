/** The events of an acceptance under the reducer: whatever the live evaluation
    or its recovery writes is accepted, and reduction keeps what the planner
    was shown to go on from. */
module AcceptanceJournal {
  import opened Sequences
  import opened Recovery
  import opened Reduction
  import Runs = AcceptanceRuns

  /** The journal entry of one event of the attempt's acceptance. */
  function Entered(id: Id, planned: seq<Id>, disposition: Disposition, e: Runs.Event): Entry {
    match e
    case Started(criterion) => CriterionStarted(id, criterion)
    case Judged(criterion, outcome) => CriterionCompleted(id, criterion, outcome)
    case Rejected(_) => AcceptanceRejected(id, disposition)
    case Evaluated(review) => EvaluationCompleted(id, planned, review)
  }

  function AllEntered(id: Id, planned: seq<Id>, disposition: Disposition, events: seq<Runs.Event>): seq<Entry>
    ensures |AllEntered(id, planned, disposition, events)| == |events|
  {
    if events == [] then []
    else
      AllEntered(id, planned, disposition, events[..|events| - 1])
      + [Entered(id, planned, disposition, events[|events| - 1])]
  }

  /** The attempt is verified and its acceptance has just started. */
  predicate OpenedIn(l: Records, id: Id, planned: seq<Id>) {
    l.In(id, {Verifying}) && id in l.acceptances && l.acceptances[id] == Runs.Opened(planned).acceptance
  }

  /** The ledger and the facts hold what replaying the events gives. */
  ghost predicate Holds(l: Records, f: Facts, id: Id, r: Runs.Replay) {
    && id in f.attempts && id in l.acceptances && l.acceptances[id] == r.acceptance
    && l.In(id, {if r.failed then AttemptFailed else Verifying})
    && (id in f.failed <==> r.failed)
    && ReviewIn(f, id) == r.review
  }

  /** The reducer accepts every trace, after each of its events, and holds its
      replay. */
  lemma {:induction false} TraceIsAccepted(l: Records, f: Facts, id: Id, planned: seq<Id>, disposition: Disposition,
                                           events: seq<Runs.Event>)
    requires OpenedIn(l, id, planned) && id in f.attempts && id !in f.failed && id !in f.reviews
    requires Distinct(planned) && Runs.IsTrace(planned, events)
    ensures var entries := AllEntered(id, planned, disposition, events);
      && Reduced(l, entries).Some?
      && Holds(Reduced(l, entries).value, Noted(f, entries), id, Runs.Replayed(Runs.Opened(planned), events))
    decreases |events|
  {
    hide Holds, Reduce, Note, Entered, Runs.Shows, Runs.StopOf, Runs.IsTrace, Runs.Next, Runs.Apply;
    if events == [] {
      NothingYet(l, f, id, planned);
    } else {
      var before, e := events[..|events| - 1], events[|events| - 1];
      Runs.LastIsNext(planned, events);
      TraceIsAccepted(l, f, id, planned, disposition, before);
      var was := AllEntered(id, planned, disposition, before);
      var now := AllEntered(id, planned, disposition, events);
      assert now[..|now| - 1] == was;
      Runs.UntouchedOpened(planned);
      Runs.ReplayShows(Runs.Opened(planned), planned, before);
      Runs.ReplayFixed(Runs.Opened(planned), before);
      Runs.ReplayLast(Runs.Opened(planned), events);
      NextIsAccepted(Reduced(l, was).value, Noted(f, was), id, planned, disposition,
                     Runs.Replayed(Runs.Opened(planned), before), Runs.StopOf(planned, before), e);
    }
  }

  lemma NothingYet(l: Records, f: Facts, id: Id, planned: seq<Id>)
    requires OpenedIn(l, id, planned) && id in f.attempts && id !in f.failed && id !in f.reviews
    ensures Holds(l, f, id, Runs.Opened(planned))
  {
  }

  lemma {:induction false} UnstartedIsPlanned(a: Acceptance, planned: seq<Id>)
    ensures NextUnstarted(a, planned).Some? ==>
              var id := NextUnstarted(a, planned).value; id in planned && !a.Record(id).started
    ensures FirstInFlight(a, planned).Some? ==>
              var record := a.Record(FirstInFlight(a, planned).value); record.started && !record.completed
    decreases |planned|
  {
    if planned != [] {
      UnstartedIsPlanned(a, planned[1..]);
    }
  }

  lemma NextIsAccepted(l: Records, f: Facts, id: Id, planned: seq<Id>, disposition: Disposition, r: Runs.Replay,
                       stop: Runs.Stop, e: Runs.Event)
    requires Holds(l, f, id, r)
    requires Runs.Shows(r, planned, stop) && Runs.Next(stop, e) && r.acceptance.planned == planned &&
               r.acceptance.started
    ensures var entry := Entered(id, planned, disposition, e);
      Reduce(l, entry).Some? && Holds(Reduce(l, entry).value, Note(f, entry), id, Runs.Apply(r, e))
  {
    UnstartedIsPlanned(r.acceptance, planned);
    hide FirstFailed, FirstInFlight, NextUnstarted;
  }
}
