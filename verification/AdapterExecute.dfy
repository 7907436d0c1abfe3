/** One execution of an adapter: probe, request, event window, response, drain,
    wait, sweep, record. The cancel channel may close between any two steps;
    frames, ticks, timeouts and interruptions arrive in any order. */
module AdapterExecute {
  import opened Results
  import opened Sequences
  import opened NameOrder

  type Id = string

  const MAX_EVENTS_PER_ATTEMPT := 10000

  // --------------------------------------------------------------- the protocol

  datatype Outcome = Completed | Failed | WaitingHuman | Cancelled

  datatype ExecuteResult = ExecuteResult(outcome: Outcome, pending: seq<Id>)

  datatype AdapterEvent =
    | Message(wellFormed: bool)
    | Artifact(id: Id, pathInside: bool)
    | Proposal(id: Id, wellFormed: bool, requiresDecision: bool)
    | Question(id: Id, wellFormed: bool)

  datatype Frame = Event(event: AdapterEvent) | CancelAck | Response(result: ExecuteResult) | Undecodable

  /** What a select may find ready. An input that its loop does not wait for,
      or that is not ready, is passed over. */
  datatype Input =
    | FrameIn(frame: Frame) | EndOfFrames | BrokenFrames | CancelSignal | CancelTimeout | Tick(cumulative: int)
    | Interrupted | Finished(ok: bool)

  // ---------------------------------------------------------------- the journal

  datatype OutcomeEvent = PerformerCompleted | AttemptFailed | AttemptBlocked

  /** The event that records a response; an unsolicited cancel is a failure. */
  function EventFor(outcome: Outcome): OutcomeEvent {
    match outcome
    case Completed => PerformerCompleted
    case Failed => AttemptFailed
    case WaitingHuman => AttemptBlocked
    case Cancelled => AttemptFailed
  }

  datatype Entry =
    | Probed | ArtifactRecorded(id: Id) | Checkpoint(cumulative: int) | Stopped | OutcomeRecorded(event: OutcomeEvent)

  /** An entry, whether the cancel channel was closed when its recording call
      began, and whether the session had been swept by then. */
  datatype Recorded = Recorded(entry: Entry, begunAfterCancel: bool, swept: bool) {
    predicate Terminal() { entry.Stopped? || entry.OutcomeRecorded? }
  }

  function Terminals(log: seq<Recorded>): seq<Recorded> {
    if log == [] then []
    else Terminals(log[..|log| - 1]) + if log[|log| - 1].Terminal() then [log[|log| - 1]] else []
  }

  function Checkpoints(log: seq<Recorded>): seq<int> {
    if log == [] then []
    else
      Checkpoints(log[..|log| - 1])
      + if log[|log| - 1].entry.Checkpoint? then [log[|log| - 1].entry.cumulative] else []
  }

  function Artifacts(log: seq<Recorded>): seq<Id> {
    if log == [] then []
    else Artifacts(log[..|log| - 1]) + if log[|log| - 1].entry.ArtifactRecorded? then [log[|log| - 1].entry.id] else []
  }

  ghost predicate Increasing(xs: seq<int>) {
    (forall x | x in xs :: x > 0) && forall i, j | 0 <= i < j < |xs| :: xs[i] < xs[j]
  }

  /** At most one stop and one outcome, the outcome after the stop, both after
      a sweep, neither begun after the cancellation. */
  ghost predicate TerminalsAreSound(ts: seq<Recorded>) {
    && |ts| <= 2
    && (|ts| > 0 ==> ts[0].entry == Stopped)
    && (|ts| > 1 ==> ts[1].entry.OutcomeRecorded?)
    && forall t | t in ts :: t.swept && !t.begunAfterCancel
  }

  ghost predicate HasOutcome(log: seq<Recorded>, event: OutcomeEvent) {
    |Terminals(log)| == 2 && Terminals(log)[1].entry == OutcomeRecorded(event)
  }

  /** Some outcome stands in the journal. */
  ghost predicate Concluded(log: seq<Recorded>) {
    exists event :: HasOutcome(log, event)
  }

  /** What an outcome says: that blocking events were raised, that the adapter
      answered completed, or that the attempt failed, with or without an answer. */
  ghost predicate Means(event: OutcomeEvent, result: Option<ExecuteResult>, blocking: set<Id>) {
    match event
    case AttemptBlocked => result.Some? && blocking != {}
    case PerformerCompleted => result.Some? && blocking == {} && result.value.outcome == Completed
    case AttemptFailed => result.None? || (blocking == {} && result.value.outcome in {Failed, Cancelled})
  }

  ghost predicate Unfinished(log: seq<Recorded>) {
    Terminals(log) == []
  }

  ghost predicate OnlyStopped(log: seq<Recorded>) {
    Terminals(log) == [Recorded(Stopped, false, true)]
  }

  /** The journal of one execution: sound terminals, growing checkpoints, and
      each declared artifact at most once. */
  ghost predicate LogSound(log: seq<Recorded>, outputs: map<Id, string>, seen: set<Id>) {
    && TerminalsAreSound(Terminals(log)) && Increasing(Checkpoints(log)) && Distinct(Artifacts(log))
    && forall id | id in Artifacts(log) :: id in seen && id in outputs && outputs[id] != "change_set"
  }

  ghost predicate CheckpointsUpTo(log: seq<Recorded>, last: int) {
    last >= 0 && forall x | x in Checkpoints(log) :: x <= last
  }

  lemma Appended(log: seq<Recorded>, r: Recorded)
    ensures Terminals(log + [r]) == Terminals(log) + if r.Terminal() then [r] else []
    ensures Checkpoints(log + [r]) == Checkpoints(log) + if r.entry.Checkpoint? then [r.entry.cumulative] else []
    ensures Artifacts(log + [r]) == Artifacts(log) + if r.entry.ArtifactRecorded? then [r.entry.id] else []
  {
    assert (log + [r])[..|log|] == log;
  }

  lemma AppendProbed(log: seq<Recorded>, r: Recorded, outputs: map<Id, string>, seen: set<Id>, last: int)
    requires LogSound(log, outputs, seen) && Unfinished(log) && CheckpointsUpTo(log, last) && r.entry == Probed
    ensures LogSound(log + [r], outputs, seen) && Unfinished(log + [r]) && CheckpointsUpTo(log + [r], last)
  {
    Appended(log, r);
    hide Terminals, Checkpoints, Artifacts;
  }

  lemma AppendArtifact(log: seq<Recorded>, r: Recorded, outputs: map<Id, string>, seen: set<Id>, last: int)
    requires LogSound(log, outputs, seen) && Unfinished(log) && CheckpointsUpTo(log, last)
    requires r.entry.ArtifactRecorded? && r.entry.id !in seen && r.entry.id in outputs &&
               outputs[r.entry.id] != "change_set"
    ensures LogSound(log + [r], outputs, seen + {r.entry.id}) && Unfinished(log + [r]) &&
              CheckpointsUpTo(log + [r], last)
  {
    Appended(log, r);
    hide Terminals, Checkpoints, Artifacts;
    var ids := Artifacts(log);
    assert forall i | 0 <= i < |ids| :: ids[i] in ids;
  }

  lemma AppendCheckpoint(log: seq<Recorded>, r: Recorded, outputs: map<Id, string>, seen: set<Id>, last: int)
    requires LogSound(log, outputs, seen) && Unfinished(log) && CheckpointsUpTo(log, last)
    requires r.entry.Checkpoint? && r.entry.cumulative > last
    ensures LogSound(log + [r], outputs, seen) && Unfinished(log + [r]) &&
              CheckpointsUpTo(log + [r], r.entry.cumulative)
  {
    Appended(log, r);
    hide Terminals, Checkpoints, Artifacts;
    var xs := Checkpoints(log);
    assert forall i | 0 <= i < |xs| :: xs[i] in xs;
  }

  lemma AppendStop(log: seq<Recorded>, r: Recorded, outputs: map<Id, string>, seen: set<Id>)
    requires LogSound(log, outputs, seen) && Unfinished(log) && r == Recorded(Stopped, false, true)
    ensures LogSound(log + [r], outputs, seen) && OnlyStopped(log + [r])
  {
    Appended(log, r);
    hide Terminals, Checkpoints, Artifacts;
  }

  lemma AppendOutcome(log: seq<Recorded>, r: Recorded, outputs: map<Id, string>, seen: set<Id>)
    requires LogSound(log, outputs, seen) && OnlyStopped(log) && r.entry.OutcomeRecorded? && !r.begunAfterCancel &&
               r.swept
    ensures LogSound(log + [r], outputs, seen) && HasOutcome(log + [r], r.entry.event)
  {
    Appended(log, r);
    hide Terminals, Checkpoints, Artifacts;
  }

  lemma NoOutcomeYet(log: seq<Recorded>)
    requires Unfinished(log) || OnlyStopped(log)
    ensures !Concluded(log) && forall event :: !HasOutcome(log, event)
  {
  }

  lemma OneOutcome(log: seq<Recorded>, event: OutcomeEvent)
    requires HasOutcome(log, event)
    ensures Concluded(log) && forall other :: HasOutcome(log, other) ==> other == event
  {
  }

  lemma FailureMeans(blocking: set<Id>)
    ensures Means(AttemptFailed, None, blocking)
  {
  }

  lemma EventMeans(result: ExecuteResult, blocking: set<Id>)
    requires MatchesBlocking(result, blocking)
    ensures Means(EventFor(result.outcome), Some(result), blocking)
  {
  }

  /** A larger set of seen ids changes nothing. */
  lemma SeenMore(log: seq<Recorded>, outputs: map<Id, string>, seen: set<Id>, id: Id)
    requires LogSound(log, outputs, seen)
    ensures LogSound(log, outputs, seen + {id})
  {
  }

  /** The pending decisions of a response are exactly the blocking events. */
  ghost predicate MatchesBlocking(result: ExecuteResult, blocking: set<Id>) {
    && Distinct(result.pending) && (forall id :: id in result.pending <==> id in blocking)
    && (result.outcome == WaitingHuman <==> blocking != {})
  }

  /** Continue, or return with or without an error. */
  datatype Flow = Go | Return(failed: bool)

  // ----------------------------------------------------------------- execution

  class Execution {
    const outputs: map<Id, string>
    const mayPropose: bool
    const draft: bool

    var closed: bool
    var inputs: seq<Input>
    var log: seq<Recorded>
    var cancellationInFlight: bool
    var watching: bool
    var timing: bool
    var cancelRequested: bool
    var cancelAcknowledged: bool
    var swept: bool
    var result: Option<ExecuteResult>
    var lastCheckpoint: int
    var eventCount: nat
    var artifactSeen: set<Id>
    var emittedIds: set<Id>
    var blockingIds: set<Id>

    constructor (outputs: map<Id, string>, mayPropose: bool, draft: bool, closed: bool, inputs: seq<Input>)
      ensures Open() && this.closed == closed && this.outputs == outputs && this.mayPropose == mayPropose &&
                this.draft == draft
    {
      this.outputs, this.mayPropose, this.draft := outputs, mayPropose, draft;
      this.closed, this.inputs, log := closed, inputs, [];
      cancellationInFlight, watching, timing, swept := false, true, false, false;
      cancelRequested, cancelAcknowledged := false, false;
      result, lastCheckpoint, eventCount := None, 0, 0;
      artifactSeen, emittedIds, blockingIds := {}, {}, {};
    }

    /** What holds all the time. */
    ghost predicate Consistent()
      reads this
    {
      (cancellationInFlight ==> closed) && LogSound(log, outputs, artifactSeen) && blockingIds <= emittedIds
    }

    /** Nothing terminal has been recorded yet. */
    ghost predicate Open()
      reads this
    {
      && Consistent() && Unfinished(log) && CheckpointsUpTo(log, lastCheckpoint)
      && (result.Some? ==> MatchesBlocking(result.value, blockingIds))
    }

    /** Without an error some outcome is in the journal, unless the cancellation
        came first. An outcome says what the result that stands came to; only a
        cancellation behind it takes the result away again. */
    ghost predicate Over(failed: bool)
      reads this
    {
      && Consistent()
      && (!failed ==> Concluded(log) || (cancellationInFlight && result.None?))
      && (result.Some? ==> MatchesBlocking(result.value, blockingIds))
      && (forall event | HasOutcome(log, event) ::
            Means(event, result, blockingIds) || (cancellationInFlight && result.None?))
    }

    // ------------------------------------------------------------- environment

    /** Time passes: the cancel channel may close, and it stays closed. */
    method Elapse()
      modifies this`closed
      ensures old(closed) ==> closed
    {
      if * {
        closed := true;
      }
    }

    /** The next thing a select finds; nothing left means interruption. */
    method Next() returns (input: Input)
      modifies this`closed, this`inputs
      ensures old(closed) ==> closed
      ensures |inputs| < |old(inputs)| || (old(inputs) == [] && inputs == [] && input == Interrupted)
      ensures input == Interrupted || input in old(inputs)
      ensures forall x | x in inputs :: x in old(inputs)
    {
      Elapse();
      if inputs == [] {
        return Interrupted;
      }
      input := inputs[0];
      inputs := inputs[1..];
    }

    method Sweep() returns (ok: bool)
      modifies this`swept
      ensures ok ==> swept
      ensures old(swept) ==> swept
    {
      ok := *;
      swept := swept || ok;
    }

    // --------------------------------------------------------------- recording

    /** Reads the signal itself, so that no caller has to have seen it. */
    method TerminalRecordingSuppressed() returns (suppressed: bool)
      requires Consistent()
      modifies this`cancellationInFlight
      ensures Consistent()
      ensures suppressed == cancellationInFlight == (old(cancellationInFlight) || closed)
    {
      if cancellationInFlight {
        return true;
      }
      if closed {
        cancellationInFlight := true;
      }
      return closed;
    }

    /** Hands an entry to the recorder. It may fail without having written, or
        leave an invalid receipt behind what it wrote. */
    method Record(entry: Entry, begunAfterCancel: bool) returns (ok: bool)
      modifies this`log
      ensures log == old(log) + [Recorded(entry, begunAfterCancel, swept)] || (log == old(log) && !ok)
    {
      var written := *;
      if !written {
        return false;
      }
      log := log + [Recorded(entry, begunAfterCancel, swept)];
      ok := *;
    }

    /** Records the end of the interval, unless the cancellation came first. */
    method RecordStop() returns (ok: bool)
      requires Open() && swept
      modifies this`closed, this`cancellationInFlight, this`log
      ensures Consistent() && (old(closed) ==> closed)
      ensures log == old(log) || (!old(closed) && OnlyStopped(log))
      ensures ok && log == old(log) ==> cancellationInFlight
    {
      hide LogSound, Unfinished, OnlyStopped, HasOutcome, Concluded, Means, CheckpointsUpTo, MatchesBlocking;
      var begun := closed;
      var suppressed := TerminalRecordingSuppressed();
      if suppressed {
        return true;
      }
      Elapse();
      AppendStop(log, Recorded(Stopped, begun, true), outputs, artifactSeen);
      ok := Record(Stopped, begun);
    }

    method RecordOutcome(event: OutcomeEvent) returns (ok: bool)
      requires Consistent() && swept
      requires OnlyStopped(log) || (Unfinished(log) && cancellationInFlight)
      modifies this`closed, this`cancellationInFlight, this`log
      ensures Consistent() && (old(closed) ==> closed)
      ensures log == old(log) || (!old(closed) && HasOutcome(log, event))
      ensures ok && log == old(log) ==> cancellationInFlight
    {
      hide LogSound, Unfinished, OnlyStopped, HasOutcome, Concluded, Means, CheckpointsUpTo, MatchesBlocking;
      var begun := closed;
      var suppressed := TerminalRecordingSuppressed();
      if suppressed {
        return true;
      }
      Elapse();
      AppendOutcome(log, Recorded(OutcomeRecorded(event), begun, true), outputs, artifactSeen);
      ok := Record(OutcomeRecorded(event), begun);
    }

    /** Stop and outcome of a failure; a cancellation leaves both out. */
    method RecordFailure() returns (flow: Flow)
      requires Open() && swept && result.None?
      modifies this`closed, this`cancellationInFlight, this`log
      ensures Over(flow.Return? && flow.failed) && flow.Return?
      ensures old(closed) ==> closed && log == old(log)
    {
      hide LogSound, Unfinished, OnlyStopped, HasOutcome, Concluded, Means, CheckpointsUpTo, MatchesBlocking;
      NoOutcomeYet(log);
      var suppressed := TerminalRecordingSuppressed();
      if suppressed {
        return Return(true);
      }
      Elapse();
      var stopped := RecordStop();
      NoOutcomeYet(log);
      if !stopped {
        return Return(true);
      }
      var ok := RecordOutcome(AttemptFailed);
      if HasOutcome(log, AttemptFailed) {
        OneOutcome(log, AttemptFailed);
        FailureMeans(blockingIds);
      }
      return Return(!ok);
    }

    /** Cleans up and records the failure. */
    method FinishFailure() returns (flow: Flow)
      requires Open()
      modifies this
      ensures flow.Return? && Over(flow.failed)
      ensures old(closed) ==> closed && Unfinished(log)
      ensures result.None?
    {
      hide LogSound, Unfinished, OnlyStopped, HasOutcome, Concluded, Means, CheckpointsUpTo, MatchesBlocking;
      result := None;
      NoOutcomeYet(log);
      var cleaned := Sweep();
      if !cleaned {
        return Return(true);
      }
      Elapse();
      flow := RecordFailure();
    }

    /** Cleans up and returns an error; nothing is recorded. */
    method FailWithoutOutcome() returns (flow: Flow)
      requires Consistent() && Unfinished(log) && (result.Some? ==> MatchesBlocking(result.value, blockingIds))
      modifies this`swept, this`closed
      ensures flow == Return(true) && Over(true) && Unfinished(log)
      ensures old(closed) ==> closed
    {
      NoOutcomeYet(log);
      hide LogSound, Unfinished, OnlyStopped, HasOutcome, Concluded, Means, CheckpointsUpTo, MatchesBlocking;
      var cleaned := Sweep();
      Elapse();
      return Return(true);
    }

    method ObserveCancellation()
      requires Open() && closed
      modifies this`cancellationInFlight, this`watching, this`timing
      ensures Open() && cancellationInFlight && !watching && timing
    {
      hide LogSound, Unfinished, OnlyStopped, HasOutcome, Concluded, Means, CheckpointsUpTo, MatchesBlocking;
      cancellationInFlight, watching, timing := true, false, true;
    }

    // ------------------------------------------------------------------ events

    /** What an event has to be for the attempt to go on. */
    ghost predicate Acceptable(event: AdapterEvent)
      reads this
    {
      match event
      case Message(wellFormed) => wellFormed
      case Artifact(id, inside) =>
        id != "" && id !in artifactSeen && id in outputs && outputs[id] != "change_set" && inside
      case Proposal(id, wellFormed, requiresDecision) =>
        id != "" && wellFormed && id !in emittedIds && mayPropose && (draft ==> requiresDecision)
      case Question(id, wellFormed) => id != "" && wellFormed && id !in emittedIds
    }

    /** Takes in one event: refused exactly when there were too many or it is not
        acceptable. An accepted one is written down if it is an artifact, takes
        its id if it has one, and blocks if it asks for a decision. */
    method ConsumeEvent(event: AdapterEvent) returns (consumed: Consumed)
      requires Open() && result.None?
      modifies this`closed, this`log, this`eventCount, this`artifactSeen, this`emittedIds, this`blockingIds
      ensures Open() && (old(closed) ==> closed) && eventCount == old(eventCount) + 1
      ensures consumed.Refused? <==> eventCount > 10000 || !old(Acceptable(event))
      ensures consumed.Broken? ==> event.Artifact?
      ensures consumed.Accepted? ==>
        && log == old(log) + (if event.Artifact? then
          [Recorded(ArtifactRecorded(event.id), old(closed), swept)] else [])
        && artifactSeen == old(artifactSeen) + (if event.Artifact? then {event.id} else {})
        && emittedIds == old(emittedIds) + (if event.Question? || event.Proposal? then {event.id} else {})
        && blockingIds == old(blockingIds)
             + (if event.Question? || (event.Proposal? && event.requiresDecision) then {event.id} else {})
    {
      hide LogSound, Unfinished, OnlyStopped, HasOutcome, Concluded, Means, CheckpointsUpTo, MatchesBlocking;
      eventCount := eventCount + 1;
      if eventCount > MAX_EVENTS_PER_ATTEMPT {
        return Refused;
      }
      match event {
        case Message(wellFormed) => return if wellFormed then Accepted else Refused;
        case Artifact(id, inside) => consumed := ConsumeArtifact(id, inside);
        case Proposal(id, wellFormed, requiresDecision) =>
          if id == "" || !wellFormed || id in emittedIds {
            return Refused;
          }
          emittedIds := emittedIds + {id};
          if !mayPropose || (draft && !requiresDecision) {
            return Refused;
          }
          if requiresDecision {
            blockingIds := blockingIds + {id};
          }
          return Accepted;
        case Question(id, wellFormed) =>
          if id == "" || !wellFormed || id in emittedIds {
            return Refused;
          }
          emittedIds := emittedIds + {id};
          blockingIds := blockingIds + {id};
          return Accepted;
      }
    }

    method ConsumeArtifact(id: Id, inside: bool) returns (consumed: Consumed)
      requires Open()
      modifies this`closed, this`log, this`artifactSeen
      ensures Open() && (old(closed) ==> closed)
      ensures consumed.Refused? <==> !old(Acceptable(Artifact(id, inside)))
      ensures consumed.Accepted? ==>
        && log == old(log) + [Recorded(ArtifactRecorded(id), old(closed), swept)]
        && artifactSeen == old(artifactSeen) + {id}
    {
      hide LogSound, Unfinished, OnlyStopped, HasOutcome, Concluded, Means, CheckpointsUpTo, MatchesBlocking;
      if id == "" || id in artifactSeen {
        return Refused;
      }
      ghost var before := artifactSeen;
      SeenMore(log, outputs, artifactSeen, id);
      artifactSeen := artifactSeen + {id};
      if id !in outputs || outputs[id] == "change_set" || !inside {
        return Refused;
      }
      var begun := closed;
      Elapse();
      AppendArtifact(log, Recorded(ArtifactRecorded(id), begun, swept), outputs, before, lastCheckpoint);
      var ok := Record(ArtifactRecorded(id), begun);
      return if ok then Accepted else Broken;
    }

    /** Accepts a response exactly when its pending decisions are the blocking
        events, each once, and it waits for a human exactly when there are any. */
    method ValidateBlocking(response: ExecuteResult) returns (valid: bool)
      ensures valid <==> MatchesBlocking(response, blockingIds)
    {
      var got := SortIds(response.pending);
      if |got| != |blockingIds| {
        SizeMismatch(response, got, blockingIds);
        return false;
      }
      for index := 0 to |got|
        invariant forall i | 0 < i < index :: got[i - 1] != got[i]
        invariant forall i | 0 <= i < index :: got[i] in blockingIds
      {
        assert got[index] in multiset(got);
        if index > 0 && got[index - 1] == got[index] {
          RepeatedIsNotDistinct(response.pending, got, index);
          return false;
        }
        if got[index] !in blockingIds {
          assert got[index] in response.pending;
          return false;
        }
      }
      StrictIsDistinct(response.pending, got, blockingIds);
      return (blockingIds != {}) == (response.outcome == WaitingHuman);
    }

    // ------------------------------------------------------------------ phases

    /** A bounded write of the probe or the execute request; a cancellation, a
        deadline or an interruption ends the call, a write error may be
        reported as a failure of the adapter. */
    method WriteRequest(reportError: bool) returns (flow: Flow)
      requires Open() && result.None?
      modifies this
      ensures flow.Go? ==> Open() && result.None?
      ensures flow.Return? ==> Over(flow.failed)
      ensures old(closed) ==> closed && Unfinished(log)
      ensures flow.Go? ==> forall x | x in inputs :: x in old(inputs)
      ensures flow.Return? ==> flow.failed || result.None?
    {
      hide LogSound, Unfinished, OnlyStopped, HasOutcome, Concluded, Means, CheckpointsUpTo, MatchesBlocking;
      var input := Next();
      match input {
        case Finished(ok) =>
          if ok {
            return Go;
          }
          if reportError {
            flow := FinishFailure();
            return flow;
          }
        case CancelSignal =>
          if closed && watching {
            ObserveCancellation();
          }
        case _ =>
      }
      flow := FailWithoutOutcome();
    }

    /** Awaits and records the probe response. */
    method AwaitProbe() returns (flow: Flow)
      requires Open() && result.None?
      modifies this
      ensures flow.Go? ==> Open() && result.None?
      ensures flow.Return? ==> Over(flow.failed)
      ensures old(closed) ==> closed && Unfinished(log)
      ensures flow.Go? ==> forall x | x in inputs :: x in old(inputs)
      ensures flow.Return? ==> flow.failed || result.None?
    {
      hide LogSound, Unfinished, OnlyStopped, HasOutcome, Concluded, Means, CheckpointsUpTo, MatchesBlocking;
      var input := Next();
      if !input.FrameIn? || input.frame == Undecodable {
        if input.CancelSignal? && closed && watching {
          ObserveCancellation();
        }
        flow := FailWithoutOutcome();
        return;
      }
      Elapse();
      AppendProbed(log, Recorded(Probed, closed, swept), outputs, artifactSeen, lastCheckpoint);
      var ok := Record(Probed, closed);
      if !ok {
        flow := FailWithoutOutcome();
        return;
      }
      return Go;
    }

    /** Writes the cancel request of an observed cancellation. */
    method RequestCancel() returns (flow: Flow)
      requires Open() && closed && result.None?
      modifies this
      ensures closed && Unfinished(log)
      ensures flow.Go? ==> Open() && result.None? && |inputs| <= |old(inputs)|
      ensures flow.Return? ==> Over(flow.failed)
      ensures flow.Go? ==> inputs == old(inputs)
      ensures flow.Return? ==> flow.failed || result.None?
    {
      hide LogSound, Unfinished, OnlyStopped, HasOutcome, Concluded, Means, CheckpointsUpTo, MatchesBlocking;
      ObserveCancellation();
      var written := *;
      if written {
        return Go;
      }
      flow := FailWithoutOutcome();
    }

    method RecordCheckpoint(cumulative: int) returns (flow: Flow)
      requires Open() && result.None?
      modifies this
      ensures old(closed) ==> closed && Unfinished(log)
      ensures flow.Go? ==> Open() && result.None? && inputs == old(inputs)
      ensures flow.Go? ==>
        if cumulative <= old(lastCheckpoint) then log == old(log) && lastCheckpoint == old(lastCheckpoint)
        else log == old(log) + [Recorded(Checkpoint(cumulative), old(closed), swept)] && lastCheckpoint == cumulative
      ensures flow.Return? ==> Over(flow.failed)
      ensures flow.Return? ==> flow.failed || result.None?
    {
      hide LogSound, Unfinished, OnlyStopped, HasOutcome, Concluded, Means, CheckpointsUpTo, MatchesBlocking;
      if cumulative <= lastCheckpoint {
        return Go;
      }
      var begun := closed;
      Elapse();
      AppendCheckpoint(log, Recorded(Checkpoint(cumulative), begun, swept), outputs, artifactSeen, lastCheckpoint);
      var ok := Record(Checkpoint(cumulative), begun);
      if !ok {
        flow := FailWithoutOutcome();
        return;
      }
      lastCheckpoint := cumulative;
      return Go;
    }

    /** The event window: events, ticks and a cancellation in any order, until
        the response or a failure. */
    method Window() returns (flow: Flow)
      requires Open() && result.None?
      modifies this
      ensures flow.Go? ==> Open() && result.Some?
      ensures flow.Return? ==> Over(flow.failed)
      ensures old(closed) ==> closed && Unfinished(log)
      ensures flow.Go? ==> FrameIn(Response(result.value)) in old(inputs)
      ensures flow.Return? ==> flow.failed || result.None?
      ensures flow.Go? ==> forall x | x in inputs :: x in old(inputs)
    {
      hide LogSound, Unfinished, OnlyStopped, HasOutcome, Concluded, Means, CheckpointsUpTo, MatchesBlocking;
      while true
        invariant Open() && result.None? && (old(closed) ==> closed)
        invariant forall x | x in inputs :: x in old(inputs)
        decreases |inputs|
      {
        var input := Next();
        match input {
          case Tick(cumulative) =>
            flow := RecordCheckpoint(cumulative);
            if flow.Return? {
              return;
            }
          case FrameIn(frame) =>
            flow := TakeFrame(frame);
            if flow.Return? || result.Some? {
              return;
            }
          case EndOfFrames => flow := FinishFailure(); return;
          case BrokenFrames => flow := FinishFailure(); return;
          case CancelSignal =>
            if closed && watching {
              flow := RequestCancel();
              if flow.Return? {
                return;
              }
              cancelRequested := true;
            }
          case CancelTimeout =>
            if timing {
              flow := FailWithoutOutcome();
              return;
            }
          case Interrupted => flow := FailWithoutOutcome(); return;
          case Finished(_) =>
        }
      }
    }

    method TakeFrame(frame: Frame) returns (flow: Flow)
      requires Open() && result.None?
      modifies this
      ensures flow.Go? ==> Open() && inputs == old(inputs)
      ensures frame == Undecodable ==> flow.Return?
      ensures frame == CancelAck ==> (flow.Go? <==> old(cancelRequested) && !old(cancelAcknowledged))
      ensures frame.Response? ==> (flow.Go? <==> old(MatchesBlocking(frame.result, blockingIds)))
      ensures frame.Event? && flow.Go? ==> old(eventCount) < MAX_EVENTS_PER_ATTEMPT && old(Acceptable(frame.event))
      ensures (frame.Event? && !frame.event.Artifact? && old(eventCount) < MAX_EVENTS_PER_ATTEMPT &&
               old(Acceptable(frame.event))) ==> flow.Go?
      ensures flow.Go? ==> result == if frame.Response? then Some(frame.result) else None
      ensures flow.Return? ==> Over(flow.failed)
      ensures old(closed) ==> closed && Unfinished(log)
      ensures flow.Return? ==> flow.failed || result.None?
    {
      hide LogSound, Unfinished, OnlyStopped, HasOutcome, Concluded, Means, CheckpointsUpTo, MatchesBlocking;
      match frame {
        case Undecodable => flow := FinishFailure();
        case Event(event) =>
          var consumed := ConsumeEvent(event);
          match consumed {
            case Accepted => flow := Go;
            case Refused => flow := FinishFailure();
            case Broken => flow := FailWithoutOutcome();
          }
        case CancelAck =>
          if !cancelRequested || cancelAcknowledged {
            flow := FinishFailure();
          } else {
            cancelAcknowledged := true;
            flow := Go;
          }
        case Response(response) =>
          var valid := ValidateBlocking(response);
          if !valid {
            flow := FinishFailure();
          } else {
            result := Some(response);
            flow := Go;
          }
      }
    }

    /** After the response: nothing but the acknowledgement of a cancel may
        follow, and then the end of the frames. */
    method ResponseTail() returns (flow: Flow)
      requires Open() && result.Some?
      modifies this
      ensures flow.Go? ==> Open() && result.Some?
      ensures flow.Return? ==> Over(flow.failed)
      ensures old(closed) ==> closed && Unfinished(log)
      ensures flow.Go? ==> result == old(result) && (cancelRequested ==> cancelAcknowledged)
      ensures flow.Return? ==> flow.failed || result.None?
      ensures flow.Go? ==> forall x | x in inputs :: x in old(inputs)
    {
      hide LogSound, Unfinished, OnlyStopped, HasOutcome, Concluded, Means, CheckpointsUpTo, MatchesBlocking;
      var stdinClosed := *;
      if !stdinClosed {
        flow := FinishFailure();
        return;
      }
      while true
        invariant Open() && result.Some? && (old(closed) ==> closed) && result == old(result)
        invariant forall x | x in inputs :: x in old(inputs)
        decreases |inputs|
      {
        var input := Next();
        match input {
          case FrameIn(frame) =>
            if frame != CancelAck || !cancelRequested || cancelAcknowledged {
              flow := FinishFailure();
              return;
            }
            cancelAcknowledged := true;
          case BrokenFrames => flow := FinishFailure(); return;
          case EndOfFrames =>
            if cancelRequested && !cancelAcknowledged {
              result := None;
              flow := FailWithoutOutcome();
              return;
            }
            return Go;
          case _ =>
            var waiting := PassOver(input);
            if !waiting {
              flow := FailWithoutOutcome();
              return;
            }
        }
      }
    }

    /** The inputs that every later loop treats alike; false ends the call. */
    method PassOver(input: Input) returns (waiting: bool)
      requires Open()
      modifies this`cancellationInFlight, this`watching, this`timing, this`result
      ensures Open() && (waiting ==> input != Interrupted && result == old(result))
    {
      hide LogSound, Unfinished, OnlyStopped, HasOutcome, Concluded, Means, CheckpointsUpTo, MatchesBlocking;
      if input.CancelSignal? && closed && watching {
        ObserveCancellation();
      } else if input.CancelTimeout? && timing {
        result := None;
        return false;
      }
      return !input.Interrupted?;
    }

    /** Waits for stderr to drain, or for the process to exit. */
    method Await() returns (flow: Flow, ok: bool)
      requires Open() && result.Some?
      modifies this
      ensures flow.Go? ==> Open() && result.Some?
      ensures flow.Return? ==> Over(flow.failed)
      ensures old(closed) ==> closed && Unfinished(log)
      ensures flow.Go? ==> result == old(result)
      ensures flow.Return? ==> flow.failed || result.None?
      ensures flow.Go? ==> Finished(ok) in old(inputs)
      ensures flow.Go? ==> forall x | x in inputs :: x in old(inputs)
    {
      hide LogSound, Unfinished, OnlyStopped, HasOutcome, Concluded, Means, CheckpointsUpTo, MatchesBlocking;
      ok := false;
      while true
        invariant Open() && result.Some? && (old(closed) ==> closed) && result == old(result)
        invariant forall x | x in inputs :: x in old(inputs)
        decreases |inputs|
      {
        var input := Next();
        if input.Finished? {
          return Go, input.ok;
        }
        var waiting := PassOver(input);
        if !waiting {
          flow := FailWithoutOutcome();
          return;
        }
      }
    }

    /** Sweeps the session and records the stop and the outcome; a result that
        the journal left out does not stay in the report. */
    method Conclude(exitedCleanly: bool) returns (flow: Flow)
      requires Open() && result.Some?
      modifies this
      ensures flow.Return? && Over(flow.failed)
      ensures old(closed) ==> closed && Unfinished(log)
      ensures result == old(result) || result.None?
      ensures !exitedCleanly ==> result.None?
    {
      hide LogSound, Unfinished, OnlyStopped, HasOutcome, Concluded, Means, CheckpointsUpTo, MatchesBlocking;
      if !exitedCleanly {
        result := None;
      }
      NoOutcomeYet(log);
      var cleaned := Sweep();
      if !cleaned {
        return Return(true);
      }
      Elapse();
      if !exitedCleanly {
        flow := RecordFailure();
        return;
      }
      var stopped := RecordStop();
      NoOutcomeYet(log);
      if !stopped {
        return Return(true);
      }
      Elapse();
      EventMeans(result.value, blockingIds);
      var suppressed := TerminalRecordingSuppressed();
      if !suppressed {
        var event := EventFor(result.value.outcome);
        var ok := RecordOutcome(event);
        if HasOutcome(log, event) {
          OneOutcome(log, event);
        }
        if !ok {
          return Return(true);
        }
      }
      Elapse();
      var cancelled := TerminalRecordingSuppressed();
      if cancelled {
        result := None;
      }
      return Return(false);
    }

    /** The whole call. Its journal is sound in every run, and a cancellation
        that came first leaves it without stop and outcome. Otherwise a call
        without an error has recorded what the attempt came to: blocked exactly
        when blocking events were raised, completed exactly when the adapter
        answered so and raised none, and failed in every other case. */
    method Execute() returns (flow: Flow)
      requires Open() && result.None?
      modifies this
      ensures flow.Return? && LogSound(log, outputs, artifactSeen)
      ensures old(closed) ==> Unfinished(log)
      ensures !flow.failed ==> Concluded(log) || (cancellationInFlight && result.None?)
      ensures result.Some? && !flow.failed ==>
                FrameIn(Response(result.value)) in old(inputs) && Finished(true) in old(inputs)
      ensures result.Some? ==> MatchesBlocking(result.value, blockingIds)
      ensures forall event | HasOutcome(log, event) && (result.Some? || !cancellationInFlight) ::
                && (event == AttemptBlocked <==> result.Some? && blockingIds != {})
                && (event == PerformerCompleted <==> result.Some? && result.value.outcome == Completed)
                && (event == AttemptFailed <==> result.None? || result.value.outcome in {Failed, Cancelled})
    {
      hide LogSound, Unfinished, OnlyStopped, HasOutcome, Concluded, CheckpointsUpTo;
      flow := WriteRequest(false);
      if flow.Return? {
        return;
      }
      flow := AwaitProbe();
      if flow.Return? {
        return;
      }
      flow := WriteRequest(true);
      if flow.Return? {
        return;
      }
      flow := Window();
      if flow.Return? {
        return;
      }
      flow := ResponseTail();
      if flow.Return? {
        return;
      }
      var drained;
      flow, drained := Await();
      if flow.Return? {
        return;
      }
      var exitedCleanly;
      flow, exitedCleanly := Await();
      if flow.Return? {
        return;
      }
      flow := Conclude(exitedCleanly);
    }
  }

  datatype Consumed = Accepted | Refused | Broken

  // -------------------------------------------------------------- sorting of ids

  ghost predicate Ordered(ids: seq<Id>) {
    forall i, j | 0 <= i < j < |ids| :: !BytesBefore(ids[j], ids[i])
  }

  function InsertId(ids: seq<Id>, id: Id): seq<Id> {
    if ids == [] || !BytesBefore(ids[0], id) then [id] + ids else [ids[0]] + InsertId(ids[1..], id)
  }

  lemma NotBeforeThen(a: Id, b: Id, c: Id)
    requires !BytesBefore(b, a) && !BytesBefore(c, b)
    ensures !BytesBefore(c, a)
  {
    hide BytesBefore;
    BytesTrichotomy(a, b);
    BytesTrichotomy(b, c);
    BytesTrichotomy(a, c);
    if BytesBefore(a, b) && BytesBefore(b, c) {
      BytesBeforeThen(a, b, c);
    }
  }

  lemma {:induction false} InsertIdKeepsOrder(ids: seq<Id>, id: Id)
    requires Ordered(ids)
    ensures Ordered(InsertId(ids, id)) && multiset(InsertId(ids, id)) == multiset(ids) + multiset{id}
    decreases |ids|
  {
    hide BytesBefore;
    if ids == [] {
    } else if !BytesBefore(ids[0], id) {
      forall j | 0 <= j < |ids| ensures !BytesBefore(ids[j], id) {
        if j > 0 {
          NotBeforeThen(id, ids[0], ids[j]);
        }
      }
    } else {
      var rest := ids[1..];
      InsertIdKeepsOrder(rest, id);
      assert ids == [ids[0]] + rest;
      BytesTrichotomy(ids[0], id);
      FirstIsLeast(ids, id, InsertId(rest, id));
    }
  }

  lemma FirstIsLeast(ids: seq<Id>, id: Id, out: seq<Id>)
    requires ids != [] && Ordered(ids) && !BytesBefore(id, ids[0])
    requires Ordered(out) && multiset(out) == multiset(ids[1..]) + multiset{id}
    ensures Ordered([ids[0]] + out)
  {
    forall j | 0 <= j < |out| ensures !BytesBefore(out[j], ids[0]) {
      assert out[j] in multiset(out);
      if out[j] != id {
        assert out[j] in multiset(ids[1..]);
        var k :| 0 <= k < |ids[1..]| && ids[1..][k] == out[j];
        assert ids[k + 1] == out[j];
      }
    }
  }

  method SortIds(ids: seq<Id>) returns (sorted: seq<Id>)
    ensures Ordered(sorted) && multiset(sorted) == multiset(ids)
  {
    sorted := [];
    for k := 0 to |ids|
      invariant Ordered(sorted) && multiset(sorted) == multiset(ids[..k])
    {
      InsertIdKeepsOrder(sorted, ids[k]);
      sorted := InsertId(sorted, ids[k]);
      assert ids[..k + 1] == ids[..k] + [ids[k]];
    }
    assert ids[..|ids|] == ids;
  }

  lemma SizeMismatch(response: ExecuteResult, got: seq<Id>, blocking: set<Id>)
    requires multiset(got) == multiset(response.pending) && |got| != |blocking|
    ensures !MatchesBlocking(response, blocking)
  {
    assert |got| == |multiset(got)| == |response.pending|;
    var members := SetOf(response.pending);
    if Distinct(response.pending) {
      DistinctSize(response.pending);
      assert |members| != |blocking|;
    }
    assert (forall id :: id in response.pending <==> id in blocking) ==> members == blocking;
  }

  lemma RepeatedIsNotDistinct(pending: seq<Id>, got: seq<Id>, index: nat)
    requires multiset(got) == multiset(pending) && 0 < index < |got| && got[index - 1] == got[index]
    ensures !Distinct(pending)
  {
    var front, back := got[..index], got[index..];
    assert got == front + back && front[index - 1] == got[index] && back[0] == got[index];
    assert multiset(got) == multiset(front) + multiset(back);
    assert multiset(front)[got[index]] >= 1 && multiset(back)[got[index]] >= 1;
    if Distinct(pending) {
      DistinctCount(pending, got[index]);
    }
  }

  lemma {:induction false} StrictChain(got: seq<Id>, i: nat, j: nat)
    requires Ordered(got) && (forall k | 0 < k < |got| :: got[k - 1] != got[k]) && i < j < |got|
    ensures BytesBefore(got[i], got[j])
    decreases j
  {
    hide BytesBefore;
    BytesTrichotomy(got[j - 1], got[j]);
    if i < j - 1 {
      StrictChain(got, i, j - 1);
      BytesBeforeThen(got[i], got[j - 1], got[j]);
    }
  }

  lemma StrictIsDistinct(pending: seq<Id>, got: seq<Id>, blocking: set<Id>)
    requires Ordered(got) && (forall k | 0 < k < |got| :: got[k - 1] != got[k])
    requires multiset(got) == multiset(pending) && |got| == |blocking| && forall i | 0 <= i < |got| ::
               got[i] in blocking
    ensures Distinct(pending) && forall id :: id in pending <==> id in blocking
  {
    forall i, j | 0 <= i < j < |got| ensures got[i] != got[j] {
      StrictChain(got, i, j);
      BytesTrichotomy(got[i], got[i]);
    }
    FitsInto(got, blocking);
    forall id ensures id in pending <==> id in blocking {
      assert id in pending <==> id in multiset(pending);
      assert id in got <==> id in multiset(got);
    }
    if !Distinct(pending) {
      var i, j :| 0 <= i < j < |pending| && pending[i] == pending[j];
      var front, back := pending[..j], pending[j..];
      assert pending == front + back && front[i] == pending[j] && back[0] == pending[j];
      assert multiset(pending) == multiset(front) + multiset(back);
      DistinctCount(got, pending[j]);
    }
  }
}
