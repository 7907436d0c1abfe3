/** The adapter's serving loop. The loop, the handlers it starts, the holders of
    an event sink, the input and the termination signal interleave freely. */
module AdapterServer {

  const MAX_EVENTS_PER_ATTEMPT := 10000

  /** What a received frame asks for. */
  datatype Frame = Unreadable | Probe | Execute(valid: bool) | Cancel | UnknownMethod

  /** The lines written: the response to the frame of that number, or an event
      of the execution of that number. */
  datatype Out = Response(frame: nat) | Event(execution: nat)

  /** An execution, by the frame that started it. */
  datatype Execution = Execution(frame: nat, closed: bool, count: nat, returned: bool)

  datatype Loop = Selecting | Responding | Stopping | Stopped(failed: bool)

  datatype State = State(
    received: nat, output: seq<Out>, executions: seq<Execution>, running: bool, loop: Loop, reading: bool,
      partial: bool)
  {
    ghost predicate Shaped() { running || loop.Responding? ==> executions != [] }

    /** The execution that is running or being answered is the last one. */
    function Current(): nat
      requires executions != []
    {
      |executions| - 1
    }
  }

  function Initial(): State {
    State(0, [], [], false, Selecting, true, false)
  }

  // --------------------------------------------------------------------- steps

  datatype Step =
    | Receive(frame: Frame, written: bool) | EndOfInput(partial: bool) | Terminate
    | Emit(execution: nat, written: bool) | Return | TakeCompletion | Answer(written: bool) | FinishStop

  predicate Enabled(s: State, step: Step) {
    match step
    case Receive(_, _) => s.loop.Selecting? && s.reading
    case EndOfInput(_) => s.loop.Selecting? && s.reading
    case Terminate => s.loop.Selecting?
    case Emit(k, _) => k < |s.executions|
    case Return => s.running && s.executions != [] && !s.executions[s.Current()].returned
    case TakeCompletion => s.loop.Selecting? && s.running && s.executions != [] && s.executions[s.Current()].returned
    case Answer(_) => s.loop.Responding? && s.executions != []
    case FinishStop => s.loop.Stopping? && (s.running ==> s.executions != [] && s.executions[s.Current()].returned)
  }

  /** Writes a response; after a failed write the loop cancels the running
      execution and waits for it. */
  function Respond(s: State, frame: nat, written: bool): State {
    if written then s.(output := s.output + [Response(frame)]) else s.(loop := Stopping)
  }

  function CloseCurrent(s: State): State
    requires s.executions != []
  {
    var k := s.Current();
    s.(executions := s.executions[k := s.executions[k].(closed := true)])
  }

  function Take(s: State, step: Step): State
    requires Enabled(s, step)
  {
    match step
    case Receive(frame, written) =>
      var next := s.(received := s.received + 1);
      if frame == Execute(true) && !s.running
      then next.(running := true, executions := s.executions + [Execution(s.received, false, 0, false)])
      else Respond(next, s.received, written)
    case EndOfInput(partial) =>
      if s.running then s.(reading := false, partial := partial)
        else s.(reading := false, partial := partial, loop := Stopped(partial))
    case Terminate =>
      if s.running then s.(reading := false, partial := false)
        else s.(reading := false, partial := false, loop := Stopped(false))
    case Emit(k, written) =>
      var e := s.executions[k];
      if e.closed || e.count >= MAX_EVENTS_PER_ATTEMPT || !written then s
      else s.(output := s.output + [Event(k)], executions := s.executions[k := e.(count := e.count + 1)])
    case Return => s.(executions := s.executions[s.Current() := s.executions[s.Current()].(returned := true)])
    case TakeCompletion =>
      var closed := CloseCurrent(s).(running := false);
      if s.partial && !s.reading then closed.(loop := Stopped(true)) else closed.(loop := Responding)
    case Answer(written) =>
      var next := Respond(s, s.executions[s.Current()].frame, written);
      if !written then next.(loop := Stopped(true))
      else if s.reading then next.(loop := Selecting)
      else next.(loop := Stopped(false))
    case FinishStop =>
      if s.running then CloseCurrent(s).(running := false, loop := Stopped(true)) else s.(loop := Stopped(true))
  }

  ghost predicate IsRun(s: State, steps: seq<Step>)
    decreases |steps|
  {
    steps == [] || (Enabled(s, steps[0]) && IsRun(Take(s, steps[0]), steps[1..]))
  }

  ghost function After(s: State, steps: seq<Step>): State
    requires IsRun(s, steps)
    decreases |steps|
  {
    if steps == [] then s else After(Take(s, steps[0]), steps[1..])
  }

  // ------------------------------------------------------------------- counting

  function Count(output: seq<Out>, line: Out): nat {
    if output == [] then 0
    else Count(output[..|output| - 1], line) + if output[|output| - 1] == line then 1 else 0
  }

  lemma CountAppended(output: seq<Out>, added: Out)
    ensures forall line :: Count(output + [added], line) == Count(output, line) + if added == line then 1 else 0
  {
    assert (output + [added])[..|output|] == output;
  }

  lemma {:induction false} CountPositive(output: seq<Out>, i: nat)
    requires i < |output|
    ensures Count(output, output[i]) > 0
    decreases |output|
  {
    if i < |output| - 1 {
      CountPositive(output[..|output| - 1], i);
    }
  }

  // ------------------------------------------------------------------ invariant

  /** The frame whose response is still owed. */
  ghost predicate Owed(s: State, frame: nat) {
    (s.running || s.loop.Responding?) && s.executions != [] && s.executions[s.Current()].frame == frame
  }

  ghost predicate AnswersFit(s: State) {
    forall f: nat ::
      Count(s.output, Response(f)) <= (if f < s.received && !Owed(s, f) then 1 else 0)
  }

  /** Unless the loop stopped with an error, every other received frame has been
      answered. */
  ghost predicate AllAnswered(s: State) {
    s.loop != Stopping && s.loop != Stopped(true) ==>
      forall f: nat | f < s.received && !Owed(s, f) :: Count(s.output, Response(f)) == 1
  }

  ghost predicate EventsFit(s: State) {
    && (forall k: nat | k < |s.executions| ::
      Count(s.output, Event(k)) == s.executions[k].count <= MAX_EVENTS_PER_ATTEMPT)
    && (forall k: nat | k >= |s.executions| :: Count(s.output, Event(k)) == 0)
  }

  /** Executions start one after the other; all but the running one are closed. */
  ghost predicate ExecutionsFit(s: State) {
    && s.Shaped()
    && (forall k | 0 <= k < |s.executions| :: s.executions[k].frame < s.received)
    && (forall j, k | 0 <= j < k < |s.executions| :: s.executions[j].frame < s.executions[k].frame)
    && (forall k | 0 <= k < |s.executions| :: !s.executions[k].closed ==> s.running && k == s.Current())
    && (s.running ==> !s.executions[s.Current()].closed && (s.loop.Selecting? || s.loop.Stopping?))
    && (s.loop.Selecting? && !s.running ==> s.reading)
  }

  /** No event of an execution follows its response. */
  ghost predicate NoLateEvent(output: seq<Out>, executions: seq<Execution>) {
    forall i, j | 0 <= i < j < |output| && output[j].Event? && output[j].execution < |executions| ::
      output[i] != Response(executions[output[j].execution].frame)
  }

  ghost predicate Inv(s: State) {
    ExecutionsFit(s) && AnswersFit(s) && AllAnswered(s) && EventsFit(s) && NoLateEvent(s.output, s.executions)
  }

  lemma InvInitially()
    ensures Inv(Initial())
  {
  }

  // ---------------------------------------------------------------- step by step

  /** A response that nobody has been given yet, to a frame that is not owed. */
  lemma ResponseKeepsOrder(output: seq<Out>, executions: seq<Execution>, frame: nat)
    requires NoLateEvent(output, executions)
    ensures NoLateEvent(output + [Response(frame)], executions)
  {
  }

  lemma EventKeepsOrder(output: seq<Out>, executions: seq<Execution>, k: nat)
    requires NoLateEvent(output, executions) && k < |executions| && Count(output, Response(executions[k].frame)) == 0
    ensures NoLateEvent(output + [Event(k)], executions)
  {
    forall i | 0 <= i < |output| ensures output[i] != Response(executions[k].frame) {
      CountPositive(output, i);
    }
  }

  lemma SameFramesKeepOrder(output: seq<Out>, before: seq<Execution>, after: seq<Execution>)
    requires NoLateEvent(output, before) && |before| <= |after|
    requires forall k | 0 <= k < |before| :: before[k].frame == after[k].frame
    requires forall k: nat | k >= |before| :: Count(output, Event(k)) == 0
    ensures NoLateEvent(output, after)
  {
    forall i, j | 0 <= i < j < |output| && output[j].Event? && output[j].execution < |after|
      ensures output[i] != Response(after[output[j].execution].frame)
    {
      CountPositive(output, j);
      assert output[j] == Event(output[j].execution);
      assert output[j].execution < |before|;
    }
  }

  lemma ReceiveKeeps(s: State, frame: Frame, written: bool)
    requires Inv(s) && Enabled(s, Receive(frame, written))
    ensures Inv(Take(s, Receive(frame, written)))
  {
    ReceiveCounts(s, frame, written);
    var next := Take(s, Receive(frame, written));
    if frame == Execute(true) && !s.running {
      SameFramesKeepOrder(s.output, s.executions, next.executions);
    } else if written {
      ResponseKeepsOrder(s.output, s.executions, s.received);
    }
  }

  lemma ReceiveCounts(s: State, frame: Frame, written: bool)
    requires Inv(s) && Enabled(s, Receive(frame, written))
    ensures var next := Take(s, Receive(frame, written));
      ExecutionsFit(next) && AnswersFit(next) && AllAnswered(next) && EventsFit(next)
  {
    hide NoLateEvent;
    CountAppended(s.output, Response(s.received));
    hide Count;
  }

  lemma EmitKeeps(s: State, k: nat, written: bool)
    requires Inv(s) && Enabled(s, Emit(k, written))
    ensures Inv(Take(s, Emit(k, written)))
  {
    var next := Take(s, Emit(k, written));
    if next != s {
      CountAppended(s.output, Event(k));
      assert Owed(s, s.executions[k].frame);
      assert Count(s.output, Response(s.executions[k].frame)) <= 0;
      EventKeepsOrder(s.output, s.executions, k);
      SameFramesAfterUpdate(s.output + [Event(k)], s.executions, next.executions);
    }
  }

  lemma SameFramesAfterUpdate(output: seq<Out>, before: seq<Execution>, after: seq<Execution>)
    requires NoLateEvent(output, before) && |before| == |after|
    requires forall k | 0 <= k < |before| :: before[k].frame == after[k].frame
    ensures NoLateEvent(output, after)
  {
  }

  lemma QuietKeeps(s: State, step: Step)
    requires Inv(s) && Enabled(s, step) &&
               (step.Return? || step.TakeCompletion? || step.FinishStop? || step.Terminate? || step.EndOfInput?)
    ensures Inv(Take(s, step))
  {
    var next := Take(s, step);
    SameFramesAfterUpdate(s.output, s.executions, next.executions);
  }

  lemma AnswerKeeps(s: State, written: bool)
    requires Inv(s) && Enabled(s, Answer(written))
    ensures Inv(Take(s, Answer(written)))
  {
    AnswerCounts(s, written);
    hide ExecutionsFit, AnswersFit, AllAnswered, EventsFit;
    if written {
      ResponseKeepsOrder(s.output, s.executions, s.executions[s.Current()].frame);
    }
  }

  lemma AnswerCounts(s: State, written: bool)
    requires Inv(s) && Enabled(s, Answer(written))
    ensures var next := Take(s, Answer(written));
              ExecutionsFit(next) && AnswersFit(next) && AllAnswered(next) && EventsFit(next)
  {
    hide NoLateEvent;
    CountAppended(s.output, Response(s.executions[s.Current()].frame));
    hide Count;
    AnswerResponses(s, written);
    hide AnswersFit, AllAnswered;
  }

  lemma AnswerResponses(s: State, written: bool)
    requires Enabled(s, Answer(written)) && ExecutionsFit(s) && AnswersFit(s) && AllAnswered(s)
    ensures var next := Take(s, Answer(written)); AnswersFit(next) && AllAnswered(next)
  {
    CountAppended(s.output, Response(s.executions[s.Current()].frame));
    hide Count;
  }

  lemma StepKeeps(s: State, step: Step)
    requires Inv(s) && Enabled(s, step)
    ensures Inv(Take(s, step))
  {
    hide Inv;
    match step {
      case Receive(frame, written) => ReceiveKeeps(s, frame, written);
      case Emit(k, written) => EmitKeeps(s, k, written);
      case Answer(written) => AnswerKeeps(s, written);
      case _ => QuietKeeps(s, step);
    }
  }

  lemma {:induction false} InvAlways(s: State, steps: seq<Step>)
    requires Inv(s) && IsRun(s, steps)
    ensures Inv(After(s, steps))
    decreases |steps|
  {
    hide Inv, Enabled, Take;
    if steps != [] {
      StepKeeps(s, steps[0]);
      InvAlways(Take(s, steps[0]), steps[1..]);
    }
  }

  // -------------------------------------------------------------------- theorems

  /** In every run, every received frame has at most one response; a loop that
      stops without an error has answered each exactly once. */
  lemma EveryFrameIsAnsweredOnce(steps: seq<Step>, frame: nat)
    requires IsRun(Initial(), steps)
    ensures var s := After(Initial(), steps);
      && Count(s.output, Response(frame)) <= (if frame < s.received then 1 else 0)
      && (s.loop == Stopped(false) && frame < s.received ==> Count(s.output, Response(frame)) == 1)
  {
    InvInitially();
    InvAlways(Initial(), steps);
  }

  /** In every run at most one execution is open, a later one starts only when
      all earlier ones are closed, each emits a bounded number of events, and
      none of them after its response. */
  lemma ExecutionsAreBounded(steps: seq<Step>)
    requires IsRun(Initial(), steps)
    ensures var s := After(Initial(), steps);
      && (forall j | 0 <= j < |s.executions| - 1 :: s.executions[j].closed)
      && (forall k: nat :: Count(s.output, Event(k)) <= MAX_EVENTS_PER_ATTEMPT)
      && NoLateEvent(s.output, s.executions)
  {
    InvInitially();
    InvAlways(Initial(), steps);
  }

  /** After the input ended or a termination signal came, the loop only waits
      for its handler: once that returns, the loop answers and stops, and after
      a partial frame it stops without an answer. */
  lemma ShutdownWaitsOnlyForTheHandler(steps: seq<Step>)
    requires IsRun(Initial(), steps)
    ensures var s := After(Initial(), steps);
      s.loop.Selecting? && !s.reading ==>
        && s.running && s.executions != []
        && (s.executions[s.Current()].returned ==>
              && Enabled(s, TakeCompletion)
              && var t := Take(s, TakeCompletion);
                 if s.partial then t.loop == Stopped(true)
                 else Enabled(t, Answer(true)) && Take(t, Answer(true)).loop == Stopped(false))
  {
    InvInitially();
    InvAlways(Initial(), steps);
  }

  // -------------------------------------------------------------- what gets through

  /** An execution starts exactly for a valid execute frame that comes while none
      runs; every other frame is answered at once, unless its answer cannot be
      written. */
  lemma ReceivedIff(steps: seq<Step>, frame: Frame, written: bool)
    requires IsRun(Initial(), steps) && Enabled(After(Initial(), steps), Receive(frame, written))
    ensures var s := After(Initial(), steps);
      var next := Take(s, Receive(frame, written));
      && next.received == s.received + 1
      && (|next.executions| == |s.executions| + 1 <==> frame == Execute(true) && !s.running)
      && (next.output == s.output + [Response(s.received)] <==> written && (frame != Execute(true) || s.running))
  {
    InvInitially();
    InvAlways(Initial(), steps);
  }

  /** An event is written exactly for the running execution, as long as fewer
      than ten thousand of its events were. */
  lemma EmittedIff(steps: seq<Step>, k: nat)
    requires IsRun(Initial(), steps) && Enabled(After(Initial(), steps), Emit(k, true))
    ensures var s := After(Initial(), steps);
      var next := Take(s, Emit(k, true));
      && (next.output == s.output + [Event(k)] <==> next.output != s.output)
      && (next.output != s.output <==>
            s.running && k == |s.executions| - 1 && Count(s.output, Event(k)) < 10000)
  {
    InvInitially();
    InvAlways(Initial(), steps);
  }

  // ------------------------------------------------------------- how a run ends

  /** The step fails to write the response that is due. */
  ghost predicate FailsToAnswer(s: State, step: Step) {
    match step
    case Receive(frame, written) => !written && (frame != Execute(true) || s.running)
    case Answer(written) => !written
    case _ => false
  }

  /** Some response of the run could not be written. */
  ghost predicate AnswerLost(s: State, steps: seq<Step>)
    requires IsRun(s, steps)
    decreases |steps|
  {
    steps != [] && (FailsToAnswer(s, steps[0]) || AnswerLost(Take(s, steps[0]), steps[1..]))
  }

  /** The input ended inside a frame, and no termination signal came later. */
  ghost predicate CutShort(steps: seq<Step>, before: bool)
    decreases |steps|
  {
    if steps == [] then before
    else CutShort(steps[1..], if steps[0].EndOfInput? then steps[0].partial else before && !steps[0].Terminate?)
  }

  ghost predicate EndFits(s: State, lost: bool, cut: bool) {
    && s.partial == cut && (s.reading ==> !s.partial) && (s.loop.Responding? ==> !s.partial)
    && (s.loop.Stopping? ==> lost)
    && (s.loop.Stopped? ==> (s.loop.failed <==> lost || cut))
    && (lost ==> s.loop.Stopping? || s.loop.Stopped?)
  }

  lemma EndStillFits(s: State, step: Step, lost: bool, cut: bool)
    requires EndFits(s, lost, cut) && Enabled(s, step)
    ensures EndFits(Take(s, step), lost || FailsToAnswer(s, step),
                    if step.EndOfInput? then step.partial else cut && !step.Terminate?)
  {
  }

  lemma {:induction false} EndAlwaysFits(s: State, steps: seq<Step>, lost: bool, cut: bool)
    requires EndFits(s, lost, cut) && IsRun(s, steps)
    ensures EndFits(After(s, steps), lost || AnswerLost(s, steps), CutShort(steps, cut))
    decreases |steps|
  {
    hide EndFits, Enabled, Take, FailsToAnswer;
    if steps != [] {
      var step := steps[0];
      EndStillFits(s, step, lost, cut);
      EndAlwaysFits(Take(s, step), steps[1..], lost || FailsToAnswer(s, step),
        if step.EndOfInput? then step.partial else cut && !step.Terminate?);
    }
  }

  /** A loop that stops, stops with an error exactly when some response of the
      run could not be written or the input was cut short. */
  lemma StopsWithErrorIff(steps: seq<Step>)
    requires IsRun(Initial(), steps) && After(Initial(), steps).loop.Stopped?
    ensures After(Initial(), steps).loop.failed <==> AnswerLost(Initial(), steps) || CutShort(steps, false)
  {
    EndAlwaysFits(Initial(), steps, false, false);
  }
}
