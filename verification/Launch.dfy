/** The gated launch handoff: a launcher, the trampoline it starts, and a
    recovery observer share a marker file and its lock, an identity file, a
    ready pipe and a gate pipe. Each of them may stop at any step. A run is any
    interleaving of their steps. */
module Launch {
  import opened Results

  type Id = string

  datatype LaunchKind = Adapter | Criterion

  /** What one launch fixes: its kind, its nonce and the trampoline's pid. */
  datatype Setup = Setup(kind: LaunchKind, nonce: string, pid: nat) {
    ghost predicate Valid() { nonce != "" && pid > 0 }

    /** The trampoline leads its own session. */
    function Published(): Document { Document(nonce, pid, pid) }
  }

  /** The identity file. */
  datatype Document = Document(nonce: string, pid: int, session: int) {
    predicate Decodes() { nonce != "" && pid > 0 && session > 0 && pid == session }
  }

  /** What the journal returned for the recorded identity. */
  datatype Receipt = Receipt(journalAppend: bool, eventType: string, eventId: Id, sequence: nat, timestamp: string,
                             path: string)

  predicate ValidReceipt(kind: LaunchKind, receipt: Receipt) {
    && receipt.journalAppend
    && receipt.eventType == (if kind == Criterion then "criterion.started" else "attempt.started")
    && receipt.eventId != "" && receipt.sequence != 0 && receipt.timestamp != "" && receipt.path != ""
  }

  datatype Recorded = Recorded(identity: Document, receipt: Receipt)

  // --------------------------------------------------------------------- state

  datatype Outcome = Undecided | Failed | FailedAfterRelease | Started

  datatype Launcher =
    | MakingDirectory | Spawning | AwaitingReady | ReadingMarker | ReadingIdentity | Checking(identity: Document)
    | Recording(identity: Document) | Validating | Releasing | ClosingGate | Gone

  datatype Trampoline =
    | Unborn | Creating | Writing(written: nat) | Locking | Publishing | Signalling | AwaitingGate | Released
    | Executing | Dead

  datatype Sample = MarkerFree | MarkerHeld | HasIdentity(identity: Document) | Unreadable

  datatype Observer = Idle | Opened | HasNonce(nonce: string) | MarkerMatched(nonce: string) | Unmatched | Locked
      | Sampled(sample: Sample)

  datatype Lock = Unlocked | ByTrampoline | ByObserver

  datatype State = State(
    launcher: Launcher, outcome: Outcome, gateOpen: bool, gateWritten: bool, recorded: Option<Recorded>,
    trampoline: Trampoline, ready: bool, executed: bool, marker: Option<string>, identity: Option<Document>, lock: Lock,
    observer: Observer, observedGone: bool)

  function Initial(): State {
    State(MakingDirectory, Undecided, true, false, None, Unborn, false, false, None, None, Unlocked, Idle, false)
  }

  // --------------------------------------------------------------------- steps

  /** One atomic effect of one process; the parameters are what the outside
      world answers. */
  datatype Step =
    | MakeDirectory | Spawn | ReceiveReady | MissReady | ReadMarker | ReadIdentity | CheckIdentity
    | RecordIdentity(receipt: Receipt)
    | Validate | Release(clean: bool) | FailRelease | CloseGate(clean: bool) | GiveUp | Cancel | LauncherDies
    | CreateMarker | WriteNonce(n: nat) | TakeLock | PublishIdentity | SendReady | ReadGate | SeeGateClosed | Exec
    | TrampolineDies
    | OpenMarker | ReadNonce | CompareMarker | CompareIdentity | TryLock | Unlock | ObserverDies

  predicate Enabled(c: Setup, s: State, step: Step) {
    match step
    case MakeDirectory => s.launcher.MakingDirectory?
    case Spawn => s.launcher.Spawning?
    case ReceiveReady => s.launcher.AwaitingReady? && s.ready
    case MissReady => s.launcher.AwaitingReady? && !s.ready && s.trampoline.Dead?
    case ReadMarker => s.launcher.ReadingMarker?
    case ReadIdentity => s.launcher.ReadingIdentity?
    case CheckIdentity => s.launcher.Checking? && s.launcher.identity.pid == c.pid
    case RecordIdentity(_) => s.launcher.Recording?
    case Validate => s.launcher.Validating? && s.recorded.Some? && ValidReceipt(c.kind, s.recorded.value.receipt)
    case Release(_) => s.launcher.Releasing?
    case FailRelease => s.launcher.Releasing?
    case CloseGate(_) => s.launcher.ClosingGate?
    case GiveUp => !s.launcher.AwaitingReady? && !s.launcher.ClosingGate? && !s.launcher.Gone?
    case Cancel => s.launcher.AwaitingReady?
    case LauncherDies => !s.launcher.Gone?
    case CreateMarker => s.trampoline.Creating?
    case WriteNonce(n) => s.trampoline.Writing? && s.trampoline.written < n <= |c.nonce|
    case TakeLock => s.trampoline.Locking? && s.lock.Unlocked?
    case PublishIdentity => s.trampoline.Publishing?
    case SendReady => s.trampoline.Signalling?
    case ReadGate => s.trampoline.AwaitingGate? && s.gateWritten
    case SeeGateClosed => s.trampoline.AwaitingGate? && !s.gateWritten && !s.gateOpen
    case Exec => s.trampoline.Released?
    case TrampolineDies => !s.trampoline.Unborn? && !s.trampoline.Dead?
    case OpenMarker => s.observer.Idle? || s.observer.Sampled?
    case ReadNonce => s.observer.Opened?
    case CompareMarker => s.observer.HasNonce?
    case CompareIdentity => s.observer.MarkerMatched?
    case TryLock => s.observer.Unmatched?
    case Unlock => s.observer.Locked?
    case ObserverDies => !s.observer.Idle?
  }

  /** The launcher is done: its end of the gate closes with it. */
  function Leave(s: State, outcome: Outcome): State {
    s.(launcher := Gone, outcome := outcome, gateOpen := false)
  }

  /** The trampoline, or the program it became, is gone and so is its lock. */
  function Fall(s: State): State {
    s.(trampoline := Dead, lock := if s.lock == ByTrampoline then Unlocked else s.lock)
  }

  function Take(c: Setup, s: State, step: Step): State
    requires Enabled(c, s, step)
  {
    if LauncherStep(step) then TakeLauncher(c, s, step)
    else if TrampolineStep(step) then TakeTrampoline(c, s, step)
    else TakeObserver(s, step)
  }

  predicate LauncherStep(step: Step) {
    step.MakeDirectory? || step.Spawn? || step.ReceiveReady? || step.MissReady? || step.ReadMarker? ||
      step.ReadIdentity?
    || step.CheckIdentity? || step.RecordIdentity? || step.Validate? || step.Release? || step.FailRelease?
    || step.CloseGate?
    || step.GiveUp? || step.Cancel? || step.LauncherDies?
  }

  predicate TrampolineStep(step: Step) {
    step.CreateMarker? || step.WriteNonce? || step.TakeLock? || step.PublishIdentity? || step.SendReady? ||
      step.ReadGate?
    || step.SeeGateClosed? || step.Exec? || step.TrampolineDies?
  }

  function TakeLauncher(c: Setup, s: State, step: Step): State
    requires Enabled(c, s, step) && LauncherStep(step)
  {
    match step
    case MakeDirectory => s.(launcher := Spawning)
    case Spawn => s.(launcher := AwaitingReady, trampoline := Creating)
    case ReceiveReady => s.(launcher := ReadingMarker)
    case MissReady => Leave(s, Failed)
    case ReadMarker => if s.marker == Some(c.nonce) then s.(launcher := ReadingIdentity) else Leave(s, Failed)
    case ReadIdentity =>
      if s.identity.Some? && s.identity.value.Decodes() && s.identity.value.nonce == c.nonce
      then s.(launcher := Checking(s.identity.value))
      else Leave(s, Failed)
    case CheckIdentity => s.(launcher := Recording(s.launcher.identity))
    case RecordIdentity(receipt) => s.(launcher := Validating, recorded := Some(Recorded(s.launcher.identity, receipt)))
    case Validate => s.(launcher := Releasing)
    case Release(clean) =>
      var out := s.(gateWritten := true);
      if clean then out.(launcher := ClosingGate) else Leave(out, FailedAfterRelease)
    case FailRelease => Leave(s, Failed)
    case CloseGate(clean) => Leave(s, if clean then Started else FailedAfterRelease)
    case GiveUp => Leave(s, Failed)
    case Cancel => Fall(Leave(s, Failed))
    case LauncherDies => Leave(s, s.outcome)
  }

  function TakeTrampoline(c: Setup, s: State, step: Step): State
    requires Enabled(c, s, step) && TrampolineStep(step)
  {
    match step
    case CreateMarker => if s.marker.None? then s.(trampoline := Writing(0), marker := Some("")) else Fall(s)
    case WriteNonce(n) => s.(trampoline := if n == |c.nonce| then Locking else Writing(n), marker := Some(c.nonce[..n]))
    case TakeLock => s.(trampoline := Publishing, lock := ByTrampoline)
    case PublishIdentity => s.(trampoline := Signalling, identity := Some(c.Published()))
    case SendReady => s.(trampoline := AwaitingGate, ready := true)
    case ReadGate => s.(trampoline := Released)
    case SeeGateClosed => Fall(s)
    case Exec => s.(trampoline := Executing, executed := true)
    case TrampolineDies => Fall(s)
  }

  function TakeObserver(s: State, step: Step): State
    requires !LauncherStep(step) && !TrampolineStep(step)
    requires step.CompareMarker? ==> s.observer.HasNonce?
    requires step.CompareIdentity? ==> s.observer.MarkerMatched?
  {
    match step
    case OpenMarker =>
      s.(observer := if s.marker.None? then Sampled(MarkerFree) else Opened, observedGone := s.launcher.Gone?)
    case ReadNonce =>
      s.(observer := if s.marker.None? || s.marker.value == "" then Sampled(Unreadable) else HasNonce(s.marker.value))
    case CompareMarker =>
      s.(observer := if s.marker == Some(s.observer.nonce) then MarkerMatched(s.observer.nonce) else Unmatched)
    case CompareIdentity =>
      s.(observer :=
        if s.identity.None? then Unmatched
        else if !s.identity.value.Decodes() then Sampled(Unreadable)
        else if s.identity.value.nonce != s.observer.nonce then Unmatched
        else Sampled(HasIdentity(s.identity.value)))
    case TryLock =>
      if s.lock.Unlocked? then s.(observer := Locked, lock := ByObserver) else s.(observer := Sampled(MarkerHeld))
    case Unlock => s.(observer := Sampled(MarkerFree), lock := if s.lock == ByObserver then Unlocked else s.lock)
    case ObserverDies => s.(observer := Idle, lock := if s.lock == ByObserver then Unlocked else s.lock)
  }

  // ---------------------------------------------------------------------- runs

  ghost predicate IsRun(c: Setup, s: State, steps: seq<Step>)
    decreases |steps|
  {
    steps == [] || (Enabled(c, s, steps[0]) && IsRun(c, Take(c, s, steps[0]), steps[1..]))
  }

  ghost function After(c: Setup, s: State, steps: seq<Step>): State
    requires IsRun(c, s, steps)
    decreases |steps|
  {
    if steps == [] then s else After(c, Take(c, s, steps[0]), steps[1..])
  }

  // ----------------------------------------------------------------- invariant

  /** How far the files and the lock follow the trampoline. */
  ghost predicate FilesFollow(c: Setup, s: State) {
    && (s.trampoline.Unborn? || s.trampoline.Creating? ==> s.marker.None?)
    && (s.trampoline.Writing? ==> s.trampoline.written < |c.nonce| && s.marker == Some(c.nonce[..s.trampoline.written]))
    && (s.trampoline.Locking? || Holding(s) ==> s.marker == Some(c.nonce))
    && (s.lock.ByTrampoline? <==> Holding(s))
    && (s.lock.ByObserver? <==> s.observer.Locked?)
    && (s.identity.Some? ==> s.identity.value == c.Published() && s.marker == Some(c.nonce))
    && (s.trampoline.Signalling? || s.trampoline.AwaitingGate? || s.trampoline.Released? || s.trampoline.Executing? ==>
      s.identity.Some?)
    && (s.ready ==> s.identity.Some?)
    && (s.trampoline.AwaitingGate? ==> s.ready)
  }

  ghost predicate Holding(s: State) {
    s.trampoline.Publishing? || s.trampoline.Signalling? || s.trampoline.AwaitingGate? || s.trampoline.Released? ||
      s.trampoline.Executing?
  }

  ghost predicate ReceiptHeld(c: Setup, s: State) {
    && s.identity == Some(c.Published())
    && s.recorded.Some? && s.recorded.value.identity == c.Published() && ValidReceipt(c.kind, s.recorded.value.receipt)
  }

  /** What the launcher knows, and what the gate says about it. */
  ghost predicate GateFollows(c: Setup, s: State) {
    && (s.launcher.MakingDirectory? || s.launcher.Spawning? ==> s.trampoline.Unborn?)
    && (s.trampoline.Unborn? ==> s.launcher.MakingDirectory? || s.launcher.Spawning? || s.launcher.Gone?)
    && (s.launcher.ReadingMarker? || s.launcher.ReadingIdentity? ==> s.identity.Some?)
    && (s.launcher.Checking? || s.launcher.Recording? ==> s.identity == Some(s.launcher.identity))
    && (s.launcher.Validating? ==> s.identity.Some? && s.recorded.Some? && s.recorded.value.identity == c.Published())
    && (s.launcher.Releasing? ==> ReceiptHeld(c, s) && !s.gateWritten)
    && (s.gateWritten ==> ReceiptHeld(c, s) && (s.launcher.ClosingGate? || s.launcher.Gone?))
    && (s.launcher.ClosingGate? ==> s.gateWritten)
    && (s.gateOpen <==> !s.launcher.Gone?)
    && (s.trampoline.Released? || s.executed ==> s.gateWritten)
    && (s.trampoline.Executing? ==> s.executed)
    && (!s.launcher.Gone? ==> s.outcome.Undecided?)
    && (s.outcome.Failed? ==> !s.gateWritten)
    && (s.outcome.Started? || s.outcome.FailedAfterRelease? ==> s.gateWritten)
  }

  /** An observation begun after the launcher was gone, with the gate already
      released, can only find the published identity. */
  ghost predicate ObserverFollows(c: Setup, s: State) {
    && (s.observedGone ==> s.launcher.Gone?)
    && (s.observedGone && s.gateWritten ==>
          match s.observer
          case HasNonce(nonce) => nonce == c.nonce
          case MarkerMatched(nonce) => nonce == c.nonce
          case Unmatched => false
          case Locked => false
          case Sampled(sample) => sample == HasIdentity(c.Published())
          case _ => true)
    && (s.observer.Sampled? && s.observer.sample.HasIdentity? ==>
      s.observer.sample.identity == c.Published() && s.identity.Some?)
    && (!s.observer.Idle? && !s.observer.Sampled? ==> s.marker.Some?)
  }

  ghost predicate Inv(c: Setup, s: State) {
    FilesFollow(c, s) && GateFollows(c, s) && ObserverFollows(c, s)
  }

  lemma LauncherKeeps(c: Setup, s: State, step: Step)
    requires c.Valid() && Inv(c, s) && Enabled(c, s, step) && LauncherStep(step)
    ensures Inv(c, TakeLauncher(c, s, step))
  {
  }

  lemma TrampolineKeeps(c: Setup, s: State, step: Step)
    requires c.Valid() && Inv(c, s) && Enabled(c, s, step) && TrampolineStep(step)
    ensures Inv(c, TakeTrampoline(c, s, step))
  {
    assert c.nonce[..|c.nonce|] == c.nonce;
  }

  lemma ObserverKeeps(c: Setup, s: State, step: Step)
    requires c.Valid() && Inv(c, s) && Enabled(c, s, step) && !LauncherStep(step) && !TrampolineStep(step)
    ensures Inv(c, TakeObserver(s, step))
  {
  }

  lemma {:induction false} InvAlways(c: Setup, s: State, steps: seq<Step>)
    requires c.Valid() && Inv(c, s) && IsRun(c, s, steps)
    ensures Inv(c, After(c, s, steps))
    decreases |steps|
  {
    hide Inv, Enabled, TakeLauncher, TakeTrampoline, TakeObserver;
    if steps != [] {
      StepKeeps(c, s, steps[0]);
      InvAlways(c, Take(c, s, steps[0]), steps[1..]);
    }
  }

  lemma StepKeeps(c: Setup, s: State, step: Step)
    requires c.Valid() && Inv(c, s) && Enabled(c, s, step)
    ensures Inv(c, Take(c, s, step))
  {
    hide Inv, Enabled, TakeLauncher, TakeTrampoline, TakeObserver;
    if LauncherStep(step) {
      LauncherKeeps(c, s, step);
    } else if TrampolineStep(step) {
      TrampolineKeeps(c, s, step);
    } else {
      ObserverKeeps(c, s, step);
    }
  }

  lemma InvInitially(c: Setup)
    ensures Inv(c, Initial())
  {
  }

  // ------------------------------------------------------------------- safety

  ghost predicate Reachable(c: Setup, s: State) {
    exists steps :: IsRun(c, Initial(), steps) && After(c, Initial(), steps) == s
  }

  lemma ReachableHasInv(c: Setup, s: State)
    requires c.Valid() && Reachable(c, s)
    ensures Inv(c, s)
  {
    var steps :| IsRun(c, Initial(), steps) && After(c, Initial(), steps) == s;
    InvInitially(c);
    InvAlways(c, Initial(), steps);
  }

  /** The program runs only after the journal returned a valid receipt for the
      identity that names the trampoline's own process. */
  lemma ExecOnlyAfterReceipt(c: Setup, s: State)
    requires c.Valid() && Reachable(c, s) && s.executed
    ensures s.gateWritten && s.recorded.Some?
    ensures s.recorded.value.identity == Document(c.nonce, c.pid, c.pid)
    ensures var receipt := s.recorded.value.receipt;
      && receipt.journalAppend
      && receipt.eventType == (match c.kind case Adapter => "attempt.started" case Criterion => "criterion.started")
      && receipt.eventId != "" && receipt.sequence > 0 && receipt.timestamp != "" && receipt.path != ""
  {
    ReachableHasInv(c, s);
  }

  /** A launcher that returned or died before the gate byte left has released
      nothing, whatever the others go on to do. */
  lemma NeverReleasedLater(c: Setup, s: State, steps: seq<Step>)
    requires c.Valid() && Reachable(c, s) && IsRun(c, s, steps)
    requires s.launcher.Gone? && !s.gateWritten
    ensures !After(c, s, steps).executed
  {
    ReachableHasInv(c, s);
    InvAlways(c, s, steps);
    GateIsFrozen(c, s, steps);
  }

  lemma {:induction false} GateIsFrozen(c: Setup, s: State, steps: seq<Step>)
    requires IsRun(c, s, steps) && s.launcher.Gone?
    ensures After(c, s, steps).launcher.Gone? && After(c, s, steps).gateWritten == s.gateWritten
    ensures After(c, s, steps).outcome == s.outcome
    decreases |steps|
  {
    if steps != [] {
      GoneIsFinal(c, s, steps[0]);
      hide Enabled, TakeLauncher, TakeTrampoline, TakeObserver;
      GateIsFrozen(c, Take(c, s, steps[0]), steps[1..]);
    }
  }

  lemma GoneIsFinal(c: Setup, s: State, step: Step)
    requires Enabled(c, s, step) && s.launcher.Gone?
    ensures !LauncherStep(step)
    ensures var next := Take(c, s, step);
              next.launcher.Gone? && next.gateWritten == s.gateWritten && next.outcome == s.outcome
  {
  }

  /** A free marker, sampled after the launcher was gone, proves that the gate
      byte never left: no released program exists or ever will. */
  lemma MarkerFreeMeansUnreleased(c: Setup, s: State, steps: seq<Step>)
    requires c.Valid() && Reachable(c, s) && IsRun(c, s, steps)
    requires s.observer == Sampled(MarkerFree) && s.observedGone
    ensures !s.gateWritten && !s.executed && !After(c, s, steps).executed
  {
    ReachableHasInv(c, s);
    NeverReleasedLater(c, s, steps);
  }

  /** Whatever a sample identifies is the process this launch started. */
  lemma SampledIdentityIsOurs(c: Setup, s: State)
    requires c.Valid() && Reachable(c, s) && s.observer.Sampled? && s.observer.sample.HasIdentity?
    ensures s.observer.sample.identity == Document(c.nonce, c.pid, c.pid)
  {
    ReachableHasInv(c, s);
  }

  /** The result tells whether the gate byte left: a plain failure means that
      nothing runs, now or later; success or a failure after the release means
      that the identity was recorded first. */
  lemma OutcomeTellsRelease(c: Setup, s: State, steps: seq<Step>)
    requires c.Valid() && Reachable(c, s) && IsRun(c, s, steps)
    ensures s.outcome.Failed? ==> !After(c, s, steps).executed
    ensures s.outcome.Started? || s.outcome.FailedAfterRelease? ==> ReceiptHeld(c, s) && s.gateWritten
  {
    ReachableHasInv(c, s);
    if s.outcome.Failed? {
      NeverReleasedLater(c, s, steps);
    }
  }

  // ----------------------------------------------------------------- progress

  /** Steps the trampoline can still take before it runs the program or ends. */
  ghost function StepsLeft(c: Setup, s: State): nat {
    match s.trampoline
    case Unborn => 0
    case Creating => |c.nonce| + 8
    case Writing(written) => if written <= |c.nonce| then |c.nonce| - written + 7 else 7
    case Locking => 7
    case Publishing => 6
    case Signalling => 5
    case AwaitingGate => 4
    case Released => 3
    case Executing => 1
    case Dead => 0
  }

  function TrampolineSteps(steps: seq<Step>): nat {
    if steps == [] then 0 else (if TrampolineStep(steps[0]) then 1 else 0) + TrampolineSteps(steps[1..])
  }

  lemma TrampolineProgresses(c: Setup, s: State, step: Step)
    requires Enabled(c, s, step) && s.launcher.Gone?
    ensures StepsLeft(c, Take(c, s, step)) + (if TrampolineStep(step) then 1 else 0) <= StepsLeft(c, s)
  {
  }

  /** After the launcher is gone the trampoline takes boundedly many steps. */
  lemma {:induction false} TrampolineEnds(c: Setup, s: State, steps: seq<Step>)
    requires IsRun(c, s, steps) && s.launcher.Gone?
    ensures TrampolineSteps(steps) + StepsLeft(c, After(c, s, steps)) <= StepsLeft(c, s)
    decreases |steps|
  {
    if steps != [] {
      TrampolineProgresses(c, s, steps[0]);
      GoneIsFinal(c, s, steps[0]);
      hide Enabled, TakeLauncher, TakeTrampoline, TakeObserver, StepsLeft, TrampolineStep;
      TrampolineEnds(c, Take(c, s, steps[0]), steps[1..]);
    }
  }

  /** And it is never stuck: until it ends or runs the program, it can take a
      step of its own, or the observer can hand the lock back. */
  lemma NeverStuck(c: Setup, s: State)
    requires c.Valid() && Reachable(c, s) && s.launcher.Gone?
    requires !s.trampoline.Unborn? && !s.trampoline.Dead? && !s.trampoline.Executing?
    ensures exists step :: Enabled(c, s, step) && ((TrampolineStep(step) && !step.TrampolineDies?) || step.Unlock?)
  {
    ReachableHasInv(c, s);
    var step :=
      match s.trampoline
      case Creating => CreateMarker
      case Writing(_) => WriteNonce(|c.nonce|)
      case Locking => if s.lock.Unlocked? then TakeLock else Unlock
      case Publishing => PublishIdentity
      case Signalling => SendReady
      case AwaitingGate => if s.gateWritten then ReadGate else SeeGateClosed
      case _ => Exec;
    assert Enabled(c, s, step);
  }

  // ------------------------------------------------------ undisturbed observer

  /** What an observation finds when nothing else moves. */
  ghost function ExactSample(c: Setup, s: State): Sample {
    if s.marker.None? then MarkerFree
    else if s.marker.value == "" then Unreadable
    else if s.identity.Some? then HasIdentity(c.Published())
    else if s.lock.ByTrampoline? then MarkerHeld
    else MarkerFree
  }

  lemma {:induction false} RunThen(c: Setup, s: State, steps: seq<Step>, step: Step)
    requires IsRun(c, s, steps) && Enabled(c, After(c, s, steps), step)
    ensures IsRun(c, s, steps + [step]) && After(c, s, steps + [step]) == Take(c, After(c, s, steps), step)
    decreases |steps|
  {
    hide Enabled, Take;
    var longer := steps + [step];
    if steps == [] {
      assert longer[0] == step && longer[1..] == [];
    } else {
      RunThen(c, Take(c, s, steps[0]), steps[1..], step);
      assert longer[0] == steps[0] && longer[1..] == steps[1..] + [step];
    }
  }

  lemma ReachableNext(c: Setup, s: State, step: Step)
    requires Reachable(c, s) && Enabled(c, s, step)
    ensures Reachable(c, Take(c, s, step))
  {
    hide Enabled, Take;
    var steps :| IsRun(c, Initial(), steps) && After(c, Initial(), steps) == s;
    RunThen(c, Initial(), steps, step);
  }

  /** The handoff can succeed: some run starts the program. */
  lemma HandoffCanSucceed(c: Setup, receipt: Receipt)
    requires c.Valid() && ValidReceipt(c.kind, receipt)
    ensures exists s :: Reachable(c, s) && s.executed && s.outcome.Started?
  {
    ReceiptCanBeHeld(c, receipt);
    hide Reachable;
    var s := AtGate(c, Releasing, Some(Recorded(c.Published(), receipt)));
    s := Next(c, s, Release(true));
    s := Next(c, s, CloseGate(true));
    s := Next(c, s, ReadGate);
    s := Next(c, s, Exec);
  }

  /** The trampoline waits at the gate. */
  ghost function AtGate(c: Setup, launcher: Launcher, recorded: Option<Recorded>): State {
    State(launcher, Undecided, true, false, recorded, AwaitingGate, true, false, Some(c.nonce), Some(c.Published()),
      ByTrampoline, Idle, false)
  }

  /** The marker is written and the launcher waits. */
  ghost function Written(c: Setup): State {
    AtGate(c, AwaitingReady, None).(trampoline := Locking, ready := false, identity := None, lock := Unlocked)
  }

  lemma MarkerCanBeWritten(c: Setup)
    requires c.Valid()
    ensures Reachable(c, Written(c))
  {
    var s := Initial();
    assert IsRun(c, s, []) && After(c, s, []) == s;
    hide Reachable;
    assert c.nonce[..|c.nonce|] == c.nonce;
    s := Next(c, s, MakeDirectory);
    s := Next(c, s, Spawn);
    s := Next(c, s, CreateMarker);
    s := Next(c, s, WriteNonce(|c.nonce|));
  }

  lemma GateCanBeReached(c: Setup)
    requires c.Valid()
    ensures Reachable(c, AtGate(c, AwaitingReady, None))
  {
    MarkerCanBeWritten(c);
    hide Reachable;
    var s := Written(c);
    s := Next(c, s, TakeLock);
    s := Next(c, s, PublishIdentity);
    s := Next(c, s, SendReady);
  }

  lemma ReceiptCanBeHeld(c: Setup, receipt: Receipt)
    requires c.Valid() && ValidReceipt(c.kind, receipt)
    ensures Reachable(c, AtGate(c, Releasing, Some(Recorded(c.Published(), receipt))))
  {
    GateCanBeReached(c);
    hide Reachable;
    var s := AtGate(c, AwaitingReady, None);
    s := Next(c, s, ReceiveReady);
    s := Next(c, s, ReadMarker);
    s := Next(c, s, ReadIdentity);
    s := Next(c, s, CheckIdentity);
    s := Next(c, s, RecordIdentity(receipt));
    s := Next(c, s, Validate);
  }

  /** Takes one step of a reachable state. */
  ghost function Next(c: Setup, s: State, step: Step): (next: State)
    requires Reachable(c, s) && Enabled(c, s, step)
    ensures Reachable(c, next) && next == Take(c, s, step)
  {
    ReachableNext(c, s, step);
    Take(c, s, step)
  }

  /** One observation: open the marker, read the nonce, compare the marker and
      the identity with it, and only then try the lock. */
  method ObserveHandoff(c: Setup, s: State) returns (sample: Sample, ghost steps: seq<Step>)
    requires c.Valid() && Inv(c, s) && s.observer.Idle?
    ensures sample == ExactSample(c, s)
    ensures IsRun(c, s, steps) &&
              After(c, s, steps) == s.(observer := Sampled(sample), observedGone := s.launcher.Gone?)
  {
    var now := s;
    steps := [];
    while !now.observer.Sampled?
      invariant IsRun(c, s, steps) && After(c, s, steps) == now
      invariant now == s || OnTheWay(c, s, now)
      decreases Distance(now.observer)
    {
      hide IsRun, After, Enabled, TakeObserver, OnTheWay, Take, Distance;
      var step := NextRead(now.observer);
      ObservesOn(c, s, now);
      RunThen(c, s, steps, step);
      steps := steps + [step];
      now := Take(c, now, step);
    }
    assert OnTheWay(c, s, now);
    sample := now.observer.sample;
  }

  function NextRead(o: Observer): Step {
    match o
    case Idle => OpenMarker
    case Opened => ReadNonce
    case HasNonce(_) => CompareMarker
    case MarkerMatched(_) => CompareIdentity
    case Unmatched => TryLock
    case _ => Unlock
  }

  lemma ObservesOn(c: Setup, s: State, now: State)
    requires c.Valid() && Inv(c, s) && s.observer.Idle? && !now.observer.Sampled?
    requires now == s || OnTheWay(c, s, now)
    ensures Enabled(c, now, NextRead(now.observer))
    ensures var next := Take(c, now, NextRead(now.observer));
              OnTheWay(c, s, next) && Distance(next.observer) < Distance(now.observer)
  {
  }

  ghost function Distance(o: Observer): nat {
    match o
    case Idle => 6
    case Opened => 5
    case HasNonce(_) => 4
    case MarkerMatched(_) => 3
    case Unmatched => 2
    case Locked => 1
    case Sampled(_) => 0
  }

  ghost predicate OnTheWay(c: Setup, s: State, now: State) {
    && now == s.(observer := now.observer, observedGone := s.launcher.Gone?, lock := now.lock)
    && now.lock == (if now.observer.Locked? then ByObserver else s.lock)
    && !now.observer.Idle?
    && (now.observer.Sampled? ==> now.observer.sample == ExactSample(c, s))
    && (!now.observer.Sampled? ==> s.marker.Some?)
    && (now.observer.HasNonce? || now.observer.MarkerMatched? ==> now.observer.nonce == s.marker.value != "")
    && (now.observer.Unmatched? || now.observer.Locked? ==> s.marker.value != "" && s.identity.None?)
    && (now.observer.Locked? ==> s.lock.Unlocked?)
  }
}
