/** The step engine of internal/pipeline/pipeline.go as functions on values: what
    one run does to the emitter, the cleanup stack and the install lock. `Pipeline`
    holds the engine itself, whose methods are proved to do exactly this. */
module Engine {
  import opened Text
  import opened Progress
  import opened Faults

  /** An undo registered with Defer, and the error it will return. */
  datatype Undo = Undo(name: string, outcome: Option<Fault>)

  /** Everything a step can do through Env, for any emitter outcome. The host
      work between these calls is what decides the tree. */
  datatype Behaviour =
    | Return(fault: Option<Fault>)
    | Emits(event: Event, accepted: Behaviour, refused: Behaviour)
    | Defers(undo: Undo, rest: Behaviour)
    | Notes(item: SummaryItem, rest: Behaviour)

  /** A step; `run` is None for a step with no implementation yet. */
  datatype Step = Step(name: string, weight: int, preflight: bool, run: Option<Behaviour>)

  /** The configured emitter: the error its n-th call returns, if any, and the
      deprecation messages sent after Start. Unset is a nil Env.Emitter. */
  datatype Emitter =
    | Unset
    | Wired(verdict: nat -> Option<Fault>, deprecations: seq<string>)

  /** What taking the install lock comes to. */
  datatype LockAttempt = Granted | Busy(path: string) | Unusable(fault: Fault)

  /** What a run did besides emitting, in order. */
  datatype Act = TookLock | Ran(index: nat) | Undid(undo: Undo) | DroppedLock

  datatype State = State(
    accepted: seq<Event>,
    offered: nat,
    emitFault: Option<Fault>,
    cleanup: seq<Undo>,
    summary: seq<SummaryItem>,
    currentStep: int,
    trace: seq<Act>)

  const FRESH := State([], 0, None, [], [], 0, [])

  // ---------- emitting ----------

  function Infos(steps: seq<Step>): (infos: seq<StepInfo>)
    ensures |infos| == |steps|
    ensures forall i | 0 <= i < |steps| :: infos[i] == StepInfo(steps[i].name, steps[i].weight)
  {
    seq(|steps|, i requires 0 <= i < |steps| => StepInfo(steps[i].name, steps[i].weight))
  }

  function Deprecations(messages: seq<string>): (warnings: seq<Event>)
    ensures |warnings| == |messages|
    ensures forall i | 0 <= i < |messages| :: warnings[i] == Warning(CODE_RECIPE_V1_DEPRECATED, messages[i])
  {
    seq(|messages|, i requires 0 <= i < |messages| => Warning(CODE_RECIPE_V1_DEPRECATED, messages[i]))
  }

  /** What deprecationEmitter sends for one event. */
  function Burst(em: Emitter, e: Event): seq<Event>
    requires em.Wired?
  {
    [e] + if e.Start? then Deprecations(em.deprecations) else []
  }

  /** Offers events one by one, stopping at the first the emitter refuses. */
  function Offer(em: Emitter, st: State, events: seq<Event>): (State, Option<Fault>)
    requires em.Wired?
    decreases |events|
  {
    if events == [] then (st, None)
    else
      match em.verdict(st.offered)
      case Some(f) => (st.(offered := st.offered + 1), Some(f))
      case None =>
        Offer(em, st.(offered := st.offered + 1, accepted := st.accepted + [events[0]]), events[1..])
  }

  /** Env.Emit: the first emitter failure sticks and the emitter is not used again. */
  function Emit(em: Emitter, st: State, e: Event): State {
    if st.emitFault.Some? then st
    else if em.Unset? then st.(emitFault := Some(Plain("progress: emitter is not configured")))
    else
      match Offer(em, st, Burst(em, e))
      case (after, None) => after
      case (after, Some(f)) => after.(emitFault := Some(Wrapped("emit progress " + Kind(e), f)))
  }

  // ---------- steps ----------

  function Exec(em: Emitter, st: State, b: Behaviour): (State, Option<Fault>)
    decreases b
  {
    match b
    case Return(fault) => (st, fault)
    case Emits(event, accepted, refused) =>
      var after := Emit(em, st, event);
      Exec(em, after, if after.emitFault.None? then accepted else refused)
    case Defers(undo, rest) => Exec(em, st.(cleanup := st.cleanup + [undo]), rest)
    case Notes(item, rest) => Exec(em, st.(summary := st.summary + [item]), rest)
  }

  /** The step prefix the engine puts on a step's error. */
  function InStep(name: string, f: Option<Fault>): Option<Fault> {
    match f
    case None => None
    case Some(x) => Some(Wrapped("step " + name, x))
  }

  function NotImplemented(name: string): Fault {
    Plain("step " + name + ": not implemented yet (see docs/plans/roadmap.md)")
  }

  /** One turn of runSteps' loop; a fault ends the loop. */
  function Turn(em: Emitter, st: State, steps: seq<Step>, i: nat, dry: bool): (State, Option<Fault>)
    requires i < |steps|
  {
    var s := steps[i];
    var begun := Emit(em, st.(currentStep := i), StepStart(i, s.name));
    if begun.emitFault.Some? then (begun, begun.emitFault)
    else if dry && !s.preflight then
      var told := Emit(em, begun, Info("dry-run: skipping " + s.name));
      (told, told.emitFault)
    else if s.run.None? then
      (begun, Some(NotImplemented(s.name)))
    else
      var (ran, fault) := Exec(em, begun.(trace := begun.trace + [Ran(i)]), s.run.value);
      if ran.emitFault.Some? then (ran, Join(InStep(s.name, fault), ran.emitFault))
      else (ran, InStep(s.name, fault))
  }

  /** runSteps from step i: the state, the failed step's name and its error. */
  function RunSteps(em: Emitter, st: State, steps: seq<Step>, i: nat, dry: bool): (State, string, Option<Fault>)
    requires i <= |steps|
    decreases |steps| - i
  {
    if i == |steps| then (st, "", None)
    else
      var (after, fault) := Turn(em, st, steps, i, dry);
      if fault.Some? then (after, steps[i].name, fault)
      else RunSteps(em, after, steps, i + 1, dry)
  }

  // ---------- the run ----------

  function AlreadyRunning(path: string): string {
    "another firn install is already running on this machine (it holds " + path +
    "); no disk was touched: wait for it to finish, then try again"
  }

  function LockFault(lock: LockAttempt): Option<Fault> {
    match lock
    case Granted => None
    case Busy(path) => Some(Coded(CODE_INSTALL_IN_PROGRESS, Plain(AlreadyRunning(path))))
    case Unusable(fault) => Some(fault)
  }

  /** Start, the lock and the steps. */
  function Work(em: Emitter, steps: seq<Step>, dry: bool, lock: LockAttempt): (State, string, Option<Fault>) {
    var started := Emit(em, FRESH, Start(Infos(steps)));
    if started.emitFault.Some? then (started, "", started.emitFault)
    else if dry then RunSteps(em, started, steps, 0, dry)
    else if !lock.Granted? then (started, "", LockFault(lock))
    else RunSteps(em, started.(trace := started.trace + [TookLock]), steps, 0, dry)
  }

  function Undids(undos: seq<Undo>): seq<Act> {
    if undos == [] then [] else Undids(undos[1..]) + [Undid(undos[0])]
  }

  /** The errors of the undos run last registered first. */
  function UndoFaults(undos: seq<Undo>): seq<Fault> {
    if undos == [] then []
    else UndoFaults(undos[1..]) + FaultOf(undos[0])
  }

  function FaultOf(undo: Undo): seq<Fault> {
    match undo.outcome
    case None => []
    case Some(f) => [Wrapped("cleanup " + undo.name, f)]
  }

  /** unwind: every undo, last registered first; failures do not stop it. */
  function Unwind(st: State): (State, seq<Fault>) {
    (st.(trace := st.trace + Undids(st.cleanup), cleanup := []), UndoFaults(st.cleanup))
  }

  /** Warns about each cleanup failure and joins it to the run's error. */
  function Report(em: Emitter, st: State, fault: Option<Fault>, cleanupFaults: seq<Fault>): (State, Option<Fault>)
    decreases |cleanupFaults|
  {
    if cleanupFaults == [] then (st, fault)
    else
      var f := cleanupFaults[0];
      var told := if st.emitFault.None? then Emit(em, st, Warning(CODE_CLEANUP_FAILED, Message(f))) else st;
      Report(em, told, Join(fault, Some(f)), cleanupFaults[1..])
  }

  function DropLock(st: State): State {
    if TookLock in st.trace then st.(trace := st.trace + [DroppedLock]) else st
  }

  /** The emitter's own failure joins the run's error unless it is in it already. */
  function WithEmitFault(st: State, fault: Option<Fault>): Option<Fault> {
    if st.emitFault.Some? && !Holds(fault, st.emitFault.value) then Join(fault, st.emitFault) else fault
  }

  function Summarise(em: Emitter, st: State, fault: Option<Fault>): (State, Option<Fault>) {
    if st.summary != [] && st.emitFault.None? then
      var told := Emit(em, st, Summary(st.summary));
      (told, if told.emitFault.Some? then Join(fault, told.emitFault) else fault)
    else (st, fault)
  }

  function Conclude(em: Emitter, st: State, failedStep: string, fault: Option<Fault>): (State, Option<Fault>) {
    match fault
    case None =>
      var told := Emit(em, st, Done);
      (told, told.emitFault)
    case Some(f) =>
      if st.emitFault.Some? then (st, fault)
      else
        var told := Emit(em, st, Error(failedStep, ErrorCode(f), Message(f)));
        (told, if told.emitFault.Some? then Join(fault, told.emitFault) else fault)
  }

  /** What Run does once the steps are over: unwind, warn, drop the lock, summarise
      and send the terminal event. */
  function Finish(em: Emitter, worked: State, failedStep: string, stepFault: Option<Fault>): (State, Option<Fault>) {
    var (unwound, cleanupFaults) := Unwind(worked);
    var (reported, joined) := Report(em, unwound, stepFault, cleanupFaults);
    var dropped := DropLock(reported);
    var (summarised, known) := Summarise(em, dropped, WithEmitFault(dropped, joined));
    Conclude(em, summarised, failedStep, known)
  }

  /** Pipeline.Run on a new Env. */
  function Run(em: Emitter, steps: seq<Step>, dry: bool, lock: LockAttempt): (State, Option<Fault>) {
    var (worked, failedStep, stepFault) := Work(em, steps, dry, lock);
    Finish(em, worked, failedStep, stepFault)
  }
}
