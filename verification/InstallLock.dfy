/** Any number of runs on one install lock, interleaved at the points where another
    process can act: starting, taking the lock, each step, each undo, the release
    (internal/pipeline/pipeline.go, acquireInstallLock and Run). */
module InstallLock {
  import opened Text
  import opened Progress
  import opened Faults
  import opened Engine
  import opened EngineProofs
  import opened EngineTheorems

  datatype Phase =
    | Idle
    | Locking                                    // Start accepted, lock not yet tried
    | Working(next: nat)                         // about to begin step `next`
    | Cleaning(step: string, fault: Option<Fault>, undone: seq<Fault>)
    | Ended(result: Option<Fault>)

  /** One process: its emitter, steps and mode, how its lock attempt went, and where it is. */
  datatype Process = Process(em: Emitter, steps: seq<Step>, dry: bool, lock: LockAttempt, phase: Phase, st: State)

  /** The holder is the process whose open descriptor has the flock. */
  datatype System = System(holder: Option<nat>, processes: seq<Process>)

  datatype Action =
    | Begin(p: nat)
    | TryLock(p: nat, path: string)
    | LockBroken(p: nat, reason: Fault)
    | StepTurn(p: nat)
    | UndoOne(p: nat)
    | Release(p: nat)

  // ---------- what one process does in one action ----------

  function Begun(q: Process): Process {
    var st := Emit(q.em, FRESH, Start(Infos(q.steps)));
    if st.emitFault.Some? then q.(phase := Cleaning("", st.emitFault, []), st := st)
    else if q.dry then q.(phase := Working(0), st := st)
    else q.(phase := Locking, st := st)
  }

  /** The flock came to `lock`. */
  function Attempted(q: Process, lock: LockAttempt): Process {
    if lock.Granted? then q.(lock := lock, phase := Working(0), st := q.st.(trace := q.st.trace + [TookLock]))
    else q.(lock := lock, phase := Cleaning("", LockFault(lock), []))
  }

  function Turned(q: Process): Process
    requires q.phase.Working?
  {
    var i := q.phase.next;
    if i >= |q.steps| then q.(phase := Cleaning("", None, []))
    else
      var (st, fault) := Turn(q.em, q.st, q.steps, i, q.dry);
      q.(st := st, phase := if fault.Some? then Cleaning(q.steps[i].name, fault, []) else Working(i + 1))
  }

  /** The last registered undo runs and leaves the stack. */
  function Undone(q: Process): Process
    requires q.phase.Cleaning? && q.st.cleanup != []
  {
    var n := |q.st.cleanup| - 1;
    var undo := q.st.cleanup[n];
    q.(st := q.st.(cleanup := q.st.cleanup[..n], trace := q.st.trace + [Undid(undo)]),
       phase := q.phase.(undone := q.phase.undone + FaultOf(undo)))
  }

  /** Warnings, the lock's release, the summary and the terminal event. */
  function Released(q: Process): Process
    requires q.phase.Cleaning?
  {
    var (reported, joined) := Report(q.em, q.st, q.phase.fault, q.phase.undone);
    var dropped := DropLock(reported);
    var (summarised, known) := Summarise(q.em, dropped, WithEmitFault(dropped, joined));
    var (st, result) := Conclude(q.em, summarised, q.phase.step, known);
    q.(st := st, phase := Ended(result))
  }

  // ---------- the system ----------

  function Update(s: System, p: nat, q: Process): System
    requires p < |s.processes|
  {
    s.(processes := s.processes[p := q])
  }

  /** One action; a disabled action changes nothing. */
  function Apply(s: System, a: Action): System {
    if a.p >= |s.processes| then s
    else
      var q := s.processes[a.p];
      match a
      case Begin(p) => if q.phase.Idle? then Update(s, p, Begun(q)) else s
      case TryLock(p, path) =>
        if !q.phase.Locking? then s
        else if s.holder.None? then Update(s, p, Attempted(q, Granted)).(holder := Some(p))
        else Update(s, p, Attempted(q, Busy(path)))
      case LockBroken(p, reason) => if q.phase.Locking? then Update(s, p, Attempted(q, Unusable(reason))) else s
      case StepTurn(p) => if q.phase.Working? then Update(s, p, Turned(q)) else s
      case UndoOne(p) => if q.phase.Cleaning? && q.st.cleanup != [] then Update(s, p, Undone(q)) else s
      case Release(p) =>
        if q.phase.Cleaning? && q.st.cleanup == [] then
          Update(s, p, Released(q)).(holder := if s.holder == Some(p) then None else s.holder)
        else s
  }

  function ApplyAll(s: System, actions: seq<Action>): System
    decreases |actions|
  {
    if actions == [] then s else ApplyAll(Apply(s, actions[0]), actions[1..])
  }

  /** New processes on a free lock. */
  ghost predicate Initial(s: System) {
    s.holder.None? && forall q <- s.processes :: q.phase.Idle?
  }

  // ---------- the invariant ----------

  /** A non-dry process between taking the lock and releasing it. */
  predicate Inside(q: Process) {
    && !q.dry && q.lock.Granted?
    && (q.phase.Working? || (q.phase.Cleaning? && TookLock in q.st.trace))
  }

  /** Where the process is, it is on the way of one undisturbed Engine.Run. */
  ghost predicate OnItsWay(q: Process) {
    match q.phase
    case Idle => true
    case Locking => !q.dry && q.st == Emit(q.em, FRESH, Start(Infos(q.steps))) && q.st.emitFault.None?
    case Working(i) =>
      && i <= |q.steps| && (q.dry || q.lock.Granted?) && (TookLock in q.st.trace <==> !q.dry)
      && RunSteps(q.em, q.st, q.steps, i, q.dry) == Work(q.em, q.steps, q.dry, q.lock)
    case Cleaning(step, fault, undone) =>
      var (worked, name, stepFault) := Work(q.em, q.steps, q.dry, q.lock);
      && name == step && stepFault == fault && q.st.cleanup <= worked.cleanup
      && (var ran := worked.cleanup[|q.st.cleanup|..];
          && q.st == worked.(cleanup := q.st.cleanup, trace := worked.trace + Undids(ran))
          && undone == UndoFaults(ran))
    case Ended(result) => (q.st, result) == Run(q.em, q.steps, q.dry, q.lock)
  }

  ghost predicate Inv(s: System) {
    && (s.holder.Some? ==> s.holder.value < |s.processes|)
    && (forall q <- s.processes :: OnItsWay(q))
    && (forall p: nat | p < |s.processes| :: Inside(s.processes[p]) <==> s.holder == Some(p))
  }

  // ---------- proofs ----------

  lemma EmitKeepsTrace(em: Emitter, st: State, e: Event)
    ensures Emit(em, st, e).trace == st.trace
  {
    if st.emitFault.None? && em.Wired? {
      OfferKeepsTrace(em, st, Burst(em, e));
    }
  }

  lemma {:induction false} OfferKeepsTrace(em: Emitter, st: State, events: seq<Event>)
    requires em.Wired?
    ensures Offer(em, st, events).0.trace == st.trace
    decreases |events|
  {
    if events != [] && em.verdict(st.offered).None? {
      OfferKeepsTrace(em, st.(offered := st.offered + 1, accepted := st.accepted + [events[0]]), events[1..]);
    }
  }

  lemma {:induction false} ExecKeepsTrace(em: Emitter, st: State, b: Behaviour)
    ensures Exec(em, st, b).0.trace == st.trace
    decreases b
  {
    match b
    case Return(_) =>
    case Emits(event, accepted, refused) =>
      EmitKeepsTrace(em, st, event);
      var told := Emit(em, st, event);
      ExecKeepsTrace(em, told, if told.emitFault.None? then accepted else refused);
    case Defers(undo, rest) => ExecKeepsTrace(em, st.(cleanup := st.cleanup + [undo]), rest);
    case Notes(item, rest) => ExecKeepsTrace(em, st.(summary := st.summary + [item]), rest);
  }

  /** A step neither takes nor drops the lock. */
  lemma TurnKeepsLock(em: Emitter, st: State, steps: seq<Step>, i: nat, dry: bool)
    requires i < |steps|
    ensures TookLock in Turn(em, st, steps, i, dry).0.trace <==> TookLock in st.trace
  {
    hide Emit, Exec;
    var s := steps[i];
    EmitKeepsTrace(em, st.(currentStep := i), StepStart(i, s.name));
    var begun := Emit(em, st.(currentStep := i), StepStart(i, s.name));
    EmitKeepsTrace(em, begun, Info("dry-run: skipping " + s.name));
    if s.run.Some? {
      ExecKeepsTrace(em, begun.(trace := begun.trace + [Ran(i)]), s.run.value);
    }
  }

  lemma BegunOnItsWay(q: Process)
    requires q.phase.Idle?
    ensures OnItsWay(Begun(q)) && !Inside(Begun(q))
  {
    hide Emit, RunSteps;
    EmitKeepsTrace(q.em, FRESH, Start(Infos(q.steps)));
  }

  lemma AttemptedOnItsWay(q: Process, lock: LockAttempt)
    requires q.phase.Locking? && OnItsWay(q)
    ensures OnItsWay(Attempted(q, lock)) && (Inside(Attempted(q, lock)) <==> lock.Granted?)
  {
    hide Emit, RunSteps;
    EmitKeepsTrace(q.em, FRESH, Start(Infos(q.steps)));
  }

  lemma TurnedOnItsWay(q: Process)
    requires q.phase.Working? && OnItsWay(q)
    ensures OnItsWay(Turned(q)) && (Inside(Turned(q)) <==> Inside(q))
  {
    hide Work, Turn;
    if q.phase.next < |q.steps| {
      TurnKeepsLock(q.em, q.st, q.steps, q.phase.next, q.dry);
    }
  }

  lemma UndoneOnItsWay(q: Process)
    requires q.phase.Cleaning? && q.st.cleanup != [] && OnItsWay(q)
    ensures OnItsWay(Undone(q)) && (Inside(Undone(q)) <==> Inside(q))
  {
    hide Work;
    var worked := Work(q.em, q.steps, q.dry, q.lock).0;
    var n := |q.st.cleanup| - 1;
    var ran, now := worked.cleanup[n + 1..], worked.cleanup[n..];
    assert now[0] == q.st.cleanup[n] && now[1..] == ran;
  }

  lemma ReleasedOnItsWay(q: Process)
    requires q.phase.Cleaning? && q.st.cleanup == [] && OnItsWay(q)
    ensures OnItsWay(Released(q))
  {
    hide Work, Report, Summarise, Conclude;
    var worked := Work(q.em, q.steps, q.dry, q.lock).0;
    assert worked.cleanup[0..] == worked.cleanup;
  }

  lemma ApplyKeepsInv(s: System, a: Action)
    requires Inv(s)
    ensures Inv(Apply(s, a))
  {
    hide OnItsWay, Begun, Attempted, Turned, Undone, Released;
    if a.p < |s.processes| {
      var q := s.processes[a.p];
      match a
      case Begin(_) =>
        if q.phase.Idle? { BegunOnItsWay(q); }
      case TryLock(_, path) =>
        if q.phase.Locking? {
          AttemptedOnItsWay(q, Granted);
          AttemptedOnItsWay(q, Busy(path));
        }
      case LockBroken(_, reason) =>
        if q.phase.Locking? { AttemptedOnItsWay(q, Unusable(reason)); }
      case StepTurn(_) =>
        if q.phase.Working? { TurnedOnItsWay(q); }
      case UndoOne(_) =>
        if q.phase.Cleaning? && q.st.cleanup != [] { UndoneOnItsWay(q); }
      case Release(_) =>
        if q.phase.Cleaning? && q.st.cleanup == [] {
          ReleasedOnItsWay(q);
          ReleasedIsOutside(q);
        }
    }
  }

  lemma ReleasedIsOutside(q: Process)
    requires q.phase.Cleaning?
    ensures !Inside(Released(q))
  {}

  lemma {:induction false} RunsKeepInv(s: System, actions: seq<Action>)
    requires Inv(s)
    ensures Inv(ApplyAll(s, actions))
    decreases |actions|
  {
    if actions != [] {
      ApplyKeepsInv(s, actions[0]);
      RunsKeepInv(Apply(s, actions[0]), actions[1..]);
    }
  }

  lemma InitialInv(s: System)
    requires Initial(s)
    ensures Inv(s)
  {}

  /** In every interleaving of any number of runs, at most one non-dry run is in its
      steps or its cleanup, and it is the one that holds the lock. */
  lemma AtMostOneInside(s: System, actions: seq<Action>, p: nat, q: nat)
    requires Initial(s)
    requires var now := ApplyAll(s, actions).processes;
      p < |now| && q < |now| && Inside(now[p]) && Inside(now[q])
    ensures p == q && ApplyAll(s, actions).holder == Some(p)
  {
    RunsKeepInv(s, actions);
  }

  /** Every run that has ended, whatever ran beside it, did exactly what Engine.Run
      says for the way its own lock attempt went. */
  lemma EndedRunsAreRuns(s: System, actions: seq<Action>, p: nat)
    requires Initial(s)
    requires var now := ApplyAll(s, actions).processes; p < |now| && now[p].phase.Ended?
    ensures var q := ApplyAll(s, actions).processes[p];
      (q.st, q.phase.result) == Run(q.em, q.steps, q.dry, q.lock)
  {
    hide Run, OnItsWay;
    InitialInv(s);
    RunsKeepInv(s, actions);
    EndedIsRun(ApplyAll(s, actions).processes[p]);
  }

  lemma EndedIsRun(q: Process)
    requires OnItsWay(q) && q.phase.Ended?
    ensures (q.st, q.phase.result) == Run(q.em, q.steps, q.dry, q.lock)
  {}

  /** The lock is never left behind: while nobody is inside, it is free. */
  lemma NobodyInsideIsFree(s: System, actions: seq<Action>)
    requires Initial(s)
    requires forall q | q in ApplyAll(s, actions).processes :: !Inside(q)
    ensures ApplyAll(s, actions).holder.None?
  {
    RunsKeepInv(s, actions);
  }

  /** A run that tries the lock gets it exactly when no run is inside, and is then inside itself;
      otherwise it finds it held, and the holder keeps it. */
  lemma FreeLockIsTaken(s: System, actions: seq<Action>, p: nat, path: string)
    requires Initial(s)
    requires var now := ApplyAll(s, actions).processes; p < |now| && now[p].phase.Locking?
    ensures var now, next := ApplyAll(s, actions), Apply(ApplyAll(s, actions), TryLock(p, path));
      && |next.processes| == |now.processes|
      && (forall k | 0 <= k < |now.processes| && k != p :: next.processes[k] == now.processes[k])
      && if forall q <- now.processes :: !Inside(q) then
           Inside(next.processes[p]) && next.processes[p].phase == Working(0) && next.holder == Some(p)
         else
           && !Inside(next.processes[p]) && next.processes[p].lock == Busy(path) && next.processes[p].phase.Cleaning?
           && next.holder == now.holder
  {
    hide OnItsWay, Begun, Turned, Undone, Released;
    InitialInv(s);
    RunsKeepInv(s, actions);
    var now := ApplyAll(s, actions);
    AttemptedInside(now.processes[p], path);
    if now.holder.Some? {
      assert now.processes[now.holder.value] in now.processes;
    }
  }

  lemma AttemptedInside(q: Process, path: string)
    requires OnItsWay(q) && q.phase.Locking?
    ensures Inside(Attempted(q, Granted)) && !Inside(Attempted(q, Busy(path)))
  {
    AttemptedOnItsWay(q, Granted);
    AttemptedOnItsWay(q, Busy(path));
  }

  /** How far a run is from its end: its phase, and the steps or undos left in it. */
  function Stage(q: Process): nat {
    match q.phase
    case Idle => 4
    case Locking => 3
    case Working(_) => 2
    case Cleaning(_, _, _) => 1
    case Ended(_) => 0
  }

  function Rest(q: Process): nat {
    match q.phase
    case Working(next) => if next < |q.steps| then |q.steps| - next else 0
    case Cleaning(_, _, _) => |q.st.cleanup|
    case _ => 0
  }

  /** What a run that has not ended does next. */
  function Next(q: Process, p: nat, path: string): Action
    requires !q.phase.Ended?
  {
    match q.phase
    case Idle => Begin(p)
    case Locking => TryLock(p, path)
    case Working(_) => StepTurn(p)
    case Cleaning(_, _, _) => if q.st.cleanup != [] then UndoOne(p) else Release(p)
  }

  lemma NextGoesOn(s: System, p: nat, path: string)
    requires p < |s.processes| && !s.processes[p].phase.Ended?
    ensures var q, t := s.processes[p], Apply(s, Next(s.processes[p], p, path));
      && |t.processes| == |s.processes|
      && GoesOn(q, t.processes[p])
  {
    hide Begun, Attempted, Turned, Undone, Released;
    var q := s.processes[p];
    match q.phase
    case Idle => BegunGoesOn(q);
    case Locking =>
      AttemptedGoesOn(q, Granted);
      AttemptedGoesOn(q, Busy(path));
    case Working(_) => TurnedGoesOn(q);
    case Cleaning(_, _, _) => CleaningGoesOn(q);
  }

  predicate GoesOn(q: Process, r: Process) {
    Stage(r) < Stage(q) || (Stage(r) == Stage(q) && Rest(r) < Rest(q))
  }

  lemma BegunGoesOn(q: Process)
    requires q.phase.Idle?
    ensures GoesOn(q, Begun(q))
  {
    hide Emit;
  }

  lemma AttemptedGoesOn(q: Process, lock: LockAttempt)
    requires q.phase.Locking?
    ensures GoesOn(q, Attempted(q, lock))
  {
    hide LockFault;
  }

  lemma TurnedGoesOn(q: Process)
    requires q.phase.Working?
    ensures GoesOn(q, Turned(q))
  {
    hide Turn;
  }

  lemma CleaningGoesOn(q: Process)
    requires q.phase.Cleaning?
    ensures GoesOn(q, if q.st.cleanup != [] then Undone(q) else Released(q))
  {
    hide Report, Summarise, Conclude, DropLock, WithEmitFault, FaultOf;
  }

  lemma {:induction false} GoesOnToTheEnd(s: System, p: nat, path: string) returns (own: seq<Action>)
    requires p < |s.processes|
    ensures forall a <- own :: a.p == p
    ensures p < |ApplyAll(s, own).processes| && ApplyAll(s, own).processes[p].phase.Ended?
    decreases Stage(s.processes[p]), Rest(s.processes[p])
  {
    hide Apply;
    own := [];
    if !s.processes[p].phase.Ended? {
      var a := Next(s.processes[p], p, path);
      NextGoesOn(s, p, path);
      own := GoesOnToTheEnd(Apply(s, a), p, path);
      own := [a] + own;
    }
  }

  /** No run ever waits for another: wherever all of them are, each can go on to its end by itself,
      and that end is an undisturbed run's. */
  lemma EveryRunCanEnd(s: System, actions: seq<Action>, p: nat, path: string) returns (own: seq<Action>)
    requires Initial(s) && p < |ApplyAll(s, actions).processes|
    ensures forall a <- own :: a.p == p
    ensures var now := ApplyAll(ApplyAll(s, actions), own).processes;
      && p < |now| && now[p].phase.Ended?
      && (now[p].st, now[p].phase.result) == Run(now[p].em, now[p].steps, now[p].dry, now[p].lock)
  {
    hide OnItsWay, Apply, Run;
    InitialInv(s);
    RunsKeepInv(s, actions);
    var now := ApplyAll(s, actions);
    own := GoesOnToTheEnd(now, p, path);
    RunsKeepInv(now, own);
    EndedIsRun(ApplyAll(now, own).processes[p]);
  }

  /** A run that found the lock held has run no step and no undo, and, with a working
      emitter, its stream ends in an install_in_progress error with no step. */
  lemma LosersDoNothing(s: System, actions: seq<Action>, p: nat)
    requires Initial(s)
    requires var now := ApplyAll(s, actions).processes; p < |now| && now[p].phase.Ended?
    requires var q := ApplyAll(s, actions).processes[p];
      !q.dry && q.lock.Busy? && q.em.Wired?
    ensures var q := ApplyAll(s, actions).processes[p];
      && q.st.trace == []
      && (q.st.emitFault.None? ==>
            q.st.accepted == [Start(Infos(q.steps))] + Deprecations(q.em.deprecations)
              + [Error("", CODE_INSTALL_IN_PROGRESS, Message(LockFault(q.lock).value))])
  {
    hide ApplyAll, Run, Work;
    EndedRunsAreRuns(s, actions, p);
    var q := ApplyAll(s, actions).processes[p];
    LoserStream(q.em, q.steps, q.lock.path);
    LoserActs(q.em, q.steps, q.lock.path);
  }
}
