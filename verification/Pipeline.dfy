/** internal/pipeline/pipeline.go in its own form: Env's fields are updated in
    place, and every method is proved to do what the functions of `Engine` say. */
module Pipeline {
  import opened Text
  import opened Progress
  import opened Faults
  import opened Engine

  class Env {
    const emitter: Emitter
    var emitFault: Option<Fault>
    var cleanup: seq<Undo>
    var summary: seq<SummaryItem>
    var currentStep: int
    // What the emitter has seen and what the run has done.
    var accepted: seq<Event>
    var offered: nat
    var trace: seq<Act>

    ghost function View(): State
      reads this
    {
      State(accepted, offered, emitFault, cleanup, summary, currentStep, trace)
    }

    constructor (emitter: Emitter)
      ensures View() == FRESH && this.emitter == emitter
    {
      this.emitter := emitter;
      accepted, offered, emitFault, cleanup, summary, currentStep, trace := [], 0, None, [], [], 0, [];
    }

    /** One call of the underlying emitter. */
    method Send(event: Event) returns (fault: Option<Fault>)
      requires emitter.Wired?
      modifies this`accepted, this`offered
      ensures fault == emitter.verdict(old(offered)) && offered == old(offered) + 1
      ensures accepted == if fault.None? then old(accepted) + [event] else old(accepted)
    {
      fault := emitter.verdict(offered);
      offered := offered + 1;
      if fault.None? {
        accepted := accepted + [event];
      }
    }

    /** deprecationEmitter.Emit: the deprecation warnings follow Start. */
    method Deliver(event: Event) returns (fault: Option<Fault>)
      requires emitter.Wired?
      modifies this`accepted, this`offered
      ensures (View(), fault) == Engine.Offer(emitter, old(View()), Burst(emitter, event))
    {
      fault := Send(event);
      assert Burst(emitter, event)[0] == event;
      if fault.None? && event.Start? {
        assert Burst(emitter, event)[1..] == Deprecations(emitter.deprecations);
        fault := SendDeprecations();
      }
    }

    method SendDeprecations() returns (fault: Option<Fault>)
      requires emitter.Wired?
      modifies this`accepted, this`offered
      ensures (View(), fault) == Engine.Offer(emitter, old(View()), Deprecations(emitter.deprecations))
    {
      ghost var warnings := Deprecations(emitter.deprecations);
      for i := 0 to |emitter.deprecations|
        invariant Engine.Offer(emitter, old(View()), warnings) == Engine.Offer(emitter, View(), warnings[i..])
      {
        assert warnings[i..][1..] == warnings[i + 1..];
        fault := Send(Warning(CODE_RECIPE_V1_DEPRECATED, emitter.deprecations[i]));
        if fault.Some? {
          return;
        }
      }
      fault := None;
    }

    method Emit(event: Event) returns (fault: Option<Fault>)
      modifies this`accepted, this`offered, this`emitFault
      ensures View() == Engine.Emit(emitter, old(View()), event) && fault == emitFault
    {
      if emitFault.Some? {
        return emitFault;
      }
      if emitter.Unset? {
        emitFault := Some(Plain("progress: emitter is not configured"));
        return emitFault;
      }
      var refused := Deliver(event);
      if refused.Some? {
        emitFault := Some(Wrapped("emit progress " + Kind(event), refused.value));
      }
      return emitFault;
    }

    method AddSummary(item: SummaryItem)
      modifies this`summary
      ensures View() == old(View()).(summary := old(summary) + [item])
    {
      summary := summary + [item];
    }

    method Defer(undo: Undo)
      modifies this`cleanup
      ensures View() == old(View()).(cleanup := old(cleanup) + [undo])
    {
      cleanup := cleanup + [undo];
    }

    /** Runs the cleanup stack from the top, collecting failures. */
    method Unwind() returns (faults: seq<Fault>)
      modifies this`cleanup, this`trace
      ensures (View(), faults) == Engine.Unwind(old(View()))
    {
      faults := [];
      var i := |cleanup|;
      while i > 0
        invariant 0 <= i <= |cleanup| && cleanup == old(cleanup)
        invariant faults == UndoFaults(cleanup[i..]) && trace == old(trace) + Undids(cleanup[i..])
      {
        i := i - 1;
        var undo := cleanup[i];
        assert cleanup[i..][0] == undo && cleanup[i..][1..] == cleanup[i + 1..];
        trace := trace + [Undid(undo)];
        if undo.outcome.Some? {
          faults := faults + [Wrapped("cleanup " + undo.name, undo.outcome.value)];
        }
      }
      assert cleanup[0..] == cleanup;
      cleanup := [];
    }

    /** A step's Run, following what it does to Env. */
    method Perform(behaviour: Behaviour) returns (fault: Option<Fault>)
      modifies this
      ensures (View(), fault) == Engine.Exec(emitter, old(View()), behaviour)
    {
      var b := behaviour;
      while !b.Return?
        invariant Engine.Exec(emitter, View(), b) == Engine.Exec(emitter, old(View()), behaviour)
        decreases b
      {
        match b
        case Emits(event, acceptedRest, refusedRest) =>
          var refusal := Emit(event);
          b := if refusal.None? then acceptedRest else refusedRest;
        case Defers(undo, rest) =>
          Defer(undo);
          b := rest;
        case Notes(item, rest) =>
          AddSummary(item);
          b := rest;
      }
      fault := b.fault;
    }
  }

  /** Pipeline.runSteps: the failed step's name and its error. */
  method RunSteps(env: Env, steps: seq<Step>, dryRun: bool) returns (failedStep: string, fault: Option<Fault>)
    modifies env
    ensures (env.View(), failedStep, fault) == Engine.RunSteps(env.emitter, old(env.View()), steps, 0, dryRun)
  {
    var i := 0;
    while i < |steps|
      invariant 0 <= i <= |steps|
      invariant Engine.RunSteps(env.emitter, env.View(), steps, i, dryRun)
             == Engine.RunSteps(env.emitter, old(env.View()), steps, 0, dryRun)
    {
      var s := steps[i];
      env.currentStep := i;
      fault := env.Emit(StepStart(i, s.name));
      if fault.Some? {
        return s.name, fault;
      }
      if dryRun && !s.preflight {
        fault := env.Emit(Info("dry-run: skipping " + s.name));
        if fault.Some? {
          return s.name, fault;
        }
      } else {
        if s.run.None? {
          return s.name, Some(NotImplemented(s.name));
        }
        env.trace := env.trace + [Ran(i)];
        var stepFault := env.Perform(s.run.value);
        if env.emitFault.Some? {
          return s.name, Join(InStep(s.name, stepFault), env.emitFault);
        }
        if stepFault.Some? {
          return s.name, InStep(s.name, stepFault);
        }
      }
      i := i + 1;
    }
    return "", None;
  }

  /** Pipeline.Run on a new Env, when taking the install lock comes to `lock`. */
  method Run(env: Env, steps: seq<Step>, dryRun: bool, lock: LockAttempt) returns (fault: Option<Fault>)
    requires env.View() == FRESH
    modifies env
    ensures (env.View(), fault) == Engine.Run(env.emitter, steps, dryRun, lock)
  {
    var failedStep := "";
    fault := env.Emit(Start(Infos(steps)));
    if fault.None? && !dryRun {
      fault := LockFault(lock);
      if fault.None? {
        env.trace := env.trace + [TookLock];
      }
    }
    if fault.None? {
      failedStep, fault := RunSteps(env, steps, dryRun);
    }
    assert (env.View(), failedStep, fault) == Engine.Work(env.emitter, steps, dryRun, lock);
    fault := Conclude(env, failedStep, fault);
  }

  /** The second half of Run: unwind, report, drop the lock, summary, terminal event. */
  method Conclude(env: Env, failedStep: string, stepFault: Option<Fault>) returns (fault: Option<Fault>)
    modifies env
    ensures (env.View(), fault) == Engine.Finish(env.emitter, old(env.View()), failedStep, stepFault)
  {
    fault := stepFault;
    var cleanupFaults := env.Unwind();
    fault := ReportCleanup(env, fault, cleanupFaults);
    if TookLock in env.trace {
      env.trace := env.trace + [DroppedLock];
    }
    if env.emitFault.Some? && !Holds(fault, env.emitFault.value) {
      fault := Join(fault, env.emitFault);
    }
    if env.summary != [] && env.emitFault.None? {
      var refused := env.Emit(Summary(env.summary));
      if refused.Some? {
        fault := Join(fault, refused);
      }
    }
    if fault.Some? {
      if env.emitFault.None? {
        var refused := env.Emit(Error(failedStep, ErrorCode(fault.value), Message(fault.value)));
        if refused.Some? {
          fault := Join(fault, refused);
        }
      }
      return fault;
    }
    fault := env.Emit(Done);
  }

  /** Run's loop over the cleanup failures. */
  method ReportCleanup(env: Env, stepFault: Option<Fault>, faults: seq<Fault>) returns (fault: Option<Fault>)
    modifies env
    ensures (env.View(), fault) == Engine.Report(env.emitter, old(env.View()), stepFault, faults)
  {
    fault := stepFault;
    for i := 0 to |faults|
      invariant Engine.Report(env.emitter, env.View(), fault, faults[i..])
             == Engine.Report(env.emitter, old(env.View()), stepFault, faults)
    {
      assert faults[i..][0] == faults[i] && faults[i..][1..] == faults[i + 1..];
      if env.emitFault.None? {
        var _ := env.Emit(Warning(CODE_CLEANUP_FAILED, Message(faults[i])));
      }
      fault := Join(fault, Some(faults[i]));
    }
  }
}
