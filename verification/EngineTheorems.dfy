/** The whole-run results about Pipeline.Run. */
module EngineTheorems {
  import opened Text
  import opened Progress
  import opened Faults
  import opened Engine
  import opened EngineProofs

  /** The parts of one run's event stream, in order. */
  datatype Sections = Sections(
    started: bool,
    deprecations: nat,
    bodies: seq<seq<Event>>,
    warnings: seq<Event>,
    summary: seq<Event>,
    terminal: seq<Event>)

  /** In their places; what steps emit is up to them, which `ValidSections` is about. */
  predicate InPlace(em: Emitter, steps: seq<Step>, s: Sections)
    requires em.Wired?
  {
    && s.deprecations <= |em.deprecations| && |s.bodies| <= |steps|
    && (forall w <- s.warnings :: w.Warning? && w.code == CODE_CLEANUP_FAILED)
    && |s.summary| <= 1 && (forall e <- s.summary :: e.Summary?)
    && |s.terminal| <= 1 && (forall e <- s.terminal :: IsTerminal(e))
    && (!s.started ==> s.deprecations == 0)
    && (!s.started || s.deprecations < |em.deprecations| ==>
          s.bodies == [] && s.warnings == [] && s.summary == [] && s.terminal == [])
  }

  predicate ValidSections(em: Emitter, steps: seq<Step>, s: Sections)
    requires em.Wired?
  {
    InPlace(em, steps, s) && forall body <- s.bodies :: AllBody(body)
  }

  function Transcript(em: Emitter, steps: seq<Step>, s: Sections): seq<Event>
    requires em.Wired? && InPlace(em, steps, s)
  {
    (if s.started then [Start(Infos(steps))] + Deprecations(em.deprecations[..s.deprecations]) else [])
    + StepStream(steps, 0, s.bodies) + s.warnings + s.summary + s.terminal
  }

  /** Start and its deprecation warnings, as far as the emitter took them. */
  lemma StartFacts(em: Emitter, steps: seq<Step>) returns (started: bool, n: nat)
    requires em.Wired?
    ensures n <= |em.deprecations| && (!started ==> n == 0)
    ensures var st := Emit(em, FRESH, Start(Infos(steps)));
      && Accounted(em, st) && SameApart(FRESH, st)
      && st.accepted == (if started then [Start(Infos(steps))] + Deprecations(em.deprecations[..n]) else [])
      && (st.emitFault.None? <==> started && n == |em.deprecations|)
  {
    var e := Start(Infos(steps));
    EmitFacts(em, FRESH, e);
    var st := Emit(em, FRESH, e);
    var burst := Burst(em, e);
    var taken := |st.accepted|;
    started := taken > 0;
    n := if started then taken - 1 else 0;
    if st.emitFault.Some? {
      var m: nat :| m < |burst| && st.accepted == FRESH.accepted + burst[..m];
      assert m == taken;
    } else {
      assert st.accepted == burst;
    }
    if started {
      assert Deprecations(em.deprecations)[..n] == Deprecations(em.deprecations[..n]);
      assert burst[..n + 1] == [e] + Deprecations(em.deprecations)[..n];
      assert st.accepted == burst[..n + 1];
    }
  }

  /** The error with which the steps or the lock ended the work, while the emitter was good. */
  function WorkFault(em: Emitter, steps: seq<Step>, dry: bool, lock: LockAttempt, bodies: seq<seq<Event>>):
      Option<Fault>
    requires |bodies| <= |steps|
  {
    if dry || lock.Granted? then LastFault(em, steps, 0, dry, bodies) else LockFault(lock)
  }

  function FailedStep(em: Emitter, steps: seq<Step>, dry: bool, bodies: seq<seq<Event>>): string
    requires |bodies| <= |steps|
  {
    if LastFault(em, steps, 0, dry, bodies).Some? then steps[|bodies| - 1].name else ""
  }

  /** Every step that began and was not the last returned nothing. */
  ghost predicate OnlyLastFails(em: Emitter, steps: seq<Step>, dry: bool, bodies: seq<seq<Event>>)
    requires |bodies| <= |steps|
  {
    forall k | 0 <= k < |bodies| - 1 :: FaultAt(em, steps, 0, dry, bodies, k).None?
  }

  /** Start, the lock and the steps: the events, the actions and the error. */
  lemma WorkFacts(em: Emitter, steps: seq<Step>, dry: bool, lock: LockAttempt)
    returns (started: bool, deps: nat, bodies: seq<seq<Event>>)
    requires em.Wired?
    ensures var s := Sections(started, deps, bodies, [], [], []);
      InPlace(em, steps, s) && (Narrating(steps) ==> ValidSections(em, steps, s))
    ensures var s := Sections(started, deps, bodies, [], [], []);
      var (st, name, fault) := Work(em, steps, dry, lock);
      && Accounted(em, st) && st.accepted == Transcript(em, steps, s)
      && (st.emitFault.Some? ==> Holds(fault, st.emitFault.value))
      && (st.emitFault.None? ==> started && deps == |em.deprecations|)
      && st.trace == (if Locks(em, s, dry, lock) then [TookLock] else []) + RanFrom(steps, 0, |bodies|, dry)
      && (!dry && !lock.Granted? ==> bodies == [] && name == "")
      && (!started || deps < |em.deprecations| ==> bodies == [])
    ensures var (st, name, fault) := Work(em, steps, dry, lock);
      && st.cleanup == UndosOf(em, steps, 0, dry, bodies) && st.summary == NotesOf(em, steps, 0, dry, bodies)
      && OnlyLastFails(em, steps, dry, bodies)
      && (LastFault(em, steps, 0, dry, bodies).Some? ==> Holds(fault, LastFault(em, steps, 0, dry, bodies).value))
      && (st.emitFault.None? ==>
            fault == WorkFault(em, steps, dry, lock, bodies) && name == FailedStep(em, steps, dry, bodies))
      && (fault.None? ==> st.emitFault.None?)
      && (fault.None? && (dry || lock.Granted?) ==> |bodies| == |steps|)
      && (st.emitFault.None? && WorkFault(em, steps, dry, lock, bodies).None? ==> |bodies| == |steps|)
  {
    hide Emit, RunSteps, UndosOf, NotesOf, FaultAt, Holds, AlreadyRunning;
    started, deps := StartFacts(em, steps);
    var st := Emit(em, FRESH, Start(Infos(steps)));
    bodies := [];
    NoBodies(em, steps, 0, dry);
    HoldsItself(st);
    if st.emitFault.None? && (dry || lock.Granted?) {
      bodies := RunStepsFacts(em, if dry then st else st.(trace := st.trace + [TookLock]), steps, 0, dry);
    }
  }

  lemma HoldsItself(st: State)
    ensures st.emitFault.Some? ==> Holds(st.emitFault, st.emitFault.value)
  {}

  /** The run takes the lock: it is not dry, Start and its warnings went out, and it was free. */
  predicate Locks(em: Emitter, s: Sections, dry: bool, lock: LockAttempt)
    requires em.Wired?
  {
    !dry && lock.Granted? && s.started && s.deprecations == |em.deprecations|
  }

  lemma {:induction false} NoLockInUndids(undos: seq<Undo>)
    ensures TookLock !in Undids(undos)
  {
    if undos != [] {
      NoLockInUndids(undos[1..]);
    }
  }

  lemma WithEmitFaultHolds(st: State, fault: Option<Fault>)
    ensures var known := WithEmitFault(st, fault);
      && (st.emitFault.Some? ==> Holds(known, st.emitFault.value))
      && (st.emitFault.None? ==> known == fault)
      && (forall f :: Holds(fault, f) ==> Holds(known, f))
  {
    if st.emitFault.Some? {
      JoinHolds(fault, st.emitFault, st.emitFault.value);
      forall f ensures Holds(fault, f) ==> Holds(Join(fault, st.emitFault), f) {
        JoinHolds(fault, st.emitFault, f);
      }
    }
  }

  lemma SummariseFacts(em: Emitter, st: State, fault: Option<Fault>) returns (summary: seq<Event>)
    requires Accounted(em, st) && (st.emitFault.Some? ==> Holds(fault, st.emitFault.value))
    ensures summary == [] || (summary == [Summary(st.summary)] && st.summary != [])
    ensures var (after, told) := Summarise(em, st, fault);
      && Accounted(em, after) && SameApart(st, after) && after.accepted == st.accepted + summary
      && (st.emitFault.Some? ==> after == st)
      && (after.emitFault.Some? ==> Holds(told, after.emitFault.value))
      && (after.emitFault.None? ==> told == fault && (st.summary == [] <==> summary == []))
      && (forall f :: Holds(fault, f) ==> Holds(told, f))
      && (st.emitFault.Some? || after.emitFault.Some? ==> summary == [])
  {
    EmitFacts(em, st, Summary(st.summary));
    var told := Emit(em, st, Summary(st.summary));
    var used := st.summary != [] && st.emitFault.None?;
    summary := if used && told.emitFault.None? then [Summary(st.summary)] else [];
    if used && told.emitFault.Some? {
      JoinHolds(fault, told.emitFault, told.emitFault.value);
      forall f ensures Holds(fault, f) ==> Holds(Join(fault, told.emitFault), f) {
        JoinHolds(fault, told.emitFault, f);
      }
    }
  }

  lemma ConcludeFacts(em: Emitter, st: State, name: string, fault: Option<Fault>) returns (terminal: seq<Event>)
    requires Accounted(em, st) && (st.emitFault.Some? ==> Holds(fault, st.emitFault.value))
    ensures var end := if fault.None? then Done else Error(name, ErrorCode(fault.value), Message(fault.value));
      var (after, told) := Conclude(em, st, name, fault);
      && terminal == (if after.emitFault.None? then [end] else [])
      && Accounted(em, after) && SameApart(st, after) && after.accepted == st.accepted + terminal
      && (st.emitFault.Some? ==> after == st)
      && (told.None? <==> terminal == [Done])
      && (after.emitFault.None? ==> told == fault)
      && (after.emitFault.Some? ==> Holds(told, after.emitFault.value))
      && (forall f :: Holds(fault, f) ==> Holds(told, f))
  {
    var end := if fault.None? then Done else Error(name, ErrorCode(fault.value), Message(fault.value));
    EmitFacts(em, st, end);
    var after := Emit(em, st, end);
    terminal := if st.emitFault.None? && after.emitFault.None? then [end] else [];
    if fault.Some? && st.emitFault.None? && after.emitFault.Some? {
      JoinHolds(fault, after.emitFault, after.emitFault.value);
      forall f ensures Holds(fault, f) ==> Holds(Join(fault, after.emitFault), f) {
        JoinHolds(fault, after.emitFault, f);
      }
    } else if fault.None? && after.emitFault.Some? {
      assert Contains(after.emitFault.value, after.emitFault.value);
    }
  }

  /** What Finish emits, and when it returns nil. */
  lemma FinishStream(em: Emitter, worked: State, name: string, stepFault: Option<Fault>)
    returns (warnings: seq<Event>, summary: seq<Event>, terminal: seq<Event>)
    requires Accounted(em, worked) && (worked.emitFault.Some? ==> Holds(stepFault, worked.emitFault.value))
    ensures forall w <- warnings :: w.Warning? && w.code == CODE_CLEANUP_FAILED
    ensures summary == [] || summary == [Summary(worked.summary)]
    ensures var faults := UndoFaults(worked.cleanup);
      var known := JoinAll(stepFault, faults);
      var (st, fault) := Finish(em, worked, name, stepFault);
      && Accounted(em, st) && st.accepted == worked.accepted + warnings + summary + terminal
      && st.summary == worked.summary
      && terminal == (if st.emitFault.Some? then []
                      else if known.None? then [Done]
                      else [Error(name, ErrorCode(known.value), Message(known.value))])
      && (fault.None? <==> terminal == [Done])
      && (st.emitFault.None? ==> fault == known && |warnings| == |faults| && (summary == [] <==> worked.summary == []))
      && (worked.emitFault.Some? ==> warnings == [] && summary == [] && terminal == [])
  {
    hide Report, Summarise, Conclude;
    var (unwound, faults) := Unwind(worked);
    warnings := ReportFacts(em, unwound, stepFault, faults);
    var (reported, joined) := Report(em, unwound, stepFault, faults);
    var dropped := DropLock(reported);
    if worked.emitFault.Some? {
      JoinAllHolds(stepFault, faults, worked.emitFault.value);
    }
    WithEmitFaultHolds(dropped, joined);
    var known := WithEmitFault(dropped, joined);
    summary := SummariseFacts(em, dropped, known);
    var (summarised, told) := Summarise(em, dropped, known);
    terminal := ConcludeFacts(em, summarised, name, told);
    var st := Conclude(em, summarised, name, told).0;
    assert st.accepted == worked.accepted + warnings + summary + terminal;
  }

  /** Finish loses no error: what the step, an undo or the emitter returned is in
      the error it returns. */
  lemma FinishHolds(em: Emitter, worked: State, name: string, stepFault: Option<Fault>, f: Fault)
    requires Accounted(em, worked)
    requires var st := Finish(em, worked, name, stepFault).0;
      Holds(stepFault, f) || f in UndoFaults(worked.cleanup) || st.emitFault == Some(f)
    requires worked.emitFault.Some? ==> Holds(stepFault, worked.emitFault.value)
    ensures Holds(Finish(em, worked, name, stepFault).1, f)
  {
    hide Report, Summarise, Conclude;
    var (unwound, faults) := Unwind(worked);
    var warnings := ReportFacts(em, unwound, stepFault, faults);
    var (reported, joined) := Report(em, unwound, stepFault, faults);
    var dropped := DropLock(reported);
    if Holds(stepFault, f) || f in faults {
      JoinAllHolds(stepFault, faults, f);
    }
    WithEmitFaultHolds(dropped, joined);
    var known := WithEmitFault(dropped, joined);
    var summary := SummariseFacts(em, dropped, known);
    var (summarised, told) := Summarise(em, dropped, known);
    var terminal := ConcludeFacts(em, summarised, name, told);
  }

  /** Finish runs every undo once, last registered first, and then drops the lock. */
  lemma FinishActs(em: Emitter, worked: State, name: string, stepFault: Option<Fault>)
    requires Accounted(em, worked) && (worked.emitFault.Some? ==> Holds(stepFault, worked.emitFault.value))
    ensures var (st, fault) := Finish(em, worked, name, stepFault);
      && st.cleanup == []
      && st.trace == worked.trace + Undids(worked.cleanup) + (if TookLock in worked.trace then [DroppedLock] else [])
      && (fault.None? ==> stepFault.None?)
  {
    hide Report, Summarise, Conclude;
    var (unwound, faults) := Unwind(worked);
    var warnings := ReportFacts(em, unwound, stepFault, faults);
    var (reported, joined) := Report(em, unwound, stepFault, faults);
    NoLockInUndids(worked.cleanup);
    var dropped := DropLock(reported);
    if worked.emitFault.Some? {
      JoinAllHolds(stepFault, faults, worked.emitFault.value);
    }
    WithEmitFaultHolds(dropped, joined);
    var known := WithEmitFault(dropped, joined);
    var summary := SummariseFacts(em, dropped, known);
    var (summarised, told) := Summarise(em, dropped, known);
    var terminal := ConcludeFacts(em, summarised, name, told);
    if stepFault.Some? {
      assert Contains(stepFault.value, stepFault.value);
      JoinAllHolds(stepFault, faults, stepFault.value);
      assert Holds(known, stepFault.value);
    }
  }

  /** The run's stream has these sections. */
  predicate Tells(em: Emitter, steps: seq<Step>, dry: bool, lock: LockAttempt, s: Sections)
    requires em.Wired?
  {
    InPlace(em, steps, s) && Run(em, steps, dry, lock).0.accepted == Transcript(em, steps, s)
  }

  /** The stream of every run, whatever its steps do and wherever the emitter
      fails: Start, the deprecations, step_start 0, 1, ... each with its body, the
      cleanup warnings, at most one summary and at most one terminal event. Once the
      emitter has refused an event it is not called again; as long as it has not,
      every section is complete and exactly one terminal event ends the stream. The bodies are
      progress, info, warnings and recovery keys when that is all the steps emit. */
  lemma RunTranscript(em: Emitter, steps: seq<Step>, dry: bool, lock: LockAttempt) returns (s: Sections)
    requires em.Wired?
    ensures Tells(em, steps, dry, lock, s) && (Narrating(steps) ==> ValidSections(em, steps, s))
    ensures var st := Run(em, steps, dry, lock).0;
      var undos, notes := UndosOf(em, steps, 0, dry, s.bodies), NotesOf(em, steps, 0, dry, s.bodies);
      && Accounted(em, st)
      && (st.emitFault.None? ==> (
            && s.started && s.deprecations == |em.deprecations| && |s.terminal| == 1
            && |s.warnings| == |UndoFaults(undos)|
            && s.summary == if notes == [] then [] else [Summary(notes)]))
      && (s.terminal == [Done] ==> |s.bodies| == |steps|)
  {
    hide Run, Work, Finish, UndoFaults, JoinAll, Transcript, StepStream, UndosOf, NotesOf, LastFault, WorkFault;
    hide Holds, Accounted, OnlyLastFails, FailedStep, ErrorCode, Message, Tells;
    RunIs(em, steps, dry, lock);
    var started, deps, bodies := WorkFacts(em, steps, dry, lock);
    var (worked, name, stepFault) := Work(em, steps, dry, lock);
    var warnings, summary, terminal := FinishStream(em, worked, name, stepFault);
    s := Sections(started, deps, bodies, warnings, summary, terminal);
    TranscriptExtends(em, steps, Sections(started, deps, bodies, [], [], []), warnings, summary, terminal);
    JoinedNone(stepFault, UndoFaults(worked.cleanup));
    TellsWhen(em, steps, dry, lock, s);
  }

  lemma TellsWhen(em: Emitter, steps: seq<Step>, dry: bool, lock: LockAttempt, s: Sections)
    requires em.Wired?
    ensures Tells(em, steps, dry, lock, s) <==>
      InPlace(em, steps, s) && Run(em, steps, dry, lock).0.accepted == Transcript(em, steps, s)
  {}

  lemma JoinedNone(fault: Option<Fault>, faults: seq<Fault>)
    ensures JoinAll(fault, faults).None? <==> fault.None? && faults == []
  {
    hide JoinAll;
  }

  /** Appending the sections that follow the steps appends their events. */
  lemma TranscriptExtends(em: Emitter, steps: seq<Step>, s: Sections, warnings: seq<Event>, summary: seq<Event>,
                          terminal: seq<Event>)
    requires em.Wired? && InPlace(em, steps, s) && s.warnings == [] && s.summary == [] && s.terminal == []
    requires var all := s.(warnings := warnings, summary := summary, terminal := terminal); InPlace(em, steps, all)
    ensures var all := s.(warnings := warnings, summary := summary, terminal := terminal);
      Transcript(em, steps, all) == Transcript(em, steps, s) + warnings + summary + terminal
  {
    var begun := Transcript(em, steps, s);
    var all := s.(warnings := warnings, summary := summary, terminal := terminal);
    assert begun == (if s.started then [Start(Infos(steps))] + Deprecations(em.deprecations[..s.deprecations]) else [])
                    + StepStream(steps, 0, s.bodies);
  }

  /** Run returns nil exactly when Done was accepted, which then is the last event. */
  lemma NilExactlyWhenDone(em: Emitter, steps: seq<Step>, dry: bool, lock: LockAttempt)
    requires em.Wired? && Narrating(steps)
    ensures var (st, fault) := Run(em, steps, dry, lock);
      && (fault.None? <==> Done in st.accepted)
      && (fault.None? <==> st.accepted != [] && st.accepted[|st.accepted| - 1] == Done)
  {
    hide Run, Work, Finish, UndoFaults, JoinAll, StepStream, UndosOf, NotesOf, LastFault, WorkFault, Holds, Accounted;
    hide OnlyLastFails, FailedStep, ErrorCode, Message, InPlace, ValidSections, Narrating, Transcript, Locks;
    RunIs(em, steps, dry, lock);
    var started, deps, bodies := WorkFacts(em, steps, dry, lock);
    var (worked, name, stepFault) := Work(em, steps, dry, lock);
    var warnings, summary, terminal := FinishStream(em, worked, name, stepFault);
    NoTerminalYet(em, steps, Sections(started, deps, bodies, [], [], []));
    var st := Run(em, steps, dry, lock).0;
    assert st.accepted == worked.accepted + warnings + summary + terminal;
    assert Done !in worked.accepted + warnings + summary;
  }

  lemma {:induction false} StepStreamNotTerminal(steps: seq<Step>, i: nat, bodies: seq<seq<Event>>)
    requires i + |bodies| <= |steps| && forall body <- bodies :: AllBody(body)
    ensures forall e <- StepStream(steps, i, bodies) :: !IsTerminal(e)
    decreases |bodies|
  {
    if bodies != [] {
      StepStreamNotTerminal(steps, i + 1, bodies[1..]);
      assert bodies[0] in bodies && AllBody(bodies[0]);
      var head := [StepStart(i, steps[i].name)] + bodies[0];
      assert forall e <- head :: !IsTerminal(e);
      assert StepStream(steps, i, bodies) == head + StepStream(steps, i + 1, bodies[1..]);
    }
  }

  /** A step's error ends the run, and the returned error holds it, the error of every undo that
      failed and the emitter's own; nothing else makes a run fail. */
  lemma RunKeepsErrors(em: Emitter, steps: seq<Step>, dry: bool, lock: LockAttempt) returns (s: Sections)
    requires em.Wired?
    ensures Tells(em, steps, dry, lock, s)
    ensures var (st, fault) := Run(em, steps, dry, lock);
      var undos := UndosOf(em, steps, 0, dry, s.bodies);
      && (forall k | 0 <= k < |s.bodies| && FaultAt(em, steps, 0, dry, s.bodies, k).Some? ::
            k == |s.bodies| - 1 && Holds(fault, FaultAt(em, steps, 0, dry, s.bodies, k).value))
      && (forall undo <- undos | undo.outcome.Some? ::
            Holds(fault, Wrapped("cleanup " + undo.name, undo.outcome.value)))
      && (st.emitFault.Some? ==> Holds(fault, st.emitFault.value))
      && (fault.None? <==>
            && st.emitFault.None? && (dry || lock.Granted?) && |s.bodies| == |steps|
            && (forall k | 0 <= k < |s.bodies| :: FaultAt(em, steps, 0, dry, s.bodies, k).None?)
            && (forall undo <- undos :: undo.outcome.None?))
  {
    hide Run, Work, Finish, UndosOf, NotesOf, FaultAt, Holds, Accounted, UndoFaults, Transcript, StepStream, LockFault;
    hide JoinAll, FailedStep, ErrorCode, Message, ValidSections, Narrating, Locks;
    RunIs(em, steps, dry, lock);
    var started, deps, bodies := WorkFacts(em, steps, dry, lock);
    var (worked, name, stepFault) := Work(em, steps, dry, lock);
    var warnings, summary, terminal := FinishStream(em, worked, name, stepFault);
    s := Sections(started, deps, bodies, warnings, summary, terminal);
    TranscriptExtends(em, steps, Sections(started, deps, bodies, [], [], []), warnings, summary, terminal);
    var (st, fault) := Run(em, steps, dry, lock);
    NoUndoFault(worked.cleanup);
    JoinedNone(stepFault, UndoFaults(worked.cleanup));
    LockIsFault(lock);
    var last := LastFault(em, steps, 0, dry, bodies);
    if last.Some? {
      FinishHolds(em, worked, name, stepFault, last.value);
    }
    if st.emitFault.Some? {
      FinishHolds(em, worked, name, stepFault, st.emitFault.value);
      HeldIsSome(fault, st.emitFault.value);
    }
    forall undo | undo in worked.cleanup && undo.outcome.Some?
      ensures Holds(fault, Wrapped("cleanup " + undo.name, undo.outcome.value))
    {
      UndoFaultsHas(worked.cleanup, undo);
      FinishHolds(em, worked, name, stepFault, Wrapped("cleanup " + undo.name, undo.outcome.value));
    }
  }

  lemma HeldIsSome(fault: Option<Fault>, f: Fault)
    requires Holds(fault, f)
    ensures fault.Some?
  {}

  lemma LockIsFault(lock: LockAttempt)
    ensures LockFault(lock).None? <==> lock.Granted?
  {}

  lemma {:induction false} NoUndoFault(undos: seq<Undo>)
    ensures UndoFaults(undos) == [] <==> forall undo <- undos :: undo.outcome.None?
  {
    if undos != [] {
      NoUndoFault(undos[1..]);
      assert undos == [undos[0]] + undos[1..];
    }
  }

  /** The terminal error event names the step that failed - none when only undos or the lock did -
      and carries the returned error's message and the first code in join order: a cleanup
      failure never changes the code of a coded step failure. */
  lemma TerminalCode(em: Emitter, steps: seq<Step>, dry: bool, lock: LockAttempt) returns (s: Sections)
    requires em.Wired?
    ensures Tells(em, steps, dry, lock, s)
    ensures Narrating(steps) ==> forall e <- Run(em, steps, dry, lock).0.accepted | e.Error? :: s.terminal == [e]
    ensures s.terminal != [] && s.terminal[0].Error? ==>
      var fault, e := Run(em, steps, dry, lock).1, s.terminal[0];
      var own := WorkFault(em, steps, dry, lock, s.bodies);
      && fault.Some? && e.message == Message(fault.value)
      && e.step == FailedStep(em, steps, dry, s.bodies)
      && e.code == if own.Some? && FirstCode(own.value).Some? then FirstCode(own.value).value
                   else match FirstCodeOf(UndoFaults(UndosOf(em, steps, 0, dry, s.bodies)))
                        case Some(code) => code
                        case None => CODE_STEP_FAILED
  {
    hide Run, Work, Finish, UndosOf, NotesOf, LastFault, Holds, Accounted, LockFault, FailedStep, WorkFault, Tells;
    hide OnlyLastFails, StepStream, Message;
    RunIs(em, steps, dry, lock);
    var started, deps, bodies := WorkFacts(em, steps, dry, lock);
    var (worked, name, stepFault) := Work(em, steps, dry, lock);
    var warnings, summary, terminal := FinishStream(em, worked, name, stepFault);
    var faults, before := UndoFaults(worked.cleanup), Sections(started, deps, bodies, [], [], []);
    s := before.(warnings := warnings, summary := summary, terminal := terminal);
    TranscriptExtends(em, steps, before, warnings, summary, terminal);
    if stepFault.Some? || faults != [] {
      JoinAllCode(stepFault, faults);
    }
    if Narrating(steps) {
      NoTerminalYet(em, steps, before);
    }
    hide Transcript, UndoFaults, JoinAll;
    var st := Run(em, steps, dry, lock).0;
    assert st.accepted == worked.accepted + warnings + summary + terminal;
    TellsWhen(em, steps, dry, lock, s);
  }

  lemma NoTerminalYet(em: Emitter, steps: seq<Step>, s: Sections)
    requires em.Wired? && ValidSections(em, steps, s) && s.warnings == [] && s.summary == [] && s.terminal == []
    ensures forall e <- Transcript(em, steps, s) :: !IsTerminal(e)
  {
    StepStreamNotTerminal(steps, 0, s.bodies);
  }

  lemma {:induction false} UndoFaultsHas(undos: seq<Undo>, undo: Undo)
    requires undo in undos && undo.outcome.Some?
    ensures Wrapped("cleanup " + undo.name, undo.outcome.value) in UndoFaults(undos)
  {
    if undo == undos[0] {
      assert FaultOf(undo)[0] == Wrapped("cleanup " + undo.name, undo.outcome.value);
    } else {
      UndoFaultsHas(undos[1..], undo);
    }
  }

  /** What a run does, in order: a winner takes the lock, calls Run on those steps whose section
      is in its stream - so on none after the first refused event or the first error -, runs every
      undo they registered once in reverse and only then drops the lock. A run that does not get the
      lock runs nothing. A dry run takes no lock and runs only preflight steps. */
  lemma RunActs(em: Emitter, steps: seq<Step>, dry: bool, lock: LockAttempt) returns (s: Sections)
    requires em.Wired?
    ensures Tells(em, steps, dry, lock, s)
    ensures var st, locks := Run(em, steps, dry, lock).0, Locks(em, s, dry, lock);
      && st.trace == (if locks then [TookLock] else []) + RanFrom(steps, 0, |s.bodies|, dry)
                     + Undids(UndosOf(em, steps, 0, dry, s.bodies)) + (if locks then [DroppedLock] else [])
      && (!dry && !locks ==> s.bodies == [])
      && st.cleanup == []
  {
    hide Work, Finish, UndosOf, NotesOf, LastFault, Holds, Accounted, LockFault, Transcript, RanFrom, Undids;
    var started, deps, bodies := WorkFacts(em, steps, dry, lock);
    var (worked, name, stepFault) := Work(em, steps, dry, lock);
    var warnings, summary, terminal := FinishStream(em, worked, name, stepFault);
    s := Sections(started, deps, bodies, warnings, summary, terminal);
    TranscriptExtends(em, steps, Sections(started, deps, bodies, [], [], []), warnings, summary, terminal);
    FinishActs(em, worked, name, stepFault);
    NoLockInRan(steps, 0, |bodies|, dry);
  }

  lemma LoserActs(em: Emitter, steps: seq<Step>, path: string)
    requires em.Wired?
    ensures Run(em, steps, false, Busy(path)).0.trace == []
  {
    hide Finish, Emit, RunSteps;
    var started, deps, bodies := WorkFacts(em, steps, false, Busy(path));
    var (worked, name, stepFault) := Work(em, steps, false, Busy(path));
    FinishActs(em, worked, name, stepFault);
  }

  lemma {:induction false} NoLockInRan(steps: seq<Step>, i: nat, n: nat, dry: bool)
    requires i + n <= |steps|
    ensures TookLock !in RanFrom(steps, i, n, dry)
    decreases n
  {
    if n > 0 {
      NoLockInRan(steps, i + 1, n - 1, dry);
    }
  }

  /** The undos of a run are the registered ones in exact reverse. */
  lemma {:induction false} UndidsReversed(undos: seq<Undo>)
    ensures |Undids(undos)| == |undos|
    ensures forall k | 0 <= k < |undos| :: Undids(undos)[k] == Undid(undos[|undos| - 1 - k])
  {
    if undos != [] {
      UndidsReversed(undos[1..]);
    }
  }

  /** In a dry run every step that ran is a preflight step. */
  lemma {:induction false} DryRunsOnlyPreflight(steps: seq<Step>, i: nat, n: nat)
    requires i + n <= |steps|
    ensures forall a <- RanFrom(steps, i, n, true) :: a.Ran? && a.index < |steps| && steps[a.index].preflight
    decreases n
  {
    if n > 0 {
      DryRunsOnlyPreflight(steps, i + 1, n - 1);
    }
  }

  /** A run that finds the lock held, with a working emitter, ends with exactly
      Start, the deprecations and an install_in_progress error with no step. */
  lemma LoserStream(em: Emitter, steps: seq<Step>, path: string)
    requires em.Wired?
    ensures var (st, fault) := Run(em, steps, false, Busy(path));
      st.emitFault.None? ==> (
        && fault == LockFault(Busy(path))
        && st.accepted == [Start(Infos(steps))] + Deprecations(em.deprecations)
                          + [Error("", CODE_INSTALL_IN_PROGRESS, Message(fault.value))])
  {
    hide *;
    var started, deps, bodies := WorkFacts(em, steps, false, Busy(path));
    var (worked, name, stepFault) := Work(em, steps, false, Busy(path));
    var warnings, summary, terminal := FinishStream(em, worked, name, stepFault);
    var (st, fault) := Run(em, steps, false, Busy(path));
    RunIs(em, steps, false, Busy(path));
    NoBodies(em, steps, 0, false);
    NothingFailed(em, steps, path);
    StartOnly(em, steps, started, deps);
    if st.emitFault.None? {
      assert em.deprecations[..deps] == em.deprecations;
      LoserFault(path, worked.cleanup, steps);
    }
  }

  lemma RunIs(em: Emitter, steps: seq<Step>, dry: bool, lock: LockAttempt)
    ensures var (worked, name, stepFault) := Work(em, steps, dry, lock);
      Run(em, steps, dry, lock) == Finish(em, worked, name, stepFault)
  {
    hide Work, Finish;
  }

  lemma NothingFailed(em: Emitter, steps: seq<Step>, path: string)
    ensures WorkFault(em, steps, false, Busy(path), []) == LockFault(Busy(path))
    ensures FailedStep(em, steps, false, []) == ""
  {
    hide LockFault;
  }

  lemma StartOnly(em: Emitter, steps: seq<Step>, started: bool, deps: nat)
    requires em.Wired? && InPlace(em, steps, Sections(started, deps, [], [], [], []))
    ensures var s := Sections(started, deps, [], [], [], []);
      && deps <= |em.deprecations|
      && Transcript(em, steps, s)
           == (if started then [Start(Infos(steps))] + Deprecations(em.deprecations[..deps]) else [])
  {}

  lemma LoserFault(path: string, undos: seq<Undo>, steps: seq<Step>)
    requires undos == []
    ensures var fault := LockFault(Busy(path));
      && fault.Some? && ErrorCode(fault.value) == CODE_INSTALL_IN_PROGRESS
      && JoinAll(fault, UndoFaults(undos)) == fault && UndoFaults(undos) == []
    ensures StepStream(steps, 0, []) == []
  {
    hide AlreadyRunning, Message;
  }
}
