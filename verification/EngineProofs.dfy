/** What every run of the engine keeps, for every step list, every step behaviour
    and every point at which the emitter or the lock may fail. */
module EngineProofs {
  import opened Text
  import opened Progress
  import opened Faults
  import opened Engine

  // ---------- the emitter is never used after its first failure ----------

  /** Every call before the last was accepted, and nothing was offered after a refusal. */
  ghost predicate Accounted(em: Emitter, st: State) {
    if em.Unset? then st.accepted == [] && st.offered == 0
    else
      && (forall k: nat | k < |st.accepted| :: em.verdict(k).None?)
      && st.offered == |st.accepted| + (if st.emitFault.Some? then 1 else 0)
      && (st.emitFault.Some? ==> em.verdict(|st.accepted|).Some?)
  }

  /** The two states differ at most in what the emitter has seen. */
  predicate SameApart(st: State, after: State) {
    after == st.(accepted := after.accepted, offered := after.offered, emitFault := after.emitFault)
  }

  lemma {:induction false} OfferFacts(em: Emitter, st: State, events: seq<Event>)
    requires em.Wired? && Accounted(em, st) && st.emitFault.None?
    ensures var (after, f) := Offer(em, st, events);
      && SameApart(st, after) && after.emitFault.None?
      && (f.None? ==> Accounted(em, after) && after.accepted == st.accepted + events)
      && (f.Some? ==> (
            && Accounted(em, after.(emitFault := f)) && f == em.verdict(|after.accepted|)
            && |after.accepted| - |st.accepted| < |events|
            && after.accepted == st.accepted + events[..|after.accepted| - |st.accepted|]))
    decreases |events|
  {
    if events != [] && em.verdict(st.offered).None? {
      var next := st.(offered := st.offered + 1, accepted := st.accepted + [events[0]]);
      OfferFacts(em, next, events[1..]);
      assert events == [events[0]] + events[1..];
      var (after, f) := Offer(em, next, events[1..]);
      if f.Some? {
        var n := |after.accepted| - |next.accepted|;
        assert events[..n + 1] == [events[0]] + events[1..][..n];
      }
    }
  }

  lemma EmitFacts(em: Emitter, st: State, e: Event)
    requires Accounted(em, st)
    ensures var after := Emit(em, st, e);
      && Accounted(em, after) && SameApart(st, after) && st.accepted <= after.accepted
      && (st.emitFault.Some? ==> after == st)
      && (after.emitFault.None? ==> em.Wired? && after.accepted == st.accepted + Burst(em, e))
      && (after.emitFault.Some? && em.Wired? ==>
            exists n: nat :: n < |Burst(em, e)| && after.accepted == st.accepted + Burst(em, e)[..n])
      && (after.emitFault.Some? && !e.Start? ==> after.accepted == st.accepted)
      && (after.emitFault.Some? && st.emitFault.None? && em.Wired? ==>
            after.emitFault == Some(Wrapped("emit progress " + Kind(e), em.verdict(|after.accepted|).value)))
  {
    if st.emitFault.None? && em.Wired? {
      OfferFacts(em, st, Burst(em, e));
      var (after, f) := Offer(em, st, Burst(em, e));
      if f.Some? {
        var n := |after.accepted| - |st.accepted|;
        assert after.accepted == st.accepted + Burst(em, e)[..n];
      }
    } else if em.Wired? {
      assert st.accepted == st.accepted + Burst(em, e)[..0];
    }
  }

  // ---------- one step ----------

  /** Steps emit only what belongs between two step_start events. */
  predicate Narrates(b: Behaviour) {
    match b
    case Return(_) => true
    case Emits(event, accepted, refused) => IsBody(event) && Narrates(accepted) && Narrates(refused)
    case Defers(_, rest) => Narrates(rest)
    case Notes(_, rest) => Narrates(rest)
  }

  /** What a behaviour comes to: the error it returns, the undos it registers and the summary
      items it adds. */
  datatype Outcome = Outcome(fault: Option<Fault>, undos: seq<Undo>, notes: seq<SummaryItem>)

  function BurstLength(em: Emitter, event: Event): nat {
    if em.Wired? then |Burst(em, event)| else 1
  }

  /** The outcome, read off the behaviour and the events of it that the emitter accepted. */
  function OutcomeOf(em: Emitter, b: Behaviour, body: seq<Event>): Outcome
    decreases b
  {
    match b
    case Return(fault) => Outcome(fault, [], [])
    case Emits(event, accepted, refused) =>
      var n := BurstLength(em, event);
      if |body| >= n then OutcomeOf(em, accepted, body[n..]) else OutcomeOf(em, refused, [])
    case Defers(undo, rest) =>
      var o := OutcomeOf(em, rest, body);
      o.(undos := [undo] + o.undos)
    case Notes(item, rest) =>
      var o := OutcomeOf(em, rest, body);
      o.(notes := [item] + o.notes)
  }

  predicate Narrating(steps: seq<Step>) {
    forall s <- steps :: s.run.Some? ==> Narrates(s.run.value)
  }

  predicate AllBody(events: seq<Event>) {
    forall e <- events :: IsBody(e)
  }

  lemma {:induction false} ExecFacts(em: Emitter, st: State, b: Behaviour) returns (body: seq<Event>)
    requires Accounted(em, st)
    ensures Narrates(b) ==> AllBody(body)
    ensures var (after, fault) := Exec(em, st, b);
      && Accounted(em, after) && after.trace == st.trace && after.currentStep == st.currentStep
      && after.accepted == st.accepted + body
      && (st.emitFault.Some? ==> after.emitFault == st.emitFault && body == [])
      && var o := OutcomeOf(em, b, body);
        fault == o.fault && after.cleanup == st.cleanup + o.undos && after.summary == st.summary + o.notes
    decreases b
  {
    hide Emit, IsBody, BurstLength;
    match b
    case Return(_) =>
      body := [];
    case Emits(event, accepted, refused) =>
      var taken := Heard(em, st, event);
      var told := Emit(em, st, event);
      var rest := ExecFacts(em, told, if told.emitFault.None? then accepted else refused);
      body := taken + rest;
      assert told.emitFault.None? ==> body[BurstLength(em, event)..] == rest;
    case Defers(undo, rest) =>
      body := ExecFacts(em, st.(cleanup := st.cleanup + [undo]), rest);
    case Notes(item, rest) =>
      body := ExecFacts(em, st.(summary := st.summary + [item]), rest);
  }

  /** What one call adds to the accepted events: nothing after a refusal, and of a body event
      nothing else. */
  lemma Heard(em: Emitter, st: State, event: Event) returns (taken: seq<Event>)
    requires Accounted(em, st)
    ensures IsBody(event) ==> AllBody(taken)
    ensures var told := Emit(em, st, event);
      && Accounted(em, told) && SameApart(st, told) && told.accepted == st.accepted + taken
      && (st.emitFault.Some? ==> told.emitFault == st.emitFault && taken == [])
      && (told.emitFault.None? <==> |taken| >= BurstLength(em, event))
      && (told.emitFault.None? ==> |taken| == BurstLength(em, event))
  {
    hide Emit, Accounted;
    EmitFacts(em, st, event);
    taken := Emit(em, st, event).accepted[|st.accepted|..];
    if IsBody(event) && Emit(em, st, event).emitFault.None? {
      assert Burst(em, event) == [event] && taken == [event];
    }
  }

  /** What a step comes to in its turn: a skipped one to nothing, one without an implementation to
      an error, any other to its behaviour's outcome, with the step's name on the error. */
  function StepOutcome(em: Emitter, s: Step, dry: bool, body: seq<Event>): Outcome {
    if dry && !s.preflight then Outcome(None, [], [])
    else if s.run.None? then Outcome(Some(NotImplemented(s.name)), [], [])
    else
      var o := OutcomeOf(em, s.run.value, body);
      o.(fault := if o.fault.None? then None else Some(Wrapped("step " + s.name, o.fault.value)))
  }

  /** One turn of the loop emits its step_start and a body, unless the step_start
      itself is refused; without a fault the emitter is still good. The step's own error is in
      the turn's, and is all of it while the emitter is good. */
  lemma TurnFacts(em: Emitter, st: State, steps: seq<Step>, i: nat, dry: bool) returns (begun: bool, body: seq<Event>)
    requires Accounted(em, st) && i < |steps| && st.emitFault.None?
    ensures Narrating(steps) ==> AllBody(body)
    ensures var (after, fault) := Turn(em, st, steps, i, dry);
      && Accounted(em, after)
      && after.accepted == st.accepted + (if begun then [StepStart(i, steps[i].name)] + body else [])
      && (!begun ==> after.emitFault.Some?)
      && (after.emitFault.Some? ==> Holds(fault, after.emitFault.value))
      && after.trace == st.trace + (if begun && Runs(steps[i], dry) then [Ran(i)] else [])
      && (fault.None? ==> begun)
    ensures var (after, fault) := Turn(em, st, steps, i, dry);
      var o := if begun then StepOutcome(em, steps[i], dry, body) else Outcome(None, [], []);
      && after.cleanup == st.cleanup + o.undos && after.summary == st.summary + o.notes
      && (o.fault.Some? ==> Holds(fault, o.fault.value)) && (after.emitFault.None? ==> fault == o.fault)
  {
    hide Emit, Exec, OutcomeOf;
    var s := steps[i];
    EmitFacts(em, st.(currentStep := i), StepStart(i, s.name));
    var started := Emit(em, st.(currentStep := i), StepStart(i, s.name));
    begun := started.emitFault.None?;
    body := [];
    if begun {
      if dry && !s.preflight {
        var line := Info("dry-run: skipping " + s.name);
        EmitFacts(em, started, line);
        body := if Emit(em, started, line).emitFault.None? then [line] else [];
      } else if s.run.Some? {
        assert s in steps;
        var running := started.(trace := started.trace + [Ran(i)]);
        body := ExecFacts(em, running, s.run.value);
        var (ran, fault) := Exec(em, running, s.run.value);
        JoinHolds(InStep(s.name, fault), ran.emitFault, if fault.Some? then InStep(s.name, fault).value else Plain(""));
        if fault.Some? {
          var own := InStep(s.name, fault).value;
          assert Contains(own, own);
        }
      }
    }
  }

  /** Steps whose Run is called: in a dry run only the preflight ones. */
  predicate Runs(s: Step, dry: bool) {
    s.run.Some? && (dry ==> s.preflight)
  }

  // ---------- the steps ----------

  /** step_start i, i+1, ... each followed by its body. */
  function StepStream(steps: seq<Step>, i: nat, bodies: seq<seq<Event>>): seq<Event>
    requires i + |bodies| <= |steps|
    decreases |bodies|
  {
    if bodies == [] then []
    else [StepStart(i, steps[i].name)] + bodies[0] + StepStream(steps, i + 1, bodies[1..])
  }

  /** The Ran entries of the n steps from i on. */
  function RanFrom(steps: seq<Step>, i: nat, n: nat, dry: bool): seq<Act>
    requires i + n <= |steps|
    decreases n
  {
    if n == 0 then []
    else (if Runs(steps[i], dry) then [Ran(i)] else []) + RanFrom(steps, i + 1, n - 1, dry)
  }

  /** The undos registered by the steps from i on, in order. */
  function UndosOf(em: Emitter, steps: seq<Step>, i: nat, dry: bool, bodies: seq<seq<Event>>): seq<Undo>
    requires i + |bodies| <= |steps|
    decreases |bodies|
  {
    if bodies == [] then []
    else StepOutcome(em, steps[i], dry, bodies[0]).undos + UndosOf(em, steps, i + 1, dry, bodies[1..])
  }

  /** The summary items they add. */
  function NotesOf(em: Emitter, steps: seq<Step>, i: nat, dry: bool, bodies: seq<seq<Event>>): seq<SummaryItem>
    requires i + |bodies| <= |steps|
    decreases |bodies|
  {
    if bodies == [] then []
    else StepOutcome(em, steps[i], dry, bodies[0]).notes + NotesOf(em, steps, i + 1, dry, bodies[1..])
  }

  function FaultAt(em: Emitter, steps: seq<Step>, i: nat, dry: bool, bodies: seq<seq<Event>>, k: nat): Option<Fault>
    requires i + |bodies| <= |steps| && k < |bodies|
  {
    StepOutcome(em, steps[i + k], dry, bodies[k]).fault
  }

  /** The error of the last step that began. */
  function LastFault(em: Emitter, steps: seq<Step>, i: nat, dry: bool, bodies: seq<seq<Event>>): Option<Fault>
    requires i + |bodies| <= |steps|
  {
    if bodies == [] then None else FaultAt(em, steps, i, dry, bodies, |bodies| - 1)
  }

  /** Only the last step that began can have failed, and its error is in `fault`; while the emitter
      is good it is all of it, and the name is that step's. */
  ghost predicate Decided(em: Emitter, steps: seq<Step>, i: nat, dry: bool, bodies: seq<seq<Event>>,
                          good: bool, name: string, fault: Option<Fault>)
    requires i + |bodies| <= |steps|
  {
    var last := LastFault(em, steps, i, dry, bodies);
    && (forall k | 0 <= k < |bodies| - 1 :: FaultAt(em, steps, i, dry, bodies, k).None?)
    && (last.Some? ==> Holds(fault, last.value))
    && (good ==> fault == last && name == (if last.Some? then steps[i + |bodies| - 1].name else ""))
    && (fault.None? <==> good && last.None? && i + |bodies| == |steps|)
  }

  lemma {:induction false} RunStepsFacts(em: Emitter, st: State, steps: seq<Step>, i: nat, dry: bool)
    returns (bodies: seq<seq<Event>>)
    requires Accounted(em, st) && i <= |steps| && st.emitFault.None?
    ensures i + |bodies| <= |steps| && (Narrating(steps) ==> forall body <- bodies :: AllBody(body))
    ensures var (after, name, fault) := RunSteps(em, st, steps, i, dry);
      && Accounted(em, after) && after.accepted == st.accepted + StepStream(steps, i, bodies)
      && after.trace == st.trace + RanFrom(steps, i, |bodies|, dry)
      && (after.emitFault.Some? ==> Holds(fault, after.emitFault.value))
    ensures var (after, name, fault) := RunSteps(em, st, steps, i, dry);
      && after.cleanup == st.cleanup + UndosOf(em, steps, i, dry, bodies)
      && after.summary == st.summary + NotesOf(em, steps, i, dry, bodies)
      && Decided(em, steps, i, dry, bodies, after.emitFault.None?, name, fault)
    decreases |steps| - i
  {
    hide *;
    RunStepsIs(em, st, steps, i, dry);
    bodies := [];
    NoBodies(em, steps, i, dry);
    if i == |steps| {
      DecidedNothing(em, steps, dry);
    } else {
      var begun, body := TurnFacts(em, st, steps, i, dry);
      var (after, fault) := Turn(em, st, steps, i, dry);
      if fault.Some? {
        DecidedNow(em, steps, i, dry, begun, body, after.emitFault.None?, fault);
        NoBodies(em, steps, i + 1, dry);
        BodyFirst(em, steps, i, dry, body, []);
        assert [body] + [] == [body];
        bodies := if begun then [body] else [];
      } else {
        NotHeld(after);
        var rest := RunStepsFacts(em, after, steps, i + 1, dry);
        bodies := [body] + rest;
        BodyFirst(em, steps, i, dry, body, rest);
        var (last, name, late) := RunSteps(em, after, steps, i + 1, dry);
        DecidedBefore(em, steps, i, dry, body, rest, last.emitFault.None?, name, late);
      }
    }
  }

  lemma RunStepsIs(em: Emitter, st: State, steps: seq<Step>, i: nat, dry: bool)
    requires i <= |steps|
    ensures RunSteps(em, st, steps, i, dry) ==
      if i == |steps| then (st, "", None)
      else
        var (after, fault) := Turn(em, st, steps, i, dry);
        if fault.Some? then (after, steps[i].name, fault) else RunSteps(em, after, steps, i + 1, dry)
  {
    hide Turn;
  }

  lemma NoBodies(em: Emitter, steps: seq<Step>, i: nat, dry: bool)
    requires i <= |steps|
    ensures StepStream(steps, i, []) == [] && RanFrom(steps, i, 0, dry) == []
    ensures UndosOf(em, steps, i, dry, []) == [] && NotesOf(em, steps, i, dry, []) == []
  {}

  lemma BodyFirst(em: Emitter, steps: seq<Step>, i: nat, dry: bool, body: seq<Event>, rest: seq<seq<Event>>)
    requires i + 1 + |rest| <= |steps|
    ensures var bodies, o := [body] + rest, StepOutcome(em, steps[i], dry, body);
      && StepStream(steps, i, bodies) == [StepStart(i, steps[i].name)] + body + StepStream(steps, i + 1, rest)
      && RanFrom(steps, i, |bodies|, dry)
           == (if Runs(steps[i], dry) then [Ran(i)] else []) + RanFrom(steps, i + 1, |rest|, dry)
      && UndosOf(em, steps, i, dry, bodies) == o.undos + UndosOf(em, steps, i + 1, dry, rest)
      && NotesOf(em, steps, i, dry, bodies) == o.notes + NotesOf(em, steps, i + 1, dry, rest)
  {
    hide StepOutcome, Runs;
    assert ([body] + rest)[1..] == rest;
  }

  lemma NotHeld(st: State)
    ensures st.emitFault.Some? ==> !Holds(None, st.emitFault.value)
  {}

  lemma DecidedNothing(em: Emitter, steps: seq<Step>, dry: bool)
    ensures Decided(em, steps, |steps|, dry, [], true, "", None)
  {}

  lemma DecidedNow(em: Emitter, steps: seq<Step>, i: nat, dry: bool, begun: bool, body: seq<Event>,
                   good: bool, fault: Option<Fault>)
    requires i < |steps| && fault.Some? && (good ==> begun)
    requires begun ==> var own := StepOutcome(em, steps[i], dry, body).fault;
      (own.Some? ==> Holds(fault, own.value)) && (good ==> fault == own)
    ensures Decided(em, steps, i, dry, if begun then [body] else [], good, steps[i].name, fault)
  {
    hide StepOutcome, Holds;
  }

  lemma DecidedBefore(em: Emitter, steps: seq<Step>, i: nat, dry: bool, body: seq<Event>, rest: seq<seq<Event>>,
                      good: bool, name: string, fault: Option<Fault>)
    requires i + 1 + |rest| <= |steps| && StepOutcome(em, steps[i], dry, body).fault.None?
    requires Decided(em, steps, i + 1, dry, rest, good, name, fault)
    ensures Decided(em, steps, i, dry, [body] + rest, good, name, fault)
  {
    hide StepOutcome, Holds;
    var bodies := [body] + rest;
    forall k: nat | 0 < k < |bodies|
      ensures FaultAt(em, steps, i, dry, bodies, k) == FaultAt(em, steps, i + 1, dry, rest, k - 1)
    {
      assert bodies[(k - 1) + 1] == rest[k - 1];
    }
  }

  // ---------- cleanup ----------

  /** The cleanup warnings are the failed undos' errors, in order, as far as the
      emitter takes them; every one of those errors is joined. */
  lemma {:induction false} ReportFacts(em: Emitter, st: State, fault: Option<Fault>, faults: seq<Fault>)
    returns (warnings: seq<Event>)
    requires Accounted(em, st)
    ensures |warnings| <= |faults|
    ensures forall k | 0 <= k < |warnings| :: warnings[k] == Warning(CODE_CLEANUP_FAILED, Message(faults[k]))
    ensures var (after, joined) := Report(em, st, fault, faults);
      && Accounted(em, after) && SameApart(st, after) && after.accepted == st.accepted + warnings
      && (st.emitFault.Some? ==> after == st)
      && (after.emitFault.None? ==> |warnings| == |faults|)
      && joined == JoinAll(fault, faults)
    decreases |faults|
  {
    hide Emit;
    if faults == [] {
      warnings := [];
    } else {
      var line := Warning(CODE_CLEANUP_FAILED, Message(faults[0]));
      EmitFacts(em, st, line);
      var told := if st.emitFault.None? then Emit(em, st, line) else st;
      var rest := ReportFacts(em, told, Join(fault, Some(faults[0])), faults[1..]);
      warnings := (if told.emitFault.None? then [line] else []) + rest;
      assert told.emitFault.Some? ==> rest == [];
    }
  }
}
