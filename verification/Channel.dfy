/** The in-process progress channel (internal/progress/channel.go) and the three
    goroutines around it: pipeline, view and drain (cmd/firn/tui.go). */
module Channel {
  import opened Text
  import opened Progress

  datatype Verdict = Delivered | EmitterClosed | AfterTerminal

  /** A Go channel of capacity `cap`. A sender that finds the buffer full waits with its
      event as element number cap + 1, so it may go on once |queue| <= cap. */
  datatype Chan = Chan(cap: nat, queue: seq<Event>, closed: bool, terminal: bool)

  function Refusal(c: Chan): Option<Verdict> {
    if c.closed then Some(EmitterClosed) else if c.terminal then Some(AfterTerminal) else None
  }

  /** The sender's event joins the queue, in the buffer or in the send. */
  function Begun(c: Chan, e: Event): Chan {
    c.(queue := c.queue + [e])
  }

  /** The send is over. */
  function Sent(c: Chan, e: Event): Chan {
    c.(terminal := c.terminal || IsTerminal(e))
  }

  function Received(c: Chan): (Event, Chan)
    requires c.queue != []
  {
    (c.queue[0], c.(queue := c.queue[1..]))
  }

  function Shut(c: Chan): Chan {
    c.(closed := true)
  }

  class Channel {
    const cap: nat
    var queue: seq<Event>
    var closed: bool
    var terminal: bool

    ghost function View(): Chan
      reads this
    {
      Chan(cap, queue, closed, terminal)
    }

    constructor (buf: nat)
      ensures View() == Chan(buf, [], false, false)
    {
      cap, queue, closed, terminal := buf, [], false, false;
    }

    /** Emit up to its send: refused, or waiting for room. */
    method BeginEmit(e: Event) returns (refused: Option<Verdict>)
      modifies this`queue
      ensures refused == Refusal(old(View()))
      ensures refused == Some(EmitterClosed) <==> old(closed)
      ensures refused == Some(AfterTerminal) <==> !old(closed) && old(terminal)
      ensures View() == if refused.Some? then old(View()) else Begun(old(View()), e)
    {
      if closed {
        return Some(EmitterClosed);
      }
      if terminal {
        return Some(AfterTerminal);
      }
      queue := queue + [e];
      refused := None;
    }

    /** Emit from its send on. */
    method FinishEmit(e: Event)
      requires |queue| <= cap
      modifies this`terminal
      ensures View() == Sent(old(View()), e)
    {
      if IsTerminal(e) {
        terminal := true;
      }
    }

    method Receive() returns (e: Event)
      requires queue != []
      modifies this`queue
      ensures (e, View()) == Received(old(View())) && [e] + queue == old(queue)
    {
      e := queue[0];
      queue := queue[1..];
    }

    /** Close, any number of times. */
    method Close() returns (truncated: bool)
      modifies this`closed
      ensures View() == Shut(old(View())) && truncated == !terminal
    {
      if !closed {
        closed := true;
      }
      truncated := !terminal;
    }
  }

  // ---------- what the stream should be ----------

  predicate HasTerminal(es: seq<Event>) {
    exists e <- es :: IsTerminal(e)
  }

  /** The events up to and including the first terminal one. */
  function UpToTerminal(es: seq<Event>): seq<Event> {
    if es == [] then []
    else if IsTerminal(es[0]) then [es[0]]
    else [es[0]] + UpToTerminal(es[1..])
  }

  lemma {:induction false} UpToTerminalSnoc(es: seq<Event>, e: Event)
    ensures HasTerminal(es + [e]) <==> HasTerminal(es) || IsTerminal(e)
    ensures UpToTerminal(es + [e]) == if HasTerminal(es) then UpToTerminal(es) else UpToTerminal(es) + [e]
  {
    assert forall x :: x in es + [e] <==> x in es || x == e;
    if es != [] {
      UpToTerminalSnoc(es[1..], e);
      assert es == [es[0]] + es[1..];
      assert (es + [e])[1..] == es[1..] + [e];
      assert HasTerminal(es) <==> IsTerminal(es[0]) || HasTerminal(es[1..]);
    }
  }

  // ---------- the three goroutines ----------

  /** `todo` is what the pipeline still means to emit and `offered` what it has offered;
      `sending` says that it is inside a send. `reported` is its result on pipeDone,
      `truncated` what its Close returned. `ended` and `returned` are the drain's and
      the main goroutine's ends. */
  datatype System = System(
    ch: Chan, todo: seq<Event>, offered: seq<Event>, sending: bool, verdicts: seq<Verdict>,
    reported: bool, truncated: Option<bool>,
    viewing: bool, seen: seq<Event>, drained: seq<Event>, ended: bool, returned: bool)

  datatype Action =
    | Offer | Resume | Report | CloseStream
    | ViewTake | ViewStop
    | DrainTake | DrainEnd
    | MainReturn

  function Started(cap: nat, script: seq<Event>): System {
    System(Chan(cap, [], false, false), script, [], false, [], false, None, true, [], [], false, false)
  }

  predicate Enabled(s: System, a: Action) {
    match a
    case Offer => !s.sending && s.todo != []
    case Resume => s.sending && |s.ch.queue| <= s.ch.cap
    case Report => !s.sending && s.todo == [] && !s.reported
    case CloseStream => s.reported && s.truncated.None?
    case ViewTake => s.viewing && s.ch.queue != []
    case ViewStop => s.viewing
    case DrainTake => !s.viewing && !s.ended && s.ch.queue != []
    case DrainEnd => !s.viewing && !s.ended && s.ch.queue == [] && s.ch.closed
    case MainReturn => !s.viewing && s.reported && !s.returned
  }

  function Apply(s: System, a: Action): (t: System)
    requires s.sending ==> s.offered != []
    ensures t.sending ==> t.offered != []
  {
    if !Enabled(s, a) then s
    else
      var c := s.ch;
      match a
      case Offer =>
        var e, refused := s.todo[0], Refusal(c);
        var t := s.(todo := s.todo[1..], offered := s.offered + [e]);
        if refused.Some? then t.(verdicts := s.verdicts + [refused.value])
        else t.(ch := Begun(c, e), sending := true)
      case Resume =>
        var e := s.offered[|s.offered| - 1];
        s.(ch := Sent(c, e), sending := false, verdicts := s.verdicts + [Delivered])
      case Report => s.(reported := true)
      case CloseStream => s.(ch := Shut(c), truncated := Some(!c.terminal))
      case ViewTake =>
        var (e, rest) := Received(c);
        s.(ch := rest, seen := s.seen + [e])
      case ViewStop => s.(viewing := false)
      case DrainTake =>
        var (e, rest) := Received(c);
        s.(ch := rest, drained := s.drained + [e])
      case DrainEnd => s.(ended := true)
      case MainReturn => s.(returned := true)
  }

  function ApplyAll(s: System, actions: seq<Action>): System
    requires s.sending ==> s.offered != []
    decreases |actions|
  {
    if actions == [] then s else ApplyAll(Apply(s, actions[0]), actions[1..])
  }

  // ---------- safety ----------

  ghost predicate Consistent(s: System, cap: nat, script: seq<Event>) {
    && s.ch.cap == cap
    && s.offered + s.todo == script
    && s.seen + s.drained + s.ch.queue == UpToTerminal(s.offered)
    && |s.ch.queue| <= cap + (if s.sending then 1 else 0)
    && (s.viewing ==> s.drained == [] && !s.ended && !s.returned)
  }

  ghost predicate Latched(s: System) {
    && (s.sending ==> s.offered != [] && !HasTerminal(s.offered[..|s.offered| - 1]) && !s.ch.terminal)
    && (!s.sending ==> (s.ch.terminal <==> HasTerminal(s.offered)))
    && |s.verdicts| == |s.offered| - (if s.sending then 1 else 0)
    && (forall k | 0 <= k < |s.verdicts| ::
          s.verdicts[k] == if HasTerminal(s.offered[..k]) then AfterTerminal else Delivered)
  }

  ghost predicate Ordered(s: System) {
    && (s.reported ==> s.todo == [] && !s.sending)
    && (s.ch.closed <==> s.truncated.Some?)
    && (s.ch.closed ==> s.reported)
    && (s.truncated.Some? ==> s.truncated.value == !HasTerminal(s.offered))
    && (s.ended ==> s.ch.queue == [] && s.ch.closed)
    && (s.returned ==> s.reported)
  }

  ghost predicate Inv(s: System, cap: nat, script: seq<Event>) {
    Consistent(s, cap, script) && Latched(s) && Ordered(s)
  }

  lemma ConsistentStep(s: System, cap: nat, script: seq<Event>, a: Action)
    requires Inv(s, cap, script)
    ensures Consistent(Apply(s, a), cap, script)
  {
    hide UpToTerminal, HasTerminal;
    if a.Offer? && Enabled(s, a) {
      UpToTerminalSnoc(s.offered, s.todo[0]);
      assert s.offered + [s.todo[0]] + s.todo[1..] == s.offered + s.todo;
    } else if (a.ViewTake? || a.DrainTake?) && Enabled(s, a) {
      assert s.ch.queue == [s.ch.queue[0]] + s.ch.queue[1..];
    }
  }

  lemma LatchedStep(s: System, cap: nat, script: seq<Event>, a: Action)
    requires Inv(s, cap, script)
    ensures Latched(Apply(s, a))
  {
    hide UpToTerminal, HasTerminal;
    var n := |s.offered|;
    if a.Offer? && Enabled(s, a) {
      UpToTerminalSnoc(s.offered, s.todo[0]);
      var longer := s.offered + [s.todo[0]];
      assert longer[..n] == s.offered;
      forall k | 0 <= k < n ensures longer[..k] == s.offered[..k] {
      }
    } else if a.Resume? && Enabled(s, a) {
      UpToTerminalSnoc(s.offered[..n - 1], s.offered[n - 1]);
      assert s.offered == s.offered[..n - 1] + [s.offered[n - 1]];
    }
  }

  lemma OrderedStep(s: System, cap: nat, script: seq<Event>, a: Action)
    requires Inv(s, cap, script)
    ensures Ordered(Apply(s, a))
  {
    hide UpToTerminal, HasTerminal;
  }

  lemma {:induction false} InvHolds(s: System, cap: nat, script: seq<Event>, actions: seq<Action>)
    requires Inv(s, cap, script)
    ensures Inv(ApplyAll(s, actions), cap, script)
    decreases |actions|
  {
    hide Consistent, Ordered, Apply;
    if actions != [] {
      ConsistentStep(s, cap, script, actions[0]);
      LatchedStep(s, cap, script, actions[0]);
      OrderedStep(s, cap, script, actions[0]);
      InvHolds(Apply(s, actions[0]), cap, script, actions[1..]);
    }
  }

  /** In every interleaving what leaves the channel is, in order, the start of the
      pipeline's events up to the first terminal one; an Emit fails exactly after a
      terminal event; and Close reports truncation exactly when there was none. */
  lemma EveryInterleaving(cap: nat, script: seq<Event>, actions: seq<Action>)
    ensures var s := ApplyAll(Started(cap, script), actions);
      && s.seen + s.drained + s.ch.queue <= UpToTerminal(script)
      && |s.ch.queue| <= cap + 1 && |s.verdicts| <= |script|
      && (forall k | 0 <= k < |s.verdicts| ::
            s.verdicts[k] == if HasTerminal(script[..k]) then AfterTerminal else Delivered)
      && (s.truncated.Some? ==> s.truncated.value == !HasTerminal(script))
      && (s.ended ==> s.seen + s.drained == UpToTerminal(script))
  {
    hide UpToTerminal, HasTerminal;
    var s0 := Started(cap, script);
    assert Inv(s0, cap, script) by {
      StartedInv(cap, script);
    }
    InvHolds(s0, cap, script, actions);
    var s := ApplyAll(s0, actions);
    UpToTerminalGrows(s.offered, s.todo);
    assert s.todo == [] ==> s.offered == script;
    forall k | 0 <= k < |s.verdicts| ensures script[..k] == s.offered[..k] {
    }
  }

  lemma StartedInv(cap: nat, script: seq<Event>)
    ensures Inv(Started(cap, script), cap, script)
  {
    assert [] + script == script;
  }

  lemma {:induction false} UpToTerminalGrows(es: seq<Event>, more: seq<Event>)
    ensures UpToTerminal(es) <= UpToTerminal(es + more)
  {
    if es != [] {
      UpToTerminalGrows(es[1..], more);
      assert (es + more)[1..] == es[1..] + more;
    }
  }

  // ---------- the end ----------

  function Flag(b: bool): nat {
    if b then 1 else 0
  }

  /** Events left to emit and events buffered, and the few ends still to come. */
  function Measure(s: System): nat {
    3 * |s.todo| + |s.ch.queue| + Flag(s.sending) + Flag(!s.reported) + Flag(s.truncated.None?)
    + Flag(s.viewing) + Flag(!s.ended) + Flag(!s.returned)
  }

  predicate Finished(s: System) {
    s.todo == [] && !s.sending && s.truncated.Some? && s.ended && s.returned
  }

  /** Once the view has stopped, whatever its reason, some goroutine can go on until the
      pipeline has reported and closed, the channel is drained and main has returned. */
  lemma NeverStuck(s: System, cap: nat, script: seq<Event>)
    requires Inv(s, cap, script) && !s.viewing
    ensures Finished(s) || Enabled(s, Offer) || Enabled(s, Resume) || Enabled(s, Report)
      || Enabled(s, CloseStream) || Enabled(s, DrainTake) || Enabled(s, DrainEnd) || Enabled(s, MainReturn)
  {
    hide UpToTerminal, HasTerminal;
  }

  predicate AllEnabled(s: System, actions: seq<Action>)
    requires s.sending ==> s.offered != []
    decreases |actions|
  {
    actions == [] || (Enabled(s, actions[0]) && AllEnabled(Apply(s, actions[0]), actions[1..]))
  }

  lemma MeasureDrops(s: System, a: Action)
    requires (s.sending ==> s.offered != []) && Enabled(s, a)
    ensures Measure(Apply(s, a)) < Measure(s)
  {}

  /** Every action uses up some of the measure, so no schedule goes on for ever. */
  lemma {:induction false} Bounded(s: System, actions: seq<Action>)
    requires (s.sending ==> s.offered != []) && AllEnabled(s, actions)
    ensures |actions| + Measure(ApplyAll(s, actions)) <= Measure(s)
    decreases |actions|
  {
    hide Apply, Measure, Enabled;
    if actions != [] {
      MeasureDrops(s, actions[0]);
      Bounded(Apply(s, actions[0]), actions[1..]);
    }
  }

  lemma StuckIsFinished(s: System, cap: nat, script: seq<Event>)
    requires Inv(s, cap, script) && forall a :: !Enabled(s, a)
    ensures Finished(s)
  {
    hide Inv;
    assert !s.viewing by {
      assert !Enabled(s, ViewStop);
    }
    NeverStuck(s, cap, script);
  }

  /** A schedule that can no longer be extended has finished: every accepted event was
      removed, the stream is closed and the pipeline's result was awaited. */
  lemma WhereSchedulesEnd(cap: nat, script: seq<Event>, actions: seq<Action>)
    requires AllEnabled(Started(cap, script), actions)
    requires forall a :: !Enabled(ApplyAll(Started(cap, script), actions), a)
    ensures var s := ApplyAll(Started(cap, script), actions);
      Finished(s) && s.seen + s.drained == UpToTerminal(script) && |actions| <= 3 * |script| + 5
  {
    hide UpToTerminal, HasTerminal, Consistent, Latched, Ordered, Apply, ApplyAll, AllEnabled;
    var s0 := Started(cap, script);
    StartedInv(cap, script);
    InvHolds(s0, cap, script, actions);
    StuckIsFinished(ApplyAll(s0, actions), cap, script);
    Bounded(s0, actions);
    EveryInterleaving(cap, script, actions);
  }

  lemma {:induction false} FillsUp(cap: nat, script: seq<Event>, n: nat)
    requires n <= cap && n < |script| && !HasTerminal(script[..n])
    ensures var s := ApplyAll(Started(cap, script), Pairs(n));
      s == Started(cap, script).(
        ch := Chan(cap, script[..n], false, false), todo := script[n..], offered := script[..n],
        verdicts := seq(n, _ => Delivered))
    decreases n
  {
    hide Apply, HasTerminal;
    var s0 := Started(cap, script);
    if n == 0 {
      assert script[0..] == script && script[..0] == [];
    } else {
      NotTerminalYet(script, n);
      FillsUp(cap, script, n - 1);
      Concat(s0, Pairs(n - 1), [Offer, Resume]);
      var s := ApplyAll(s0, Pairs(n - 1));
      OneSend(s);
      assert script[..n - 1] + [script[n - 1]] == script[..n];
      assert script[n - 1..][1..] == script[n..];
      assert s.verdicts + [Delivered] == seq(n, _ => Delivered);
    }
  }

  lemma NotTerminalYet(script: seq<Event>, n: nat)
    requires 0 < n <= |script| && !HasTerminal(script[..n])
    ensures !HasTerminal(script[..n - 1]) && !IsTerminal(script[n - 1])
  {
    assert script[n - 1] in script[..n];
    assert forall e <- script[..n - 1] :: e in script[..n];
  }

  /** An event sent into a buffer with room. */
  lemma OneSend(s: System)
    requires !s.sending && s.todo != [] && !s.ch.closed && !s.ch.terminal && |s.ch.queue| < s.ch.cap
    requires !IsTerminal(s.todo[0])
    ensures ApplyAll(s, [Offer, Resume]) == s.(
        ch := s.ch.(queue := s.ch.queue + [s.todo[0]]), todo := s.todo[1..], offered := s.offered + [s.todo[0]],
        verdicts := s.verdicts + [Delivered])
  {
    var t := Apply(s, Offer);
    assert [Offer, Resume][1..] == [Resume];
    assert t.offered[|t.offered| - 1] == s.todo[0];
  }

  function Pairs(n: nat): seq<Action> {
    if n == 0 then [] else Pairs(n - 1) + [Offer, Resume]
  }

  lemma {:induction false} Concat(s: System, xs: seq<Action>, ys: seq<Action>)
    requires s.sending ==> s.offered != []
    ensures (var t := ApplyAll(s, xs); t.sending ==> t.offered != [])
    ensures ApplyAll(s, xs + ys) == ApplyAll(ApplyAll(s, xs), ys)
    decreases |xs|
  {
    if xs == [] {
      assert xs + ys == ys;
    } else {
      Concat(Apply(s, xs[0]), xs[1..], ys);
      assert (xs + ys)[1..] == xs[1..] + ys;
    }
  }

  /** Without the drain the pipeline would hang: once the view has stopped reading, one event
      more than the buffer holds leaves it inside a send for good. */
  lemma HangsWithoutDrain(cap: nat, script: seq<Event>)
    requires |script| > cap && !HasTerminal(script[..cap])
    ensures var s := ApplyAll(Started(cap, script), Pairs(cap) + [Offer, ViewStop]);
      && s.sending && !s.reported && !s.viewing
      && (forall a | Enabled(s, a) :: a == DrainTake)
  {
    FillsUp(cap, script, cap);
    var s0 := Started(cap, script);
    Concat(s0, Pairs(cap), [Offer, ViewStop]);
    var s := ApplyAll(s0, Pairs(cap));
    assert [Offer, ViewStop][1..] == [ViewStop];
    var t := Apply(s, Offer);
    assert ApplyAll(s, [Offer, ViewStop]) == Apply(t, ViewStop);
  }
}
