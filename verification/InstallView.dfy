/** The terminal install view (internal/tui/installview.go): a model and the messages
    that update it, and Bubble Tea's loop around it. */
module InstallView {
  import opened Text
  import opened Progress

  const TAIL_LEN := 5
  const STREAM_CLOSED := "progress stream closed before a terminal event"

  datatype TailLine = TailLine(warning: bool, code: string, text: string)

  datatype InstallResult = InstallResult(
    done: bool, failed: bool, failedStep: string, errorCode: string, errorMessage: string,
    summary: seq<SummaryItem>, recoveryKey: string)

  /** `currentIndex` is -1 until the first step_start. */
  datatype InstallModel = InstallModel(
    steps: seq<StepInfo>, totalWeight: int, currentIndex: int, currentName: string, stepFraction: real,
    tail: seq<TailLine>, deprecations: seq<TailLine>,
    gated: bool, canceling: bool, finished: bool, result: InstallResult)

  datatype Key = CtrlC | Enter | OtherKey

  datatype Msg = Resized | Pressed(key: Key) | EventMsg(event: Event) | ChannelClosed

  /** What Update asks of the loop: nothing, one more read of the channel, or to quit. */
  datatype Cmd = Nothing | WaitForEvent | Quit

  const NEW_RESULT := InstallResult(false, false, "", "", "", [], "")

  const NEW_MODEL := InstallModel([], 0, -1, "", 0.0, [], [], false, false, false, NEW_RESULT)

  function WeightOf(steps: seq<StepInfo>): int {
    if steps == [] then 0 else WeightOf(steps[..|steps| - 1]) + steps[|steps| - 1].weight
  }

  function PushTail(tail: seq<TailLine>, line: TailLine): seq<TailLine> {
    var longer := tail + [line];
    if |longer| > TAIL_LEN then longer[|longer| - TAIL_LEN..] else longer
  }

  function Capped(f: real): real {
    if f < 1.0 then f else 1.0
  }

  function Clamped(f: real): real {
    Capped(if f > 0.0 then f else 0.0)
  }

  /** The fraction a step_progress carries here: bytes first, and those only capped. */
  function TuiFraction(e: Event): real
    requires e.StepProgress?
  {
    if e.totalBytes > 0 then Capped(e.bytes as real / e.totalBytes as real) else Clamped(e.fraction)
  }

  predicate IsDeprecation(code: string) {
    code == CODE_RECIPE_V1_DEPRECATED
  }

  function Finish(m: InstallModel): (InstallModel, Cmd) {
    (m.(finished := true), Nothing)
  }

  function HandleEvent(m: InstallModel, e: Event): (InstallModel, Cmd) {
    match e
    case Start(steps) => (m.(steps := steps, totalWeight := WeightOf(steps)), WaitForEvent)
    case StepStart(index, name) =>
      (m.(currentIndex := index, currentName := name, stepFraction := 0.0), WaitForEvent)
    case StepProgress(index, _, _, _) =>
      (if index == m.currentIndex then m.(stepFraction := TuiFraction(e)) else m, WaitForEvent)
    case Info(message) => (m.(tail := PushTail(m.tail, TailLine(false, "", message))), WaitForEvent)
    case Warning(code, message) =>
      var line := TailLine(true, code, message);
      var told := m.(tail := PushTail(m.tail, line));
      (if IsDeprecation(code) then told.(deprecations := m.deprecations + [line]) else told,
       WaitForEvent)
    case Summary(items) => (m.(result := m.result.(summary := items)), WaitForEvent)
    case RecoveryKey(key) => (m.(result := m.result.(recoveryKey := key), gated := true), WaitForEvent)
    case Done => Finish(m.(result := m.result.(done := true)))
    case Error(step, code, message) =>
      Finish(m.(result := m.result.(failed := true, failedStep := step, errorCode := code, errorMessage := message)))
  }

  function Truncated(m: InstallModel): InstallResult {
    m.result.(failed := true, failedStep := m.currentName, errorCode := CODE_STREAM_TRUNCATED,
              errorMessage := STREAM_CLOSED)
  }

  /** The new model, the command, and whether the pipeline was told to cancel. */
  function Update(m: InstallModel, msg: Msg): (InstallModel, Cmd, bool) {
    match msg
    case Resized => (m, Nothing, false)
    case Pressed(key) =>
      if m.finished && !m.gated then (m, Quit, false)
      else if key.CtrlC? then (m.(canceling := true), Nothing, !m.canceling)
      else if m.gated && key.Enter? then
        (m.(gated := false, result := m.result.(recoveryKey := "")), Nothing, false)
      else (m, Nothing, false)
    case EventMsg(e) =>
      var (n, cmd) := HandleEvent(m, e);
      (n, cmd, false)
    case ChannelClosed =>
      var r := m.result;
      (m.(result := if !r.done && !r.failed then Truncated(m) else r, finished := true), Nothing, false)
  }

  /** overallFraction's loop over the steps before the current one. */
  method OverallFraction(m: InstallModel) returns (f: real)
    ensures f == Overall(m)
  {
    if m.result.done {
      return 1.0;
    }
    if m.totalWeight == 0 || m.currentIndex < 0 {
      return 0.0;
    }
    var done := 0;
    var i := 0;
    while i < |m.steps| && i < m.currentIndex
      invariant 0 <= i <= |m.steps| && i <= m.currentIndex
      invariant done == WeightOf(m.steps[..i])
    {
      assert m.steps[..i + 1][..i] == m.steps[..i];
      done := done + m.steps[i].weight;
      i := i + 1;
    }
    assert m.steps[..|m.steps|] == m.steps;
    var current := 0.0;
    if m.currentIndex < |m.steps| {
      current := m.stepFraction * m.steps[m.currentIndex].weight as real;
    }
    f := (done as real + current) / m.totalWeight as real;
  }

  /** A fraction of a step's weight. */
  function Share(fraction: real, weight: int): real {
    fraction * weight as real
  }

  /** The weight of the steps before `index`, plus the given part of that step. */
  function Covered(steps: seq<StepInfo>, index: int, fraction: real): real
    requires index >= 0
  {
    if index < |steps| then WeightOf(steps[..index]) as real + Share(fraction, steps[index].weight)
    else WeightOf(steps) as real
  }

  function Overall(m: InstallModel): real {
    if m.result.done then 1.0
    else if m.totalWeight == 0 || m.currentIndex < 0 then 0.0
    else (assert m.steps[..|m.steps|] == m.steps;
          Covered(m.steps, m.currentIndex, m.stepFraction) / m.totalWeight as real)
  }

  // ---------- the loop ----------

  /** The model, the channel reads still outstanding, whether the view has quit, how often
      the pipeline was cancelled, and the events handled. */
  datatype Loop = Loop(model: InstallModel, outstanding: nat, quit: bool, cancels: nat, handled: seq<Event>)

  const LAUNCHED := Loop(NEW_MODEL, 1, false, 0, [])

  /** The channel answers a read only if one is outstanding; nothing follows a quit. */
  predicate Deliverable(l: Loop, msg: Msg) {
    !l.quit && (msg.EventMsg? || msg.ChannelClosed? ==> l.outstanding > 0)
  }

  function Deliver(l: Loop, msg: Msg): Loop {
    if !Deliverable(l, msg) then l
    else
      var (model, cmd, cancelled) := Update(l.model, msg);
      var answered := msg.EventMsg? || msg.ChannelClosed?;
      Loop(model,
           l.outstanding - (if answered then 1 else 0) + (if cmd.WaitForEvent? then 1 else 0),
           cmd.Quit?,
           l.cancels + (if cancelled then 1 else 0),
           if msg.EventMsg? then l.handled + [msg.event] else l.handled)
  }

  function DeliverAll(l: Loop, msgs: seq<Msg>): Loop {
    if msgs == [] then l else Deliver(DeliverAll(l, msgs[..|msgs| - 1]), msgs[|msgs| - 1])
  }

  ghost predicate Sane(l: Loop) {
    var m := l.model;
    && l.outstanding == (if m.finished then 0 else 1)
    && (m.finished <==> m.result.done || m.result.failed) && !(m.result.done && m.result.failed)
    && (!m.gated ==> m.result.recoveryKey == "")
    && l.cancels == (if m.canceling then 1 else 0)
    && (l.quit ==> m.finished && !m.gated)
  }

  /** Over every sequence of messages: at most one channel read is outstanding and none once
      finished; a finished view is exactly one of Done and Failed; it quits only finished
      and past the recovery gate, with no key left; and it cancels at most once. */
  lemma {:induction false} EveryMessageSequence(msgs: seq<Msg>)
    ensures var l := DeliverAll(LAUNCHED, msgs);
      && Sane(l) && l.outstanding <= 1 && l.cancels <= 1
      && (l.quit ==> l.model.finished && l.model.result.recoveryKey == "")
  {
    if msgs != [] {
      EveryMessageSequence(msgs[..|msgs| - 1]);
      SaneStep(DeliverAll(LAUNCHED, msgs[..|msgs| - 1]), msgs[|msgs| - 1]);
    }
  }

  lemma SaneStep(l: Loop, msg: Msg)
    requires Sane(l)
    ensures Sane(Deliver(l, msg))
  {
    hide PushTail, TuiFraction, WeightOf, IsDeprecation;
  }

  /** No message sequence can trap the user: Enter and then any key leave a finished view. */
  lemma TwoKeysLeave(msgs: seq<Msg>, key: Key)
    requires var l := DeliverAll(LAUNCHED, msgs); l.model.finished && !l.quit
    ensures DeliverAll(LAUNCHED, msgs + [Pressed(Enter), Pressed(key)]).quit
  {
    var two := msgs + [Pressed(Enter), Pressed(key)];
    assert two[..|two| - 1] == msgs + [Pressed(Enter)];
    assert (msgs + [Pressed(Enter)])[..|msgs|] == msgs;
    EveryMessageSequence(msgs);
  }

  // ---------- the recovery key, the cancelling and the outcome ----------

  predicate Ends(msg: Msg) {
    msg.ChannelClosed? || (msg.EventMsg? && IsTerminal(msg.event))
  }

  /** Nothing among the first `i` messages ends the stream. */
  ghost predicate OpenUpTo(msgs: seq<Msg>, i: nat)
    requires i <= |msgs|
  {
    forall j | 0 <= j < i :: !Ends(msgs[j])
  }

  ghost predicate Received(msgs: seq<Msg>, i: nat) {
    i < |msgs| && msgs[i].EventMsg? && OpenUpTo(msgs, i)
  }

  ghost predicate KeyArrives(msgs: seq<Msg>, i: nat): (arrives: bool)
    ensures arrives ==> i < |msgs| && msgs[i].EventMsg? && msgs[i].event.RecoveryKey?
  {
    Received(msgs, i) && msgs[i].event.RecoveryKey?
  }

  /** The message at `i` brought the last recovery key, and Enter was not pressed since. */
  ghost predicate KeyWaits(msgs: seq<Msg>, i: nat) {
    KeyArrives(msgs, i) && forall j: nat | i < j < |msgs| :: msgs[j] != Pressed(Enter) && !KeyArrives(msgs, j)
  }

  lemma {:induction false} FinishedExactlyWhen(msgs: seq<Msg>)
    ensures DeliverAll(LAUNCHED, msgs).model.finished <==> !OpenUpTo(msgs, |msgs|)
  {
    hide Deliver;
    if msgs != [] {
      var n := |msgs| - 1;
      var before := msgs[..n];
      FinishedExactlyWhen(before);
      EveryMessageSequence(before);
      assert forall j | 0 <= j < n :: msgs[j] == before[j];
      FinishStep(DeliverAll(LAUNCHED, before), msgs[n]);
    }
  }

  lemma FinishStep(l: Loop, msg: Msg)
    requires Sane(l)
    ensures Deliver(l, msg).model.finished <==> l.model.finished || Ends(msg)
  {
    hide PushTail, TuiFraction, WeightOf, IsDeprecation;
  }

  /** Over every sequence of messages the gate is up exactly while a recovery key waits for
      Enter; the view then still holds the last key, and has not quit. */
  lemma {:induction false} KeyIsKept(msgs: seq<Msg>)
    ensures var l := DeliverAll(LAUNCHED, msgs);
      && (l.model.gated <==> exists i: nat :: KeyWaits(msgs, i))
      && forall i: nat | KeyWaits(msgs, i) :: l.model.result.recoveryKey == msgs[i].event.key && !l.quit
  {
    hide Deliver, KeyArrives;
    if msgs != [] {
      var n := |msgs| - 1;
      var before, msg := msgs[..n], msgs[n];
      KeyIsKept(before);
      EveryMessageSequence(before);
      FinishedExactlyWhen(before);
      forall i: nat ensures i < n ==> (KeyArrives(msgs, i) <==> KeyArrives(before, i)) {
        ArrivedEarlier(msgs, i);
      }
      ArrivesNow(msgs);
      KeyStep(DeliverAll(LAUNCHED, before), msg);
      forall i: nat ensures KeyWaits(msgs, i) <==>
        || (i == n && KeyArrives(msgs, n))
        || (i < n && KeyWaits(before, i) && msg != Pressed(Enter) && !KeyArrives(msgs, n))
      {
        WaitsOn(msgs, i);
      }
      if exists i: nat :: KeyWaits(before, i) {
        var i: nat :| KeyWaits(before, i);
        assert i < n && before[i] == msgs[i];
        assert KeyWaits(msgs, i) <==> msg != Pressed(Enter) && !KeyArrives(msgs, n);
      }
      assert KeyWaits(msgs, n) <==> KeyArrives(msgs, n);
    }
  }

  lemma ArrivedEarlier(msgs: seq<Msg>, i: nat)
    requires msgs != []
    ensures i < |msgs| - 1 ==> (KeyArrives(msgs, i) <==> KeyArrives(msgs[..|msgs| - 1], i))
    ensures i >= |msgs| - 1 ==> !KeyArrives(msgs[..|msgs| - 1], i)
  {}

  lemma ArrivesNow(msgs: seq<Msg>)
    requires msgs != []
    ensures var n := |msgs| - 1;
      KeyArrives(msgs, n) <==> OpenUpTo(msgs[..n], n) && msgs[n].EventMsg? && msgs[n].event.RecoveryKey?
  {}

  lemma WaitsOn(msgs: seq<Msg>, i: nat)
    requires msgs != []
    requires forall j: nat :: j < |msgs| - 1 ==> (KeyArrives(msgs, j) <==> KeyArrives(msgs[..|msgs| - 1], j))
    ensures var n := |msgs| - 1;
      KeyWaits(msgs, i) <==>
        || (i == n && KeyArrives(msgs, n))
        || (i < n && KeyWaits(msgs[..n], i) && msgs[n] != Pressed(Enter) && !KeyArrives(msgs, n))
  {
    var n := |msgs| - 1;
    assert forall j | 0 <= j < n :: msgs[j] == msgs[..n][j];
    assert i >= |msgs| ==> !KeyArrives(msgs, i);
  }

  lemma KeyStep(l: Loop, msg: Msg)
    requires Sane(l)
    ensures var k := Deliver(l, msg);
      if !l.model.finished && msg.EventMsg? && msg.event.RecoveryKey? then
        k.model.gated && k.model.result.recoveryKey == msg.event.key && !k.quit
      else if l.model.gated then
        if msg == Pressed(Enter) then !k.model.gated
        else k.model.gated && k.model.result.recoveryKey == l.model.result.recoveryKey && !k.quit
      else !k.model.gated
  {
    hide PushTail, TuiFraction, WeightOf, IsDeprecation;
  }

  /** Ctrl-C cancels the pipeline if it is pressed before the stream has ended, and nothing
      else ever does. */
  lemma {:induction false} CtrlCCancels(msgs: seq<Msg>)
    ensures var l := DeliverAll(LAUNCHED, msgs);
      && (forall i: nat | i < |msgs| && msgs[i] == Pressed(CtrlC) && OpenUpTo(msgs, i) :: l.cancels == 1)
      && (l.cancels > 0 ==> exists i: nat :: i < |msgs| && msgs[i] == Pressed(CtrlC))
  {
    hide Deliver;
    if msgs != [] {
      var n := |msgs| - 1;
      var before := msgs[..n];
      CtrlCCancels(before);
      EveryMessageSequence(before);
      FinishedExactlyWhen(before);
      CancelStep(DeliverAll(LAUNCHED, before), msgs[n]);
      forall i: nat | i < |msgs| && msgs[i] == Pressed(CtrlC) && OpenUpTo(msgs, i)
        ensures DeliverAll(LAUNCHED, msgs).cancels == 1
      {
        if i < n {
          assert before[i] == Pressed(CtrlC) && OpenUpTo(before, i);
        } else {
          assert OpenUpTo(before, n);
        }
      }
      if DeliverAll(LAUNCHED, before).cancels > 0 {
        var i: nat :| i < |before| && before[i] == Pressed(CtrlC);
        assert msgs[i] == Pressed(CtrlC);
      }
    }
  }

  lemma CancelStep(l: Loop, msg: Msg)
    requires Sane(l)
    ensures var k := Deliver(l, msg);
      && (l.cancels == 1 ==> k.cancels == 1)
      && (msg == Pressed(CtrlC) && !l.model.finished ==> k.cancels == 1)
      && (msg != Pressed(CtrlC) ==> k.cancels == l.cancels)
  {
    hide PushTail, TuiFraction, WeightOf, IsDeprecation;
  }

  /** The last step_start among the first `i` messages is the one at `k`. */
  ghost predicate BegunLast(msgs: seq<Msg>, i: nat, k: nat): (last: bool)
    requires i <= |msgs|
    ensures last ==> k < i && msgs[k].EventMsg? && msgs[k].event.StepStart?
  {
    && k < i && msgs[k].EventMsg? && msgs[k].event.StepStart?
    && forall j | k < j < i :: !(msgs[j].EventMsg? && msgs[j].event.StepStart?)
  }

  lemma {:induction false} NameIsOfTheLast(msgs: seq<Msg>)
    requires OpenUpTo(msgs, |msgs|)
    ensures var name, n := DeliverAll(LAUNCHED, msgs).model.currentName, |msgs|;
      && (forall k: nat | BegunLast(msgs, n, k) :: name == msgs[k].event.name)
      && ((forall k: nat :: !BegunLast(msgs, n, k)) ==> name == "")
  {
    hide Deliver;
    if msgs != [] {
      var n := |msgs| - 1;
      var before := msgs[..n];
      assert forall j | 0 <= j < n :: before[j] == msgs[j];
      NameIsOfTheLast(before);
      EveryMessageSequence(before);
      FinishedExactlyWhen(before);
      NameStep(DeliverAll(LAUNCHED, before), msgs[n]);
      if msgs[n].EventMsg? && msgs[n].event.StepStart? {
        assert BegunLast(msgs, n + 1, n);
      } else {
        assert forall k: nat :: BegunLast(msgs, n + 1, k) <==> BegunLast(before, n, k);
      }
    }
  }

  lemma NameStep(l: Loop, msg: Msg)
    requires Sane(l) && !l.model.finished
    ensures Deliver(l, msg).model.currentName ==
      if msg.EventMsg? && msg.event.StepStart? then msg.event.name else l.model.currentName
  {
    hide PushTail, TuiFraction, WeightOf, IsDeprecation;
  }

  lemma BegunBefore(msgs: seq<Msg>, i: nat)
    requires i <= |msgs|
    ensures forall k: nat :: BegunLast(msgs, i, k) <==> BegunLast(msgs[..i], i, k)
  {}

  /** What ended the stream is what the view says came of the install: Done, the error's own
      step, code and message, or a truncated stream in the step begun last. */
  lemma {:induction false} FirstEndDecides(msgs: seq<Msg>, i: nat)
    requires i < |msgs| && Ends(msgs[i]) && OpenUpTo(msgs, i)
    ensures var r := DeliverAll(LAUNCHED, msgs).model.result;
      match msgs[i]
      case EventMsg(Error(step, code, message)) =>
        r.failed && !r.done && r.failedStep == step && r.errorCode == code && r.errorMessage == message
      case ChannelClosed =>
        && r.failed && !r.done && r.errorCode == CODE_STREAM_TRUNCATED && r.errorMessage == STREAM_CLOSED
        && (forall k: nat | BegunLast(msgs, i, k) :: r.failedStep == msgs[k].event.name)
        && ((forall k: nat :: !BegunLast(msgs, i, k)) ==> r.failedStep == "")
      case _ => r.done && !r.failed
    decreases |msgs|
  {
    hide Deliver, BegunLast;
    var n := |msgs| - 1;
    var before := msgs[..n];
    EveryMessageSequence(before);
    FinishedExactlyWhen(before);
    BegunBefore(msgs, i);
    OutcomeStep(DeliverAll(LAUNCHED, before), msgs[n]);
    if i < n {
      assert before[i] == msgs[i] && OpenUpTo(before, i) && before[..i] == msgs[..i];
      BegunBefore(before, i);
      FirstEndDecides(before, i);
      assert !OpenUpTo(before, n);
    } else {
      assert OpenUpTo(before, n);
      NameIsOfTheLast(before);
    }
  }

  lemma OutcomeStep(l: Loop, msg: Msg)
    requires Sane(l)
    ensures var k, r := Deliver(l, msg), Deliver(l, msg).model.result;
      if l.model.finished then
        && r.done == l.model.result.done && r.failed == l.model.result.failed
        && r.failedStep == l.model.result.failedStep && r.errorCode == l.model.result.errorCode
        && r.errorMessage == l.model.result.errorMessage
      else
        match msg
        case EventMsg(Error(step, code, message)) =>
          r.failed && !r.done && r.failedStep == step && r.errorCode == code && r.errorMessage == message
        case EventMsg(Done) => r.done && !r.failed
        case ChannelClosed =>
          && r.failed && !r.done && r.errorCode == CODE_STREAM_TRUNCATED && r.failedStep == l.model.currentName
          && r.errorMessage == STREAM_CLOSED
        case _ => true
  {
    hide PushTail, TuiFraction, WeightOf, IsDeprecation;
  }

  // ---------- what is shown ----------

  function LineOf(e: Event): seq<TailLine> {
    match e
    case Info(message) => [TailLine(false, "", message)]
    case Warning(code, message) => [TailLine(true, code, message)]
    case _ => []
  }

  function Narrated(es: seq<Event>): seq<TailLine> {
    if es == [] then [] else Narrated(es[..|es| - 1]) + LineOf(es[|es| - 1])
  }

  function Deprecated(lines: seq<TailLine>): seq<TailLine> {
    if lines == [] then []
    else
      var before, line := Deprecated(lines[..|lines| - 1]), lines[|lines| - 1];
      if line.warning && IsDeprecation(line.code) then before + [line] else before
  }

  function LastOf(lines: seq<TailLine>, n: nat): seq<TailLine> {
    if |lines| > n then lines[|lines| - n..] else lines
  }

  ghost predicate ShowsLines(m: InstallModel, lines: seq<TailLine>) {
    m.tail == LastOf(lines, TAIL_LEN) && m.deprecations == Deprecated(lines)
  }

  /** Whatever else arrives, the tail is the last five lines narrated, and every
      deprecation warning is kept although the tail rolls on. */
  lemma {:induction false} TailIsTheLastFive(msgs: seq<Msg>)
    ensures var l := DeliverAll(LAUNCHED, msgs); ShowsLines(l.model, Narrated(l.handled))
  {
    hide ShowsLines, Deliver;
    if msgs == [] {
      assert ShowsLines(NEW_MODEL, Narrated([])) by {
        Unnarrated();
      }
    } else {
      TailIsTheLastFive(msgs[..|msgs| - 1]);
      LinesStep(DeliverAll(LAUNCHED, msgs[..|msgs| - 1]), msgs[|msgs| - 1]);
    }
  }

  lemma Unnarrated()
    ensures ShowsLines(NEW_MODEL, Narrated([]))
  {}

  lemma LinesStep(l: Loop, msg: Msg)
    requires ShowsLines(l.model, Narrated(l.handled))
    ensures var k := Deliver(l, msg); ShowsLines(k.model, Narrated(k.handled))
  {
    hide ShowsLines, HandleEvent;
    if msg.EventMsg? {
      var longer := l.handled + [msg.event];
      assert longer[..|longer| - 1] == l.handled;
      PushedLine(l.model, msg.event, Narrated(l.handled));
    } else {
      SameLines(l.model, Update(l.model, msg).0, Narrated(l.handled));
    }
  }

  lemma SameLines(m: InstallModel, n: InstallModel, lines: seq<TailLine>)
    requires ShowsLines(m, lines) && m.tail == n.tail && m.deprecations == n.deprecations
    ensures ShowsLines(n, lines)
  {}

  lemma PushedLine(m: InstallModel, e: Event, lines: seq<TailLine>)
    requires ShowsLines(m, lines)
    ensures ShowsLines(HandleEvent(m, e).0, lines + LineOf(e))
  {
    hide TuiFraction, WeightOf, IsDeprecation, PushTail, ShowsLines;
    if LineOf(e) == [] {
      assert lines + LineOf(e) == lines;
      SameLines(m, HandleEvent(m, e).0, lines);
    } else {
      LineShown(m, HandleEvent(m, e).0, LineOf(e)[0], lines);
    }
  }

  lemma LineShown(m: InstallModel, n: InstallModel, line: TailLine, lines: seq<TailLine>)
    requires ShowsLines(m, lines) && n.tail == PushTail(m.tail, line)
    requires n.deprecations ==
      if line.warning && IsDeprecation(line.code) then m.deprecations + [line] else m.deprecations
    ensures ShowsLines(n, lines + [line])
  {
    hide IsDeprecation;
    assert (lines + [line])[..|lines|] == lines;
  }

  function HandleAll(es: seq<Event>): InstallModel {
    if es == [] then NEW_MODEL else HandleEvent(HandleAll(es[..|es| - 1]), es[|es| - 1]).0
  }

  predicate SameBar(m: InstallModel, n: InstallModel) {
    && m.steps == n.steps && m.totalWeight == n.totalWeight && m.currentIndex == n.currentIndex
    && m.stepFraction == n.stepFraction && m.result.done == n.result.done
  }

  /** Keys, resizes and the closing of the channel never move the bar: it depends on the
      events alone. */
  lemma {:induction false} OnlyEventsMoveTheBar(msgs: seq<Msg>)
    ensures var l := DeliverAll(LAUNCHED, msgs);
      SameBar(l.model, HandleAll(l.handled)) && Overall(l.model) == Overall(HandleAll(l.handled))
  {
    hide Deliver, HandleEvent, Covered;
    if msgs != [] {
      OnlyEventsMoveTheBar(msgs[..|msgs| - 1]);
      BarStep(DeliverAll(LAUNCHED, msgs[..|msgs| - 1]), msgs[|msgs| - 1]);
    }
  }

  lemma BarStep(l: Loop, msg: Msg)
    requires SameBar(l.model, HandleAll(l.handled))
    ensures var k := Deliver(l, msg); SameBar(k.model, HandleAll(k.handled))
  {
    hide HandleEvent;
    if msg.EventMsg? {
      var longer := l.handled + [msg.event];
      assert longer[..|longer| - 1] == l.handled;
      EventMovesBar(l.model, HandleAll(l.handled), msg.event);
    }
  }

  lemma EventMovesBar(m: InstallModel, n: InstallModel, e: Event)
    requires SameBar(m, n)
    ensures SameBar(HandleEvent(m, e).0, HandleEvent(n, e).0)
  {
    hide TuiFraction, WeightOf, PushTail, IsDeprecation;
  }
}
