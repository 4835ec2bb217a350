/** What the graphical install page knows from the event stream
    (gui/internal/installer/install.go). Times are left out. */
module GuiInstall {
  import opened Text
  import opened Progress
  import opened InstallView

  datatype Phase = Idle | Running | Succeeded | Failed

  datatype GuiState = GuiState(
    phase: Phase, steps: seq<StepInfo>, totalWeight: int, current: int,
    stepFraction: real, stepBytes: int, stepTotal: int, log: seq<TailLine>,
    summary: seq<SummaryItem>, recoveryKey: string,
    failedStep: string, errCode: string, errMessage: string)

  const NEW_GUI := GuiState(Idle, [], 0, -1, 0.0, 0, 0, [], [], "", "", "", "")

  const LOG_LEN := 200

  const NO_OUTCOME := "the install stopped without reporting an outcome"

  /** The fraction a step_progress carries here: bytes first, clamped either way. */
  function GuiFraction(e: Event): real
    requires e.StepProgress?
  {
    Clamped(if e.totalBytes > 0 then e.bytes as real / e.totalBytes as real else e.fraction)
  }

  function Logged(log: seq<TailLine>, line: TailLine): seq<TailLine> {
    LastOf(log + [line], LOG_LEN)
  }

  function Applied(s: GuiState, e: Event): GuiState {
    match e
    case Start(steps) => s.(steps := steps, totalWeight := WeightOf(steps))
    case StepStart(index, _) => s.(current := index, stepFraction := 0.0, stepBytes := 0, stepTotal := 0)
    case StepProgress(index, _, bytes, totalBytes) =>
      if index == s.current then s.(stepBytes := bytes, stepTotal := totalBytes, stepFraction := GuiFraction(e)) else s
    case Info(message) => s.(log := Logged(s.log, TailLine(false, "", message)))
    case Warning(code, message) => s.(log := Logged(s.log, TailLine(true, code, message)))
    case Summary(items) => s.(summary := s.summary + items)
    case RecoveryKey(key) => s.(recoveryKey := key)
    case Done => s.(phase := Succeeded, current := |s.steps|)
    case Error(step, code, message) => s.(phase := Failed, failedStep := step, errCode := code, errMessage := message)
  }

  /** A stream that ended without an outcome failed; so did one whose pipeline returned an
      error after Done. */
  function Closed(s: GuiState, err: Option<string>): GuiState {
    if s.phase.Running? then
      Applied(s, Error("", CODE_STREAM_TRUNCATED, if err.Some? then NO_OUTCOME + ": " + err.value else NO_OUTCOME))
    else if s.phase.Succeeded? && err.Some? then Applied(s, Error("", CODE_STEP_FAILED, err.value))
    else s
  }

  function Least(x: real, y: real): real {
    if x < y then x else y
  }

  function GuiOverall(s: GuiState): real {
    if s.phase.Succeeded? then 1.0
    else if s.totalWeight == 0 || s.current < 0 then 0.0
    else Least(Covered(s.steps, s.current, s.stepFraction) / s.totalWeight as real, 1.0)
  }

  class InstallState {
    var phase: Phase
    var steps: seq<StepInfo>
    var totalWeight: int
    var current: int
    var stepFraction: real
    var stepBytes: int
    var stepTotal: int
    var log: seq<TailLine>
    var summary: seq<SummaryItem>
    var recoveryKey: string
    var failedStep: string
    var errCode: string
    var errMessage: string

    ghost function View(): GuiState
      reads this
    {
      GuiState(phase, steps, totalWeight, current, stepFraction, stepBytes, stepTotal, log, summary, recoveryKey,
               failedStep, errCode, errMessage)
    }

    constructor ()
      ensures View() == NEW_GUI
    {
      phase, steps, totalWeight, current := Idle, [], 0, -1;
      stepFraction, stepBytes, stepTotal := 0.0, 0, 0;
      log, summary, recoveryKey := [], [], "";
      failedStep, errCode, errMessage := "", "", "";
    }

    method AddLog(line: TailLine)
      modifies this`log
      ensures View() == old(View()).(log := Logged(old(log), line))
    {
      log := log + [line];
      if |log| > LOG_LEN {
        log := log[|log| - LOG_LEN..];
      }
    }

    method SumWeights()
      modifies this`totalWeight
      ensures totalWeight == WeightOf(steps)
    {
      totalWeight := 0;
      for i := 0 to |steps|
        invariant totalWeight == WeightOf(steps[..i])
      {
        assert steps[..i + 1][..i] == steps[..i];
        totalWeight := totalWeight + steps[i].weight;
      }
      assert steps[..|steps|] == steps;
    }

    method Advance(fraction: real, bytes: int, totalBytes: int)
      modifies this`stepFraction, this`stepBytes, this`stepTotal
      ensures stepBytes == bytes && stepTotal == totalBytes
      ensures stepFraction == GuiFraction(StepProgress(current, fraction, bytes, totalBytes))
    {
      stepBytes, stepTotal := bytes, totalBytes;
      if totalBytes > 0 {
        stepFraction := bytes as real / totalBytes as real;
      } else {
        stepFraction := fraction;
      }
      stepFraction := Clamped(stepFraction);
    }

    /** The cases of Apply that move the bar. */
    method ApplyStep(e: Event)
      requires e.Start? || e.StepStart? || e.StepProgress?
      modifies this
      ensures View() == Applied(old(View()), e)
    {
      hide WeightOf, Logged, GuiFraction;
      match e {
        case Start(infos) =>
          steps := infos;
          SumWeights();
        case StepStart(index, _) =>
          current := index;
          stepFraction, stepBytes, stepTotal := 0.0, 0, 0;
        case StepProgress(index, fraction, bytes, totalBytes) =>
          if index == current {
            Advance(fraction, bytes, totalBytes);
          }
      }
    }

    method Apply(e: Event)
      modifies this
      ensures View() == Applied(old(View()), e)
    {
      hide WeightOf, Logged, GuiFraction;
      match e {
        case Info(message) => AddLog(TailLine(false, "", message));
        case Warning(code, message) => AddLog(TailLine(true, code, message));
        case Summary(items) => summary := summary + items;
        case RecoveryKey(key) => recoveryKey := key;
        case Done =>
          phase := Succeeded;
          current := |steps|;
        case Error(step, code, message) =>
          phase := Failed;
          failedStep, errCode, errMessage := step, code, message;
        case _ => ApplyStep(e);
      }
    }

    method Finish(err: Option<string>)
      modifies this
      ensures View() == Closed(old(View()), err)
      ensures old(phase).Running? ==>
        && phase.Failed? && failedStep == "" && errCode == CODE_STREAM_TRUNCATED
        && errMessage == if err.Some? then NO_OUTCOME + ": " + err.value else NO_OUTCOME
      ensures old(phase).Succeeded? && err.Some? ==>
        phase.Failed? && failedStep == "" && errCode == CODE_STEP_FAILED && errMessage == err.value
    {
      hide WeightOf, Logged, GuiFraction;
      if phase.Running? {
        var message := NO_OUTCOME;
        if err.Some? {
          message := message + ": " + err.value;
        }
        Apply(Error("", CODE_STREAM_TRUNCATED, message));
      } else if phase.Succeeded? && err.Some? {
        Apply(Error("", CODE_STEP_FAILED, err.value));
      }
    }

    method Overall() returns (f: real)
      ensures f == GuiOverall(View())
    {
      if phase.Succeeded? {
        return 1.0;
      }
      if totalWeight == 0 || current < 0 {
        return 0.0;
      }
      var done := 0;
      var i := 0;
      while i < current && i < |steps|
        invariant 0 <= i <= |steps| && i <= current
        invariant done == WeightOf(steps[..i])
      {
        assert steps[..i + 1][..i] == steps[..i];
        done := done + steps[i].weight;
        i := i + 1;
      }
      assert steps[..|steps|] == steps;
      f := done as real;
      if current < |steps| {
        f := f + stepFraction * steps[current].weight as real;
      }
      f := Least(f / totalWeight as real, 1.0);
    }
  }
}
