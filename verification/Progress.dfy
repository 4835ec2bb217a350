/** The progress event model (internal/progress/progress.go, protocol version 1).
    Fractions are reals. */
module Progress {
  datatype StepInfo = StepInfo(name: string, weight: int)

  datatype SummaryItem = SummaryItem(code: string, detail: string)

  datatype Event =
    | Start(steps: seq<StepInfo>)
    | StepStart(index: int, name: string)
    | StepProgress(index: int, fraction: real, bytes: int, totalBytes: int)
    | Info(message: string)
    | Warning(code: string, message: string)
    | Summary(items: seq<SummaryItem>)
    | RecoveryKey(key: string)
    | Done
    | Error(step: string, code: string, message: string)

  const CODE_STEP_FAILED := "step_failed"
  const CODE_CLEANUP_FAILED := "cleanup_failed"
  const CODE_INSTALL_IN_PROGRESS := "install_in_progress"
  const CODE_STREAM_TRUNCATED := "stream_truncated"
  const CODE_RECIPE_V1_DEPRECATED := "recipe_v1_deprecated"

  predicate IsTerminal(e: Event) {
    e.Done? || e.Error?
  }

  /** What a step may emit between its step_start and the next one. */
  predicate IsBody(e: Event) {
    e.StepProgress? || e.Info? || e.Warning? || e.RecoveryKey?
  }

  function Kind(e: Event): string {
    match e
    case Start(_) => "start"
    case StepStart(_, _) => "step_start"
    case StepProgress(_, _, _, _) => "step_progress"
    case Info(_) => "info"
    case Warning(_, _) => "warning"
    case Summary(_) => "summary"
    case RecoveryKey(_) => "recovery_key"
    case Done => "done"
    case Error(_, _, _) => "error"
  }

  /** The tag on the wire tells which event it is, and which tags end a stream. */
  lemma TagTells(e: Event)
    ensures
      && (Kind(e) == "start" <==> e.Start?) && (Kind(e) == "summary" <==> e.Summary?)
      && (Kind(e) == "step_start" <==> e.StepStart?) && (Kind(e) == "step_progress" <==> e.StepProgress?)
      && (Kind(e) == "info" <==> e.Info?) && (Kind(e) == "warning" <==> e.Warning?)
      && (Kind(e) == "recovery_key" <==> e.RecoveryKey?)
      && (Kind(e) == "done" || Kind(e) == "error" <==> IsTerminal(e)) && (Kind(e) == "done" <==> e.Done?)
  {
    assert Kind(e)[0] == 'e' <==> e.Error?;
  }
}
