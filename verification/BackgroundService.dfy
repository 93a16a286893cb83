/** hosting/background_service.py: `start`, the log bracket around a service's own work. */
module BackgroundService {
  import opened HostLifecycle
  import LifecycleSafety

  /** How a service ends for the event loop; a crash is not seen there. */
  datatype TaskEnd = Completed | Cancelled

  class ServiceLog {
    var lines: seq<Line>

    constructor ()
      ensures lines == []
    {
      lines := [];
    }

    method Info(line: Line)
      modifies this
      ensures lines == old(lines) + [line]
    {
      lines := lines + [line];
    }
  }

  /**
   `BackgroundService.start`, given how `execute_async` is left. A crash is logged and swallowed,
   a cancellation passes through, and `stopped` is logged on every way out.
   */
  method Start(log: ServiceLog, body: Outcome) returns (end: TaskEnd)
    modifies log
    ensures log.lines == old(log.lines) + [Starting] + ClosingLines(body)
    ensures end == Cancelled <==> body == WasCancelled
    ensures forall name, cancelled, left ::
      LifecycleSafety.LogFits(Task(name, Done(body), cancelled, left), log.lines[|old(log.lines)|..])
  {
    log.Info(Starting);
    // except asyncio.CancelledError: raise / except Exception: log
    match body {
      case Returned => end := Completed;
      case WasCancelled => end := Cancelled;
      case Crashed =>
        log.Info(CrashLogged);
        end := Completed;
    }
    // finally
    log.Info(Stopped);
    assert log.lines[|old(log.lines)|..] == [Starting] + ClosingLines(body);
  }
}
