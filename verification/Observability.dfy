/**
 observability/setup.py with tracing.py, metrics.py and logging.py: three process-global provider
 handles and the `_configured` flag, and the builder and lifecycle that drive them.
 */
module Observability {
  import opened Wrappers

  // ---------------------------------------------------------------- configuration

  /**
   Where configuring can raise: before the tracer provider is held, before the meter provider is,
   in the log sinks or the exporter behind them, or once the logger provider is held.
   */
  datatype Fault = InTracing | InMetrics | InSinks | BehindLogs

  datatype RawConfig = RawConfig(enabled: bool, endpoint: Option<string>, fault: Option<Fault>)

  /** What `str.strip` strips. */
  predicate IsSpace(c: char) {
    9 <= c as int <= 13 || 28 <= c as int <= 32
  }

  predicate Blank(s: string) {
    forall i | 0 <= i < |s| :: IsSpace(s[i])
  }

  /** `ObservabilityConfig` rejects an enabled export without an endpoint. */
  predicate Accepts(c: RawConfig) {
    c.enabled ==> c.endpoint.Some? && !Blank(c.endpoint.value)
  }

  type Config = c: RawConfig | Accepts(c) witness RawConfig(false, None, None)

  /** `enabled` is the single switch: disabled means no endpoint. */
  function ExportEndpoint(c: Config): Option<string> {
    if c.enabled then c.endpoint else None
  }

  predicate Truthy(endpoint: Option<string>) {
    endpoint.Some? && endpoint.value != ""
  }

  // ---------------------------------------------------------------- the globals as a value

  /**
   The globals, and the ledger of providers: providers are numbered as they are created, and
   `ended` lists those shut down.
   */
  datatype State = State(configured: bool, tracer: Option<nat>, meter: Option<nat>, logger: Option<nat>,
                         created: nat, ended: seq<nat>)

  function Fresh(): State {
    State(false, None, None, None, 0, [])
  }

  /** The globals when configuring is through with tracing and metrics. */
  function WithSignals(s: State): State {
    s.(tracer := Some(s.created), meter := Some(s.created + 1), created := s.created + 2)
  }

  function WithLogs(s: State, c: Config): State {
    if Truthy(ExportEndpoint(c)) then s.(logger := Some(s.created), created := s.created + 1) else s
  }

  function AfterConfigure(s: State, c: Config): State {
    if s.configured then s
    else match c.fault
      case Some(InTracing) => s
      case Some(InMetrics) => s.(tracer := Some(s.created), created := s.created + 1)
      case Some(InSinks) => WithSignals(s)
      case Some(BehindLogs) => WithLogs(WithSignals(s), c)
      case None => WithLogs(WithSignals(s), c).(configured := true)
  }

  predicate ConfigureRaises(s: State, c: Config) {
    !s.configured && c.fault.Some?
  }

  function ShutProvider(handle: Option<nat>): seq<nat> {
    if handle.Some? then [handle.value] else []
  }

  function AfterShutdown(s: State): State {
    if !s.configured then s
    else State(false, None, None, None, s.created,
               s.ended + ShutProvider(s.logger) + ShutProvider(s.meter) + ShutProvider(s.tracer))
  }

  // ---------------------------------------------------------------- the globals as they are

  class Globals {
    var configured: bool
    var tracer: Option<nat>
    var meter: Option<nat>
    var logger: Option<nat>
    var created: nat
    var ended: seq<nat>

    function Current(): State
      reads this
    {
      State(configured, tracer, meter, logger, created, ended)
    }

    constructor ()
      ensures Current() == Fresh()
    {
      configured, tracer, meter, logger, created, ended := false, None, None, None, 0, [];
    }

    method ConfigureTracing(endpoint: Option<string>, fault: Option<Fault>) returns (exports: Result<bool, string>)
      modifies this
      ensures exports == if fault == Some(InTracing) then Err("tracing") else Ok(endpoint.Some?)
      ensures Current() == if exports.Err? then old(Current())
        else old(Current()).(tracer := Some(old(created)), created := old(created) + 1)
    {
      if fault == Some(InTracing) {
        return Err("tracing");
      }
      tracer := Some(created);
      created := created + 1;
      return Ok(endpoint.Some?);
    }

    method ConfigureMetrics(endpoint: Option<string>, fault: Option<Fault>) returns (exports: Result<bool, string>)
      modifies this
      ensures exports == if fault == Some(InMetrics) then Err("metrics") else Ok(endpoint.Some?)
      ensures Current() == if exports.Err? then old(Current())
        else old(Current()).(meter := Some(old(created)), created := old(created) + 1)
    {
      if fault == Some(InMetrics) {
        return Err("metrics");
      }
      meter := Some(created);
      created := created + 1;
      return Ok(endpoint.Some?);
    }

    method ConfigureLogging(endpoint: Option<string>, fault: Option<Fault>) returns (exports: Result<bool, string>)
      modifies this
      ensures exports.Err? <==> fault == Some(InSinks) || fault == Some(BehindLogs)
      ensures exports.Ok? ==> (exports.value <==> endpoint.Some? && endpoint.value != "")
      ensures Current() == if endpoint.Some? && endpoint.value != "" && fault != Some(InSinks)
        then old(Current()).(logger := Some(old(created)), created := old(created) + 1) else old(Current())
    {
      if fault == Some(InSinks) {
        return Err("unknown logging sink");
      }
      var exporting := Truthy(endpoint);
      if exporting {
        logger := Some(created);
        created := created + 1;
      }
      if fault == Some(BehindLogs) {
        return Err("logging");
      }
      return Ok(exporting);
    }

    method ConfigureObservability(c: Config) returns (r: Result<(), string>)
      modifies this
      ensures Current() == AfterConfigure(old(Current()), c)
      ensures r.Err? <==> ConfigureRaises(old(Current()), c)
    {
      if configured {
        return Ok(());
      }
      var endpoint := ExportEndpoint(c);
      var traceExport := ConfigureTracing(endpoint, c.fault);
      if traceExport.Err? {
        return Err(traceExport.error);
      }
      var metricExport := ConfigureMetrics(endpoint, c.fault);
      if metricExport.Err? {
        return Err(metricExport.error);
      }
      var logExport := ConfigureLogging(endpoint, c.fault);
      if logExport.Err? {
        return Err(logExport.error);
      }
      configured := true;
      return Ok(());
    }

    method ShutdownLogging()
      modifies this
      ensures Current() == old(Current()).(logger := None, ended := old(ended) + ShutProvider(old(logger)))
    {
      if logger.Some? {
        ended := ended + [logger.value];
        logger := None;
      }
    }

    method ShutdownMetrics()
      modifies this
      ensures Current() == old(Current()).(meter := None, ended := old(ended) + ShutProvider(old(meter)))
    {
      if meter.Some? {
        ended := ended + [meter.value];
        meter := None;
      }
    }

    method ShutdownTracing()
      modifies this
      ensures Current() == old(Current()).(tracer := None, ended := old(ended) + ShutProvider(old(tracer)))
    {
      if tracer.Some? {
        ended := ended + [tracer.value];
        tracer := None;
      }
    }

    method ShutdownObservability()
      modifies this
      ensures Current() == AfterShutdown(old(Current()))
      ensures old(configured) && old(logger).Some? && old(meter).Some? && old(tracer).Some? ==>
        ended == old(ended) + [old(logger).value, old(meter).value, old(tracer).value]
    {
      if !configured {
        return;
      }
      ShutdownLogging();
      ShutdownMetrics();
      ShutdownTracing();
      configured := false;
    }
  }

  // ---------------------------------------------------------------- hosts that use them

  datatype Op = Configure(config: Config) | Shutdown

  function Step(s: State, op: Op): State {
    match op
    case Configure(c) => AfterConfigure(s, c)
    case Shutdown => AfterShutdown(s)
  }

  function Run(s: State, ops: seq<Op>): State {
    if ops == [] then s else Step(Run(s, ops[..|ops| - 1]), ops[|ops| - 1])
  }

  /** What becomes of a host once its builder has configured observability. */
  datatype Fate =
    | BuildFails          // build raises and undoes the configuration
    | Served              // served to its exit, container closed, observability flushed
    | CloseRaises         // served, but the container's close raised, so nothing is flushed
    | NeverServed         // built and dropped

  datatype Episode = Episode(config: Config, fate: Fate)

  function OpsOf(e: Episode): seq<Op> {
    [Configure(e.config)] + if e.fate == BuildFails || e.fate == Served then [Shutdown] else []
  }

  function OpsOfAll(es: seq<Episode>): seq<Op> {
    if es == [] then [] else OpsOfAll(es[..|es| - 1]) + OpsOf(es[|es| - 1])
  }

  lemma RunEpisode(s: State, e: Episode)
    ensures Run(s, OpsOf(e)) ==
      if e.fate == BuildFails || e.fate == Served then AfterShutdown(AfterConfigure(s, e.config))
      else AfterConfigure(s, e.config)
  {
    assert OpsOf(e)[..1] == [Configure(e.config)];
    assert Run(s, [Configure(e.config)]) == AfterConfigure(s, e.config) by {
      assert [Configure(e.config)][..0] == [];
    }
  }

  /**
   `WebHostBuilder.build`: the configuration stands outside the `try`, so only what fails after
   it is undone. `assembly` is the outcome of everything from the service configurators on. For
   the globals a build is the episode of a host that failed to build, or of one not served yet.
   */
  method Build(globals: Globals, c: Config, assembly: Result<(), string>) returns (r: Result<(), string>)
    modifies globals
    ensures ConfigureRaises(old(globals.Current()), c) ==>
      r.Err? && globals.Current() == Step(old(globals.Current()), Configure(c))
    ensures !ConfigureRaises(old(globals.Current()), c) ==>
      && r == assembly
      && globals.Current() ==
           if assembly.Ok? then Step(old(globals.Current()), Configure(c))
           else Step(Step(old(globals.Current()), Configure(c)), Shutdown)
    ensures globals.Current() == Run(old(globals.Current()), OpsOf(Episode(c, if r.Err? then BuildFails else NeverServed)))
  {
    RunEpisode(globals.Current(), Episode(c, BuildFails));
    RunEpisode(globals.Current(), Episode(c, NeverServed));
    r := globals.ConfigureObservability(c);
    if r.Err? {
      return;
    }
    if assembly.Err? {
      globals.ShutdownObservability();
    }
    return assembly;
  }
}
