/**
 hosting/host_lifecycle.py with hosting/background_service.py and the lifespan nesting of
 hosting/web_host_builder.py: the concurrent start/stop protocol of a host, as a transition
 system. Host and service tasks share one event loop, so a run is a sequence of actions; any
 task may act between any two host actions.

 What the event loop is relied on for: a gathered barrier lets the host pass only when every
 task is done; cancelling a finished task does nothing; when the grace period is over, every
 unfinished task is cancelled, and a cancelled task ends after finitely many steps of its own.
 */
module HostLifecycle {
  import opened Wrappers

  // ---------------------------------------------------------------- configuration

  /**
   One entry per hosted service registration: its type, the name of the instance the container
   resolves for it, and the number of own steps its task may take once it is cancelled. `grace`
   is the shutdown timeout in ticks of the event loop.
   */
  datatype Config = Config(types: seq<string>, names: seq<string>, patience: seq<nat>, grace: nat, hasAppLifespan: bool)

  ghost predicate ValidConfig(cfg: Config) {
    && |cfg.types| == |cfg.names| == |cfg.patience|
    && forall i | 0 <= i < |cfg.patience| :: cfg.patience[i] > 0
  }

  /** An APP-scoped service is one instance, so a type always has the same name. */
  ghost predicate SingletonResolution(cfg: Config)
    requires ValidConfig(cfg)
  {
    forall i, j | 0 <= i < j < |cfg.types| :: cfg.types[i] == cfg.types[j] ==> cfg.names[i] == cfg.names[j]
  }

  predicate Distinct(names: seq<string>) {
    forall i, j | 0 <= i < j < |names| :: names[i] != names[j]
  }

  // ---------------------------------------------------------------- state

  datatype Outcome = Returned | Crashed | WasCancelled

  datatype Phase = Created | Running | Done(outcome: Outcome)

  /** `left`: own steps still possible after `cancelled` is set. */
  datatype Task = Task(name: string, phase: Phase, cancelled: bool, left: nat)

  datatype Line = Starting | CrashLogged | Stopped

  datatype Event =
    // milestones of the host
    | Spawned
    | AppEntered
    | AppExited
    | StoppingSet
    | GraceExpired(stragglers: set<nat>)
    | AllStopped
    | CloseBegun
    | Closed
    | CloseFailed
    | Flushed
    // doings of service i
    | Service(i: nat, line: Line)
    | Worked(i: nat)
    | Ended(i: nat)

  datatype Pc =
    | Resolving(next: nat)
    | EnteringApp
    | Serving
    | ExitingApp
    | Signalling
    | Waiting(budget: nat)
    | Draining
    | Closing
    | ClosingContainer
    | Flushing
    | Exited

  datatype Host = Host(pc: Pc, registered: seq<string>, tasks: seq<Task>, stopping: bool, failed: bool, trace: seq<Event>)

  function Init(): Host {
    Host(Resolving(0), [], [], false, false, [])
  }

  predicate AllDone(tasks: seq<Task>) {
    forall i | 0 <= i < |tasks| :: tasks[i].phase.Done?
  }

  function Unfinished(tasks: seq<Task>): set<nat> {
    set i: nat | i < |tasks| && !tasks[i].phase.Done?
  }

  // ---------------------------------------------------------------- actions

  datatype Action =
    | ResolveFails
    | ResolveNext
    | Spawn
    | EnterApp(raises: bool)
    | StopServing(raises: bool)
    | ExitApp(raises: bool)
    | SetStopping
    | Tick
    | Expire
    | Pass
    | BeginClose
    | EndClose(raises: bool)
    | Flush
    | Start(i: nat)
    | Work(i: nat)
    | End(i: nat, outcome: Outcome)

  /** While the host waits, whatever runs on the loop takes time. */
  predicate TimeLeft(s: Host) {
    s.pc.Waiting? ==> s.pc.budget > 0
  }

  predicate Enabled(cfg: Config, s: Host, a: Action)
    requires |cfg.types| == |cfg.names|
  {
    match a
    case ResolveFails | ResolveNext => s.pc.Resolving? && s.pc.next < |cfg.types|
    case Spawn => s.pc.Resolving? && s.pc.next == |cfg.types|
    case EnterApp(_) => s.pc == EnteringApp
    case StopServing(_) => s.pc == Serving
    case ExitApp(_) => s.pc == ExitingApp
    case SetStopping => s.pc == Signalling
    case Tick => s.pc.Waiting? && s.pc.budget > 0
    case Expire => s.pc == Waiting(0)
    case Pass => (s.pc.Waiting? || s.pc == Draining) && AllDone(s.tasks)
    case BeginClose => s.pc == Closing
    case EndClose(_) => s.pc == ClosingContainer
    case Flush => s.pc == Flushing
    case Start(i) => i < |s.tasks| && TimeLeft(s) && s.tasks[i].phase == Created && !s.tasks[i].cancelled
    case Work(i) =>
      && i < |s.tasks| && TimeLeft(s) && s.tasks[i].phase == Running
      && (s.tasks[i].cancelled ==> s.tasks[i].left > 1)
    case End(i, outcome) =>
      && i < |s.tasks| && TimeLeft(s)
      && (s.tasks[i].phase == Running
          // A task cancelled before its first step never enters the service.
          || (s.tasks[i].phase == Created && s.tasks[i].cancelled && outcome == WasCancelled))
  }

  /** Where the `async with` of the hosted services leads when its body is left. */
  function LeaveScope(s: Host): Host {
    s.(pc := if s.tasks == [] then Closing else Signalling)
  }

  function SpawnTasks(cfg: Config): (tasks: seq<Task>)
    requires |cfg.types| == |cfg.names| == |cfg.patience|
    ensures |tasks| == |cfg.types|
  {
    seq(|cfg.types|, i requires 0 <= i < |cfg.types| => Task(cfg.names[i], Created, false, cfg.patience[i]))
  }

  function CancelUnfinished(tasks: seq<Task>): (r: seq<Task>)
    ensures |r| == |tasks|
  {
    seq(|tasks|, i requires 0 <= i < |tasks| =>
      if tasks[i].phase.Done? then tasks[i] else tasks[i].(cancelled := true))
  }

  /** What `BackgroundService.start` logs after `execute_async` is left with `outcome`. */
  function ClosingLines(outcome: Outcome): seq<Line> {
    if outcome == Crashed then [CrashLogged, Stopped] else [Stopped]
  }

  function ServiceEvents(i: nat, lines: seq<Line>): (r: seq<Event>)
    ensures |r| == |lines|
  {
    seq(|lines|, k requires 0 <= k < |lines| => Service(i, lines[k]))
  }

  function EndEvents(i: nat, task: Task, outcome: Outcome): seq<Event> {
    (if task.phase == Running then ServiceEvents(i, ClosingLines(outcome)) else []) + [Ended(i)]
  }

  /** Time passes for the waiting host while a task acts. */
  function Elapse(s: Host): Host
    requires TimeLeft(s)
  {
    if s.pc.Waiting? then s.(pc := Waiting(s.pc.budget - 1)) else s
  }

  function Move(cfg: Config, s: Host, a: Action): (s': Host)
    requires |cfg.types| == |cfg.names| == |cfg.patience|
    requires Enabled(cfg, s, a)
    ensures s'.trace == s.trace
  {
    match a
    case ResolveFails => s.(pc := Closing, failed := true)
    case ResolveNext =>
      var name := cfg.names[s.pc.next];
      if name in s.registered then s.(pc := Closing, failed := true)
      else s.(pc := Resolving(s.pc.next + 1), registered := s.registered + [name])
    case Spawn => s.(pc := if cfg.hasAppLifespan then EnteringApp else Serving, tasks := SpawnTasks(cfg))
    case EnterApp(raises) => if raises then LeaveScope(s).(failed := true) else s.(pc := Serving)
    case StopServing(raises) =>
      var s' := s.(failed := raises);
      if cfg.hasAppLifespan then s'.(pc := ExitingApp) else LeaveScope(s')
    // The app lifespan sees the exception of its body: it re-raises it, replaces it or swallows it.
    case ExitApp(raises) => LeaveScope(s).(failed := raises)
    case SetStopping => s.(pc := Waiting(cfg.grace), stopping := true)
    case Tick => Elapse(s)
    case Expire => s.(pc := Draining, tasks := CancelUnfinished(s.tasks))
    case Pass => s.(pc := Closing)
    case BeginClose => s.(pc := ClosingContainer)
    case EndClose(raises) => if raises then s.(pc := Exited, failed := true) else s.(pc := Flushing)
    case Flush => s.(pc := Exited)
    case Start(i) => Elapse(s).(tasks := s.tasks[i := s.tasks[i].(phase := Running)])
    case Work(i) =>
      var task := s.tasks[i];
      Elapse(s).(tasks := s.tasks[i := if task.cancelled then task.(left := task.left - 1) else task])
    case End(i, outcome) => Elapse(s).(tasks := s.tasks[i := s.tasks[i].(phase := Done(outcome))])
  }

  function Events(cfg: Config, s: Host, a: Action): seq<Event>
    requires |cfg.types| == |cfg.names|
    requires Enabled(cfg, s, a)
  {
    match a
    case ResolveFails | ResolveNext | StopServing(_) | Tick => []
    case Spawn => if cfg.types == [] then [] else [Spawned]
    case EnterApp(raises) => if raises then [] else [AppEntered]
    case ExitApp(_) => [AppExited]
    case SetStopping => [StoppingSet]
    case Expire => [GraceExpired(Unfinished(s.tasks))]
    case Pass => [AllStopped]
    case BeginClose => [CloseBegun]
    case EndClose(raises) => [if raises then CloseFailed else Closed]
    case Flush => [Flushed]
    case Start(i) => [Service(i, Starting)]
    case Work(i) => [Worked(i)]
    case End(i, outcome) => EndEvents(i, s.tasks[i], outcome)
  }

  function Apply(cfg: Config, s: Host, a: Action): Host
    requires |cfg.types| == |cfg.names| == |cfg.patience|
    requires Enabled(cfg, s, a)
  {
    Move(cfg, s, a).(trace := s.trace + Events(cfg, s, a))
  }

  // ---------------------------------------------------------------- runs

  /** The state a sequence of actions leads to; None when some action is not enabled in its turn. */
  function Execute(cfg: Config, s: Host, acts: seq<Action>): Option<Host>
    requires |cfg.types| == |cfg.names| == |cfg.patience|
    decreases |acts|
  {
    if acts == [] then Some(s)
    else if Enabled(cfg, s, acts[0]) then Execute(cfg, Apply(cfg, s, acts[0]), acts[1..])
    else None
  }

  /** `s` is the state after the run `acts` of a host configured with `cfg`. */
  ghost predicate Reaches(cfg: Config, acts: seq<Action>, s: Host) {
    ValidConfig(cfg) && Execute(cfg, Init(), acts) == Some(s)
  }
}
