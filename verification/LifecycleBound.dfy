/** Teardown has a real bound, and no host ever gets stuck on its way out. */
module LifecycleBound {
  import opened Wrappers
  import opened HostLifecycle
  import opened LifecycleSafety

  /** Own steps the unfinished tasks may still take after being cancelled. */
  function Pending(tasks: seq<Task>): nat {
    if tasks == [] then 0
    else
      var last := tasks[|tasks| - 1];
      Pending(tasks[..|tasks| - 1]) + if last.phase.Done? then 0 else last.left
  }

  function Sum(xs: seq<nat>): nat {
    if xs == [] then 0 else Sum(xs[..|xs| - 1]) + xs[|xs| - 1]
  }

  lemma {:induction false} PendingUpdate(tasks: seq<Task>, i: nat, task: Task)
    requires i < |tasks|
    ensures Pending(tasks[i := task])
         == Pending(tasks) - (if tasks[i].phase.Done? then 0 else tasks[i].left)
                           + if task.phase.Done? then 0 else task.left
  {
    var front := tasks[..|tasks| - 1];
    if i < |tasks| - 1 {
      PendingUpdate(front, i, task);
      assert tasks[i := task][..|tasks| - 1] == front[i := task];
    } else {
      assert tasks[i := task][..|tasks| - 1] == front;
    }
  }

  lemma {:induction false} PendingCancelled(tasks: seq<Task>)
    ensures Pending(CancelUnfinished(tasks)) == Pending(tasks)
  {
    if tasks != [] {
      PendingCancelled(tasks[..|tasks| - 1]);
      assert CancelUnfinished(tasks)[..|tasks| - 1] == CancelUnfinished(tasks[..|tasks| - 1]);
    }
  }

  lemma {:induction false} PendingWithinPatience(tasks: seq<Task>, patience: seq<nat>)
    requires |tasks| == |patience| && forall i | 0 <= i < |tasks| :: tasks[i].left <= patience[i]
    ensures Pending(tasks) <= Sum(patience)
  {
    if tasks != [] {
      PendingWithinPatience(tasks[..|tasks| - 1], patience[..|tasks| - 1]);
    }
  }

  /** The stop signal has been given, or was never needed. */
  predicate TearingDown(s: Host) {
    s.pc.Waiting? || s.pc in {Draining, Closing, ClosingContainer, Flushing, Exited}
  }

  /** What is left of a teardown, in steps. */
  function Measure(s: Host): nat
    requires TearingDown(s)
  {
    match s.pc
    case Waiting(budget) => budget + Pending(s.tasks) + 5
    case Draining => Pending(s.tasks) + 4
    case Closing => 3
    case ClosingContainer => 2
    case Flushing => 1
    case _ => 0
  }

  /** A task action changes one unfinished task; a cancelled one ends or uses up one of its steps. */
  lemma OneTaskActs(cfg: Config, s: Host, a: Action)
    requires ValidConfig(cfg) && Enabled(cfg, s, a) && Actor(a).Some?
    ensures var i, s' := Actor(a).value, Apply(cfg, s, a);
      && i < |s.tasks| && |s'.tasks| == |s.tasks|
      && s'.tasks == s.tasks[i := s'.tasks[i]] && s'.pc == Elapse(s).pc
      && !s.tasks[i].phase.Done? && s'.tasks[i].left <= s.tasks[i].left
      && (s.tasks[i].cancelled ==> s'.tasks[i].phase.Done? || s'.tasks[i].left < s.tasks[i].left)
  {
  }

  lemma TaskStepMeasure(cfg: Config, s: Host, a: Action)
    requires ValidConfig(cfg) && TaskInv(s) && StartupInv(cfg, s) && TearingDown(s) && Enabled(cfg, s, a)
    requires Actor(a).Some?
    ensures TearingDown(Apply(cfg, s, a)) && Measure(Apply(cfg, s, a)) < Measure(s)
  {
    var i := Actor(a).value;
    OneTaskActs(cfg, s, a);
    ActorIsEarly(cfg, s, a);
    PendingUpdate(s.tasks, i, Apply(cfg, s, a).tasks[i]);
    assert s.tasks[i].left > 0;
    assert s.pc.Draining? ==> s.tasks[i].cancelled;
  }

  lemma HostStepMeasure(cfg: Config, s: Host, a: Action)
    requires ValidConfig(cfg) && TearingDown(s) && Enabled(cfg, s, a)
    requires Actor(a).None?
    ensures TearingDown(Apply(cfg, s, a)) && Measure(Apply(cfg, s, a)) < Measure(s)
  {
    PendingCancelled(s.tasks);
  }

  /** Every step of a teardown, of the host or of a task, takes something off the measure. */
  lemma MeasureDecreases(cfg: Config, s: Host, a: Action)
    requires Inv(cfg, s) && TearingDown(s) && Enabled(cfg, s, a)
    ensures TearingDown(Apply(cfg, s, a)) && Measure(Apply(cfg, s, a)) < Measure(s)
  {
    if Actor(a).Some? {
      TaskStepMeasure(cfg, s, a);
    } else {
      HostStepMeasure(cfg, s, a);
    }
  }

  lemma {:induction false} StepsWithinMeasure(cfg: Config, s: Host, acts: seq<Action>)
    requires Inv(cfg, s) && TearingDown(s) && Execute(cfg, s, acts).Some?
    ensures var s' := Execute(cfg, s, acts).value;
      TearingDown(s') && |acts| <= Measure(s) - Measure(s')
    decreases |acts|
  {
    if acts != [] {
      StepInv(cfg, s, acts[0]);
      MeasureDecreases(cfg, s, acts[0]);
      StepsWithinMeasure(cfg, Apply(cfg, s, acts[0]), acts[1..]);
    }
  }

  /**
   From the stop signal on, all steps of host and services together are at most the grace period
   plus the steps cancelled tasks may take, plus five.
   */
  lemma TeardownIsBounded(cfg: Config, acts: seq<Action>, s: Host, rest: seq<Action>)
    requires Reaches(cfg, acts, s) && s.pc == Signalling
    requires Execute(cfg, Apply(cfg, s, SetStopping), rest).Some?
    ensures |rest| <= cfg.grace + Sum(cfg.patience) + 5
  {
    RunInv(cfg, acts, s);
    StepInv(cfg, s, SetStopping);
    StepsWithinMeasure(cfg, Apply(cfg, s, SetStopping), rest);
    PendingWithinPatience(s.tasks, cfg.patience);
  }

  // ---------------------------------------------------------------- no deadlock

  /** An action a host not yet exited can take. */
  function NextStep(cfg: Config, s: Host): Action
    requires ValidConfig(cfg)
  {
    match s.pc
    case Resolving(next) => if next < |cfg.types| then ResolveNext else Spawn
    case EnteringApp => EnterApp(false)
    case Serving => StopServing(false)
    case ExitingApp => ExitApp(false)
    case Signalling => SetStopping
    case Waiting(budget) => if budget > 0 then Tick else Expire
    case Draining => if AllDone(s.tasks) then Pass else End(FirstUnfinished(s.tasks), WasCancelled)
    case Closing => BeginClose
    case ClosingContainer => EndClose(false)
    case Flushing => Flush
    case Exited => Flush
  }

  function FirstUnfinished(tasks: seq<Task>): (i: nat)
    ensures !AllDone(tasks) ==> i < |tasks| && !tasks[i].phase.Done?
  {
    if tasks == [] then 0
    else if !tasks[0].phase.Done? then 0
    else
      assert AllDone(tasks[1..]) ==> AllDone(tasks);
      1 + FirstUnfinished(tasks[1..])
  }

  lemma NeverStuck(cfg: Config, s: Host)
    requires Inv(cfg, s) && s.pc != Exited
    ensures Enabled(cfg, s, NextStep(cfg, s))
  {
  }

  /** Distance to the exit along `NextStep`. */
  function Distance(cfg: Config, s: Host): nat
    requires s.pc.Resolving? ==> s.pc.next <= |cfg.types|
  {
    var teardown := cfg.grace + Sum(cfg.patience) + 6;
    match s.pc
    case Resolving(next) => teardown + 4 + (|cfg.types| - next)
    case EnteringApp => teardown + 3
    case Serving => teardown + 2
    case ExitingApp => teardown + 1
    case Signalling => teardown
    case _ => Measure(s)
  }

  lemma NextStepAdvances(cfg: Config, s: Host)
    requires Inv(cfg, s) && s.pc != Exited && Enabled(cfg, s, NextStep(cfg, s))
    requires PathInv(cfg, Apply(cfg, s, NextStep(cfg, s))) && StartupInv(cfg, Apply(cfg, s, NextStep(cfg, s)))
    ensures Distance(cfg, Apply(cfg, s, NextStep(cfg, s))) < Distance(cfg, s)
  {
    if TearingDown(s) {
      MeasureDecreases(cfg, s, NextStep(cfg, s));
    } else {
      StartingAdvances(cfg, s);
    }
  }

  lemma StartingAdvances(cfg: Config, s: Host)
    requires ValidConfig(cfg) && PathInv(cfg, s) && StartupInv(cfg, s) && !TearingDown(s)
    requires Enabled(cfg, s, NextStep(cfg, s))
    requires Apply(cfg, s, NextStep(cfg, s)).pc.Resolving? ==> Apply(cfg, s, NextStep(cfg, s)).pc.next <= |cfg.types|
    ensures Distance(cfg, Apply(cfg, s, NextStep(cfg, s))) < Distance(cfg, s)
  {
    if s.pc == Signalling {
      SignallingAdvances(cfg, s);
    } else {
      UpAdvances(cfg, s);
    }
  }

  lemma SignallingAdvances(cfg: Config, s: Host)
    requires ValidConfig(cfg) && s.pc == Signalling && TasksFit(cfg, s.tasks)
    ensures Distance(cfg, Apply(cfg, s, SetStopping)) < Distance(cfg, s)
  {
    PendingWithinPatience(s.tasks, cfg.patience);
  }

  lemma UpAdvances(cfg: Config, s: Host)
    requires ValidConfig(cfg) && !TearingDown(s) && s.pc != Signalling
    requires s.pc.Resolving? ==> s.pc.next <= |cfg.types|
    requires Enabled(cfg, s, NextStep(cfg, s))
    requires Apply(cfg, s, NextStep(cfg, s)).pc.Resolving? ==> Apply(cfg, s, NextStep(cfg, s)).pc.next <= |cfg.types|
    ensures Distance(cfg, Apply(cfg, s, NextStep(cfg, s))) < Distance(cfg, s)
  {
  }

  lemma ExitReachable(cfg: Config, s: Host) returns (acts: seq<Action>)
    requires Inv(cfg, s)
    ensures Execute(cfg, s, acts).Some? && Execute(cfg, s, acts).value.pc == Exited
    decreases Distance(cfg, s)
  {
    if s.pc == Exited {
      acts := [];
    } else {
      var a := NextStep(cfg, s);
      NeverStuck(cfg, s);
      StepInv(cfg, s, a);
      NextStepAdvances(cfg, s);
      var rest := ExitReachable(cfg, Apply(cfg, s, a));
      acts := [a] + rest;
      assert acts[1..] == rest;
    }
  }

  /** Whatever has happened so far, a host can still be brought to a complete exit. */
  lemma EveryRunCanExit(cfg: Config, acts: seq<Action>, s: Host)
    requires Reaches(cfg, acts, s)
    ensures s.pc != Exited ==> exists a :: Enabled(cfg, s, a)
    ensures exists rest :: Execute(cfg, s, rest).Some? && Execute(cfg, s, rest).value.pc == Exited
  {
    RunInv(cfg, acts, s);
    if s.pc != Exited {
      NeverStuck(cfg, s);
    }
    var rest := ExitReachable(cfg, s);
  }
}
