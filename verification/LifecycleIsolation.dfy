/**
 Crash isolation as non-interference: a service that raises is, for the host and for every other
 service, the same as a service that returns.
 */
module LifecycleIsolation {
  import opened Wrappers
  import opened HostLifecycle
  import opened LifecycleSafety

  /** The same action, except that the services in `calm` return where they would raise. */
  function CalmAction(a: Action, calm: set<nat>): Action {
    if a.End? && a.outcome == Crashed && a.i in calm then End(a.i, Returned) else a
  }

  function CalmRun(acts: seq<Action>, calm: set<nat>): (r: seq<Action>)
    ensures |r| == |acts|
  {
    if acts == [] then [] else [CalmAction(acts[0], calm)] + CalmRun(acts[1..], calm)
  }

  function CalmTasks(tasks: seq<Task>, calm: set<nat>): (r: seq<Task>)
    ensures |r| == |tasks|
  {
    seq(|tasks|, i requires 0 <= i < |tasks| =>
      if i in calm && tasks[i].phase == Done(Crashed) then tasks[i].(phase := Done(Returned)) else tasks[i])
  }

  predicate IsCrashLine(e: Event, calm: set<nat>) {
    e.Service? && e.line == CrashLogged && e.i in calm
  }

  /** The trace without the crash lines of the services in `calm`. */
  function CalmTrace(trace: seq<Event>, calm: set<nat>): seq<Event> {
    if trace == [] then []
    else
      var last := trace[|trace| - 1];
      CalmTrace(trace[..|trace| - 1], calm) + if IsCrashLine(last, calm) then [] else [last]
  }

  function Calm(s: Host, calm: set<nat>): Host {
    s.(tasks := CalmTasks(s.tasks, calm), trace := CalmTrace(s.trace, calm))
  }

  lemma {:induction false} CalmTraceAppend(a: seq<Event>, b: seq<Event>, calm: set<nat>)
    ensures CalmTrace(a + b, calm) == CalmTrace(a, calm) + CalmTrace(b, calm)
  {
    if b == [] {
      assert a + b == a;
    } else {
      CalmTraceAppend(a, b[..|b| - 1], calm);
      assert (a + b)[..|a + b| - 1] == a + b[..|b| - 1];
    }
  }

  lemma {:induction false} CalmTraceKeeps(events: seq<Event>, calm: set<nat>)
    requires forall e | e in events :: !IsCrashLine(e, calm)
    ensures CalmTrace(events, calm) == events
  {
    if events != [] {
      CalmTraceKeeps(events[..|events| - 1], calm);
      assert events[|events| - 1] in events;
      assert events == events[..|events| - 1] + [events[|events| - 1]];
    }
  }

  lemma CalmCrashEvents(i: nat, calm: set<nat>)
    requires i in calm
    ensures CalmTrace([Service(i, CrashLogged), Service(i, Stopped), Ended(i)], calm) == [Service(i, Stopped), Ended(i)]
  {
    CalmTraceAppend([Service(i, CrashLogged)], [Service(i, Stopped), Ended(i)], calm);
    CalmTraceKeeps([Service(i, Stopped), Ended(i)], calm);
    assert [Service(i, CrashLogged)] + [Service(i, Stopped), Ended(i)]
        == [Service(i, CrashLogged), Service(i, Stopped), Ended(i)];
  }

  lemma CalmEnabled(cfg: Config, s: Host, a: Action, calm: set<nat>)
    requires ValidConfig(cfg)
    ensures Enabled(cfg, Calm(s, calm), CalmAction(a, calm)) == Enabled(cfg, s, a)
  {
    assert AllDone(CalmTasks(s.tasks, calm)) == AllDone(s.tasks) by {
      if AllDone(CalmTasks(s.tasks, calm)) {
        assert forall i | 0 <= i < |s.tasks| :: CalmTasks(s.tasks, calm)[i].phase.Done? ==> s.tasks[i].phase.Done?;
      }
    }
  }

  lemma CalmCrash(cfg: Config, s: Host, i: nat, calm: set<nat>)
    requires ValidConfig(cfg) && i in calm && i < |s.tasks|
    requires Enabled(cfg, s, End(i, Crashed)) && Enabled(cfg, Calm(s, calm), End(i, Returned))
    ensures Events(cfg, Calm(s, calm), End(i, Returned)) == CalmTrace(Events(cfg, s, End(i, Crashed)), calm)
  {
    assert Events(cfg, s, End(i, Crashed)) == [Service(i, CrashLogged), Service(i, Stopped), Ended(i)];
    assert Events(cfg, Calm(s, calm), End(i, Returned)) == [Service(i, Stopped), Ended(i)];
    CalmCrashEvents(i, calm);
  }

  /** Events that tell nothing of a crash stay as they are. */
  lemma CalmOtherEvents(cfg: Config, s: Host, a: Action, calm: set<nat>)
    requires ValidConfig(cfg) && Enabled(cfg, s, a) && CalmAction(a, calm) == a
    ensures forall e | e in Events(cfg, s, a) :: !IsCrashLine(e, calm)
  {
  }

  lemma CalmSameEvents(cfg: Config, s: Host, a: Action, calm: set<nat>)
    requires ValidConfig(cfg) && Enabled(cfg, s, a) && Enabled(cfg, Calm(s, calm), a) && CalmAction(a, calm) == a
    ensures Events(cfg, Calm(s, calm), a) == Events(cfg, s, a)
  {
    if a == Expire {
      assert Unfinished(CalmTasks(s.tasks, calm)) == Unfinished(s.tasks);
    }
  }

  lemma CalmEvents(cfg: Config, s: Host, a: Action, calm: set<nat>)
    requires ValidConfig(cfg) && Enabled(cfg, s, a)
    requires Enabled(cfg, Calm(s, calm), CalmAction(a, calm))
    ensures Events(cfg, Calm(s, calm), CalmAction(a, calm)) == CalmTrace(Events(cfg, s, a), calm)
  {
    if CalmAction(a, calm) == a {
      CalmSameEvents(cfg, s, a, calm);
      CalmOtherEvents(cfg, s, a, calm);
      CalmTraceKeeps(Events(cfg, s, a), calm);
    } else {
      CalmCrash(cfg, s, a.i, calm);
    }
  }

  /** The task actions, one task at a time. */
  lemma CalmUpdate(tasks: seq<Task>, i: nat, task: Task, calmed: Task, calm: set<nat>)
    requires i < |tasks|
    requires calmed == if i in calm && task.phase == Done(Crashed) then task.(phase := Done(Returned)) else task
    ensures CalmTasks(tasks, calm)[i := calmed] == CalmTasks(tasks[i := task], calm)
  {
  }

  lemma CalmTaskMove(cfg: Config, s: Host, a: Action, calm: set<nat>)
    requires ValidConfig(cfg) && Enabled(cfg, s, a) && Actor(a).Some?
    requires Enabled(cfg, Calm(s, calm), CalmAction(a, calm))
    ensures Move(cfg, Calm(s, calm), CalmAction(a, calm)) == Calm(Move(cfg, s, a), calm)
  {
    var i := Actor(a).value;
    CalmUpdate(s.tasks, i, Move(cfg, s, a).tasks[i], Move(cfg, Calm(s, calm), CalmAction(a, calm)).tasks[i], calm);
  }

  lemma CalmHostMove(cfg: Config, s: Host, a: Action, calm: set<nat>)
    requires ValidConfig(cfg) && Enabled(cfg, s, a) && Actor(a).None?
    requires Enabled(cfg, Calm(s, calm), CalmAction(a, calm))
    ensures Move(cfg, Calm(s, calm), CalmAction(a, calm)) == Calm(Move(cfg, s, a), calm)
  {
    if a == Expire || a == Spawn {
      assert Move(cfg, Calm(s, calm), CalmAction(a, calm)).tasks == CalmTasks(Move(cfg, s, a).tasks, calm);
    }
  }

  lemma CalmMove(cfg: Config, s: Host, a: Action, calm: set<nat>)
    requires ValidConfig(cfg) && Enabled(cfg, s, a)
    requires Enabled(cfg, Calm(s, calm), CalmAction(a, calm))
    ensures Move(cfg, Calm(s, calm), CalmAction(a, calm)) == Calm(Move(cfg, s, a), calm)
  {
    if Actor(a).Some? {
      CalmTaskMove(cfg, s, a, calm);
    } else {
      CalmHostMove(cfg, s, a, calm);
    }
  }

  /**
   Calming commutes with every action: the calmed sequence can be executed exactly when the
   original can, and leads to the calmed state.
   */
  lemma {:induction false} CalmExecute(cfg: Config, s: Host, acts: seq<Action>, calm: set<nat>)
    requires ValidConfig(cfg)
    ensures Execute(cfg, Calm(s, calm), CalmRun(acts, calm)) ==
      match Execute(cfg, s, acts) { case Some(s') => Some(Calm(s', calm)) case None => None }
    decreases |acts|
  {
    if acts != [] {
      var a := acts[0];
      assert CalmRun(acts, calm)[1..] == CalmRun(acts[1..], calm);
      CalmEnabled(cfg, s, a, calm);
      if Enabled(cfg, s, a) {
        CalmMove(cfg, s, a, calm);
        CalmEvents(cfg, s, a, calm);
        CalmTraceAppend(s.trace, Events(cfg, s, a), calm);
        CalmExecute(cfg, Apply(cfg, s, a), acts[1..], calm);
      }
    }
  }

  /**
   Two sequences of actions that differ only in whether some services raise or return: if one is
   a run, so is the other, and no part of the resulting states but the outcome and the crash
   line of those services tells the two apart.
   */
  lemma CrashesDoNotInterfere(cfg: Config, acts: seq<Action>, s: Host, acts': seq<Action>, calm: set<nat>)
    requires Reaches(cfg, acts, s) && CalmRun(acts, calm) == CalmRun(acts', calm)
    ensures exists s' :: Reaches(cfg, acts', s') && Calm(s', calm) == Calm(s, calm)
  {
    CalmExecute(cfg, Init(), acts, calm);
    CalmExecute(cfg, Init(), acts', calm);
    var s' := Execute(cfg, Init(), acts').value;
    assert Reaches(cfg, acts', s');
  }

  lemma LogOfOneMore(trace: seq<Event>, e: Event, i: nat)
    ensures LogOf(trace + [e], i) == LogOf(trace, i) + if e.Service? && e.i == i then [e.line] else []
  {
    assert (trace + [e])[..|trace|] == trace;
  }

  /** A log without a crash line, or of a service that is not calmed, stays as it is. */
  lemma {:induction false} CalmLog(trace: seq<Event>, calm: set<nat>, i: nat)
    requires i !in calm || CrashLogged !in LogOf(trace, i)
    ensures LogOf(CalmTrace(trace, calm), i) == LogOf(trace, i)
  {
    if trace != [] {
      var front, last := trace[..|trace| - 1], trace[|trace| - 1];
      assert trace == front + [last];
      LogOfOneMore(front, last, i);
      CalmLog(front, calm, i);
      assert CalmTrace(trace, calm) == if IsCrashLine(last, calm) then CalmTrace(front, calm) else CalmTrace(front, calm) + [last];
      LogOfOneMore(CalmTrace(front, calm), last, i);
    }
  }

  /** The host's own milestones, in order. */
  function Milestones(trace: seq<Event>): seq<Event> {
    if trace == [] then []
    else
      var last := trace[|trace| - 1];
      Milestones(trace[..|trace| - 1]) + if IsMilestone(last) then [last] else []
  }

  lemma {:induction false} CalmMilestones(trace: seq<Event>, calm: set<nat>)
    ensures Milestones(CalmTrace(trace, calm)) == Milestones(trace)
  {
    if trace != [] {
      var front, last := trace[..|trace| - 1], trace[|trace| - 1];
      CalmMilestones(front, calm);
      assert CalmTrace(trace, calm) == if IsCrashLine(last, calm) then CalmTrace(front, calm) else CalmTrace(front, calm) + [last];
      assert (CalmTrace(front, calm) + [last])[..|CalmTrace(front, calm)|] == CalmTrace(front, calm);
    }
  }

  lemma CalmedServiceLog(cfg: Config, acts: seq<Action>, s: Host, calm: set<nat>, i: nat)
    requires Reaches(cfg, acts, s) && Reaches(cfg, CalmRun(acts, calm), Calm(s, calm))
    requires i < |s.tasks| && i in calm
    ensures LogOf(Calm(s, calm).trace, i) ==
      if s.tasks[i].phase == Done(Crashed) then [Starting, Stopped] else LogOf(s.trace, i)
  {
    ServiceLogGrammar(cfg, acts, s, i);
    if s.tasks[i].phase == Done(Crashed) {
      ServiceLogGrammar(cfg, CalmRun(acts, calm), Calm(s, calm), i);
    } else {
      CalmLog(s.trace, calm, i);
    }
  }

  /**
   Take any run and let some services return where they raised. The result is a run of the same
   host; the host goes through the same milestones to the same state, every other service ends
   the same way with the same log, and the calmed services lose their crash lines only.
   */
  lemma CrashIsolation(cfg: Config, acts: seq<Action>, s: Host, calm: set<nat>)
    requires Reaches(cfg, acts, s)
    ensures Reaches(cfg, CalmRun(acts, calm), Calm(s, calm))
    ensures var s' := Calm(s, calm);
      && s'.pc == s.pc && s'.failed == s.failed && s'.stopping == s.stopping && s'.registered == s.registered
      && Milestones(s'.trace) == Milestones(s.trace)
      && |s'.tasks| == |s.tasks|
      && forall i: nat | i < |s.tasks| && i !in calm ::
           s'.tasks[i] == s.tasks[i] && LogOf(s'.trace, i) == LogOf(s.trace, i)
    ensures forall i: nat | i < |s.tasks| && i in calm ::
      && Calm(s, calm).tasks[i].phase == (if s.tasks[i].phase == Done(Crashed) then Done(Returned) else s.tasks[i].phase)
      && LogOf(Calm(s, calm).trace, i) == if s.tasks[i].phase == Done(Crashed) then [Starting, Stopped] else LogOf(s.trace, i)
  {
    CalmExecute(cfg, Init(), acts, calm);
    assert Calm(Init(), calm) == Init();
    CalmMilestones(s.trace, calm);
    forall i: nat | i < |s.tasks| && i !in calm ensures LogOf(Calm(s, calm).trace, i) == LogOf(s.trace, i) {
      CalmLog(s.trace, calm, i);
    }
    forall i: nat | i < |s.tasks| && i in calm
      ensures LogOf(Calm(s, calm).trace, i) == if s.tasks[i].phase == Done(Crashed) then [Starting, Stopped] else LogOf(s.trace, i)
    {
      CalmedServiceLog(cfg, acts, s, calm, i);
    }
  }
}
