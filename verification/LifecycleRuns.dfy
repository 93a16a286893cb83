/** What a run of the host lifecycle does to its services and to its own outcome, action by action. */
module LifecycleRuns {
  import opened Wrappers
  import opened HostLifecycle
  import opened LifecycleSafety

  // ---------------------------------------------------------------- states along a run

  lemma {:induction false} ExecuteSplit(cfg: Config, s: Host, a: seq<Action>, b: seq<Action>)
    requires ValidConfig(cfg)
    ensures Execute(cfg, s, a + b) ==
      match Execute(cfg, s, a) { case Some(m) => Execute(cfg, m, b) case None => None }
    decreases |a|
  {
    if a == [] {
      assert a + b == b;
    } else if Enabled(cfg, s, a[0]) {
      ExecuteSplit(cfg, Apply(cfg, s, a[0]), a[1..], b);
      assert (a + b)[1..] == a[1..] + b;
    }
  }

  lemma ExecuteOne(cfg: Config, s: Host, a: Action)
    requires ValidConfig(cfg)
    ensures Execute(cfg, s, [a]) == if Enabled(cfg, s, a) then Some(Apply(cfg, s, a)) else None
  {
    assert [a][1..] == [];
    if Enabled(cfg, s, a) {
      assert Execute(cfg, Apply(cfg, s, a), []) == Some(Apply(cfg, s, a));
    }
  }

  /** The state in which action `k` of a run is taken. */
  lemma StateAt(cfg: Config, acts: seq<Action>, s: Host, k: nat) returns (m: Host)
    requires Reaches(cfg, acts, s) && k < |acts|
    ensures Reaches(cfg, acts[..k], m) && Inv(cfg, m) && Enabled(cfg, m, acts[k])
    ensures Execute(cfg, Apply(cfg, m, acts[k]), acts[k + 1..]) == Some(s)
  {
    assert acts == acts[..k] + acts[k..];
    ExecuteSplit(cfg, Init(), acts[..k], acts[k..]);
    m := Execute(cfg, Init(), acts[..k]).value;
    RunInv(cfg, acts[..k], m);
    assert acts[k..][1..] == acts[k + 1..];
  }

  lemma {:induction false} FloorGrows(cfg: Config, s: Host, acts: seq<Action>)
    requires ValidConfig(cfg) && Execute(cfg, s, acts).Some?
    ensures Floor(s.pc) <= Floor(Execute(cfg, s, acts).value.pc)
    decreases |acts|
  {
    if acts != [] {
      if Actor(acts[0]).None? {
        HostEvents(cfg, s, acts[0]);
      } else {
        TaskEvents(cfg, s, acts[0]);
      }
      FloorGrows(cfg, Apply(cfg, s, acts[0]), acts[1..]);
    }
  }

  // ---------------------------------------------------------------- the grace period

  lemma WaitingStep(cfg: Config, s: Host, a: Action)
    requires ValidConfig(cfg) && s.pc.Waiting? && Enabled(cfg, s, a)
    ensures var s' := Apply(cfg, s, a);
      if s'.pc.Waiting? then s'.pc.budget + 1 == s.pc.budget else Floor(s'.pc) >= 5
  {
  }

  lemma {:induction false} BudgetCounts(cfg: Config, s: Host, mid: seq<Action>)
    requires ValidConfig(cfg) && s.pc.Waiting? && Execute(cfg, s, mid).Some?
    requires Execute(cfg, s, mid).value.pc == Waiting(0)
    ensures |mid| == s.pc.budget
    decreases |mid|
  {
    if mid != [] {
      WaitingStep(cfg, s, mid[0]);
      FloorGrows(cfg, Apply(cfg, s, mid[0]), mid[1..]);
      BudgetCounts(cfg, Apply(cfg, s, mid[0]), mid[1..]);
    }
  }

  /**
   The services get their whole grace period and no more: between the stop signal and the deadline
   host and services take exactly as many steps as there are ticks in it.
   */
  lemma GraceIsExact(cfg: Config, acts: seq<Action>, s: Host, i: nat, j: nat)
    requires Reaches(cfg, acts, s) && i < j < |acts| && acts[i] == SetStopping && acts[j] == Expire
    ensures j - i - 1 == cfg.grace
  {
    var upto := acts[..j];
    var late := StateAt(cfg, acts, s, j);
    var m := StateAt(cfg, upto, late, i);
    assert upto[i + 1..] == acts[i + 1..j];
    BudgetCounts(cfg, Apply(cfg, m, SetStopping), acts[i + 1..j]);
  }

  /**
   Once the stop signal is given the host goes on as soon as every service has ended, before the
   deadline as well as behind it, and never earlier.
   */
  lemma BarrierExactlyWhenAllEnded(cfg: Config, acts: seq<Action>, s: Host)
    requires Reaches(cfg, acts, s) && StoppingSet in s.trace && AllStopped !in s.trace
    ensures Enabled(cfg, s, Pass) <==> forall i: nat | i < |s.tasks| :: Ended(i) in s.trace
  {
    RunInv(cfg, acts, s);
    assert s.pc.Waiting? || s.pc.Draining?;
  }

  lemma BarrierIsPassed(cfg: Config, s: Host, a: Action)
    requires ValidConfig(cfg) && Enabled(cfg, s, a) && (a == Pass || a == BeginClose)
    ensures Floor(Apply(cfg, s, a).pc) >= 6
  {
  }

  /** Behind the barrier, and once the container is being closed, no service takes a step. */
  lemma NoServiceActsBehindBarrier(cfg: Config, acts: seq<Action>, s: Host, i: nat, j: nat)
    requires Reaches(cfg, acts, s) && i < j < |acts| && (acts[i] == Pass || acts[i] == BeginClose)
    ensures Actor(acts[j]).None?
  {
    var upto := acts[..j];
    var late := StateAt(cfg, acts, s, j);
    var m := StateAt(cfg, upto, late, i);
    BarrierIsPassed(cfg, m, acts[i]);
    FloorGrows(cfg, Apply(cfg, m, acts[i]), upto[i + 1..]);
    ActorIsEarly(cfg, late, acts[j]);
  }

  lemma StepIsTold(cfg: Config, s: Host, a: Action, i: nat)
    requires ValidConfig(cfg) && Enabled(cfg, s, a)
    ensures multiset(Events(cfg, s, a))[Worked(i)] == if a == Work(i) then 1 else 0
  {
    if Actor(a).None? {
      HostEvents(cfg, s, a);
    } else if !a.Work? {
      assert Worked(i) !in Events(cfg, s, a);
    }
  }

  lemma StepIsCounted(cfg: Config, s: Host, a: Action, i: nat)
    requires ValidConfig(cfg) && Enabled(cfg, s, a)
    ensures multiset(Apply(cfg, s, a).trace)[Worked(i)] == multiset(s.trace)[Worked(i)] + if a == Work(i) then 1 else 0
  {
    StepIsTold(cfg, s, a, i);
  }

  lemma HeadIsCounted(acts: seq<Action>, a: Action)
    requires acts != []
    ensures multiset(acts)[a] == multiset(acts[1..])[a] + if acts[0] == a then 1 else 0
  {
    assert acts == [acts[0]] + acts[1..];
  }

  /** The trace tells every step a service takes between its start and its end, as often as it takes one. */
  lemma {:induction false} EveryStepIsTold(cfg: Config, s: Host, acts: seq<Action>, i: nat)
    requires ValidConfig(cfg) && Execute(cfg, s, acts).Some?
    ensures multiset(Execute(cfg, s, acts).value.trace)[Worked(i)] == multiset(s.trace)[Worked(i)] + multiset(acts)[Work(i)]
    decreases |acts|
  {
    if acts != [] {
      StepIsCounted(cfg, s, acts[0], i);
      HeadIsCounted(acts, Work(i));
      EveryStepIsTold(cfg, Apply(cfg, s, acts[0]), acts[1..], i);
    }
  }

  // ---------------------------------------------------------------- stragglers

  /** The task was cancelled before its first step, and has not taken one. */
  predicate NeverEntered(task: Task) {
    task.cancelled && (task.phase == Created || task.phase == Done(WasCancelled))
  }

  lemma StaysOut(cfg: Config, s: Host, a: Action, i: nat)
    requires Inv(cfg, s) && Enabled(cfg, s, a)
    requires i < |s.tasks| && NeverEntered(s.tasks[i])
    ensures i < |Apply(cfg, s, a).tasks| && NeverEntered(Apply(cfg, s, a).tasks[i])
    ensures LogOf(Apply(cfg, s, a).trace, i) == LogOf(s.trace, i)
  {
    assert a != Spawn;
    PhaseStep(cfg, s, a, i);
    LogOfEvents(cfg, s, a, i);
    LogOfAppend(s.trace, Events(cfg, s, a), i);
    assert LogOf(s.trace, i) + [] == LogOf(s.trace, i);
  }

  /** A service cancelled before its first step is never entered: it can only end as cancelled, and logs nothing. */
  lemma {:induction false} CancelledBeforeItsFirstStep(cfg: Config, s: Host, acts: seq<Action>, i: nat)
    requires Inv(cfg, s) && Execute(cfg, s, acts).Some?
    requires i < |s.tasks| && NeverEntered(s.tasks[i])
    ensures var s' := Execute(cfg, s, acts).value;
      i < |s'.tasks| && NeverEntered(s'.tasks[i]) && LogOf(s'.trace, i) == LogOf(s.trace, i)
    decreases |acts|
  {
    if acts != [] {
      StepInv(cfg, s, acts[0]);
      StaysOut(cfg, s, acts[0], i);
      CancelledBeforeItsFirstStep(cfg, Apply(cfg, s, acts[0]), acts[1..], i);
    }
  }

  // ---------------------------------------------------------------- anything may happen

  /** `a` can be the next action of the run. */
  ghost predicate MayFollow(cfg: Config, acts: seq<Action>, a: Action) {
    exists s :: Reaches(cfg, acts + [a], s)
  }

  lemma EnabledMayFollow(cfg: Config, acts: seq<Action>, s: Host, a: Action)
    requires Reaches(cfg, acts, s) && Enabled(cfg, s, a)
    ensures MayFollow(cfg, acts, a) && Reaches(cfg, acts + [a], Apply(cfg, s, a))
  {
    ExecuteSplit(cfg, Init(), acts, [a]);
    ExecuteOne(cfg, s, a);
    assert Reaches(cfg, acts + [a], Apply(cfg, s, a));
  }

  /** While the grace period is not used up, a created service may start. */
  lemma AnyServiceMayStart(cfg: Config, acts: seq<Action>, s: Host, i: nat)
    requires Reaches(cfg, acts, s) && i < |s.tasks| && s.pc != Waiting(0)
    requires s.tasks[i].phase == Created && !s.tasks[i].cancelled
    ensures exists s' :: Reaches(cfg, acts + [Start(i)], s') && i < |s'.tasks| && s'.tasks[i].phase == Running
  {
    EnabledMayFollow(cfg, acts, s, Start(i));
  }

  /**
   While the grace period is not used up, a service that is running may return, crash or be
   cancelled, and ends that way; it may also go on, a cancelled one for the steps left to it.
   */
  lemma AnyOutcomeIsPossible(cfg: Config, acts: seq<Action>, s: Host, i: nat, outcome: Outcome)
    requires Reaches(cfg, acts, s) && i < |s.tasks| && s.tasks[i].phase == Running && s.pc != Waiting(0)
    ensures exists s' :: Reaches(cfg, acts + [End(i, outcome)], s') && i < |s'.tasks| && s'.tasks[i].phase == Done(outcome)
    ensures !s.tasks[i].cancelled || s.tasks[i].left > 1 ==> MayFollow(cfg, acts, Work(i))
  {
    EnabledMayFollow(cfg, acts, s, End(i, outcome));
    if !s.tasks[i].cancelled || s.tasks[i].left > 1 {
      EnabledMayFollow(cfg, acts, s, Work(i));
    }
  }

  /** Resolving, the app lifespan, serving and the container's close may raise, or not. */
  lemma AnyFailureIsPossible(cfg: Config, acts: seq<Action>, s: Host, raises: bool)
    requires Reaches(cfg, acts, s)
    ensures s.pc.Resolving? && s.pc.next < |cfg.types| ==> MayFollow(cfg, acts, if raises then ResolveFails else ResolveNext)
    ensures s.pc == EnteringApp ==> MayFollow(cfg, acts, EnterApp(raises))
    ensures s.pc == Serving ==> MayFollow(cfg, acts, StopServing(raises))
    ensures s.pc == ExitingApp ==> MayFollow(cfg, acts, ExitApp(raises))
    ensures s.pc == ClosingContainer ==> MayFollow(cfg, acts, EndClose(raises))
  {
    var a := match s.pc
      case Resolving(_) => if raises then ResolveFails else ResolveNext
      case EnteringApp => EnterApp(raises)
      case Serving => StopServing(raises)
      case ExitingApp => ExitApp(raises)
      case _ => EndClose(raises);
    if Enabled(cfg, s, a) {
      EnabledMayFollow(cfg, acts, s, a);
    }
  }

  /** A host that serves has entered its app lifespan and created all its services, and stopped none. */
  lemma ServingHost(cfg: Config, acts: seq<Action>, s: Host)
    requires Reaches(cfg, acts, s) && s.pc == Serving
    ensures AppEntered in s.trace <==> cfg.hasAppLifespan
    ensures |s.tasks| == |cfg.types| && !s.stopping
    ensures forall i | 0 <= i < |s.tasks| :: !s.tasks[i].cancelled && s.tasks[i].left == cfg.patience[i]
  {
    RunInv(cfg, acts, s);
    assert !s.stopping;
  }

  // ---------------------------------------------------------------- when a host fails

  /** What makes the host fail: an exception that no one behind it replaces or swallows. */
  predicate Fails(cfg: Config, a: Action) {
    match a
    case ResolveFails => true
    case EnterApp(raises) => raises
    case StopServing(raises) => raises && !cfg.hasAppLifespan
    case ExitApp(raises) => raises
    case EndClose(raises) => raises
    case _ => false
  }

  /** A failure that is still to stand at the exit: the app lifespan is behind. */
  predicate FailedForGood(s: Host) {
    s.failed && Floor(s.pc) >= 3
  }

  lemma FailureTaskStep(cfg: Config, s: Host, a: Action)
    requires ValidConfig(cfg) && Enabled(cfg, s, a) && Actor(a).Some?
    ensures FailedForGood(Apply(cfg, s, a)) <==> FailedForGood(s)
    ensures !Fails(cfg, a) && a != ResolveNext
  {
  }

  /** While the app lifespan is ahead nothing has failed for good; behind it only the close can still fail. */
  lemma FailureHostStep(cfg: Config, s: Host, a: Action)
    requires ValidConfig(cfg) && Enabled(cfg, s, a) && Actor(a).None? && !a.ResolveNext?
    requires s.pc.Resolving? ==> !s.failed
    ensures FailedForGood(Apply(cfg, s, a)) <==> FailedForGood(s) || Fails(cfg, a)
  {
    if Floor(s.pc) >= 3 {
      assert !a.StopServing? && !a.EnterApp? && !a.ExitApp? && !a.ResolveFails?;
    }
  }

  lemma FailureStep(cfg: Config, s: Host, a: Action)
    requires Inv(cfg, s) && Enabled(cfg, s, a)
    ensures FailedForGood(Apply(cfg, s, a)) <==>
      || FailedForGood(s) || Fails(cfg, a)
      || (a == ResolveNext && cfg.names[s.pc.next] in s.registered)
  {
    if Actor(a).Some? {
      FailureTaskStep(cfg, s, a);
    } else if a != ResolveNext {
      FailureHostStep(cfg, s, a);
    }
  }

  lemma DuplicateResolves(cfg: Config, s: Host, a: Action)
    requires Inv(cfg, s) && Enabled(cfg, s, a) && s.pc.Resolving?
    ensures a == ResolveNext && cfg.names[s.pc.next] in s.registered ==> !Distinct(cfg.names)
    ensures a == Spawn ==> Distinct(cfg.names)
  {
    assert cfg.names[..|cfg.names|] == cfg.names;
    if a == ResolveNext && cfg.names[s.pc.next] in s.registered {
      var k :| 0 <= k < |s.registered| && s.registered[k] == cfg.names[s.pc.next];
      assert cfg.names[k] == cfg.names[s.pc.next];
    }
  }

  lemma {:induction false} FailureAhead(cfg: Config, s: Host, acts: seq<Action>)
    requires Inv(cfg, s) && Execute(cfg, s, acts).Some? && Execute(cfg, s, acts).value.pc == Exited
    ensures Execute(cfg, s, acts).value.failed <==>
      || FailedForGood(s) || (s.pc.Resolving? && !Distinct(cfg.names))
      || exists a :: a in acts && Fails(cfg, a)
    decreases |acts|
  {
    if acts != [] {
      var a, s1, rest := acts[0], Apply(cfg, s, acts[0]), acts[1..];
      assert acts == [a] + rest;
      StepInv(cfg, s, a);
      FailureStep(cfg, s, a);
      FailureAhead(cfg, s1, rest);
      if s.pc.Resolving? {
        DuplicateResolves(cfg, s, a);
      }
      assert (exists b :: b in acts && Fails(cfg, b)) <==> Fails(cfg, a) || exists b :: b in rest && Fails(cfg, b);
    }
  }

  /**
   A host fails if and only if two of its names are equal or something raises past it: resolving,
   the app lifespan, serving without an app lifespan around it, or the close of the container.
   */
  lemma FailsExactlyWhen(cfg: Config, acts: seq<Action>, s: Host)
    requires Reaches(cfg, acts, s) && s.pc == Exited
    ensures s.failed <==> !Distinct(cfg.names) || exists a :: a in acts && Fails(cfg, a)
  {
    InitInv(cfg);
    FailureAhead(cfg, Init(), acts);
  }
}
