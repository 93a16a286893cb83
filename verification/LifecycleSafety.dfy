/** What every run of the host lifecycle keeps, whatever the interleaving and whatever fails. */
module LifecycleSafety {
  import opened Wrappers
  import opened HostLifecycle

  // ---------------------------------------------------------------- host and tasks

  /** Milestones happen in this order; the two ways to leave the container's close exclude each other. */
  function Rank(e: Event): nat {
    match e
    case Spawned => 0
    case AppEntered => 1
    case AppExited => 2
    case StoppingSet => 3
    case GraceExpired(_) => 4
    case AllStopped => 5
    case CloseBegun => 6
    case Closed | CloseFailed => 7
    case Flushed => 8
    case Service(_, _) | Worked(_) | Ended(_) => 9
  }

  predicate IsMilestone(e: Event) {
    !e.Service? && !e.Worked? && !e.Ended?
  }

  /** `e` is something service `i` does. */
  predicate Concerns(e: Event, i: nat) {
    match e
    case Service(j, _) => i == j
    case Worked(j) => i == j
    case Ended(j) => i == j
    case _ => false
  }

  /** Milestones below the floor of a control point are behind it, the others still ahead. */
  function Floor(pc: Pc): nat {
    match pc
    case Resolving(_) => 0
    case EnteringApp => 1
    case Serving => 2
    case ExitingApp => 2
    case Signalling => 3
    case Waiting(_) => 4
    case Draining => 5
    case Closing => 6
    case ClosingContainer => 7
    case Flushing => 8
    case Exited => 9
  }

  /** Which control points belong to a host with services, and which to one with an app lifespan. */
  predicate PathInv(cfg: Config, s: Host) {
    && (s.pc.Resolving? ==> s.tasks == [])
    && (s.pc == EnteringApp || s.pc == ExitingApp ==> cfg.hasAppLifespan)
    && (s.pc.Signalling? || s.pc.Waiting? || s.pc.Draining? ==> s.tasks != [])
    && (s.stopping <==> s.tasks != [] && Floor(s.pc) >= 4)
  }

  ghost predicate TasksFit(cfg: Config, tasks: seq<Task>)
    requires ValidConfig(cfg)
  {
    && |tasks| == |cfg.types|
    && forall i | 0 <= i < |tasks| ::
         && tasks[i].name == cfg.names[i] && 0 < tasks[i].left <= cfg.patience[i]
         && (!tasks[i].cancelled ==> tasks[i].left == cfg.patience[i])
  }

  /** Registration and task creation: nothing runs before everything is resolved and named apart. */
  ghost predicate StartupInv(cfg: Config, s: Host)
    requires ValidConfig(cfg)
  {
    && (s.pc.Resolving? ==>
          && s.pc.next <= |cfg.types| && s.registered == cfg.names[..s.pc.next]
          && !s.failed)
    && Distinct(s.registered)
    && (s.tasks != [] ==> TasksFit(cfg, s.tasks) && s.registered == cfg.names)
    && (s.tasks == [] && cfg.types != [] && !s.pc.Resolving? ==> s.failed && Floor(s.pc) >= 6)
  }

  /** Once the barrier is behind the host, no task is left; only the deadline cancels. */
  ghost predicate TaskInv(s: Host) {
    && (Floor(s.pc) >= 6 ==> AllDone(s.tasks))
    && (forall i | 0 <= i < |s.tasks| :: s.tasks[i].cancelled ==> Floor(s.pc) >= 5)
    && (s.pc.Draining? ==> forall i | 0 <= i < |s.tasks| :: !s.tasks[i].phase.Done? ==> s.tasks[i].cancelled)
  }

  // ---------------------------------------------------------------- the trace

  ghost predicate OrderInv(s: Host) {
    && (forall p | 0 <= p < |s.trace| :: IsMilestone(s.trace[p]) ==> Rank(s.trace[p]) < Floor(s.pc))
    && (forall p, q | 0 <= p < q < |s.trace| ::
          IsMilestone(s.trace[p]) && IsMilestone(s.trace[q]) ==> Rank(s.trace[p]) < Rank(s.trace[q]))
  }

  /** Which milestones have happened is decided by where the host is. */
  ghost predicate ScopeMilestones(s: Host) {
    && (Spawned in s.trace <==> s.tasks != [])
    && (StoppingSet in s.trace <==> s.stopping)
    && (AllStopped in s.trace <==> s.tasks != [] && Floor(s.pc) >= 6)
  }

  ghost predicate AppMilestones(cfg: Config, s: Host) {
    && (AppEntered in s.trace ==> Floor(s.pc) >= 2 && cfg.hasAppLifespan)
    && (s.pc == Serving || s.pc == ExitingApp ==> (AppEntered in s.trace <==> cfg.hasAppLifespan))
    && (AppExited in s.trace <==> Floor(s.pc) >= 3 && AppEntered in s.trace)
  }

  ghost predicate CloseMilestones(s: Host) {
    && (CloseBegun in s.trace <==> Floor(s.pc) >= 7)
    && (Closed in s.trace || CloseFailed in s.trace <==> Floor(s.pc) >= 8)
    && (CloseFailed in s.trace ==> s.pc == Exited && s.failed && Closed !in s.trace)
    && (Flushed in s.trace <==> s.pc == Exited && Closed in s.trace)
  }

  ghost predicate HappenedInv(cfg: Config, s: Host) {
    ScopeMilestones(s) && AppMilestones(cfg, s) && CloseMilestones(s)
  }

  /** An ended service is silent. */
  ghost predicate EndedInv(s: Host) {
    && (forall p, i: nat | 0 <= p < |s.trace| && Concerns(s.trace[p], i) :: i < |s.tasks|)
    && (forall i | 0 <= i < |s.tasks| :: Ended(i) in s.trace <==> s.tasks[i].phase.Done?)
    && (forall p, q, i | 0 <= p < q < |s.trace| && s.trace[p] == Ended(i) :: !Concerns(s.trace[q], i))
  }

  /** Services act only while the barrier is ahead. */
  ghost predicate SilenceInv(s: Host) {
    forall p, q | 0 <= p < q < |s.trace| ::
      IsMilestone(s.trace[p]) && Rank(s.trace[p]) >= 5 ==> IsMilestone(s.trace[q])
  }

  /** Event `p` is the deadline passing with service `i` unfinished. */
  predicate Overdue(trace: seq<Event>, p: nat, i: nat) {
    p < |trace| && trace[p].GraceExpired? && i in trace[p].stragglers
  }

  /** Only tasks unfinished at the deadline are cancelled, and all of them. */
  ghost predicate CancelInv(s: Host) {
    && (forall i: nat | i < |s.tasks| && s.tasks[i].cancelled :: exists p: nat :: Overdue(s.trace, p, i))
    && (forall p: nat, i: nat | Overdue(s.trace, p, i) ::
          i < |s.tasks| && s.tasks[i].cancelled && Ended(i) !in s.trace[..p])
    && (forall p: nat, i: nat | InTime(s, p, i) :: Ended(i) in s.trace[..p])
  }

  /** Event `p` is the deadline passing, and service `i` is not among the stragglers. */
  predicate InTime(s: Host, p: nat, i: nat) {
    p < |s.trace| && s.trace[p].GraceExpired? && i < |s.tasks| && i !in s.trace[p].stragglers
  }

  ghost predicate Inv(cfg: Config, s: Host) {
    && ValidConfig(cfg)
    && PathInv(cfg, s)
    && StartupInv(cfg, s)
    && TaskInv(s)
    && OrderInv(s)
    && HappenedInv(cfg, s)
    && EndedInv(s)
    && SilenceInv(s)
    && CancelInv(s)
  }

  lemma InitInv(cfg: Config)
    requires ValidConfig(cfg)
    ensures Inv(cfg, Init())
  {
  }

  // ---------------------------------------------------------------- each action keeps each part

  function Actor(a: Action): Option<nat> {
    match a
    case Start(i) => Some(i)
    case Work(i) => Some(i)
    case End(i, _) => Some(i)
    case _ => None
  }

  /** A host action emits at most one milestone, between the floors it moves between. */
  lemma HostEvents(cfg: Config, s: Host, a: Action)
    requires ValidConfig(cfg) && Enabled(cfg, s, a) && Actor(a).None?
    ensures Floor(s.pc) <= Floor(Move(cfg, s, a).pc)
    ensures |Events(cfg, s, a)| <= 1
    ensures Events(cfg, s, a) != [] ==>
      var e := Events(cfg, s, a)[0];
      IsMilestone(e) && Floor(s.pc) <= Rank(e) < Floor(Move(cfg, s, a).pc)
  {
  }

  /** A task action emits only doings of that task, and leaves the host where it is. */
  lemma TaskEvents(cfg: Config, s: Host, a: Action)
    requires ValidConfig(cfg) && Enabled(cfg, s, a) && Actor(a).Some?
    ensures Floor(s.pc) == Floor(Move(cfg, s, a).pc)
    ensures forall e | e in Events(cfg, s, a) :: Concerns(e, Actor(a).value) && !IsMilestone(e)
    ensures forall k | 0 <= k < |Events(cfg, s, a)| - 1 :: Events(cfg, s, a)[k] != Ended(Actor(a).value)
    ensures Ended(Actor(a).value) in Events(cfg, s, a) <==> a.End?
  {
    if a.End? {
      var events := Events(cfg, s, a);
      assert events[|events| - 1] == Ended(a.i);
    }
  }

  lemma DistinctAppend(names: seq<string>, name: string)
    requires Distinct(names) && name !in names
    ensures Distinct(names + [name])
  {
  }

  lemma PathStep(cfg: Config, s: Host, a: Action)
    requires ValidConfig(cfg) && PathInv(cfg, s) && Enabled(cfg, s, a)
    ensures PathInv(cfg, Apply(cfg, s, a))
  {
  }

  lemma ResolveStep(cfg: Config, s: Host)
    requires ValidConfig(cfg) && PathInv(cfg, s) && StartupInv(cfg, s) && Enabled(cfg, s, ResolveNext)
    ensures StartupInv(cfg, Apply(cfg, s, ResolveNext))
  {
    assert cfg.names[..s.pc.next + 1] == cfg.names[..s.pc.next] + [cfg.names[s.pc.next]];
    if cfg.names[s.pc.next] !in s.registered {
      DistinctAppend(s.registered, cfg.names[s.pc.next]);
    }
  }

  lemma TasksFitStep(cfg: Config, s: Host, a: Action)
    requires ValidConfig(cfg) && Enabled(cfg, s, a)
    requires a == Spawn || TasksFit(cfg, s.tasks)
    ensures TasksFit(cfg, Apply(cfg, s, a).tasks)
  {
  }

  lemma StartupStep(cfg: Config, s: Host, a: Action)
    requires ValidConfig(cfg) && PathInv(cfg, s) && StartupInv(cfg, s) && TaskInv(s) && Enabled(cfg, s, a)
    ensures StartupInv(cfg, Apply(cfg, s, a))
  {
    if a == ResolveNext {
      ResolveStep(cfg, s);
    } else if a == Spawn {
      assert cfg.names[..|cfg.names|] == cfg.names;
      TasksFitStep(cfg, s, a);
    } else if s.tasks != [] {
      TasksFitStep(cfg, s, a);
    }
  }

  lemma AllDoneStep(cfg: Config, s: Host, a: Action)
    requires ValidConfig(cfg) && PathInv(cfg, s) && TaskInv(s) && Enabled(cfg, s, a)
    ensures Floor(Apply(cfg, s, a).pc) >= 6 ==> AllDone(Apply(cfg, s, a).tasks)
  {
    if Floor(s.pc) >= 6 {
      assert AllDone(s.tasks);
    }
  }

  lemma CancelledStep(cfg: Config, s: Host, a: Action, i: nat)
    requires ValidConfig(cfg) && PathInv(cfg, s) && TaskInv(s) && Enabled(cfg, s, a)
    requires i < |Apply(cfg, s, a).tasks|
    ensures Apply(cfg, s, a).tasks[i].cancelled ==> Floor(Apply(cfg, s, a).pc) >= 5
    ensures Apply(cfg, s, a).pc.Draining? && !Apply(cfg, s, a).tasks[i].phase.Done? ==> Apply(cfg, s, a).tasks[i].cancelled
  {
    if i < |s.tasks| {
      assert s.tasks[i].cancelled ==> Floor(s.pc) >= 5;
    }
  }

  lemma TaskStep(cfg: Config, s: Host, a: Action)
    requires ValidConfig(cfg) && PathInv(cfg, s) && TaskInv(s) && Enabled(cfg, s, a)
    ensures TaskInv(Apply(cfg, s, a))
  {
    AllDoneStep(cfg, s, a);
    forall i: nat | i < |Apply(cfg, s, a).tasks|
      ensures Apply(cfg, s, a).tasks[i].cancelled ==> Floor(Apply(cfg, s, a).pc) >= 5
      ensures Apply(cfg, s, a).pc.Draining? && !Apply(cfg, s, a).tasks[i].phase.Done? ==> Apply(cfg, s, a).tasks[i].cancelled
    {
      CancelledStep(cfg, s, a, i);
    }
  }

  /** Appending milestones above all earlier ones keeps the trace ordered. */
  lemma OrderStep(cfg: Config, s: Host, a: Action)
    requires ValidConfig(cfg) && OrderInv(s) && Enabled(cfg, s, a)
    ensures OrderInv(Apply(cfg, s, a))
  {
    var events, s' := Events(cfg, s, a), Apply(cfg, s, a);
    if Actor(a).None? {
      HostEvents(cfg, s, a);
    } else {
      TaskEvents(cfg, s, a);
    }
    assert forall p | |s.trace| <= p < |s'.trace| :: s'.trace[p] == events[p - |s.trace|];
  }

  lemma MilestoneStep(cfg: Config, s: Host, a: Action, e: Event)
    requires ValidConfig(cfg) && Enabled(cfg, s, a) && IsMilestone(e)
    ensures e in Apply(cfg, s, a).trace <==> e in s.trace || (Actor(a).None? && Events(cfg, s, a) == [e])
  {
    if Actor(a).None? {
      HostEvents(cfg, s, a);
    } else {
      TaskEvents(cfg, s, a);
    }
  }

  lemma ScopeMilestonesStep(cfg: Config, s: Host, a: Action)
    requires ValidConfig(cfg) && PathInv(cfg, s) && ScopeMilestones(s) && Enabled(cfg, s, a)
    ensures ScopeMilestones(Apply(cfg, s, a))
  {
    MilestoneStep(cfg, s, a, Spawned);
    MilestoneStep(cfg, s, a, StoppingSet);
    MilestoneStep(cfg, s, a, AllStopped);
  }

  lemma AppMilestonesStep(cfg: Config, s: Host, a: Action)
    requires ValidConfig(cfg) && PathInv(cfg, s) && AppMilestones(cfg, s) && Enabled(cfg, s, a)
    ensures AppMilestones(cfg, Apply(cfg, s, a))
  {
    MilestoneStep(cfg, s, a, AppEntered);
    MilestoneStep(cfg, s, a, AppExited);
  }

  lemma CloseMilestonesStep(cfg: Config, s: Host, a: Action)
    requires ValidConfig(cfg) && PathInv(cfg, s) && CloseMilestones(s) && Enabled(cfg, s, a)
    ensures CloseMilestones(Apply(cfg, s, a))
  {
    MilestoneStep(cfg, s, a, CloseBegun);
    MilestoneStep(cfg, s, a, Closed);
    MilestoneStep(cfg, s, a, CloseFailed);
    MilestoneStep(cfg, s, a, Flushed);
  }

  lemma AppendedAt(cfg: Config, s: Host, a: Action, p: nat)
    requires ValidConfig(cfg) && Enabled(cfg, s, a) && p < |Apply(cfg, s, a).trace|
    ensures Apply(cfg, s, a).trace[p] == if p < |s.trace| then s.trace[p] else Events(cfg, s, a)[p - |s.trace|]
    ensures p >= |s.trace| ==> Events(cfg, s, a)[p - |s.trace|] in Events(cfg, s, a)
    ensures p >= |s.trace| ==> var e := Events(cfg, s, a)[p - |s.trace|];
      if Actor(a).None? then IsMilestone(e) && p == |s.trace| else !IsMilestone(e) && Concerns(e, Actor(a).value)
  {
    if Actor(a).None? {
      HostEvents(cfg, s, a);
    } else {
      TaskEvents(cfg, s, a);
    }
  }

  lemma ActorIsEarly(cfg: Config, s: Host, a: Action)
    requires ValidConfig(cfg) && TaskInv(s) && Enabled(cfg, s, a)
    ensures Actor(a).Some? ==> Floor(s.pc) <= 5
  {
    if Actor(a).Some? {
      assert !s.tasks[Actor(a).value].phase.Done?;
    }
  }

  lemma SilenceStep(cfg: Config, s: Host, a: Action)
    requires ValidConfig(cfg) && PathInv(cfg, s) && TaskInv(s) && OrderInv(s) && SilenceInv(s)
    requires Enabled(cfg, s, a)
    ensures SilenceInv(Apply(cfg, s, a))
  {
    var s' := Apply(cfg, s, a);
    forall p, q | 0 <= p < q < |s'.trace| && IsMilestone(s'.trace[p]) && Rank(s'.trace[p]) >= 5
      ensures IsMilestone(s'.trace[q])
    {
      AppendedAt(cfg, s, a, p);
      AppendedAt(cfg, s, a, q);
      ActorIsEarly(cfg, s, a);
    }
  }

  lemma ConcernsKnownTask(cfg: Config, s: Host, a: Action, p: nat, i: nat)
    requires ValidConfig(cfg) && PathInv(cfg, s) && EndedInv(s) && Enabled(cfg, s, a)
    requires p < |Apply(cfg, s, a).trace| && Concerns(Apply(cfg, s, a).trace[p], i)
    ensures i < |Apply(cfg, s, a).tasks|
  {
    AppendedAt(cfg, s, a, p);
  }

  lemma EndedKeptByHost(cfg: Config, s: Host, a: Action, i: nat)
    requires ValidConfig(cfg) && PathInv(cfg, s) && EndedInv(s) && Enabled(cfg, s, a) && Actor(a).None?
    requires i < |Apply(cfg, s, a).tasks|
    ensures Ended(i) in Apply(cfg, s, a).trace <==> Apply(cfg, s, a).tasks[i].phase.Done?
  {
    HostEvents(cfg, s, a);
    assert Ended(i) in Apply(cfg, s, a).trace <==> Ended(i) in s.trace;
    if Ended(i) in s.trace {
      var p :| 0 <= p < |s.trace| && s.trace[p] == Ended(i);
      assert Concerns(s.trace[p], i);
    }
  }

  lemma EndedKeptByTask(cfg: Config, s: Host, a: Action, i: nat)
    requires ValidConfig(cfg) && EndedInv(s) && Enabled(cfg, s, a) && Actor(a).Some?
    requires i < |Apply(cfg, s, a).tasks|
    ensures Ended(i) in Apply(cfg, s, a).trace <==> Apply(cfg, s, a).tasks[i].phase.Done?
  {
    TaskEvents(cfg, s, a);
    assert Actor(a).value != i ==> Ended(i) !in Events(cfg, s, a);
  }

  lemma EndedStep(cfg: Config, s: Host, a: Action, i: nat)
    requires ValidConfig(cfg) && PathInv(cfg, s) && EndedInv(s) && Enabled(cfg, s, a)
    requires i < |Apply(cfg, s, a).tasks|
    ensures Ended(i) in Apply(cfg, s, a).trace <==> Apply(cfg, s, a).tasks[i].phase.Done?
  {
    if Actor(a).None? {
      EndedKeptByHost(cfg, s, a, i);
    } else {
      EndedKeptByTask(cfg, s, a, i);
    }
  }

  /** A service that has ended takes no action, and ending is the last thing it does. */
  lemma NothingAfterEnd(cfg: Config, s: Host, a: Action, p: nat, q: nat, i: nat)
    requires ValidConfig(cfg) && PathInv(cfg, s) && EndedInv(s) && Enabled(cfg, s, a)
    requires p < q < |Apply(cfg, s, a).trace| && Apply(cfg, s, a).trace[p] == Ended(i)
    ensures !Concerns(Apply(cfg, s, a).trace[q], i)
  {
    AppendedAt(cfg, s, a, p);
    AppendedAt(cfg, s, a, q);
    if Actor(a).Some? {
      TaskEvents(cfg, s, a);
      if p < |s.trace| <= q {
        assert Concerns(s.trace[p], i) && Ended(i) in s.trace;
      }
    }
  }

  lemma EndedInvStep(cfg: Config, s: Host, a: Action)
    requires ValidConfig(cfg) && PathInv(cfg, s) && EndedInv(s) && Enabled(cfg, s, a)
    ensures EndedInv(Apply(cfg, s, a))
  {
    var s' := Apply(cfg, s, a);
    forall p, i: nat | 0 <= p < |s'.trace| && Concerns(s'.trace[p], i) ensures i < |s'.tasks| {
      ConcernsKnownTask(cfg, s, a, p, i);
    }
    forall i | 0 <= i < |s'.tasks| ensures Ended(i) in s'.trace <==> s'.tasks[i].phase.Done? {
      EndedStep(cfg, s, a, i);
    }
    forall p, q, i | 0 <= p < q < |s'.trace| && s'.trace[p] == Ended(i) ensures !Concerns(s'.trace[q], i) {
      NothingAfterEnd(cfg, s, a, p, q, i);
    }
  }

  /** A task stays in place, a cancel is never taken back, and a finished task never changes. */
  lemma TaskKept(cfg: Config, s: Host, a: Action, i: nat)
    requires ValidConfig(cfg) && PathInv(cfg, s) && Enabled(cfg, s, a) && i < |s.tasks|
    ensures i < |Apply(cfg, s, a).tasks|
    ensures s.tasks[i].cancelled ==> Apply(cfg, s, a).tasks[i].cancelled
    ensures s.tasks[i].phase.Done? ==> Apply(cfg, s, a).tasks[i] == s.tasks[i]
  {
  }

  lemma StragglerStep(cfg: Config, s: Host, a: Action, p: nat, i: nat)
    requires ValidConfig(cfg) && PathInv(cfg, s) && EndedInv(s) && CancelInv(s) && Enabled(cfg, s, a)
    requires Overdue(Apply(cfg, s, a).trace, p, i)
    ensures var s' := Apply(cfg, s, a);
      i < |s'.tasks| && s'.tasks[i].cancelled && Ended(i) !in s'.trace[..p]
  {
    var s' := Apply(cfg, s, a);
    AppendedAt(cfg, s, a, p);
    if p < |s.trace| {
      assert Overdue(s.trace, p, i);
      TaskKept(cfg, s, a, i);
      assert s'.trace[..p] == s.trace[..p];
    } else {
      assert s'.trace[..p] == s.trace;
    }
  }

  lemma InTimeStep(cfg: Config, s: Host, a: Action, p: nat, i: nat)
    requires ValidConfig(cfg) && PathInv(cfg, s) && OrderInv(s) && EndedInv(s) && CancelInv(s) && Enabled(cfg, s, a)
    requires InTime(Apply(cfg, s, a), p, i)
    ensures Ended(i) in Apply(cfg, s, a).trace[..p]
  {
    var s' := Apply(cfg, s, a);
    AppendedAt(cfg, s, a, p);
    if p < |s.trace| {
      assert IsMilestone(s.trace[p]) && Rank(s.trace[p]) == 4;
      assert a != Spawn;
      SameTaskCount(cfg, s, a);
      assert InTime(s, p, i);
      assert s'.trace[..p] == s.trace[..p];
    } else {
      assert a == Expire && i !in Unfinished(s.tasks);
      assert s'.trace[..p] == s.trace;
    }
  }

  lemma CancelStep(cfg: Config, s: Host, a: Action)
    requires ValidConfig(cfg) && PathInv(cfg, s) && TaskInv(s) && OrderInv(s) && EndedInv(s) && CancelInv(s)
    requires Enabled(cfg, s, a)
    ensures CancelInv(Apply(cfg, s, a))
  {
    var s' := Apply(cfg, s, a);
    forall i: nat | i < |s'.tasks| && s'.tasks[i].cancelled ensures exists p: nat :: Overdue(s'.trace, p, i) {
      if i < |s.tasks| && s.tasks[i].cancelled {
        var p :| Overdue(s.trace, p, i);
        assert Overdue(s'.trace, p, i);
      } else {
        assert Overdue(s'.trace, |s.trace|, i);
      }
    }
    forall p: nat, i: nat | Overdue(s'.trace, p, i)
      ensures i < |s'.tasks| && s'.tasks[i].cancelled && Ended(i) !in s'.trace[..p]
    {
      StragglerStep(cfg, s, a, p, i);
    }
    forall p: nat, i: nat | InTime(s', p, i) ensures Ended(i) in s'.trace[..p] {
      InTimeStep(cfg, s, a, p, i);
    }
  }

  lemma StepInv(cfg: Config, s: Host, a: Action)
    requires Inv(cfg, s) && Enabled(cfg, s, a)
    ensures Inv(cfg, Apply(cfg, s, a))
  {
    PathStep(cfg, s, a);
    StartupStep(cfg, s, a);
    TaskStep(cfg, s, a);
    OrderStep(cfg, s, a);
    ScopeMilestonesStep(cfg, s, a);
    AppMilestonesStep(cfg, s, a);
    CloseMilestonesStep(cfg, s, a);
    EndedInvStep(cfg, s, a);
    SilenceStep(cfg, s, a);
    CancelStep(cfg, s, a);
  }

  lemma {:induction false} ExecuteInv(cfg: Config, s: Host, acts: seq<Action>)
    requires Inv(cfg, s) && Execute(cfg, s, acts).Some?
    ensures Inv(cfg, Execute(cfg, s, acts).value)
    decreases |acts|
  {
    if acts != [] {
      StepInv(cfg, s, acts[0]);
      ExecuteInv(cfg, Apply(cfg, s, acts[0]), acts[1..]);
    }
  }

  lemma RunInv(cfg: Config, acts: seq<Action>, s: Host)
    requires Reaches(cfg, acts, s)
    ensures Inv(cfg, s)
  {
    InitInv(cfg);
    ExecuteInv(cfg, Init(), acts);
  }

  // ---------------------------------------------------------------- what holds in every run

  predicate BehindBarrier(e: Event) {
    e in {AllStopped, CloseBegun, Closed, CloseFailed, Flushed}
  }

  /** Behind the barrier no service does anything. */
  lemma ServicesAreSilent(s: Host)
    requires SilenceInv(s)
    ensures forall p, q | 0 <= p < q < |s.trace| && BehindBarrier(s.trace[p]) ::
      !s.trace[q].Service? && !s.trace[q].Worked? && !s.trace[q].Ended?
  {
    forall p, q | 0 <= p < q < |s.trace| && BehindBarrier(s.trace[p]) ensures IsMilestone(s.trace[q]) {
      assert IsMilestone(s.trace[p]) && Rank(s.trace[p]) >= 5;
    }
  }

  lemma ClosedWhenEnded(s: Host)
    requires TaskInv(s) && CloseMilestones(s) && EndedInv(s)
    ensures CloseBegun in s.trace ==> AllDone(s.tasks) && forall i: nat | i < |s.tasks| :: Ended(i) in s.trace
  {
  }

  /**
   Teardown order: app shutdown, then the stop signal, then the barrier behind which every task
   is done, then the container, then observability. Each of them happens at most once, and
   nothing a service does comes after the barrier or after the container's close has begun.
   */
  lemma TeardownOrder(cfg: Config, acts: seq<Action>, s: Host)
    requires Reaches(cfg, acts, s)
    ensures forall p, q | 0 <= p < q < |s.trace| && IsMilestone(s.trace[p]) && IsMilestone(s.trace[q]) ::
      Rank(s.trace[p]) < Rank(s.trace[q])
    ensures forall p, q | 0 <= p < q < |s.trace| && BehindBarrier(s.trace[p]) ::
      !s.trace[q].Service? && !s.trace[q].Worked? && !s.trace[q].Ended?
    ensures CloseBegun in s.trace ==> AllDone(s.tasks) && forall i: nat | i < |s.tasks| :: Ended(i) in s.trace
  {
    RunInv(cfg, acts, s);
    ServicesAreSilent(s);
    ClosedWhenEnded(s);
  }

  /**
   Nothing of the teardown is skipped: whichever way a host exits, it stops what it started,
   shuts down an app lifespan it entered, and closes the container; observability is flushed
   exactly when the close returned normally.
   */
  lemma TeardownComplete(cfg: Config, acts: seq<Action>, s: Host)
    requires Reaches(cfg, acts, s) && s.pc == Exited
    ensures CloseBegun in s.trace
    ensures Flushed in s.trace <==> Closed in s.trace
    ensures Closed in s.trace <==> CloseFailed !in s.trace
    ensures AppExited in s.trace <==> AppEntered in s.trace
    ensures Spawned in s.trace <==> StoppingSet in s.trace
    ensures Spawned in s.trace <==> AllStopped in s.trace
    ensures CloseFailed in s.trace ==> s.failed
  {
    RunInv(cfg, acts, s);
  }

  /** Observability is never flushed before the host is done with a container that closed. */
  lemma FlushedOnlyAfterClose(cfg: Config, acts: seq<Action>, s: Host, q: nat)
    requires Reaches(cfg, acts, s) && q < |s.trace| && s.trace[q] == Flushed
    ensures s.pc == Exited && exists p | 0 <= p < q :: s.trace[p] == Closed
  {
    RunInv(cfg, acts, s);
    assert Flushed in s.trace;
    ClosedBeforeFlushed(s, q);
  }

  lemma ClosedBeforeFlushed(s: Host, q: nat)
    requires OrderInv(s) && Closed in s.trace && q < |s.trace| && s.trace[q] == Flushed
    ensures exists p | 0 <= p < q :: s.trace[p] == Closed
  {
    var p :| 0 <= p < |s.trace| && s.trace[p] == Closed;
    assert IsMilestone(s.trace[p]) && IsMilestone(s.trace[q]);
  }

  /**
   Startup is all or nothing: either every registration was resolved, all names differ and task
   i belongs to registration i, or no task was created and no service ever does anything. A
   host that has registrations but no tasks has failed and is past serving.
   */
  lemma StartupAllOrNothing(cfg: Config, acts: seq<Action>, s: Host)
    requires Reaches(cfg, acts, s)
    ensures s.tasks != [] ==>
      && Distinct(cfg.names) && s.registered == cfg.names && |s.tasks| == |cfg.types|
      && forall i | 0 <= i < |s.tasks| :: s.tasks[i].name == cfg.names[i]
    ensures s.tasks == [] ==> forall p | 0 <= p < |s.trace| :: IsMilestone(s.trace[p])
    ensures s.tasks == [] && cfg.types != [] && !s.pc.Resolving? ==>
      && s.failed && s.pc in {Closing, ClosingContainer, Flushing, Exited}
  {
    RunInv(cfg, acts, s);
    if s.tasks == [] {
      forall p | 0 <= p < |s.trace| ensures IsMilestone(s.trace[p]) {
        var e := s.trace[p];
        var i := if e.Service? || e.Worked? || e.Ended? then e.i else 0;
        assert Concerns(e, i) ==> i < |s.tasks|;
      }
    }
  }

  /** Registering one hosted type twice never starts anything. */
  lemma DoubleRegistrationFails(cfg: Config, acts: seq<Action>, s: Host, i: nat, j: nat)
    requires Reaches(cfg, acts, s) && SingletonResolution(cfg)
    requires i < j < |cfg.types| && cfg.types[i] == cfg.types[j]
    ensures s.tasks == []
    ensures !s.pc.Resolving? ==> s.failed
    ensures s.pc == Exited ==> CloseBegun in s.trace
  {
    StartupAllOrNothing(cfg, acts, s);
    if s.pc == Exited {
      TeardownComplete(cfg, acts, s);
    }
  }

  /** The host cancels exactly those services that are unfinished when the grace period is over. */
  lemma OnlyStragglersAreCancelled(cfg: Config, acts: seq<Action>, s: Host, i: nat)
    requires Reaches(cfg, acts, s) && i < |s.tasks|
    ensures s.tasks[i].cancelled <==> exists p: nat :: Overdue(s.trace, p, i)
    ensures forall p: nat | Overdue(s.trace, p, i) ::
      StoppingSet in s.trace[..p] && Ended(i) !in s.trace[..p]
    ensures forall p: nat | p < |s.trace| && s.trace[p].GraceExpired? :: Overdue(s.trace, p, i) || Ended(i) in s.trace[..p]
  {
    RunInv(cfg, acts, s);
    forall p: nat | p < |s.trace| && s.trace[p].GraceExpired?
      ensures StoppingSet in s.trace[..p]
      ensures Overdue(s.trace, p, i) || Ended(i) in s.trace[..p]
    {
      SignalBeforeDeadline(cfg, s, p);
      assert InTime(s, p, i) || Overdue(s.trace, p, i);
    }
  }

  lemma SignalBeforeDeadline(cfg: Config, s: Host, p: nat)
    requires PathInv(cfg, s) && OrderInv(s) && ScopeMilestones(s) && s.tasks != []
    requires p < |s.trace| && s.trace[p].GraceExpired?
    ensures StoppingSet in s.trace[..p]
  {
    assert IsMilestone(s.trace[p]) && Rank(s.trace[p]) == 4;
    var q :| 0 <= q < |s.trace| && s.trace[q] == StoppingSet;
    assert IsMilestone(s.trace[q]) && Rank(s.trace[q]) == 3;
  }

  predicate Raises(a: Action) {
    match a
    case ResolveFails => true
    case EnterApp(raises) => raises
    case StopServing(raises) => raises
    case ExitApp(raises) => raises
    case EndClose(raises) => raises
    case _ => false
  }

  lemma {:induction false} NoRaiseNoFailure(cfg: Config, s: Host, acts: seq<Action>)
    requires Inv(cfg, s) && Execute(cfg, s, acts).Some? && Distinct(cfg.names) && !s.failed
    requires forall a | a in acts :: !Raises(a)
    ensures !Execute(cfg, s, acts).value.failed
    decreases |acts|
  {
    if acts != [] {
      StepInv(cfg, s, acts[0]);
      assert !Raises(acts[0]);
      if acts[0] == ResolveNext {
        assert cfg.names[s.pc.next] !in cfg.names[..s.pc.next];
      }
      NoRaiseNoFailure(cfg, Apply(cfg, s, acts[0]), acts[1..]);
    }
  }

  /** The lifecycle itself never fails a host: with all names apart, only what raises makes it fail. */
  lemma OnlyRaisesFail(cfg: Config, acts: seq<Action>, s: Host)
    requires Reaches(cfg, acts, s) && Distinct(cfg.names) && s.failed
    ensures exists a :: a in acts && Raises(a)
  {
    if forall a | a in acts :: !Raises(a) {
      InitInv(cfg);
      NoRaiseNoFailure(cfg, Init(), acts);
    }
  }

  /** The outcome of a finished task never changes. */
  lemma {:induction false} OutcomeIsFinal(cfg: Config, s: Host, acts: seq<Action>, i: nat)
    requires Inv(cfg, s) && Execute(cfg, s, acts).Some?
    requires i < |s.tasks| && s.tasks[i].phase.Done?
    ensures i < |Execute(cfg, s, acts).value.tasks| && Execute(cfg, s, acts).value.tasks[i] == s.tasks[i]
    decreases |acts|
  {
    if acts != [] {
      StepInv(cfg, s, acts[0]);
      TaskKept(cfg, s, acts[0], i);
      OutcomeIsFinal(cfg, Apply(cfg, s, acts[0]), acts[1..], i);
    }
  }

  // ---------------------------------------------------------------- service logs

  /** The lines service `i` has logged. */
  function LogOf(trace: seq<Event>, i: nat): seq<Line> {
    if trace == [] then []
    else
      var last := trace[|trace| - 1];
      LogOf(trace[..|trace| - 1], i) + if last.Service? && last.i == i then [last.line] else []
  }

  /** Which log belongs to a task: nothing, or starting, perhaps crashed, and stopped at the end. */
  predicate LogFits(task: Task, log: seq<Line>) {
    match task.phase
    case Created => log == []
    case Running => log == [Starting]
    case Done(Returned) => log == [Starting, Stopped]
    case Done(Crashed) => log == [Starting, CrashLogged, Stopped]
    case Done(WasCancelled) => log == [Starting, Stopped] || (log == [] && task.cancelled)
  }

  ghost predicate LogInv(s: Host) {
    forall i: nat | i < |s.tasks| :: LogFits(s.tasks[i], LogOf(s.trace, i))
  }

  lemma {:induction false} LogOfAppend(a: seq<Event>, b: seq<Event>, i: nat)
    ensures LogOf(a + b, i) == LogOf(a, i) + LogOf(b, i)
  {
    if b == [] {
      assert a + b == a;
    } else {
      LogOfAppend(a, b[..|b| - 1], i);
      assert (a + b)[..|a + b| - 1] == a + b[..|b| - 1];
    }
  }

  lemma {:induction false} LogOfOthers(events: seq<Event>, i: nat)
    requires forall e | e in events :: !Concerns(e, i)
    ensures LogOf(events, i) == []
  {
    if events != [] {
      LogOfOthers(events[..|events| - 1], i);
      assert events[|events| - 1] in events;
    }
  }

  lemma {:induction false} LogOfServiceEvents(i: nat, lines: seq<Line>)
    ensures LogOf(ServiceEvents(i, lines), i) == lines
  {
    if lines != [] {
      LogOfServiceEvents(i, lines[..|lines| - 1]);
      assert ServiceEvents(i, lines)[..|lines| - 1] == ServiceEvents(i, lines[..|lines| - 1]);
    }
  }

  lemma LogOfEnd(i: nat, lines: seq<Line>)
    ensures LogOf(ServiceEvents(i, lines) + [Ended(i)], i) == lines
  {
    LogOfServiceEvents(i, lines);
    assert (ServiceEvents(i, lines) + [Ended(i)])[..|lines|] == ServiceEvents(i, lines);
  }

  lemma LogOfEndEvents(i: nat, task: Task, outcome: Outcome)
    ensures LogOf(EndEvents(i, task, outcome), i) == if task.phase == Running then ClosingLines(outcome) else []
  {
    var lines := if task.phase == Running then ClosingLines(outcome) else [];
    LogOfEnd(i, lines);
    assert EndEvents(i, task, outcome) == ServiceEvents(i, lines) + [Ended(i)];
  }

  /** Host actions, and what other services do, leave the log of service `i` alone. */
  lemma LogOfOtherActions(cfg: Config, s: Host, a: Action, i: nat)
    requires ValidConfig(cfg) && Enabled(cfg, s, a) && Actor(a) != Some(i)
    ensures LogOf(Events(cfg, s, a), i) == []
  {
    if Actor(a).Some? {
      TaskEvents(cfg, s, a);
    } else {
      HostEvents(cfg, s, a);
    }
    LogOfOthers(Events(cfg, s, a), i);
  }

  /** The lines an action adds to the log of service `i`. */
  lemma LogOfEvents(cfg: Config, s: Host, a: Action, i: nat)
    requires ValidConfig(cfg) && Enabled(cfg, s, a)
    ensures LogOf(Events(cfg, s, a), i) ==
      if a == Start(i) then [Starting]
      else if a.End? && a.i == i && s.tasks[i].phase == Running then ClosingLines(a.outcome)
      else []
  {
    if Actor(a) != Some(i) {
      LogOfOtherActions(cfg, s, a, i);
    } else if a.End? {
      LogOfEndEvents(i, s.tasks[i], a.outcome);
    }
  }

  lemma NoLogBeforeSpawn(s: Host, i: nat)
    requires EndedInv(s) && s.tasks == []
    ensures LogOf(s.trace, i) == []
  {
    forall e | e in s.trace ensures !Concerns(e, i) {
      var p :| 0 <= p < |s.trace| && s.trace[p] == e;
      assert Concerns(s.trace[p], i) ==> i < |s.tasks|;
    }
    LogOfOthers(s.trace, i);
  }

  /** How an action moves task `i` through its phases. */
  lemma PhaseStep(cfg: Config, s: Host, a: Action, i: nat)
    requires ValidConfig(cfg) && Enabled(cfg, s, a) && a != Spawn && i < |s.tasks|
    ensures |Apply(cfg, s, a).tasks| == |s.tasks|
    ensures Apply(cfg, s, a).tasks[i].phase ==
      if a == Start(i) then Running else if a.End? && a.i == i then Done(a.outcome) else s.tasks[i].phase
    ensures s.tasks[i].cancelled ==> Apply(cfg, s, a).tasks[i].cancelled
  {
  }

  lemma SameTaskCount(cfg: Config, s: Host, a: Action)
    requires ValidConfig(cfg) && Enabled(cfg, s, a) && a != Spawn
    ensures |Apply(cfg, s, a).tasks| == |s.tasks|
  {
  }

  /** The lines a phase change adds to the log of a task. */
  lemma LogFitsOn(task: Task, task': Task, log: seq<Line>, added: seq<Line>)
    requires LogFits(task, log) && (task.cancelled ==> task'.cancelled)
    requires || (task'.phase == task.phase && added == [])
             || (task.phase == Created && task'.phase == Running && added == [Starting])
             || (task.phase == Running && task'.phase.Done? && added == ClosingLines(task'.phase.outcome))
             || (task.phase == Created && task.cancelled && task'.phase == Done(WasCancelled) && added == [])
    ensures LogFits(task', log + added)
  {
    if added == [] {
      assert log + added == log;
    } else if task.phase == Created {
      assert log + added == [Starting];
    } else {
      assert log + added == [Starting] + ClosingLines(task'.phase.outcome);
    }
  }

  lemma TaskLogStep(cfg: Config, s: Host, a: Action, i: nat)
    requires ValidConfig(cfg) && Enabled(cfg, s, a) && a != Spawn && i < |s.tasks|
    requires LogFits(s.tasks[i], LogOf(s.trace, i))
    ensures |Apply(cfg, s, a).tasks| == |s.tasks|
    ensures LogFits(Apply(cfg, s, a).tasks[i], LogOf(Apply(cfg, s, a).trace, i))
  {
    LogOfAppend(s.trace, Events(cfg, s, a), i);
    LogOfEvents(cfg, s, a, i);
    PhaseStep(cfg, s, a, i);
    LogFitsOn(s.tasks[i], Apply(cfg, s, a).tasks[i], LogOf(s.trace, i), LogOf(Events(cfg, s, a), i));
  }

  lemma SpawnLogStep(cfg: Config, s: Host, i: nat)
    requires Inv(cfg, s) && Enabled(cfg, s, Spawn) && i < |cfg.types|
    ensures LogFits(Apply(cfg, s, Spawn).tasks[i], LogOf(Apply(cfg, s, Spawn).trace, i))
  {
    LogOfAppend(s.trace, Events(cfg, s, Spawn), i);
    LogOfEvents(cfg, s, Spawn, i);
    NoLogBeforeSpawn(s, i);
  }

  lemma LogStep(cfg: Config, s: Host, a: Action)
    requires Inv(cfg, s) && LogInv(s) && Enabled(cfg, s, a)
    ensures LogInv(Apply(cfg, s, a))
  {
    forall i: nat | i < |Apply(cfg, s, a).tasks|
      ensures LogFits(Apply(cfg, s, a).tasks[i], LogOf(Apply(cfg, s, a).trace, i))
    {
      if a == Spawn {
        SpawnLogStep(cfg, s, i);
      } else {
        SameTaskCount(cfg, s, a);
        TaskLogStep(cfg, s, a, i);
      }
    }
  }

  lemma {:induction false} ExecuteLogInv(cfg: Config, s: Host, acts: seq<Action>)
    requires Inv(cfg, s) && LogInv(s) && Execute(cfg, s, acts).Some?
    ensures LogInv(Execute(cfg, s, acts).value)
    decreases |acts|
  {
    if acts != [] {
      StepInv(cfg, s, acts[0]);
      LogStep(cfg, s, acts[0]);
      ExecuteLogInv(cfg, Apply(cfg, s, acts[0]), acts[1..]);
    }
  }

  /**
   Every service's log is empty or `starting`, perhaps `crashed`, `stopped`; it says `crashed`
   exactly when the service crashed, and it is complete before the container is closed.
   */
  lemma ServiceLogGrammar(cfg: Config, acts: seq<Action>, s: Host, i: nat)
    requires Reaches(cfg, acts, s) && i < |s.tasks|
    ensures LogFits(s.tasks[i], LogOf(s.trace, i))
    ensures CrashLogged in LogOf(s.trace, i) <==> s.tasks[i].phase == Done(Crashed)
    ensures CloseBegun in s.trace ==>
      LogOf(s.trace, i) in {[], [Starting, Stopped], [Starting, CrashLogged, Stopped]}
  {
    InitInv(cfg);
    ExecuteLogInv(cfg, Init(), acts);
    TeardownOrder(cfg, acts, s);
  }
}
