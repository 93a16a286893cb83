/**
 Building, serving and tearing down, put together: what a host does to the process-global providers
 follows from the outcome of its build and from the trace of its lifecycle.
 */
module HostEpisodes {
  import opened Wrappers
  import opened Counting
  import opened Observability
  import opened ProviderLedger
  import HostLifecycle
  import LifecycleSafety

  /** A complete run of the lifecycle, from resolving the services to the exit. */
  datatype Life = Life(cfg: HostLifecycle.Config, acts: seq<HostLifecycle.Action>)

  /** One host of the process: how its build went, and its life when it was served. */
  datatype WebHost = WebHost(config: Config, assembly: Result<(), string>, life: Option<Life>)

  ghost predicate Complete(life: Life) {
    && HostLifecycle.ValidConfig(life.cfg)
    && var end := HostLifecycle.Execute(life.cfg, HostLifecycle.Init(), life.acts);
    && end.Some? && end.value.pc == HostLifecycle.Exited
  }

  ghost predicate Lived(host: WebHost) {
    host.life.Some? ==> Complete(host.life.value)
  }

  /** What happened in a life. */
  function TraceOf(life: Life): seq<HostLifecycle.Event>
    requires Complete(life)
  {
    HostLifecycle.Execute(life.cfg, HostLifecycle.Init(), life.acts).value.trace
  }

  /** The lifecycle calls `shutdown_observability` where its trace says flushed. */
  function FlushOps(trace: seq<HostLifecycle.Event>): seq<Op> {
    if trace == [] then []
    else FlushOps(trace[..|trace| - 1]) + if trace[|trace| - 1] == HostLifecycle.Flushed then [Shutdown] else []
  }

  /**
   Everything a host does to the globals: what its build does, then what its life does. After a
   configure call that raised there is no life; nothing is configured then, and a shutdown does nothing.
   */
  function HostOps(host: WebHost): seq<Op>
    requires Lived(host)
  {
    if host.assembly.Err? then OpsOf(Episode(host.config, BuildFails))
    else OpsOf(Episode(host.config, NeverServed)) + if host.life.Some? then FlushOps(TraceOf(host.life.value)) else []
  }

  ghost predicate AllLived(hosts: seq<WebHost>) {
    forall i | 0 <= i < |hosts| :: Lived(hosts[i])
  }

  function AllHostOps(hosts: seq<WebHost>): seq<Op>
    requires AllLived(hosts)
  {
    if hosts == [] then [] else AllHostOps(hosts[..|hosts| - 1]) + HostOps(hosts[|hosts| - 1])
  }

  // ---------------------------------------------------------------- the fate of a host

  /** The fate follows from the build and from whether the container's close returned. */
  function FateOf(host: WebHost): Fate
    requires Lived(host)
  {
    if host.assembly.Err? then BuildFails
    else if host.life.None? then NeverServed
    else if HostLifecycle.Closed in TraceOf(host.life.value) then Served
    else CloseRaises
  }

  lemma {:induction false} FlushOpsOfOne(trace: seq<HostLifecycle.Event>)
    requires forall p, q | 0 <= p < q < |trace| :: !(trace[p] == HostLifecycle.Flushed && trace[q] == HostLifecycle.Flushed)
    ensures FlushOps(trace) == if HostLifecycle.Flushed in trace then [Shutdown] else []
  {
    if trace != [] {
      var front, last := trace[..|trace| - 1], trace[|trace| - 1];
      assert trace == front + [last];
      FlushOpsOfOne(front);
      if HostLifecycle.Flushed in front {
        var p :| 0 <= p < |front| && front[p] == HostLifecycle.Flushed;
        assert trace[p] == HostLifecycle.Flushed;
      }
    }
  }

  /** A complete life shuts observability down once when the container's close returned, and else never. */
  lemma LifeFlushesOnce(life: Life)
    requires Complete(life)
    ensures FlushOps(TraceOf(life)) == if HostLifecycle.Closed in TraceOf(life) then [Shutdown] else []
  {
    var end := HostLifecycle.Execute(life.cfg, HostLifecycle.Init(), life.acts).value;
    LifecycleSafety.TeardownOrder(life.cfg, life.acts, end);
    LifecycleSafety.TeardownComplete(life.cfg, life.acts, end);
    forall p, q | 0 <= p < q < |end.trace|
      ensures !(end.trace[p] == HostLifecycle.Flushed && end.trace[q] == HostLifecycle.Flushed)
    {
      if end.trace[p] == HostLifecycle.Flushed && end.trace[q] == HostLifecycle.Flushed {
        assert LifecycleSafety.IsMilestone(end.trace[p]) && LifecycleSafety.IsMilestone(end.trace[q]);
      }
    }
    FlushOpsOfOne(end.trace);
  }

  lemma HostIsEpisode(host: WebHost)
    requires Lived(host)
    ensures HostOps(host) == OpsOf(Episode(host.config, FateOf(host)))
  {
    if host.life.Some? {
      LifeFlushesOnce(host.life.value);
    }
  }

  function EpisodesOf(hosts: seq<WebHost>): (r: seq<Episode>)
    requires AllLived(hosts)
    ensures |r| == |hosts|
    ensures forall i | 0 <= i < |hosts| :: r[i] == Episode(hosts[i].config, FateOf(hosts[i]))
  {
    seq(|hosts|, i requires 0 <= i < |hosts| => Episode(hosts[i].config, FateOf(hosts[i])))
  }

  lemma {:induction false} HostsAreEpisodes(hosts: seq<WebHost>)
    requires AllLived(hosts)
    ensures AllHostOps(hosts) == OpsOfAll(EpisodesOf(hosts))
  {
    if hosts != [] {
      var front := hosts[..|hosts| - 1];
      HostsAreEpisodes(front);
      HostIsEpisode(hosts[|hosts| - 1]);
      assert EpisodesOf(hosts)[..|hosts| - 1] == EpisodesOf(front);
    }
  }

  // ---------------------------------------------------------------- conservation

  ghost predicate NothingHeld(s: State) {
    && !s.configured && s.tracer.None? && s.meter.None? && s.logger.None?
    && forall k: nat :: Times(s.ended, k) == if k < s.created then 1 else 0
  }

  /** The last host gave its providers back: its build failed, or its container was closed in the end. */
  ghost predicate GaveBack(host: WebHost)
    requires Lived(host)
  {
    host.assembly.Err? || (host.life.Some? && HostLifecycle.Closed in TraceOf(host.life.value))
  }

  /**
   When configuring does not raise, hosts one after the other, whether the rest of each build works
   or fails, and with any interleaving and failures of each lifecycle: no provider is lost. When the build of the last one failed, or the close of
   its container returned, every provider ever created was shut down exactly once; otherwise
   the process still holds its tracer and meter.
   */
  lemma {:induction false} HostsConserve(hosts: seq<WebHost>)
    requires AllLived(hosts) && forall i | 0 <= i < |hosts| :: hosts[i].config.fault == None
    ensures Conserved(Run(Fresh(), AllHostOps(hosts))) && Clean(Run(Fresh(), AllHostOps(hosts)))
    ensures hosts != [] ==>
      if GaveBack(hosts[|hosts| - 1]) then NothingHeld(Run(Fresh(), AllHostOps(hosts)))
      else Run(Fresh(), AllHostOps(hosts)).configured
  {
    HostsAreEpisodes(hosts);
    EpisodesConserve(EpisodesOf(hosts));
    if hosts != [] && !GaveBack(hosts[|hosts| - 1]) {
      var front, last := hosts[..|hosts| - 1], hosts[|hosts| - 1];
      HostIsEpisode(last);
      RunAppend(Fresh(), AllHostOps(front), HostOps(last));
      RunEpisode(Run(Fresh(), AllHostOps(front)), Episode(last.config, FateOf(last)));
    }
  }

  // ---------------------------------------------------------------- when configuring raises

  /** The configure call of host `i` raises with a provider already in place. */
  ghost predicate LateAt(hosts: seq<WebHost>, i: nat)
    requires AllLived(hosts)
  {
    i < |hosts| && RaisesLate(Run(Fresh(), AllHostOps(hosts[..i])), hosts[i].config)
  }

  predicate CreatesAt(hosts: seq<WebHost>, j: nat) {
    j < |hosts| && Creates(hosts[j].config)
  }

  ghost function Late(hosts: seq<WebHost>): nat -> bool
    requires AllLived(hosts)
  {
    (i: nat) => LateAt(hosts, i)
  }

  ghost function Creating(hosts: seq<WebHost>): nat -> bool {
    (j: nat) => CreatesAt(hosts, j)
  }

  /** A host is one configure call, and perhaps one shutdown. */
  lemma HostRun(s: State, host: WebHost)
    requires Lived(host)
    ensures Run(s, HostOps(host)) == AfterConfigure(s, host.config)
         || Run(s, HostOps(host)) == AfterShutdown(AfterConfigure(s, host.config))
  {
    HostIsEpisode(host);
    RunEpisode(s, Episode(host.config, FateOf(host)));
  }

  /** Each host keeps the ledger clean, leaves providers behind, or loses what was left behind. */
  lemma CleanHost(s: State, host: WebHost)
    requires Lived(host) && Clean(s) && Conserved(s)
    ensures Conserved(Run(s, HostOps(host)))
    ensures if RaisesLate(s, host.config) then Dangling(Run(s, HostOps(host))) else Clean(Run(s, HostOps(host)))
  {
    var up := AfterConfigure(s, host.config);
    HostRun(s, host);
    CleanStep(s, Configure(host.config));
    if !RaisesLate(s, host.config) {
      CleanStep(up, Shutdown);
    }
  }

  lemma DanglingHost(s: State, host: WebHost)
    requires Lived(host) && Dangling(s) && Conserved(s)
    ensures if Creates(host.config) then LosesSome(Run(s, HostOps(host))) else Run(s, HostOps(host)) == s
  {
    var up := AfterConfigure(s, host.config);
    HostRun(s, host);
    DanglingStep(s, Configure(host.config));
    if Creates(host.config) {
      LostForGood(up, Shutdown, s.tracer.value);
      assert Lost(Run(s, HostOps(host)), s.tracer.value);
    }
  }

  lemma LosingHost(s: State, host: WebHost)
    requires Lived(host) && LosesSome(s)
    ensures LosesSome(Run(s, HostOps(host)))
  {
    var k: nat :| Lost(s, k);
    HostRun(s, host);
    LostForGood(s, Configure(host.config), k);
    LostForGood(AfterConfigure(s, host.config), Shutdown, k);
    assert Lost(Run(s, HostOps(host)), k);
  }

  /** The globals after the first `n` hosts. */
  function After(hosts: seq<WebHost>, n: nat): State
    requires AllLived(hosts) && n <= |hosts|
  {
    Run(Fresh(), AllHostOps(hosts[..n]))
  }

  lemma AfterOneMore(hosts: seq<WebHost>, n: nat)
    requires AllLived(hosts) && n < |hosts|
    ensures After(hosts, n + 1) == Run(After(hosts, n), HostOps(hosts[n]))
  {
    assert hosts[..n + 1][..n] == hosts[..n];
    RunAppend(Fresh(), AllHostOps(hosts[..n]), HostOps(hosts[n]));
  }

  lemma {:induction false} LedgerAfterHosts(hosts: seq<WebHost>, n: nat)
    requires AllLived(hosts) && n <= |hosts|
    ensures var s := After(hosts, n);
      if Follows(Late(hosts), Creating(hosts), n) then LosesSome(s)
      else if Below(Late(hosts), n) then Dangling(s) && Conserved(s)
      else Clean(s) && Conserved(s)
  {
    if n > 0 {
      var m := n - 1;
      LedgerAfterHosts(hosts, m);
      AfterOneMore(hosts, m);
      NextHost(After(hosts, m), hosts[m], Below(Late(hosts), m), Follows(Late(hosts), Creating(hosts), m));
      BelowOneMore(Late(hosts), m);
      FollowsOneMore(Late(hosts), Creating(hosts), m);
    }
  }

  /** One host more: `raised` and `lost` say what the hosts before it did. */
  lemma NextHost(s: State, host: WebHost, raised: bool, lost: bool)
    requires Lived(host)
    requires if lost then LosesSome(s) else if raised then Dangling(s) && Conserved(s) else Clean(s) && Conserved(s)
    ensures var s' := Run(s, HostOps(host));
      if lost || (raised && Creates(host.config)) then LosesSome(s')
      else if raised || RaisesLate(s, host.config) then Dangling(s') && Conserved(s')
      else Clean(s') && Conserved(s')
  {
    if lost {
      LosingHost(s, host);
    } else if raised {
      DanglingHost(s, host);
    } else {
      CleanHost(s, host);
    }
  }

  /**
   Hosts one after the other, with any outcome of each build, a configure call that raises among
   them, and any complete run of each lifecycle: every provider ever created is held by one handle
   or was shut down once, if and only if no host is built past tracing after one whose configure
   call raised past tracing.
   */
  lemma HostsConserveExactlyWhen(hosts: seq<WebHost>)
    requires AllLived(hosts)
    ensures Conserved(Run(Fresh(), AllHostOps(hosts))) <==>
      !exists i: nat, j: nat :: i < j && LateAt(hosts, i) && CreatesAt(hosts, j)
  {
    LedgerAfterHosts(hosts, |hosts|);
    LatesFollow(hosts);
    assert hosts[..|hosts|] == hosts;
    if Follows(Late(hosts), Creating(hosts), |hosts|) {
      var k: nat :| Lost(After(hosts, |hosts|), k);
      assert Accounts(After(hosts, |hosts|), k) != 1;
    }
  }

  lemma LatesFollow(hosts: seq<WebHost>)
    requires AllLived(hosts)
    ensures Follows(Late(hosts), Creating(hosts), |hosts|) <==>
      exists i: nat, j: nat :: i < j && LateAt(hosts, i) && CreatesAt(hosts, j)
  {
    if i: nat, j: nat :| i < j && LateAt(hosts, i) && CreatesAt(hosts, j) {
      assert Late(hosts)(i) && Creating(hosts)(j);
    }
  }
}
