/** No provider is lost and none is shut down twice, over any number of hosts in one process. */
module ProviderLedger {
  import opened Wrappers
  import opened Counting
  import opened Observability

  function Holds(handle: Option<nat>, k: nat): nat {
    if handle == Some(k) then 1 else 0
  }

  /** How often provider `k` is accounted for: held by a handle, or shut down. */
  function Accounts(s: State, k: nat): nat {
    Times(s.ended, k) + Holds(s.logger, k) + Holds(s.meter, k) + Holds(s.tracer, k)
  }

  /** Each provider ever created is either held by one handle or has been shut down once. */
  ghost predicate Conserved(s: State) {
    forall k: nat :: Accounts(s, k) == if k < s.created then 1 else 0
  }

  /** Provider `k` was created, no handle reaches it any more, and it was never shut down. */
  predicate Lost(s: State, k: nat) {
    k < s.created && Accounts(s, k) == 0
  }

  ghost predicate LosesSome(s: State) {
    exists k: nat :: Lost(s, k)
  }

  /** Some configure raised, and the handles it left behind have not been overwritten yet. */
  predicate Dangling(s: State) {
    !s.configured && s.tracer.Some?
  }

  /** Configuring creates a tracer provider, the first of all, unless it raises before. */
  predicate Creates(c: Config) {
    c.fault != Some(InTracing)
  }

  /** Configuring raises with a provider already in place. */
  predicate RaisesLate(s: State, c: Config) {
    ConfigureRaises(s, c) && Creates(c)
  }

  /** The flag tells the truth about the handles. */
  predicate Clean(s: State) {
    && (s.configured <==> s.tracer.Some?) && (s.configured <==> s.meter.Some?)
    && (s.logger.Some? ==> s.configured)
  }

  lemma ShutProviderCounts(ended: seq<nat>, handle: Option<nat>, k: nat)
    ensures Times(ended + ShutProvider(handle), k) == Times(ended, k) + Holds(handle, k)
  {
    if handle.Some? {
      assert (ended + [handle.value])[..|ended|] == ended;
    } else {
      assert ended + ShutProvider(handle) == ended;
    }
  }

  /** Shutting down only moves providers from the handles to the list of those shut down. */
  lemma ShutdownAccounts(s: State, k: nat)
    ensures Accounts(AfterShutdown(s), k) == Accounts(s, k)
  {
    if s.configured {
      ShutProviderCounts(s.ended, s.logger, k);
      ShutProviderCounts(s.ended + ShutProvider(s.logger), s.meter, k);
      ShutProviderCounts(s.ended + ShutProvider(s.logger) + ShutProvider(s.meter), s.tracer, k);
    }
  }

  lemma ConfigureAccounts(s: State, c: Config, k: nat)
    requires Clean(s) && Conserved(s)
    ensures Accounts(AfterConfigure(s, c), k) == if k < AfterConfigure(s, c).created then 1 else 0
  {
    assert Accounts(s, k) == if k < s.created then 1 else 0;
    assert !s.configured ==> Accounts(s, k) == Times(s.ended, k);
  }

  /** From a clean state nothing is lost, whatever the operation. */
  lemma CleanStep(s: State, op: Op)
    requires Clean(s) && Conserved(s)
    ensures Conserved(Step(s, op))
    ensures op.Configure? && RaisesLate(s, op.config) ==> Dangling(Step(s, op))
    ensures !(op.Configure? && RaisesLate(s, op.config)) ==> Clean(Step(s, op))
  {
    forall k: nat ensures Accounts(Step(s, op), k) == if k < Step(s, op).created then 1 else 0 {
      if op.Configure? {
        ConfigureAccounts(s, op.config, k);
      } else {
        ShutdownAccounts(s, k);
        assert Accounts(s, k) == if k < s.created then 1 else 0;
      }
    }
  }

  /**
   After a configure that raised late, shutdown does nothing, and the next configure that gets
   past tracing loses the tracer provider.
   */
  lemma DanglingStep(s: State, op: Op)
    requires Dangling(s) && Conserved(s)
    ensures !(op.Configure? && Creates(op.config)) ==> Step(s, op) == s
    ensures op.Configure? && Creates(op.config) ==> Lost(Step(s, op), s.tracer.value)
  {
    assert Accounts(s, s.tracer.value) == if s.tracer.value < s.created then 1 else 0;
  }

  /** A lost provider stays lost. */
  lemma LostForGood(s: State, op: Op, k: nat)
    requires Lost(s, k)
    ensures Lost(Step(s, op), k)
  {
    ShutdownAccounts(s, k);
  }

  /** The configure call at `i` raises with a provider already in place. */
  ghost predicate RaisesAt(ops: seq<Op>, i: nat) {
    i < |ops| && ops[i].Configure? && RaisesLate(Run(Fresh(), ops[..i]), ops[i].config)
  }

  predicate IsCreating(op: Op) {
    op.Configure? && Creates(op.config)
  }

  /** Some configure call gets past tracing after one that raised past tracing. */
  ghost predicate ConfiguresAfterRaise(ops: seq<Op>) {
    exists i: nat, j: nat :: i < j < |ops| && RaisesAt(ops, i) && IsCreating(ops[j])
  }

  ghost predicate HasRaised(ops: seq<Op>) {
    exists i: nat :: RaisesAt(ops, i)
  }

  lemma RaisesInPrefix(ops: seq<Op>, n: nat, i: nat)
    requires i < n <= |ops|
    ensures RaisesAt(ops[..n], i) <==> RaisesAt(ops, i)
  {
    assert ops[..n][..i] == ops[..i];
  }

  /** The last call, seen from the calls before it. */
  lemma LastRaise(ops: seq<Op>)
    requires ops != []
    ensures HasRaised(ops) <==> HasRaised(ops[..|ops| - 1]) || RaisesAt(ops, |ops| - 1)
  {
    var n := |ops| - 1;
    if HasRaised(ops[..n]) {
      var i: nat :| RaisesAt(ops[..n], i);
      RaisesInPrefix(ops, n, i);
    }
    if HasRaised(ops) {
      var i: nat :| RaisesAt(ops, i);
      if i < n {
        RaisesInPrefix(ops, n, i);
      }
    }
  }

  lemma LastCall(ops: seq<Op>)
    requires ops != []
    ensures ConfiguresAfterRaise(ops) <==>
      ConfiguresAfterRaise(ops[..|ops| - 1]) || (HasRaised(ops[..|ops| - 1]) && IsCreating(ops[|ops| - 1]))
  {
    var n := |ops| - 1;
    var front := ops[..n];
    if HasRaised(front) && IsCreating(ops[n]) {
      var i: nat :| RaisesAt(front, i);
      RaisesInPrefix(ops, n, i);
      assert i < n && RaisesAt(ops, i) && IsCreating(ops[n]);
    }
    if ConfiguresAfterRaise(front) {
      var i: nat, j: nat :| i < j < |front| && RaisesAt(front, i) && IsCreating(front[j]);
      RaisesInPrefix(ops, n, i);
      assert i < j && RaisesAt(ops, i) && IsCreating(ops[j]);
    }
    if ConfiguresAfterRaise(ops) {
      var i: nat, j: nat :| i < j < |ops| && RaisesAt(ops, i) && IsCreating(ops[j]);
      RaisesInPrefix(ops, n, i);
      assert RaisesAt(front, i);
      assert j < n ==> IsCreating(front[j]);
    }
  }

  lemma {:induction false} LedgerAfter(ops: seq<Op>)
    ensures var s := Run(Fresh(), ops);
      if ConfiguresAfterRaise(ops) then LosesSome(s)
      else if HasRaised(ops) then Dangling(s) && Conserved(s)
      else Clean(s) && Conserved(s)
  {
    if ops != [] {
      var front, last := ops[..|ops| - 1], ops[|ops| - 1];
      var s := Run(Fresh(), front);
      LedgerAfter(front);
      LastRaise(ops);
      LastCall(ops);
      if ConfiguresAfterRaise(front) {
        var k: nat :| Lost(s, k);
        LostForGood(s, last, k);
        assert Lost(Run(Fresh(), ops), k);
      } else if HasRaised(front) {
        DanglingStep(s, last);
        assert IsCreating(last) ==> Lost(Run(Fresh(), ops), s.tracer.value);
      } else {
        CleanStep(s, last);
      }
    }
  }

  /**
   Provider conservation, exactly: over any sequence of configure and shutdown calls, each
   provider ever created is held by one handle or was shut down once, if and only if no configure
   call gets past tracing after one that raised past tracing, wherever it raised.
   */
  lemma ConservedExactlyWhen(ops: seq<Op>)
    ensures Conserved(Run(Fresh(), ops)) <==> !ConfiguresAfterRaise(ops)
  {
    LedgerAfter(ops);
    if ConfiguresAfterRaise(ops) {
      var k: nat :| Lost(Run(Fresh(), ops), k);
      assert Accounts(Run(Fresh(), ops), k) != 1;
    }
  }

  lemma RetryRun(bad: Config, good: Config)
    requires bad == RawConfig(false, None, Some(InSinks)) && good == RawConfig(false, None, None)
    ensures Run(Fresh(), [Configure(bad), Shutdown, Configure(good), Shutdown]) == State(false, None, None, None, 4, [3, 2])
  {
    RunAppend(Fresh(), [Configure(bad), Shutdown], [Configure(good), Shutdown]);
    assert [Configure(bad), Shutdown, Configure(good), Shutdown] == [Configure(bad), Shutdown] + [Configure(good), Shutdown];
    RunEpisode(Fresh(), Episode(bad, Served));
    RunEpisode(AfterConfigure(Fresh(), bad), Episode(good, Served));
  }

  /** A misspelt sink, then a corrected second attempt: two providers are lost for good. */
  lemma RetryAfterUnknownSinkLoses()
    ensures var bad, good := RawConfig(false, None, Some(InSinks)), RawConfig(false, None, None);
      var s := Run(Fresh(), [Configure(bad), Shutdown, Configure(good), Shutdown]);
      s.created == 4 && s.ended == [3, 2] && Lost(s, 0) && Lost(s, 1)
  {
    RetryRun(RawConfig(false, None, Some(InSinks)), RawConfig(false, None, None));
    assert [3, 2][..1] == [3] && [3][..0] == [];
    assert forall k: nat | k < 2 :: Times([3], k) == 0;
  }

  // ---------------------------------------------------------------- hosts one after the other

  ghost predicate NoFaults(es: seq<Episode>) {
    forall i | 0 <= i < |es| :: es[i].config.fault == None
  }

  lemma {:induction false} RunAppend(s: State, a: seq<Op>, b: seq<Op>)
    ensures Run(s, a + b) == Run(Run(s, a), b)
  {
    if b == [] {
      assert a + b == a;
    } else {
      RunAppend(s, a, b[..|b| - 1]);
      assert (a + b)[..|a + b| - 1] == a + b[..|b| - 1];
    }
  }

  /** Enabling export asks for an endpoint that is not blank, and then always builds the logger provider. */
  lemma EnabledExports(c: RawConfig)
    ensures Accepts(c) ==> (Truthy(ExportEndpoint(c)) <==> c.enabled)
    ensures Accepts(c.(enabled := false))
    ensures !Accepts(RawConfig(true, None, c.fault)) && !Accepts(RawConfig(true, Some(" \t\r\n"), c.fault))
    ensures c.endpoint.Some? && (exists k | 0 <= k < |c.endpoint.value| :: '!' <= c.endpoint.value[k] <= '~') ==> Accepts(c)
  {
    if c.endpoint == Some("") {
      assert Blank(c.endpoint.value);
    }
    assert !IsSpace('!') && Blank(" \t\r\n");
  }

  /**
   What a configure call creates, wherever it raises: none before tracing is up, then the tracer,
   the meter, and with export enabled the logger provider; each is held by one handle, and none is
   shut down.
   */
  lemma ProvidersByFault(s: State, c: Config)
    requires Clean(s) && !s.configured
    ensures var s' := AfterConfigure(s, c);
      && s'.ended == s.ended
      && s'.created == s.created +
           (if c.fault == Some(InTracing) then 0 else if c.fault == Some(InMetrics) then 1
            else if c.fault == Some(InSinks) || !c.enabled then 2 else 3)
      && forall k | s.created <= k < s'.created ::
           Holds(s'.logger, k) + Holds(s'.meter, k) + Holds(s'.tracer, k) == 1
  {
    EnabledExports(c);
  }

  /** A host that exports creates tracer, meter and logger in this order and shuts them down in reverse. */
  lemma LastUpFirstDown(c: Config)
    requires c.fault == None
    ensures Run(Fresh(), [Configure(c), Shutdown]) ==
      if c.enabled then State(false, None, None, None, 3, [2, 1, 0]) else State(false, None, None, None, 2, [1, 0])
  {
    EnabledExports(c);
    RunEpisode(Fresh(), Episode(c, Served));
  }

  /**
   Hosts one after the other, whatever becomes of each: nothing is lost, the flag is true exactly
   while tracer and meter are held, and after a host that was served to its exit or failed to
   build everything ever created has been shut down exactly once.
   */
  lemma {:induction false} EpisodesConserve(es: seq<Episode>)
    requires NoFaults(es)
    ensures var s := Run(Fresh(), OpsOfAll(es));
      Clean(s) && Conserved(s)
    ensures es != [] && (es[|es| - 1].fate == BuildFails || es[|es| - 1].fate == Served) ==>
      var s := Run(Fresh(), OpsOfAll(es));
      && !s.configured && s.tracer.None? && s.meter.None? && s.logger.None?
      && forall k: nat :: Times(s.ended, k) == if k < s.created then 1 else 0
  {
    if es != [] {
      var front, last := es[..|es| - 1], es[|es| - 1];
      EpisodesConserve(front);
      RunAppend(Fresh(), OpsOfAll(front), OpsOf(last));
      OneEpisodeConserves(Run(Fresh(), OpsOfAll(front)), last);
    }
  }

  lemma OneEpisodeConserves(s: State, e: Episode)
    requires Clean(s) && Conserved(s) && e.config.fault == None
    ensures Clean(Run(s, OpsOf(e))) && Conserved(Run(s, OpsOf(e)))
    ensures e.fate == BuildFails || e.fate == Served ==>
      var s' := Run(s, OpsOf(e));
      && !s'.configured && s'.tracer.None? && s'.meter.None? && s'.logger.None?
      && forall k: nat :: Times(s'.ended, k) == if k < s'.created then 1 else 0
  {
    RunEpisode(s, e);
    CleanStep(s, Configure(e.config));
    var up := AfterConfigure(s, e.config);
    assert up.configured;
    CleanStep(up, Shutdown);
    forall k: nat ensures Times(AfterShutdown(up).ended, k) == if k < up.created then 1 else 0 {
      assert Accounts(AfterShutdown(up), k) == Times(AfterShutdown(up).ended, k);
    }
  }

  /**
   While one host runs alone it holds a tracer and a meter provider of its own, and a logger
   provider exactly when export is enabled.
   */
  lemma HostHoldsItsProviders(es: seq<Episode>, c: Config)
    requires NoFaults(es) && c.fault == None
    requires !Run(Fresh(), OpsOfAll(es)).configured
    ensures var s, s' := Run(Fresh(), OpsOfAll(es)), AfterConfigure(Run(Fresh(), OpsOfAll(es)), c);
      && s'.configured && s'.tracer == Some(s.created) && s'.meter == Some(s.created + 1)
      && s'.logger == (if c.enabled then Some(s.created + 2) else None)
      && s'.ended == s.ended
  {
    EpisodesConserve(es);
    EnabledExports(c);
  }
}
