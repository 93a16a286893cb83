/** hosting/hosted_services.py: the registry of resolved background services. */
module HostedServices {
  import opened Wrappers
  import HostLifecycle

  /** A resolved service instance; `name` is what its `name` property returns. */
  datatype Service = Service(id: nat, name: string)

  function Names(services: seq<Service>): (r: seq<string>)
    ensures |r| == |services|
    ensures forall i | 0 <= i < |services| :: r[i] == services[i].name
  {
    seq(|services|, i requires 0 <= i < |services| => services[i].name)
  }

  /** The services added until the first one whose name is taken. */
  function AcceptedPrefix(services: seq<Service>): (n: nat)
    ensures n <= |services|
    ensures HostLifecycle.Distinct(Names(services[..n]))
    ensures n < |services| ==> services[n].name in Names(services[..n])
  {
    if services == [] then 0
    else
      var front := services[..|services| - 1];
      var n := AcceptedPrefix(front);
      assert front[..n] == services[..n];
      if n < |front| || services[|front|].name in Names(front) then
        assert n == |front| ==> services[..n] == front;
        n
      else
        assert services[..|services|] == services;
        assert Names(services) == Names(front) + [services[|front|].name];
        |services|
  }

  /** Adding a run of services works out exactly when no two of them share a name. */
  lemma AllAcceptedWhenDistinct(services: seq<Service>)
    ensures AcceptedPrefix(services) == |services| <==> HostLifecycle.Distinct(Names(services))
  {
    var n := AcceptedPrefix(services);
    if n < |services| {
      var k :| 0 <= k < n && Names(services[..n])[k] == services[n].name;
      assert Names(services)[k] == Names(services)[n];
    } else {
      assert services[..n] == services;
    }
  }

  class HostedServices {
    var services: seq<Service>
    var names: set<string>

    /** `names` is the O(1) guard beside the list: it holds the names of the list, each used once. */
    ghost predicate Valid()
      reads this
    {
      && names == (set name | name in Names(services))
      && HostLifecycle.Distinct(Names(services))
    }

    constructor ()
      ensures Valid() && services == []
    {
      services := [];
      names := {};
    }

    method Add(service: Service) returns (r: Result<(), string>)
      requires Valid()
      modifies this
      ensures Valid()
      ensures r.Ok? <==> service.name !in Names(old(services))
      ensures services == old(services) + if r.Ok? then [service] else []
    {
      if service.name in names {
        return Err("already registered");
      }
      names := names + {service.name};
      services := services + [service];
      assert Names(services) == Names(old(services)) + [service.name];
      return Ok(());
    }

    /**
     The registration loop of `run_host_lifecycle`: services are added as they are resolved and the
     first duplicate name stops it. It gets through exactly when all names differ.
     */
    method AddAll(resolved: seq<Service>) returns (r: Result<(), string>)
      requires Valid() && services == []
      modifies this
      ensures Valid()
      ensures services == resolved[..AcceptedPrefix(resolved)]
      ensures r.Ok? <==> HostLifecycle.Distinct(Names(resolved))
      ensures r.Ok? ==> services == resolved
    {
      var i := 0;
      while i < |resolved|
        invariant 0 <= i <= |resolved|
        invariant Valid()
        invariant services == resolved[..i]
      {
        r := Add(resolved[i]);
        if r.Err? {
          DuplicateStops(resolved, i);
          AllAcceptedWhenDistinct(resolved);
          return;
        }
        assert resolved[..i] + [resolved[i]] == resolved[..i + 1];
        i := i + 1;
      }
      assert resolved[..i] == resolved;
      AllAcceptedWhenDistinct(resolved);
      return Ok(());
    }
  }

  /** The first duplicate is where the accepted prefix ends. */
  lemma DuplicateStops(resolved: seq<Service>, i: nat)
    requires i < |resolved| && HostLifecycle.Distinct(Names(resolved[..i]))
    requires resolved[i].name in Names(resolved[..i])
    ensures AcceptedPrefix(resolved) == i
  {
    RepeatedName(resolved, i, AcceptedPrefix(resolved));
    RepeatedName(resolved, AcceptedPrefix(resolved), i);
  }

  lemma RepeatedName(services: seq<Service>, i: nat, n: nat)
    ensures i < n <= |services| && services[i].name in Names(services[..i]) ==>
      !HostLifecycle.Distinct(Names(services[..n]))
  {
    if i < n <= |services| && services[i].name in Names(services[..i]) {
      var k :| 0 <= k < i && Names(services[..i])[k] == services[i].name;
      assert Names(services[..n])[k] == Names(services[..n])[i];
    }
  }

  function Resolves(n: nat): (r: seq<HostLifecycle.Action>)
    ensures |r| == n && forall i | 0 <= i < n :: r[i] == HostLifecycle.ResolveNext
  {
    seq(n, i requires 0 <= i < n => HostLifecycle.ResolveNext)
  }

  /** The host while it is resolving, with the first `k` services registered. */
  function ResolvingHost(names: seq<string>, k: nat): HostLifecycle.Host
    requires k <= |names|
  {
    HostLifecycle.Host(HostLifecycle.Resolving(k), names[..k], [], false, false, [])
  }

  lemma ResolveOne(cfg: HostLifecycle.Config, k: nat)
    requires HostLifecycle.ValidConfig(cfg) && k < |cfg.names| && cfg.names[k] !in cfg.names[..k]
    ensures HostLifecycle.Enabled(cfg, ResolvingHost(cfg.names, k), HostLifecycle.ResolveNext)
    ensures HostLifecycle.Apply(cfg, ResolvingHost(cfg.names, k), HostLifecycle.ResolveNext) == ResolvingHost(cfg.names, k + 1)
  {
    assert cfg.names[..k + 1] == cfg.names[..k] + [cfg.names[k]];
  }

  /** Names that are not taken are registered one after the other. */
  lemma {:induction false} RegistersUpTo(cfg: HostLifecycle.Config, n: nat, k: nat)
    requires HostLifecycle.ValidConfig(cfg) && k <= n <= |cfg.names|
    requires forall j | k <= j < n :: cfg.names[j] !in cfg.names[..j]
    ensures HostLifecycle.Execute(cfg, ResolvingHost(cfg.names, k), Resolves(n - k)) == Some(ResolvingHost(cfg.names, n))
    decreases n - k
  {
    if k < n {
      ResolveOne(cfg, k);
      RegistersUpTo(cfg, n, k + 1);
      assert Resolves(n - k)[1..] == Resolves(n - k - 1);
    }
  }

  lemma ResolvingRegisters(cfg: HostLifecycle.Config, services: seq<Service>)
    requires HostLifecycle.ValidConfig(cfg) && cfg.names == Names(services)
    ensures HostLifecycle.Execute(cfg, ResolvingHost(cfg.names, 0), Resolves(AcceptedPrefix(services)))
         == Some(ResolvingHost(cfg.names, AcceptedPrefix(services)))
  {
    var n := AcceptedPrefix(services);
    forall j | 0 <= j < n ensures cfg.names[j] !in cfg.names[..j] {
      NotTakenBefore(services, j);
    }
    RegistersUpTo(cfg, n, 0);
  }

  lemma NotTakenBefore(services: seq<Service>, k: nat)
    requires k < AcceptedPrefix(services)
    ensures Names(services)[k] !in Names(services)[..k]
  {
    var n := AcceptedPrefix(services);
    forall i | 0 <= i < k ensures Names(services)[i] != Names(services)[k] {
      assert Names(services[..n])[i] != Names(services[..n])[k];
    }
  }

  lemma StartsResolving(names: seq<string>)
    ensures HostLifecycle.Init() == ResolvingHost(names, 0)
  {
  }

  /** A taken name makes the host give up. */
  lemma RejectsTaken(cfg: HostLifecycle.Config, k: nat)
    requires HostLifecycle.ValidConfig(cfg) && k < |cfg.names| && cfg.names[k] in cfg.names[..k]
    ensures HostLifecycle.Enabled(cfg, ResolvingHost(cfg.names, k), HostLifecycle.ResolveNext)
    ensures var s := HostLifecycle.Apply(cfg, ResolvingHost(cfg.names, k), HostLifecycle.ResolveNext);
      s.pc == HostLifecycle.Closing && s.failed
  {
  }

  /** The accepted prefix ends at a name that is taken. */
  lemma TakenAtEnd(services: seq<Service>)
    ensures var n := AcceptedPrefix(services);
      n < |services| ==> Names(services)[n] in Names(services)[..n]
  {
    var n := AcceptedPrefix(services);
    assert Names(services)[..n] == Names(services[..n]);
  }

  /**
   The registry and the resolving phase of the host agree: when `get` keeps returning, the host
   registers exactly the services the registry accepts, and it gives up at the one it rejects.
   */
  lemma HostRegistersWhatIsAccepted(cfg: HostLifecycle.Config, services: seq<Service>)
    requires HostLifecycle.ValidConfig(cfg) && cfg.names == Names(services)
    ensures var n := AcceptedPrefix(services);
      var host := HostLifecycle.Execute(cfg, HostLifecycle.Init(), Resolves(n));
      && host == Some(ResolvingHost(cfg.names, n))
      && (n < |services| ==>
            && HostLifecycle.Enabled(cfg, host.value, HostLifecycle.ResolveNext)
            && HostLifecycle.Apply(cfg, host.value, HostLifecycle.ResolveNext).pc == HostLifecycle.Closing
            && HostLifecycle.Apply(cfg, host.value, HostLifecycle.ResolveNext).failed)
  {
    StartsResolving(cfg.names);
    ResolvingRegisters(cfg, services);
    if AcceptedPrefix(services) < |services| {
      TakenAtEnd(services);
      RejectsTaken(cfg, AcceptedPrefix(services));
    }
  }
}
