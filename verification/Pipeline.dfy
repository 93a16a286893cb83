/** hosting/pipeline.py and `_build_pipeline`: the ordered middleware onion around the app. */
module Pipeline {
  import StableSort

  datatype Registration = Registration(order: int, middleware: string, options: map<string, string>)

  datatype Middleware = Middleware(factory: string, options: map<string, string>)

  const INSTRUMENTATION := 100
  const EXCEPTION_LOGGING := 200
  const REQUEST_SCOPE := 300

  const BUILT_INS: seq<Registration> := [
    Registration(INSTRUMENTATION, "OpenTelemetryMiddleware", map[]),
    Registration(EXCEPTION_LOGGING, "ExceptionLoggingMiddleware", map[]),
    Registration(REQUEST_SCOPE, "RequestScopeMiddleware", map[])
  ]

  function Order(): Registration -> int {
    (r: Registration) => r.order
  }

  function Package(regs: seq<Registration>): (r: seq<Middleware>)
    ensures |r| == |regs|
    ensures forall i | 0 <= i < |regs| :: r[i] == Middleware(regs[i].middleware, regs[i].options)
  {
    seq(|regs|, i requires 0 <= i < |regs| => Middleware(regs[i].middleware, regs[i].options))
  }

  /** `build_middleware` */
  function BuildMiddleware(regs: seq<Registration>): (r: seq<Middleware>)
    ensures |r| == |regs|
  {
    Package(StableSort.Sort(Order(), regs))
  }

  class HostPipeline {
    var middleware: seq<Registration>
    var routes: seq<string>

    constructor ()
      ensures middleware == [] && routes == []
    {
      middleware, routes := [], [];
    }

    method Use(factory: string, order: int, options: map<string, string>)
      modifies this`middleware
      ensures middleware == old(middleware) + [Registration(order, factory, options)]
    {
      middleware := middleware + [Registration(order, factory, options)];
    }

    method MapRoute(route: string)
      modifies this`routes
      ensures routes == old(routes) + [route]
    {
      routes := routes + [route];
    }
  }

  /**
   `_build_pipeline`: the built-ins claim their orders first, then the configurators add `users`
   in the order they were given.
   */
  method BuildPipeline(users: seq<Registration>) returns (pipeline: HostPipeline)
    ensures fresh(pipeline)
    ensures pipeline.middleware == BUILT_INS + users && pipeline.routes == []
  {
    pipeline := new HostPipeline();
    pipeline.Use("OpenTelemetryMiddleware", INSTRUMENTATION, map[]);
    pipeline.Use("ExceptionLoggingMiddleware", EXCEPTION_LOGGING, map[]);
    pipeline.Use("RequestScopeMiddleware", REQUEST_SCOPE, map[]);
    assert pipeline.middleware == BUILT_INS;
    var i := 0;
    while i < |users|
      invariant 0 <= i <= |users|
      invariant pipeline.middleware == BUILT_INS + users[..i] && pipeline.routes == []
      invariant fresh(pipeline)
    {
      pipeline.Use(users[i].middleware, users[i].order, users[i].options);
      i := i + 1;
    }
    assert users[..i] == users;
  }

  // ---------------------------------------------------------------- who runs inside whom

  function Indices(n: nat): (r: seq<nat>)
    ensures |r| == n && forall i | 0 <= i < n :: r[i] == i
  {
    seq(n, i requires 0 <= i < n => i)
  }

  function OrderAt(regs: seq<Registration>): nat -> int {
    (i: nat) => if i < |regs| then regs[i].order else 0
  }

  /** Registration numbers from the outermost middleware to the innermost. */
  function OutsideIn(regs: seq<Registration>): (r: seq<nat>)
    ensures |r| == |regs|
  {
    StableSort.Sort(OrderAt(regs), Indices(|regs|))
  }

  lemma {:induction false} PickFollowsOrder(key: nat -> int, s: seq<nat>, p: nat, q: nat)
    returns (u: nat, v: nat)
    requires p < q < |s| && key(s[p]) == key(s[q])
    ensures u < v < |StableSort.Pick(key, key(s[p]), s)|
    ensures StableSort.Pick(key, key(s[p]), s)[u] == s[p] && StableSort.Pick(key, key(s[p]), s)[v] == s[q]
  {
    var front := s[..|s| - 1];
    if q < |s| - 1 {
      u, v := PickFollowsOrder(key, front, p, q);
    } else {
      StableSort.PickFinds(key, front, p);
      u :| 0 <= u < |StableSort.Pick(key, key(s[p]), front)| && StableSort.Pick(key, key(s[p]), front)[u] == s[p];
      v := |StableSort.Pick(key, key(s[p]), front)|;
    }
  }

  lemma {:induction false} PickOfIncreasing(key: nat -> int, k: int, s: seq<nat>)
    requires forall i, j | 0 <= i < j < |s| :: s[i] < s[j]
    ensures forall i, j | 0 <= i < j < |StableSort.Pick(key, k, s)| :: StableSort.Pick(key, k, s)[i] < StableSort.Pick(key, k, s)[j]
  {
    if s != [] {
      var front := s[..|s| - 1];
      PickOfIncreasing(key, k, front);
      forall i | 0 <= i < |StableSort.Pick(key, k, front)| ensures StableSort.Pick(key, k, front)[i] < s[|s| - 1] {
        StableSort.PickOnlyFrom(key, k, front, StableSort.Pick(key, k, front)[i]);
      }
    }
  }

  /** From outside in, orders never fall, and equal orders keep the order of registration. */
  lemma OutsideInOrder(regs: seq<Registration>, p: nat, q: nat)
    requires p < q < |regs|
    ensures OutsideIn(regs)[p] < |regs| && OutsideIn(regs)[q] < |regs|
    ensures var a, b := OutsideIn(regs)[p], OutsideIn(regs)[q];
      regs[a].order < regs[b].order || (regs[a].order == regs[b].order && a < b)
  {
    var key, s := OrderAt(regs), Indices(|regs|);
    var r := OutsideIn(regs);
    StableSort.SortIsStable(key, s);
    StableSort.SortPermutes(key, s);
    assert r[p] in multiset(r) && r[q] in multiset(r);
    assert r[p] in s && r[q] in s;
    if key(r[p]) == key(r[q]) {
      var u, v := PickFollowsOrder(key, r, p, q);
      assert StableSort.Pick(key, key(r[p]), s) == StableSort.Pick(key, key(r[p]), r);
      PickOfIncreasing(key, key(r[p]), s);
    }
  }

  /** The built list is the registrations read from outside in, each exactly once. */
  lemma BuiltInThatOrder(regs: seq<Registration>)
    ensures multiset(OutsideIn(regs)) == multiset(Indices(|regs|))
    ensures forall p | 0 <= p < |regs| :: OutsideIn(regs)[p] < |regs|
    ensures forall p | 0 <= p < |regs| ::
      BuildMiddleware(regs)[p] == Package([regs[OutsideIn(regs)[p]]])[0]
  {
    var key, s := OrderAt(regs), Indices(|regs|);
    StableSort.SortPermutes(key, s);
    var f := (i: nat) => if i < |regs| then regs[i] else Registration(0, "", map[]);
    StableSort.SortMaps(key, Order(), s, regs, f);
    forall p | 0 <= p < |regs| ensures OutsideIn(regs)[p] < |regs| {
      assert OutsideIn(regs)[p] in multiset(OutsideIn(regs));
      assert OutsideIn(regs)[p] in s;
    }
  }

  /** An earlier registration runs outside a later one exactly when its order is not higher. */
  lemma RunsOutsideExactlyWhen(regs: seq<Registration>, p: nat, q: nat)
    requires p < |regs| && q < |regs| && OutsideIn(regs)[p] < OutsideIn(regs)[q] < |regs|
    ensures p < q <==> regs[OutsideIn(regs)[p]].order <= regs[OutsideIn(regs)[q]].order
  {
    if p < q {
      OutsideInOrder(regs, p, q);
    } else if q < p {
      OutsideInOrder(regs, q, p);
    }
  }

  /**
   User middleware against the built-ins: it runs inside a built-in exactly when its order is at
   least the built-in's, so an equal order means inside.
   */
  lemma UserAgainstBuiltIn(users: seq<Registration>, p: nat, q: nat)
    requires p < |BUILT_INS + users| && q < |BUILT_INS + users|
    requires OutsideIn(BUILT_INS + users)[p] < |BUILT_INS| <= OutsideIn(BUILT_INS + users)[q] < |BUILT_INS + users|
    ensures var order := users[OutsideIn(BUILT_INS + users)[q] - |BUILT_INS|].order;
      p < q <==> match OutsideIn(BUILT_INS + users)[p]
        case 0 => 100 <= order
        case 1 => 200 <= order
        case _ => 300 <= order
  {
    RunsOutsideExactlyWhen(BUILT_INS + users, p, q);
  }

  /** However it is sorted: any stable sort of the registrations gives the list that is built. */
  lemma BuiltFromAnyStableSort(regs: seq<Registration>, sorted: seq<Registration>)
    requires StableSort.IsStableSort(Order(), regs, sorted)
    ensures BuildMiddleware(regs) == Package(sorted)
  {
    StableSort.StableSortIsUnique(Order(), regs, sorted);
  }

  /** A host without user middleware runs instrumentation, exception logging and the request scope from outside in. */
  lemma BuiltInNesting()
    ensures BuildMiddleware(BUILT_INS) == [Middleware("OpenTelemetryMiddleware", map[]),
                                           Middleware("ExceptionLoggingMiddleware", map[]),
                                           Middleware("RequestScopeMiddleware", map[])]
  {
    BuiltFromAnyStableSort(BUILT_INS, BUILT_INS);
  }

  // ---------------------------------------------------------------- the onion

  datatype Passage = Enter(m: Middleware) | App | Exit(m: Middleware)

  /** One request through the built stack; the first middleware of the list is the outermost. */
  function Onion(ms: seq<Middleware>): seq<Passage> {
    if ms == [] then [App] else [Enter(ms[0])] + Onion(ms[1..]) + [Exit(ms[0])]
  }

  lemma {:induction false} OnionNests(ms: seq<Middleware>, i: nat)
    requires i < |ms|
    ensures |Onion(ms)| == 2 * |ms| + 1 && Onion(ms)[|ms|] == App
    ensures Onion(ms)[i] == Enter(ms[i])
    ensures Onion(ms)[2 * |ms| - i] == Exit(ms[i])
  {
    var rest := ms[1..];
    if rest == [] {
      assert Onion(ms) == [Enter(ms[0]), App, Exit(ms[0])];
    } else {
      OnionNests(rest, if i > 0 then i - 1 else 0);
    }
  }

  /** What a request passes on its way in is the outside-in order of the registrations, and back again. */
  lemma RequestPassesOutsideIn(regs: seq<Registration>, p: nat)
    requires p < |regs|
    ensures OutsideIn(regs)[p] < |regs|
    ensures var reg := regs[OutsideIn(regs)[p]];
      var onion := Onion(BuildMiddleware(regs));
      && |onion| == 2 * |regs| + 1
      && onion[p] == Enter(Middleware(reg.middleware, reg.options))
      && onion[2 * |regs| - p] == Exit(Middleware(reg.middleware, reg.options))
  {
    BuiltInThatOrder(regs);
    OnionNests(BuildMiddleware(regs), p);
  }
}
