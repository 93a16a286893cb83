/**
 hosting/http_di.py: one DI scope per HTTP or WebSocket connection, published on the connection's
 state dict, under any interleaving of concurrent connections.
 */
module HttpScopes {
  import opened Wrappers
  import opened Counting

  datatype ConnectionKind = Http | WebSocket | Lifespan

  datatype Stage = Arrived | Inside | Leaving | Finished(raised: bool)

  /** `dict` identifies the state dict of the connection's ASGI scope. */
  datatype Connection = Connection(kind: ConnectionKind, dict: nat, stage: Stage, scope: Option<nat>, raised: bool)

  /**
   `opener[k]` is the connection DI scope k was opened for, in the order of opening; `published`
   is what each state dict holds under the provider key.
   */
  datatype Server = Server(conns: map<nat, Connection>, opener: seq<nat>, open: set<nat>, closed: seq<nat>, published: map<nat, nat>)

  function Init(): Server {
    Server(map[], [], {}, [], map[])
  }

  datatype Action =
    | Arrive(c: nat, kind: ConnectionKind, dict: nat)
    | PassThrough(c: nat)
    | EnterScope(c: nat)
    | EnterFails(c: nat)
    | InnerEnds(c: nat, raises: bool)
    | CloseScope(c: nat)

  predicate Enabled(s: Server, a: Action) {
    match a
    case Arrive(c, _, _) => c !in s.conns
    case PassThrough(c) => c in s.conns && s.conns[c].stage == Arrived && s.conns[c].kind == Lifespan
    case EnterScope(c) => c in s.conns && s.conns[c].stage == Arrived && s.conns[c].kind != Lifespan
    case EnterFails(c) => c in s.conns && s.conns[c].stage == Arrived && s.conns[c].kind != Lifespan
    case InnerEnds(c, _) => c in s.conns && s.conns[c].stage == Inside
    case CloseScope(c) => c in s.conns && s.conns[c].stage == Leaving && s.conns[c].scope.Some?
  }

  function Apply(s: Server, a: Action): Server
    requires Enabled(s, a)
  {
    match a
    case Arrive(c, kind, dict) => s.(conns := s.conns[c := Connection(kind, dict, Arrived, None, false)])
    case PassThrough(c) => s.(conns := s.conns[c := s.conns[c].(stage := Inside)])
    case EnterScope(c) =>
      var scope := |s.opener|;
      s.(conns := s.conns[c := s.conns[c].(stage := Inside, scope := Some(scope))],
         opener := s.opener + [c],
         open := s.open + {scope},
         published := s.published[s.conns[c].dict := scope])
    case EnterFails(c) => s.(conns := s.conns[c := s.conns[c].(stage := Finished(true), raised := true)])
    case InnerEnds(c, raises) =>
      var left := s.conns[c].(raised := raises);
      s.(conns := s.conns[c := left.(stage := if left.scope.Some? then Leaving else Finished(raises))])
    case CloseScope(c) =>
      var scope := s.conns[c].scope.value;
      s.(conns := s.conns[c := s.conns[c].(stage := Finished(s.conns[c].raised))],
         open := s.open - {scope},
         closed := s.closed + [scope])
  }

  function Execute(s: Server, acts: seq<Action>): Option<Server>
    decreases |acts|
  {
    if acts == [] then Some(s)
    else if Enabled(s, acts[0]) then Execute(Apply(s, acts[0]), acts[1..])
    else None
  }

  /** `request_services(connection)`: whatever the connection's state dict holds. */
  function RequestServices(s: Server, c: nat): Option<nat>
    requires c in s.conns
  {
    if s.conns[c].dict in s.published then Some(s.published[s.conns[c].dict]) else None
  }

  // ---------------------------------------------------------------- invariants

  /** Scopes and the connections they were opened for name each other. */
  ghost predicate OpenerInv(s: Server) {
    && (forall k | 0 <= k < |s.opener| :: s.opener[k] in s.conns && s.conns[s.opener[k]].scope == Some(k))
    && (forall c | c in s.conns && s.conns[c].scope.Some? ::
          s.conns[c].scope.value < |s.opener| && s.opener[s.conns[c].scope.value] == c)
  }

  ghost predicate StageInv(s: Server) {
    forall c | c in s.conns ::
      && (s.conns[c].kind == Lifespan || s.conns[c].stage == Arrived ==> s.conns[c].scope.None?)
      && (s.conns[c].stage == Leaving ==> s.conns[c].scope.Some?)
      && (s.conns[c].stage == Inside && s.conns[c].kind != Lifespan ==> s.conns[c].scope.Some?)
  }

  predicate Holding(s: Server, k: nat) {
    k < |s.opener| && s.opener[k] in s.conns && s.conns[s.opener[k]].stage in {Inside, Leaving}
  }

  predicate Over(s: Server, k: nat) {
    k < |s.opener| && s.opener[k] in s.conns && s.conns[s.opener[k]].stage.Finished?
  }

  /** A scope is open while its connection is inside or leaving, then closed, once. */
  ghost predicate LedgerInv(s: Server) {
    && (forall k: nat :: k in s.open <==> Holding(s, k))
    && (forall k: nat :: Times(s.closed, k) == if Over(s, k) then 1 else 0)
  }

  /** A state dict holds the scope opened last for a connection using the dict. */
  ghost predicate PublishedInv(s: Server) {
    && (forall d | d in s.published ::
          && s.published[d] < |s.opener|
          && s.opener[s.published[d]] in s.conns && s.conns[s.opener[s.published[d]]].dict == d)
    && (forall c | c in s.conns && s.conns[c].scope.Some? ::
          s.conns[c].dict in s.published && s.published[s.conns[c].dict] >= s.conns[c].scope.value)
  }

  ghost predicate Inv(s: Server) {
    OpenerInv(s) && StageInv(s) && LedgerInv(s) && PublishedInv(s)
  }

  lemma OpenStep(s: Server, a: Action, k: nat)
    requires OpenerInv(s) && StageInv(s) && (k in s.open <==> Holding(s, k)) && Enabled(s, a)
    ensures k in Apply(s, a).open <==> Holding(Apply(s, a), k)
  {
    if k < |s.opener| {
      assert s.conns[s.opener[k]].scope == Some(k);
    }
  }

  lemma ClosedStep(s: Server, a: Action, k: nat)
    requires OpenerInv(s) && StageInv(s) && (Times(s.closed, k) == if Over(s, k) then 1 else 0) && Enabled(s, a)
    ensures Times(Apply(s, a).closed, k) == if Over(Apply(s, a), k) then 1 else 0
  {
    if k < |s.opener| {
      assert s.conns[s.opener[k]].scope == Some(k);
    }
    if a.CloseScope? {
      assert Apply(s, a).closed[..|s.closed|] == s.closed;
    }
  }

  lemma LedgerStep(s: Server, a: Action)
    requires OpenerInv(s) && StageInv(s) && LedgerInv(s) && Enabled(s, a)
    ensures LedgerInv(Apply(s, a))
  {
    var s' := Apply(s, a);
    forall k: nat ensures k in s'.open <==> Holding(s', k) {
      OpenStep(s, a, k);
    }
    forall k: nat ensures Times(s'.closed, k) == if Over(s', k) then 1 else 0 {
      ClosedStep(s, a, k);
    }
  }

  lemma OpenerStep(s: Server, a: Action)
    requires OpenerInv(s) && StageInv(s) && Enabled(s, a)
    ensures OpenerInv(Apply(s, a))
  {
  }

  lemma StageStep(s: Server, a: Action)
    requires OpenerInv(s) && StageInv(s) && Enabled(s, a)
    ensures StageInv(Apply(s, a))
  {
  }

  lemma PublishedOpenerStep(s: Server, a: Action, d: nat)
    requires OpenerInv(s) && StageInv(s) && PublishedInv(s) && Enabled(s, a)
    requires d in Apply(s, a).published
    ensures var s' := Apply(s, a);
      && s'.published[d] < |s'.opener|
      && s'.opener[s'.published[d]] in s'.conns && s'.conns[s'.opener[s'.published[d]]].dict == d
  {
    if d in s.published {
      assert s.published[d] < |s.opener| && s.opener[s.published[d]] in s.conns;
    }
  }

  lemma PublishedLatestStep(s: Server, a: Action, c: nat)
    requires OpenerInv(s) && StageInv(s) && PublishedInv(s) && Enabled(s, a)
    requires c in Apply(s, a).conns && Apply(s, a).conns[c].scope.Some?
    ensures var s' := Apply(s, a);
      s'.conns[c].dict in s'.published && s'.published[s'.conns[c].dict] >= s'.conns[c].scope.value
  {
    if c in s.conns && s.conns[c].scope.Some? {
      assert s.conns[c].scope.value < |s.opener|;
    }
  }

  lemma PublishedStep(s: Server, a: Action)
    requires OpenerInv(s) && StageInv(s) && PublishedInv(s) && Enabled(s, a)
    ensures PublishedInv(Apply(s, a))
  {
    var s' := Apply(s, a);
    forall d | d in s'.published
      ensures s'.published[d] < |s'.opener|
      ensures s'.opener[s'.published[d]] in s'.conns && s'.conns[s'.opener[s'.published[d]]].dict == d
    {
      PublishedOpenerStep(s, a, d);
    }
    forall c | c in s'.conns && s'.conns[c].scope.Some?
      ensures s'.conns[c].dict in s'.published && s'.published[s'.conns[c].dict] >= s'.conns[c].scope.value
    {
      PublishedLatestStep(s, a, c);
    }
  }

  lemma StepInv(s: Server, a: Action)
    requires Inv(s) && Enabled(s, a)
    ensures Inv(Apply(s, a))
  {
    OpenerStep(s, a);
    StageStep(s, a);
    PublishedStep(s, a);
    LedgerStep(s, a);
  }

  lemma {:induction false} ExecuteInv(s: Server, acts: seq<Action>)
    requires Inv(s) && Execute(s, acts).Some?
    ensures Inv(Execute(s, acts).value)
    decreases |acts|
  {
    if acts != [] {
      StepInv(s, acts[0]);
      ExecuteInv(Apply(s, acts[0]), acts[1..]);
    }
  }

  // ---------------------------------------------------------------- what holds in every run

  ghost predicate Reaches(acts: seq<Action>, s: Server) {
    Execute(Init(), acts) == Some(s)
  }

  /**
   Open scopes correspond one to one to the HTTP and WebSocket connections inside the inner app
   or just leaving it; nothing else holds a scope.
   */
  lemma OpenScopesAreLiveConnections(acts: seq<Action>, s: Server)
    requires Reaches(acts, s)
    ensures forall c | c in s.conns && s.conns[c].kind != Lifespan && s.conns[c].stage in {Inside, Leaving} ::
      && s.conns[c].scope.Some? && s.conns[c].scope.value in s.open
      && s.conns[c].scope.value < |s.opener| && s.opener[s.conns[c].scope.value] == c
    ensures forall k | k in s.open ::
      && k < |s.opener| && s.opener[k] in s.conns && s.conns[s.opener[k]].scope == Some(k)
      && s.conns[s.opener[k]].kind != Lifespan && s.conns[s.opener[k]].stage in {Inside, Leaving}
  {
    ExecuteInv(Init(), acts);
  }

  /**
   Every scope opened for a connection is closed exactly once, when the connection is finished and
   not before, whether its inner app returned or raised.
   */
  lemma ScopeClosedOnce(acts: seq<Action>, s: Server, c: nat)
    requires Reaches(acts, s) && c in s.conns && s.conns[c].scope.Some?
    ensures Times(s.closed, s.conns[c].scope.value) == if s.conns[c].stage.Finished? then 1 else 0
  {
    ExecuteInv(Init(), acts);
  }

  /** The inner app of the connection has raised, or its scope could not be opened. */
  predicate RaisedSoFar(s: Server, c: nat) {
    c in s.conns && match s.conns[c].stage
      case Leaving => s.conns[c].raised
      case Finished(raised) => raised
      case _ => false
  }

  lemma {:induction false} RaisesAlong(s: Server, acts: seq<Action>, c: nat)
    requires Execute(s, acts).Some?
    ensures RaisedSoFar(Execute(s, acts).value, c) <==>
      RaisedSoFar(s, c) || EnterFails(c) in acts || InnerEnds(c, true) in acts
    decreases |acts|
  {
    if acts != [] {
      var s1 := Apply(s, acts[0]);
      RaisesAlong(s1, acts[1..], c);
      assert acts == [acts[0]] + acts[1..];
      assert RaisedSoFar(s1, c) <==> RaisedSoFar(s, c) || acts[0] == EnterFails(c) || acts[0] == InnerEnds(c, true);
    }
  }

  /** A connection ends with an exception exactly when its scope failed to open or its inner app raised. */
  lemma FinishedAsInnerEnded(acts: seq<Action>, s: Server, c: nat)
    requires Reaches(acts, s) && c in s.conns && s.conns[c].stage.Finished?
    ensures s.conns[c].stage == Finished(EnterFails(c) in acts || InnerEnds(c, true) in acts)
  {
    RaisesAlong(Init(), acts, c);
  }

  lemma OneStep(s: Server, a: Action)
    requires Enabled(s, a)
    ensures Execute(s, [a]) == Some(Apply(s, a))
  {
    assert [a][1..] == [];
    assert Execute(Apply(s, a), []) == Some(Apply(s, a));
  }

  lemma TwoSteps(s: Server, a: Action, rest: seq<Action>)
    requires Enabled(s, a)
    ensures Execute(s, [a] + rest) == Execute(Apply(s, a), rest)
  {
    assert ([a] + rest)[1..] == rest;
  }

  /** `rest` can be executed, and leaves the connection finished. */
  ghost predicate Ends(s: Server, rest: seq<Action>, c: nat, raised: bool) {
    var end := Execute(s, rest);
    end.Some? && c in end.value.conns && end.value.conns[c].stage == Finished(raised)
  }

  lemma CanLeave(s: Server, c: nat, raises: bool) returns (rest: seq<Action>)
    requires StageInv(s) && c in s.conns && s.conns[c].stage == Inside
    ensures Ends(s, rest, c, raises)
  {
    var s1 := Apply(s, InnerEnds(c, raises));
    OneStep(s, InnerEnds(c, raises));
    if s.conns[c].scope.Some? {
      OneStep(s1, CloseScope(c));
      TwoSteps(s, InnerEnds(c, raises), [CloseScope(c)]);
      rest := [InnerEnds(c, raises), CloseScope(c)];
      assert rest == [InnerEnds(c, raises)] + [CloseScope(c)];
    } else {
      rest := [InnerEnds(c, raises)];
    }
  }

  lemma CanArriveInside(s: Server, c: nat, raises: bool) returns (rest: seq<Action>)
    requires StageInv(s) && OpenerInv(s) && c in s.conns && s.conns[c].stage == Arrived
    ensures Ends(s, rest, c, raises)
  {
    var a := if s.conns[c].kind == Lifespan then PassThrough(c) else EnterScope(c);
    StageStep(s, a);
    var more := CanLeave(Apply(s, a), c, raises);
    TwoSteps(s, a, more);
    rest := [a] + more;
  }

  /**
   No connection gets stuck: one whose inner app has not ended can still end either way, and one
   that is leaving can close its scope and end as its inner app did.
   */
  lemma EveryConnectionCanFinish(acts: seq<Action>, s: Server, c: nat, raises: bool)
    requires Reaches(acts, s) && c in s.conns && !s.conns[c].stage.Finished?
    ensures s.conns[c].stage == Leaving ==> exists rest :: Ends(s, rest, c, s.conns[c].raised)
    ensures s.conns[c].stage != Leaving ==> exists rest :: Ends(s, rest, c, raises)
  {
    ExecuteInv(Init(), acts);
    if s.conns[c].stage == Arrived {
      var rest := CanArriveInside(s, c, raises);
    } else if s.conns[c].stage == Inside {
      var rest := CanLeave(s, c, raises);
    } else {
      OneStep(s, CloseScope(c));
      assert Ends(s, [CloseScope(c)], c, s.conns[c].raised);
    }
  }

  /**
   Inside a connection, `request_services` gives the connection's own, still open scope if and
   only if no other connection using the same state dict was given its scope later.
   */
  lemma OwnScopeExactlyWhen(acts: seq<Action>, s: Server, c: nat)
    requires Reaches(acts, s) && c in s.conns && s.conns[c].kind != Lifespan && s.conns[c].stage == Inside
    ensures s.conns[c].scope.Some? && s.conns[c].scope.value in s.open
    ensures RequestServices(s, c) == s.conns[c].scope <==>
      forall k | s.conns[c].scope.value < k < |s.opener| ::
        s.opener[k] in s.conns && s.conns[s.opener[k]].dict != s.conns[c].dict
  {
    ExecuteInv(Init(), acts);
    var d := s.conns[c].dict;
    if RequestServices(s, c) == s.conns[c].scope {
      forall k | s.conns[c].scope.value < k < |s.opener|
        ensures s.opener[k] in s.conns && s.conns[s.opener[k]].dict != d
      {
        assert s.conns[s.opener[k]].scope == Some(k);
      }
    }
  }

  /** Every connection brings a state dict of its own. */
  ghost predicate SeparateDicts(s: Server) {
    forall c, c' | c in s.conns && c' in s.conns && c != c' :: s.conns[c].dict != s.conns[c'].dict
  }

  /** With separate state dicts no connection ever sees another connection's scope. */
  lemma SeparateDictsSeeOwnScope(acts: seq<Action>, s: Server, c: nat)
    requires Reaches(acts, s) && SeparateDicts(s)
    requires c in s.conns && s.conns[c].kind != Lifespan && s.conns[c].stage == Inside
    ensures RequestServices(s, c) == s.conns[c].scope && s.conns[c].scope.Some? && s.conns[c].scope.value in s.open
  {
    ExecuteInv(Init(), acts);
    OwnScopeExactlyWhen(acts, s, c);
    forall k | s.conns[c].scope.value < k < |s.opener|
      ensures s.opener[k] in s.conns && s.conns[s.opener[k]].dict != s.conns[c].dict
    {
      assert s.conns[s.opener[k]].scope == Some(k);
    }
  }

  /** With a shared state dict the first of two connections is handed the second one's scope. */
  lemma SharedDictLeaks()
    ensures var acts := [Arrive(1, Http, 7), EnterScope(1), Arrive(2, Http, 7), EnterScope(2)];
      var s := Execute(Init(), acts);
      s.Some? && 1 in s.value.conns && s.value.conns[1].scope == Some(0) && RequestServices(s.value, 1) == Some(1)
  {
    var acts := [Arrive(1, Http, 7), EnterScope(1), Arrive(2, Http, 7), EnterScope(2)];
    var s1 := Apply(Init(), acts[0]);
    var s2 := Apply(s1, acts[1]);
    var s3 := Apply(s2, acts[2]);
    var s4 := Apply(s3, acts[3]);
    assert Execute(s4, acts[4..]) == Some(s4);
    assert acts[3..][1..] == acts[4..];
    assert Execute(s3, acts[3..]) == Some(s4);
    assert acts[2..][1..] == acts[3..];
    assert Execute(s2, acts[2..]) == Some(s4);
    assert acts[1..][1..] == acts[2..];
    assert Execute(s1, acts[1..]) == Some(s4);
  }
}
