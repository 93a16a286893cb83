/** The rewritten endpoint is a valid signature, and calling it means calling the handler. */
module EndpointContract {
  import opened Wrappers
  import opened RouteInjection
  import StableSort

  // ---------------------------------------------------------------- the signature stays valid

  lemma ValidParts(a: Signature, b: Signature)
    requires ValidSignature(a + b)
    ensures ValidSignature(a) && ValidSignature(b)
  {
    var ab := a + b;
    assert forall i, j | 0 <= i < j < |a| :: ab[i] == a[i] && ab[j] == a[j];
    assert forall i, j | 0 <= i < j < |b| :: ab[|a| + i] == b[i] && ab[|a| + j] == b[j];
  }

  lemma ValidAcross(a: Signature, b: Signature, p: Parameter, q: Parameter)
    requires ValidSignature(a + b) && p in a && q in b
    ensures InOrder(p, q)
  {
    var i :| 0 <= i < |a| && a[i] == p;
    var j :| 0 <= j < |b| && b[j] == q;
    assert (a + b)[i] == p && (a + b)[|a| + j] == q;
  }

  lemma ValidWhole(a: Signature, b: Signature)
    requires ValidSignature(a) && ValidSignature(b) && forall p, q | p in a && q in b :: InOrder(p, q)
    ensures ValidSignature(a + b)
  {
    forall i, j | 0 <= i < j < |a + b| ensures InOrder((a + b)[i], (a + b)[j]) {
      if i < |a| <= j {
        assert a[i] in a && b[j - |a|] in b;
      }
    }
  }

  lemma ValidAppend(a: Signature, b: Signature)
    ensures ValidSignature(a + b) <==>
      ValidSignature(a) && ValidSignature(b) && forall p, q | p in a && q in b :: InOrder(p, q)
  {
    if ValidSignature(a + b) {
      ValidParts(a, b);
      forall p, q | p in a && q in b ensures InOrder(p, q) {
        ValidAcross(a, b, p, q);
      }
    } else if ValidSignature(a) && ValidSignature(b) && forall p, q | p in a && q in b :: InOrder(p, q) {
      ValidWhole(a, b);
    }
  }

  lemma ValidHead(sig: Signature)
    requires sig != []
    ensures ValidSignature(sig) <==> ValidSignature(sig[1..]) && forall q | q in sig[1..] :: InOrder(sig[0], q)
  {
    assert sig == [sig[0]] + sig[1..];
    ValidAppend([sig[0]], sig[1..]);
  }

  lemma {:induction false} RetainedValid(sig: Signature)
    requires ValidSignature(sig)
    ensures ValidSignature(Retained(sig))
  {
    if sig != [] {
      var front, last := sig[..|sig| - 1], sig[|sig| - 1];
      assert sig == front + [last];
      ValidAppend(front, [last]);
      RetainedValid(front);
      RetainedMembers(front);
      ValidAppend(Retained(front), if IsInjected(last) then [] else [last]);
    }
  }

  lemma {:induction false} SplitMembers(params: Signature)
    ensures forall p :: p in Others(params) <==> p in params && p.kind != VarKeyword
    ensures forall p :: p in VarKeywords(params) <==> p in params && p.kind == VarKeyword
    ensures multiset(Others(params)) + multiset(VarKeywords(params)) == multiset(params)
  {
    if params != [] {
      SplitMembers(params[1..]);
      assert params == [params[0]] + params[1..];
    }
  }

  lemma {:induction false} OthersValid(params: Signature)
    requires ValidSignature(params)
    ensures ValidSignature(Others(params))
  {
    if params != [] {
      ValidHead(params);
      OthersValid(params[1..]);
      SplitMembers(params[1..]);
      ValidAppend(if params[0].kind == VarKeyword then [] else [params[0]], Others(params[1..]));
    }
  }

  lemma {:induction false} VarKeywordsValid(params: Signature)
    requires ValidSignature(params)
    ensures ValidSignature(VarKeywords(params))
  {
    if params != [] {
      ValidHead(params);
      VarKeywordsValid(params[1..]);
      SplitMembers(params[1..]);
      ValidAppend(if params[0].kind == VarKeyword then [params[0]] else [], VarKeywords(params[1..]));
    }
  }

  /** A `**kwargs` parameter has to be the last one, so moving it to the end changes nothing. */
  lemma SplitOrder(params: Signature, p: Parameter, q: Parameter)
    requires ValidSignature(params) && p in Others(params) && q in VarKeywords(params)
    ensures InOrder(p, q)
  {
    SplitMembers(params);
    var i :| 0 <= i < |params| && params[i] == p;
    var j :| 0 <= j < |params| && params[j] == q;
    assert i != j;
    var lo, hi := if i < j then i else j, if i < j then j else i;
    assert InOrder(params[lo], params[hi]);
  }

  predicate Reserved(name: string) {
    name == REQUEST_NAME || name == WEBSOCKET_NAME
  }

  ghost predicate UsesReserved(params: Signature) {
    exists p | p in params :: Reserved(p.name)
  }

  lemma ReservedNamesDiffer()
    ensures REQUEST_NAME != WEBSOCKET_NAME
  {
    assert |REQUEST_NAME| != |WEBSOCKET_NAME|;
  }

  lemma UnusedNames(params: Signature, p: Parameter, h: Parameter)
    requires !UsesReserved(params) && p in params && h in HIDDEN
    ensures p.name != h.name
  {
    assert !Reserved(p.name);
  }

  lemma HiddenValid()
    ensures ValidSignature(HIDDEN)
  {
    ReservedNamesDiffer();
  }

  lemma HiddenFitsUnused(params: Signature)
    requires ValidSignature(params) && !UsesReserved(params)
    ensures ValidSignature(Others(params) + HIDDEN + VarKeywords(params))
  {
    var others, last := Others(params), VarKeywords(params);
    SplitMembers(params);
    OthersValid(params);
    HiddenValid();
    forall p, q | p in others && q in HIDDEN ensures InOrder(p, q) {
      UnusedNames(params, p, q);
    }
    ValidAppend(others, HIDDEN);
    HiddenBeforeVarKeyword(params);
  }

  lemma HiddenBeforeVarKeyword(params: Signature)
    requires ValidSignature(params) && !UsesReserved(params)
    requires ValidSignature(Others(params) + HIDDEN)
    ensures ValidSignature(Others(params) + HIDDEN + VarKeywords(params))
  {
    SplitMembers(params);
    VarKeywordsValid(params);
    forall p, q | p in Others(params) + HIDDEN && q in VarKeywords(params) ensures InOrder(p, q) {
      if p in Others(params) {
        SplitOrder(params, p, q);
      } else {
        UnusedNames(params, q, p);
      }
    }
    ValidAppend(Others(params) + HIDDEN, VarKeywords(params));
  }

  lemma HiddenClashesUsed(params: Signature)
    requires UsesReserved(params)
    ensures !ValidSignature(Others(params) + HIDDEN + VarKeywords(params))
  {
    SplitMembers(params);
    ValidAppend(Others(params), HIDDEN);
    ValidAppend(Others(params) + HIDDEN, VarKeywords(params));
    var p :| p in params && Reserved(p.name);
    var h := if p.name == REQUEST_NAME then HIDDEN[0] else HIDDEN[1];
    assert h in HIDDEN;
    assert !InOrder(p, h) && !InOrder(h, p);
    assert p in Others(params) || (h in Others(params) + HIDDEN && p in VarKeywords(params));
  }

  /** Adding the hidden pair before a trailing `**kwargs` is fine unless a name is taken. */
  lemma HiddenFits(params: Signature)
    requires ValidSignature(params)
    ensures ValidSignature(Others(params) + HIDDEN + VarKeywords(params)) <==> !UsesReserved(params)
  {
    if UsesReserved(params) {
      HiddenClashesUsed(params);
    } else {
      HiddenFitsUnused(params);
    }
  }

  /**
   The rewritten signature of a valid handler is valid if and only if the hidden pair is not
   needed or none of the parameters that stay uses one of its names.
   */
  lemma RewrittenValidExactlyWhen(sig: Signature)
    requires ValidSignature(sig)
    ensures ValidSignature(Rewritten(sig)) <==>
      Injected(sig) == [] || ConnectionParam(sig).Some? || !UsesReserved(Retained(sig))
  {
    RetainedValid(sig);
    HiddenFits(Retained(sig));
  }

  lemma CountAppend(a: Signature, last: Parameter, p: Parameter)
    ensures multiset(a + [last])[p] == multiset(a)[p] + if p == last then 1 else 0
  {
  }

  lemma SplitAppend(sig: Signature, front: Signature, last: Parameter)
    requires sig == front + [last]
    ensures Injected(sig) == if IsInjected(last) then Injected(front) + [last] else Injected(front)
    ensures Retained(sig) == if IsInjected(last) then Retained(front) else Retained(front) + [last]
  {
    assert sig[..|front|] == front;
  }

  /** One parameter more is counted once, on one side. */
  lemma PartitionOneMore(sig: Signature, front: Signature, last: Parameter, p: Parameter)
    requires sig == front + [last]
    requires multiset(Injected(front))[p] + multiset(Retained(front))[p] == multiset(front)[p]
    ensures multiset(Injected(sig))[p] + multiset(Retained(sig))[p] == multiset(sig)[p]
  {
    SplitAppend(sig, front, last);
    CountAppend(front, last, p);
    CountAppend(if IsInjected(last) then Injected(front) else Retained(front), last, p);
  }

  /** Every parameter is injected or retained, as often as it occurs. */
  lemma {:induction false} PartitionCount(sig: Signature, p: Parameter)
    ensures multiset(Injected(sig))[p] + multiset(Retained(sig))[p] == multiset(sig)[p]
  {
    if sig != [] {
      PartitionCount(sig[..|sig| - 1], p);
      PartitionOneMore(sig, sig[..|sig| - 1], sig[|sig| - 1], p);
    }
  }

  lemma PartitionParameters(sig: Signature)
    ensures multiset(Injected(sig)) + multiset(Retained(sig)) == multiset(sig)
  {
    forall p: Parameter ensures multiset(Injected(sig))[p] + multiset(Retained(sig))[p] == multiset(sig)[p] {
      PartitionCount(sig, p);
    }
  }

  lemma {:induction false} LastNamedFrom(sig: Signature, hint: Hint)
    ensures LastNamed(sig, hint).Some? ==> exists p | p in sig :: p.hint == hint && p.name == LastNamed(sig, hint).value
    ensures LastNamed(sig, hint).None? ==> forall p | p in sig :: p.hint != hint
  {
    if sig != [] {
      var front, last := sig[..|sig| - 1], sig[|sig| - 1];
      LastNamedFrom(front, hint);
      assert sig == front + [last];
      assert last in sig;
    }
  }

  lemma ConnectionStays(sig: Signature)
    ensures ConnectionParam(sig).Some? <==>
      exists p | p in Retained(sig) :: p.hint == RequestHint || p.hint == WebSocketHint
    ensures ConnectionParam(sig).Some? ==>
      exists p | p in Retained(sig) :: p.name == ConnectionParam(sig).value && (p.hint == RequestHint || p.hint == WebSocketHint)
  {
    HintOrderMembers(sig);
    LastNamedFrom(HintOrder(sig), RequestHint);
    LastNamedFrom(HintOrder(sig), WebSocketHint);
    RetainedMembers(sig);
    if ConnectionParam(sig).Some? {
      var p :| p in sig && (p.hint == RequestHint || p.hint == WebSocketHint) && p.name == ConnectionParam(sig).value;
      assert p in Retained(sig);
    }
  }

  lemma RewrittenMultiset(sig: Signature)
    requires Injected(sig) != []
    ensures multiset(Rewritten(sig)) == multiset(Retained(sig)) + multiset(Additional(sig))
  {
    SplitMembers(Retained(sig));
  }

  /**
   The parameters of the endpoint are those of the handler without the injected ones, plus the
   hidden pair exactly when the handler declares no connection of its own; a declared connection
   parameter is among those that stay.
   */
  lemma RewrittenParameters(sig: Signature)
    requires Injected(sig) != []
    ensures multiset(Rewritten(sig)) + multiset(Injected(sig)) == multiset(sig) + multiset(Additional(sig))
    ensures Additional(sig) == [] <==>
      exists p | p in Retained(sig) :: p.hint == RequestHint || p.hint == WebSocketHint
    ensures ConnectionParam(sig).Some? ==>
      exists p | p in Rewritten(sig) :: p.name == ConnectionParam(sig).value && (p.hint == RequestHint || p.hint == WebSocketHint)
  {
    PartitionParameters(sig);
    RewrittenMultiset(sig);
    ConnectionStays(sig);
  }

  /**
   Where the handler declares no connection, the framework finds both kinds to supply in the
   rewritten signature: required, by keyword only, and under names of their own.
   */
  lemma HiddenPairIsAdded(sig: Signature)
    requires Injected(sig) != [] && forall p | p in sig :: p.hint != RequestHint && p.hint != WebSocketHint
    ensures Parameter("__pepelats_request", KeywordOnly, false, RequestHint) in Rewritten(sig)
    ensures Parameter("__pepelats_websocket", KeywordOnly, false, WebSocketHint) in Rewritten(sig)
  {
    RetainedMembers(sig);
    ConnectionStays(sig);
    assert HIDDEN[0] in HIDDEN && HIDDEN[1] in HIDDEN;
  }

  // ---------------------------------------------------------------- a call means the same

  /**
   A call the framework makes: it supplies the connection (one hidden parameter is enough) and
   whatever else it passes binds the parameters that stay.
   */
  ghost predicate Accepted(sig: Signature, kwargs: Kwargs) {
    var found := ConnectionFrom(ConnectionParam(sig), kwargs);
    found.Some? && Binds(Retained(sig), found.value.1)
  }

  /** Every injected parameter can be passed by name. */
  ghost predicate InjectedByName(sig: Signature) {
    forall p | p in sig && IsInjected(p) :: ByKeyword(p)
  }

  lemma MemberParameter(sig: Signature, p: Parameter)
    requires p in sig && ByKeyword(p)
    ensures HasParameter(sig, p.name)
  {
    var i :| 0 <= i < |sig| && sig[i] == p;
  }

  lemma ParameterMember(sig: Signature, name: string) returns (p: Parameter)
    requires HasParameter(sig, name)
    ensures p in sig && ByKeyword(p) && p.name == name
  {
    var i :| 0 <= i < |sig| && sig[i].name == name && ByKeyword(sig[i]);
    p := sig[i];
  }

  lemma MemberVarKeyword(sig: Signature)
    ensures HasVarKeyword(sig) <==> exists p | p in sig :: p.kind == VarKeyword
  {
    if HasVarKeyword(sig) {
      var i :| 0 <= i < |sig| && sig[i].kind == VarKeyword;
      assert sig[i] in sig;
    }
  }

  /** The forwarded value of a name is that of the last injected parameter with the name, if any. */
  lemma {:induction false} InjectedValues(injected: Signature, get: Resolver, kwargs: Kwargs, name: string)
    requires Resolves(injected, get)
    ensures var fwd := WithInjected(injected, get, kwargs);
      && ((forall p | p in injected :: p.name != name) ==>
            (name in fwd <==> name in kwargs) && (name in kwargs ==> fwd[name] == kwargs[name]))
      && ((exists p | p in injected :: p.name == name) ==>
            name in fwd && exists p | p in injected :: p.name == name && fwd[name] == get(TypeOf(p)).value)
  {
    if injected != [] {
      var front, last := injected[..|injected| - 1], injected[|injected| - 1];
      assert injected == front + [last];
      InjectedValues(front, get, kwargs, name);
      assert last in injected;
    }
  }

  lemma NameDecides(sig: Signature, i: nat, j: nat)
    requires ValidSignature(sig) && i < |sig| && j < |sig|
    ensures sig[i].name == sig[j].name ==> i == j
  {
    if i < j {
      assert InOrder(sig[i], sig[j]);
    } else if j < i {
      assert InOrder(sig[j], sig[i]);
    }
  }

  lemma SameNameSameParameter(sig: Signature, p: Parameter, q: Parameter)
    requires ValidSignature(sig) && p in sig && q in sig && p.name == q.name
    ensures p == q
  {
    var i :| 0 <= i < |sig| && sig[i] == p;
    var j :| 0 <= j < |sig| && sig[j] == q;
    NameDecides(sig, i, j);
  }

  /** An injected parameter is passed what its type resolves to. */
  lemma InjectedGetsItsValue(sig: Signature, get: Resolver, rest: Kwargs, p: Parameter)
    requires ValidSignature(sig) && Resolves(Injected(sig), get)
    requires p in Injected(sig)
    ensures p.name in WithInjected(Injected(sig), get, rest)
    ensures WithInjected(Injected(sig), get, rest)[p.name] == get(TypeOf(p)).value
  {
    InjectedMembers(sig);
    InjectedValues(Injected(sig), get, rest, p.name);
    var q :| q in Injected(sig) && q.name == p.name && WithInjected(Injected(sig), get, rest)[p.name] == get(TypeOf(q)).value;
    SameNameSameParameter(sig, p, q);
  }

  /** Any other name keeps the value the caller gave it. */
  lemma OtherKeepsItsValue(sig: Signature, get: Resolver, rest: Kwargs, name: string)
    requires ValidSignature(sig) && Resolves(Injected(sig), get)
    requires forall p | p in Injected(sig) :: p.name != name
    ensures name in WithInjected(Injected(sig), get, rest) <==> name in rest
    ensures name in rest ==> WithInjected(Injected(sig), get, rest)[name] == rest[name]
  {
    InjectedValues(Injected(sig), get, rest, name);
  }

  lemma RetainedKeepsItsValue(sig: Signature, get: Resolver, rest: Kwargs, p: Parameter)
    requires ValidSignature(sig) && Resolves(Injected(sig), get)
    requires p in sig && !IsInjected(p)
    ensures ArgumentOf(p, WithInjected(Injected(sig), get, rest)) == ArgumentOf(p, rest)
  {
    InjectedMembers(sig);
    forall q | q in Injected(sig) ensures q.name != p.name {
      if q.name == p.name {
        SameNameSameParameter(sig, p, q);
      }
    }
    OtherKeepsItsValue(sig, get, rest, p.name);
  }

  lemma RequiredAreBound(sig: Signature, get: Resolver, rest: Kwargs, p: Parameter)
    requires ValidSignature(sig) && Resolves(Injected(sig), get) && Binds(Retained(sig), rest)
    requires p in sig && !IsVar(p) && !p.hasDefault && (IsInjected(p) ==> ByKeyword(p))
    ensures ByKeyword(p) && p.name in WithInjected(Injected(sig), get, rest)
  {
    InjectedMembers(sig);
    RetainedMembers(sig);
    if IsInjected(p) {
      InjectedGetsItsValue(sig, get, rest, p);
    } else {
      var i :| 0 <= i < |Retained(sig)| && Retained(sig)[i] == p;
      assert ByKeyword(p) && p.name in rest;
      RetainedKeepsItsValue(sig, get, rest, p);
      assert ArgumentOf(p, rest).Some?;
    }
  }

  lemma PassedAreParameters(sig: Signature, get: Resolver, rest: Kwargs, name: string)
    requires ValidSignature(sig) && Resolves(Injected(sig), get) && Binds(Retained(sig), rest)
    requires InjectedByName(sig)
    requires name in WithInjected(Injected(sig), get, rest)
    ensures HasParameter(sig, name) || HasVarKeyword(sig)
  {
    InjectedMembers(sig);
    RetainedMembers(sig);
    if p :| p in Injected(sig) && p.name == name {
      MemberParameter(sig, p);
    } else {
      OtherKeepsItsValue(sig, get, rest, name);
      if HasParameter(Retained(sig), name) {
        var p := ParameterMember(Retained(sig), name);
        MemberParameter(sig, p);
      } else {
        MemberVarKeyword(Retained(sig));
        MemberVarKeyword(sig);
      }
    }
  }

  lemma ForwardedBinds(sig: Signature, get: Resolver, rest: Kwargs)
    requires ValidSignature(sig) && Resolves(Injected(sig), get) && Binds(Retained(sig), rest)
    requires InjectedByName(sig)
    ensures Binds(sig, WithInjected(Injected(sig), get, rest))
  {
    var fwd := WithInjected(Injected(sig), get, rest);
    forall i | 0 <= i < |sig| && !IsVar(sig[i]) && !sig[i].hasDefault
      ensures ByKeyword(sig[i]) && sig[i].name in fwd
    {
      RequiredAreBound(sig, get, rest, sig[i]);
    }
    forall name | name in fwd ensures HasParameter(sig, name) || HasVarKeyword(sig) {
      PassedAreParameters(sig, get, rest, name);
    }
  }

  /** What the handler sees of a call: it binds, and each injected parameter has its resolved value. */
  ghost predicate Delivered(sig: Signature, get: Resolver, fwd: Kwargs)
    requires Resolves(Injected(sig), get)
  {
    && Binds(sig, fwd)
    && forall p | p in Injected(sig) :: ArgumentOf(p, fwd) == Some(get(TypeOf(p)).value)
  }

  /**
   The wrapper's call means the caller's call: an accepted call is forwarded as a call that binds
   the handler and delivers every injected value, if and only if every injected parameter can be
   passed by name. Arguments the caller gave are unchanged, and hidden connections stay behind.
   */
  lemma CallIsForwardedExactlyWhen(sig: Signature, get: Resolver, kwargs: Kwargs)
    requires ValidSignature(sig) && Accepted(sig, kwargs) && Resolves(Injected(sig), get)
    ensures var rest := ConnectionFrom(ConnectionParam(sig), kwargs).value.1;
      Delivered(sig, get, WithInjected(Injected(sig), get, rest)) <==> InjectedByName(sig)
  {
    var rest := ConnectionFrom(ConnectionParam(sig), kwargs).value.1;
    var fwd := WithInjected(Injected(sig), get, rest);
    InjectedMembers(sig);
    if InjectedByName(sig) {
      ForwardedBinds(sig, get, rest);
      forall p | p in Injected(sig) ensures ArgumentOf(p, fwd) == Some(get(TypeOf(p)).value) {
        InjectedGetsItsValue(sig, get, rest, p);
      }
    } else {
      var p :| p in sig && IsInjected(p) && !ByKeyword(p);
      assert ArgumentOf(p, fwd) == None;
    }
  }

  lemma ConnectionFromKeeps(param: Option<string>, kwargs: Kwargs, name: string)
    requires ConnectionFrom(param, kwargs).Some?
    ensures var rest := ConnectionFrom(param, kwargs).value.1;
      && (name in rest <==> name in kwargs && !(param.None? && Reserved(name)))
      && (name in rest ==> rest[name] == kwargs[name])
  {
  }

  /** What the caller passed for a parameter that stays is what the handler gets for it. */
  lemma CallerArgumentsUnchanged(sig: Signature, get: Resolver, kwargs: Kwargs, p: Parameter)
    requires ValidSignature(sig) && Resolves(Injected(sig), get)
    requires ConnectionFrom(ConnectionParam(sig), kwargs).Some?
    requires p in sig && !IsInjected(p) && (ConnectionParam(sig).None? ==> !Reserved(p.name))
    ensures var rest := ConnectionFrom(ConnectionParam(sig), kwargs).value.1;
      ArgumentOf(p, WithInjected(Injected(sig), get, rest)) == ArgumentOf(p, kwargs)
  {
    var param := ConnectionParam(sig);
    var rest := ConnectionFrom(param, kwargs).value.1;
    RetainedKeepsItsValue(sig, get, rest, p);
    ConnectionFromKeeps(param, kwargs, p.name);
    assert ArgumentOf(p, rest) == ArgumentOf(p, kwargs);
  }

  /**
   Apart from the injected values the handler is passed exactly what the caller passed, without
   the hidden connections when they were added: also the names that go to its `**kwargs`.
   */
  lemma NothingElseIsForwarded(sig: Signature, get: Resolver, kwargs: Kwargs, name: string)
    requires ValidSignature(sig) && Resolves(Injected(sig), get)
    requires ConnectionFrom(ConnectionParam(sig), kwargs).Some?
    requires forall p | p in Injected(sig) :: p.name != name
    ensures var rest := ConnectionFrom(ConnectionParam(sig), kwargs).value.1;
      var fwd := WithInjected(Injected(sig), get, rest);
      && (name in fwd <==> name in kwargs && !(ConnectionParam(sig).None? && Reserved(name)))
      && (name in fwd ==> fwd[name] == kwargs[name])
  {
    var rest := ConnectionFrom(ConnectionParam(sig), kwargs).value.1;
    InjectedValues(Injected(sig), get, rest, name);
    ConnectionFromKeeps(ConnectionParam(sig), kwargs, name);
  }

  /** A name that is no parameter reaches the handler as the caller passed it, unless it is a hidden one. */
  lemma ExtraIsKept(sig: Signature, get: Resolver, kwargs: Kwargs, name: string)
    requires ValidSignature(sig) && Resolves(Injected(sig), get) && InjectedByName(sig)
    requires ConnectionFrom(ConnectionParam(sig), kwargs).Some? && !HasParameter(sig, name)
    ensures var fwd := WithInjected(Injected(sig), get, ConnectionFrom(ConnectionParam(sig), kwargs).value.1);
      && (name in fwd <==> name in kwargs && !(ConnectionParam(sig).None? && Reserved(name)))
      && (name in fwd ==> fwd[name] == kwargs[name])
  {
    InjectedMembers(sig);
    forall p | p in Injected(sig) ensures p.name != name {
      MemberParameter(sig, p);
    }
    NothingElseIsForwarded(sig, get, kwargs, name);
  }

  lemma SameExtra(sig: Signature, fwd: Kwargs, kwargs: Kwargs, hidden: set<string>)
    requires forall name | !HasParameter(sig, name) ::
      (name in fwd <==> name in kwargs && name !in hidden) && (name in fwd ==> fwd[name] == kwargs[name])
    ensures ExtraOf(sig, fwd) == ExtraOf(sig, kwargs) - hidden
  {
  }

  /**
   The handler's own `**kwargs` receives what it would have received without the rewriting, apart
   from the hidden connections that were added.
   */
  lemma VarKeywordsReceive(sig: Signature, get: Resolver, kwargs: Kwargs)
    requires ValidSignature(sig) && Resolves(Injected(sig), get) && InjectedByName(sig)
    requires ConnectionFrom(ConnectionParam(sig), kwargs).Some?
    ensures var rest := ConnectionFrom(ConnectionParam(sig), kwargs).value.1;
      ExtraOf(sig, WithInjected(Injected(sig), get, rest))
      == ExtraOf(sig, kwargs) - if ConnectionParam(sig).None? then {REQUEST_NAME, WEBSOCKET_NAME} else {}
  {
    var fwd := WithInjected(Injected(sig), get, ConnectionFrom(ConnectionParam(sig), kwargs).value.1);
    var hidden := if ConnectionParam(sig).None? then {REQUEST_NAME, WEBSOCKET_NAME} else {};
    forall name | !HasParameter(sig, name)
      ensures (name in fwd <==> name in kwargs && name !in hidden) && (name in fwd ==> fwd[name] == kwargs[name])
    {
      ExtraIsKept(sig, get, kwargs, name);
      assert name in hidden <==> ConnectionParam(sig).None? && Reserved(name);
    }
    SameExtra(sig, fwd, kwargs, hidden);
  }

  lemma BoundRequired(sig: Signature, kwargs: Kwargs, p: Parameter)
    requires Binds(sig, kwargs) && p in sig && !IsVar(p) && !p.hasDefault
    ensures ByKeyword(p) && p.name in kwargs
  {
    var i :| 0 <= i < |sig| && sig[i] == p;
  }

  lemma EndpointNameIsRetained(params: Signature, name: string)
    requires HasParameter(Others(params) + HIDDEN + VarKeywords(params), name) && !Reserved(name)
    ensures HasParameter(params, name)
  {
    SplitMembers(params);
    var p := ParameterMember(Others(params) + HIDDEN + VarKeywords(params), name);
    assert p in params;
    MemberParameter(params, p);
  }

  lemma EndpointVarKeyword(params: Signature)
    requires HasVarKeyword(Others(params) + HIDDEN + VarKeywords(params))
    ensures HasVarKeyword(params)
  {
    SplitMembers(params);
    MemberVarKeyword(Others(params) + HIDDEN + VarKeywords(params));
    MemberVarKeyword(params);
  }

  /** Taking the hidden pair out of a call of the endpoint leaves a call of what stays. */
  lemma WithoutHiddenBinds(params: Signature, kwargs: Kwargs)
    requires Binds(Others(params) + HIDDEN + VarKeywords(params), kwargs) && !UsesReserved(params)
    ensures Binds(params, kwargs - {REQUEST_NAME, WEBSOCKET_NAME})
    ensures REQUEST_NAME in kwargs
  {
    var endpoint := Others(params) + HIDDEN + VarKeywords(params);
    SplitMembers(params);
    assert HIDDEN[0] in endpoint;
    BoundRequired(endpoint, kwargs, HIDDEN[0]);
    var rest := kwargs - {REQUEST_NAME, WEBSOCKET_NAME};
    forall i | 0 <= i < |params| && !IsVar(params[i]) && !params[i].hasDefault
      ensures ByKeyword(params[i]) && params[i].name in rest
    {
      assert params[i] in params && !Reserved(params[i].name);
      assert params[i] in endpoint;
      BoundRequired(endpoint, kwargs, params[i]);
    }
    forall name | name in rest ensures HasParameter(params, name) || HasVarKeyword(params) {
      if HasParameter(endpoint, name) {
        EndpointNameIsRetained(params, name);
      } else {
        EndpointVarKeyword(params);
      }
    }
  }

  /** A call that binds the whole rewritten signature is such an accepted call. */
  lemma BoundCallIsAccepted(sig: Signature, kwargs: Kwargs)
    requires Injected(sig) != [] && Binds(Rewritten(sig), kwargs)
    requires ConnectionParam(sig).None? ==> !UsesReserved(Retained(sig))
    requires ConnectionParam(sig).Some? ==> ConnectionParam(sig).value in kwargs
    ensures Accepted(sig, kwargs)
  {
    if ConnectionParam(sig).None? {
      WithoutHiddenBinds(Retained(sig), kwargs);
    }
  }

  // ---------------------------------------------------------------- the endpoint as a whole

  /** The call with both hidden connections filled in; the framework passes the one that fits the transport. */
  function Completed(sig: Signature, kwargs: Kwargs): Kwargs {
    if ConnectionParam(sig).Some? then kwargs
    else map[REQUEST_NAME := Val(0), WEBSOCKET_NAME := Val(0)] + kwargs
  }

  lemma WithHiddenAreBound(params: Signature, kwargs: Kwargs)
    requires Binds(params, kwargs - {REQUEST_NAME, WEBSOCKET_NAME})
    requires REQUEST_NAME in kwargs && WEBSOCKET_NAME in kwargs
    ensures Binds(Others(params) + HIDDEN + VarKeywords(params), kwargs)
  {
    var endpoint, rest := Others(params) + HIDDEN + VarKeywords(params), kwargs - {REQUEST_NAME, WEBSOCKET_NAME};
    SplitMembers(params);
    forall i | 0 <= i < |endpoint| && !IsVar(endpoint[i]) && !endpoint[i].hasDefault
      ensures ByKeyword(endpoint[i]) && endpoint[i].name in kwargs
    {
      var p := endpoint[i];
      assert p in endpoint;
      if p in Others(params) {
        BoundRequired(params, rest, p);
      } else {
        assert p in HIDDEN;
      }
    }
    forall name | name in kwargs ensures HasParameter(endpoint, name) || HasVarKeyword(endpoint) {
      NameIsTaken(params, rest, name);
    }
  }

  lemma NameIsTaken(params: Signature, rest: Kwargs, name: string)
    requires Binds(params, rest) && (name in rest || Reserved(name))
    ensures var endpoint := Others(params) + HIDDEN + VarKeywords(params);
      HasParameter(endpoint, name) || HasVarKeyword(endpoint)
  {
    var endpoint := Others(params) + HIDDEN + VarKeywords(params);
    SplitMembers(params);
    if Reserved(name) {
      var h := if name == REQUEST_NAME then HIDDEN[0] else HIDDEN[1];
      assert h in HIDDEN;
      MemberParameter(endpoint, h);
    } else if HasParameter(params, name) {
      var p := ParameterMember(params, name);
      assert p in Others(params);
      MemberParameter(endpoint, p);
    } else {
      MemberVarKeyword(params);
      MemberVarKeyword(endpoint);
    }
  }

  lemma HiddenAreLeftOut(kwargs: Kwargs, full: Kwargs)
    requires full == map[REQUEST_NAME := Val(0), WEBSOCKET_NAME := Val(0)] + kwargs
    ensures full - {REQUEST_NAME, WEBSOCKET_NAME} == kwargs - {REQUEST_NAME, WEBSOCKET_NAME}
    ensures REQUEST_NAME in full && WEBSOCKET_NAME in full
  {
  }

  /** With the hidden pair added and filled in, the endpoint binds what the retained parameters bind. */
  lemma HiddenBindAlike(params: Signature, endpoint: Signature, rest: Kwargs, full: Kwargs)
    requires !UsesReserved(params) && endpoint == Others(params) + HIDDEN + VarKeywords(params)
    requires REQUEST_NAME in full && WEBSOCKET_NAME in full && rest == full - {REQUEST_NAME, WEBSOCKET_NAME}
    ensures Binds(params, rest) <==> Binds(endpoint, full)
  {
    if Binds(params, rest) {
      WithHiddenAreBound(params, full);
    } else if Binds(endpoint, full) {
      WithoutHiddenBinds(params, full);
    }
  }

  lemma AcceptedUndeclared(sig: Signature, kwargs: Kwargs)
    requires Injected(sig) != [] && ConnectionParam(sig).None? && !UsesReserved(Retained(sig))
    requires ConnectionFrom(None, kwargs).Some?
    ensures Binds(Retained(sig), ConnectionFrom(None, kwargs).value.1) <==> Binds(Rewritten(sig), Completed(sig, kwargs))
  {
    HiddenAreLeftOut(kwargs, Completed(sig, kwargs));
    HiddenBindAlike(Retained(sig), Rewritten(sig), ConnectionFrom(None, kwargs).value.1, Completed(sig, kwargs));
  }

  /**
   The accepted calls are the calls of the rewritten signature: they supply a connection, and bind
   that signature once both hidden connections are filled in.
   */
  lemma AcceptedExactlyWhen(sig: Signature, kwargs: Kwargs)
    requires ValidSignature(sig) && Injected(sig) != [] && ValidSignature(Rewritten(sig))
    ensures Accepted(sig, kwargs) <==>
      ConnectionFrom(ConnectionParam(sig), kwargs).Some? && Binds(Rewritten(sig), Completed(sig, kwargs))
  {
    if ConnectionParam(sig).None? && ConnectionFrom(None, kwargs).Some? {
      RewrittenValidExactlyWhen(sig);
      AcceptedUndeclared(sig, kwargs);
    }
  }

  ghost predicate IsConnection(p: Parameter) {
    p.hint == RequestHint || p.hint == WebSocketHint
  }

  /**
   The call carries connection `v`: every connection parameter the handler declares is passed it,
   and where none is declared it comes under one of the hidden names, or both.
   */
  ghost predicate Carries(sig: Signature, kwargs: Kwargs, v: Val) {
    if exists p :: p in sig && IsConnection(p) then
      forall p | p in sig && IsConnection(p) :: p.name in kwargs && kwargs[p.name] == v
    else
      && (REQUEST_NAME in kwargs || WEBSOCKET_NAME in kwargs)
      && forall name | name in kwargs && Reserved(name) :: kwargs[name] == v
  }

  lemma DeclaredConnection(sig: Signature)
    ensures ConnectionParam(sig).Some? <==> exists p :: p in sig && IsConnection(p)
    ensures ConnectionParam(sig).Some? ==> exists p :: p in sig && IsConnection(p) && p.name == ConnectionParam(sig).value
  {
    HintOrderMembers(sig);
    LastNamedFrom(HintOrder(sig), RequestHint);
    LastNamedFrom(HintOrder(sig), WebSocketHint);
  }

  /** The connection that is found is the one the call carries. */
  lemma CarriedIsFound(sig: Signature, kwargs: Kwargs, v: Val)
    requires Carries(sig, kwargs, v)
    ensures ConnectionFrom(ConnectionParam(sig), kwargs).Some?
    ensures ConnectionFrom(ConnectionParam(sig), kwargs).value.0 == v
  {
    DeclaredConnection(sig);
  }

  /** The provider has every type the handler asks for. */
  ghost predicate Provides(sig: Signature, get: Resolver) {
    forall p | p in sig && p.hint.InjectHint? :: get(p.hint.type_).Ok?
  }

  /** Every `Inject[T]` parameter is bound to what the provider gives for `T`. */
  ghost predicate Served(sig: Signature, get: Resolver, fwd: Kwargs)
    requires Provides(sig, get)
  {
    forall p | p in sig && p.hint.InjectHint? :: ArgumentOf(p, fwd) == Some(get(p.hint.type_).value)
  }

  lemma ProvidesResolves(sig: Signature, get: Resolver)
    ensures Provides(sig, get) <==> Resolves(Injected(sig), get)
  {
    InjectedMembers(sig);
    if Provides(sig, get) {
      assert forall p | p in Injected(sig) :: p.hint.InjectHint? && TypeOf(p) == p.hint.type_;
    }
    if Resolves(Injected(sig), get) {
      forall p | p in sig && p.hint.InjectHint? ensures get(p.hint.type_).Ok? {
        assert p in Injected(sig) && TypeOf(p) == p.hint.type_;
      }
    }
  }

  lemma DeliveredServes(sig: Signature, get: Resolver, fwd: Kwargs)
    requires Resolves(Injected(sig), get) && Provides(sig, get) && Delivered(sig, get, fwd)
    ensures Served(sig, get, fwd)
  {
    InjectedMembers(sig);
    forall p | p in sig && p.hint.InjectHint? ensures ArgumentOf(p, fwd) == Some(get(p.hint.type_).value) {
      assert p in Injected(sig) && TypeOf(p) == p.hint.type_;
    }
  }

  /**
   The endpoint wrapper up to the handler's call: `kwargs` loses the hidden connection, gains the
   injected values one after the other, and is what the handler is called with. An accepted call
   becomes one that binds the handler's signature and delivers every injected value, if and only if
   those can be passed by name; the values come from the provider of the connection the call carries.
   */
  method Wrapper(sig: Signature, providerOf: Val -> Resolver, kwargs: Kwargs) returns (r: Result<Kwargs, CallError>)
    ensures r == Err(NoConnection) <==> ConnectionFrom(ConnectionParam(sig), kwargs).None?
    ensures ConnectionFrom(ConnectionParam(sig), kwargs).Some? ==>
      var (connection, rest) := ConnectionFrom(ConnectionParam(sig), kwargs).value;
      && (r.Ok? <==> Resolves(Injected(sig), providerOf(connection)))
      && (r.Ok? ==> r.value == WithInjected(Injected(sig), providerOf(connection), rest))
      && (r.Err? ==> FirstUnresolved(Injected(sig), providerOf(connection), r.error.error))
    ensures ValidSignature(sig) && Accepted(sig, kwargs) ==>
      && ConnectionFrom(ConnectionParam(sig), kwargs).Some?
      && var get := providerOf(ConnectionFrom(ConnectionParam(sig), kwargs).value.0);
      && (r.Ok? <==> Resolves(Injected(sig), get))
      && (r.Ok? ==> (Delivered(sig, get, r.value) <==> InjectedByName(sig)))
    ensures forall v | Carries(sig, kwargs, v) :: r.Ok? <==> Provides(sig, providerOf(v))
    ensures r.Ok? && ValidSignature(sig) && Accepted(sig, kwargs) && InjectedByName(sig) ==>
      forall v | Carries(sig, kwargs, v) :: Provides(sig, providerOf(v)) && Served(sig, providerOf(v), r.value)
  {
    var param := FindConnectionParam(sig);
    var found := ConnectionFrom(param, kwargs);
    forall v | Carries(sig, kwargs, v) ensures found.Some? && found.value.0 == v {
      CarriedIsFound(sig, kwargs, v);
    }
    if found.None? {
      return Err(NoConnection);
    }
    var (connection, rest) := found.value;
    ProvidesResolves(sig, providerOf(connection));
    var injected := InjectedDependencies(sig);
    var forwarded := ResolveInjected(injected, providerOf(connection), rest);
    if forwarded.Err? {
      return Err(Unresolved(forwarded.error));
    }
    if ValidSignature(sig) && Accepted(sig, kwargs) {
      CallIsForwardedExactlyWhen(sig, providerOf(connection), kwargs);
      if InjectedByName(sig) {
        DeliveredServes(sig, providerOf(connection), forwarded.value);
      }
    }
    return Ok(forwarded.value);
  }

  /** A request is preferred to a websocket, and of several the last in hint order is taken. */
  lemma PreferredConnection(sig: Signature, i: nat)
    requires i < |HintOrder(sig)|
    requires HintOrder(sig)[i].hint == RequestHint
      || (HintOrder(sig)[i].hint == WebSocketHint && forall p | p in sig :: p.hint != RequestHint)
    requires forall j | i < j < |HintOrder(sig)| :: HintOrder(sig)[j].hint != HintOrder(sig)[i].hint
    ensures ConnectionParam(sig) == Some(HintOrder(sig)[i].name)
  {
    HintOrderMembers(sig);
    LastNamedAt(HintOrder(sig), i);
    LastNamedFrom(HintOrder(sig), RequestHint);
  }

  lemma {:induction false} LastNamedAt(params: Signature, i: nat)
    requires i < |params| && forall j | i < j < |params| :: params[j].hint != params[i].hint
    ensures LastNamed(params, params[i].hint) == Some(params[i].name)
  {
    if i < |params| - 1 {
      LastNamedAt(params[..|params| - 1], i);
    }
  }

  /** Of a positional-only request and a plain one the positional-only one is found, wherever it stands. */
  lemma PositionalOnlyHintIsLater(a: Parameter, b: Parameter)
    requires a.kind == PositionalOnly && b.kind == PositionalOrKeyword && a.hint == RequestHint && b.hint == RequestHint
    ensures ConnectionParam([a, b]) == Some(a.name)
  {
    var sig := [a, b];
    assert sig[..1] == [a] && sig[..1][..0] == [];
    assert StableSort.Sort(HintRank(), sig[..1]) == [a];
    assert StableSort.Insert(HintRank(), b, [a]) == [b, a];
    assert HintOrder(sig) == [b, a];
    PreferredConnection(sig, 1);
  }

  // ---------------------------------------------------------------- where it fails

  /** A handler that uses a reserved name gets an invalid signature. */
  lemma ReservedNameClashes()
    ensures var sig := [Parameter(REQUEST_NAME, PositionalOrKeyword, false, OtherHint("str")),
                        Parameter("db", PositionalOrKeyword, false, InjectHint("Db"))];
      ValidSignature(sig) && !ValidSignature(Rewritten(sig))
  {
    var name := Parameter(REQUEST_NAME, PositionalOrKeyword, false, OtherHint("str"));
    var db := Parameter("db", PositionalOrKeyword, false, InjectHint("Db"));
    var sig := [name, db];
    assert name in sig && db in sig;
    assert |REQUEST_NAME| != |"db"|;
    assert db in Injected(sig) && name in Retained(sig);
    HintOrderMembers(sig);
    LastNamedFrom(HintOrder(sig), RequestHint);
    LastNamedFrom(HintOrder(sig), WebSocketHint);
    RewrittenValidExactlyWhen(sig);
  }

  lemma RequestAlone(injected: Parameter, request: Parameter)
    requires IsInjected(injected) && request.hint == RequestHint
    ensures Injected([injected, request]) == [injected] && Retained([injected, request]) == [request]
  {
    var sig := [injected, request];
    assert sig[..1] == [injected] && sig[..1][..0] == [];
    assert Injected(sig[..1]) == [injected] && Retained(sig[..1]) == [];
  }

  lemma RequestIsConnection(injected: Parameter, request: Parameter)
    requires IsInjected(injected) && request.hint == RequestHint
    ensures ConnectionParam([injected, request]) == Some(request.name)
  {
    var sig := [injected, request];
    assert request in sig;
    HintOrderMembers(sig);
    LastNamedFrom(HintOrder(sig), RequestHint);
  }

  lemma OneArgument(p: Parameter, value: Val)
    requires p.kind == PositionalOrKeyword
    ensures Binds([p], map[p.name := value])
  {
    assert [p][0] == p && HasParameter([p], p.name);
  }

  lemma ValidPair(p: Parameter, q: Parameter)
    requires InOrder(p, q)
    ensures ValidSignature([p, q])
  {
  }

  /** A handler of one injected parameter and its request: the call passes the request. */
  lemma RequestCall(injected: Parameter, request: Parameter, connection: Val)
    requires IsInjected(injected) && request.hint == RequestHint && request.kind == PositionalOrKeyword
    requires InOrder(injected, request)
    ensures var sig := [injected, request];
      && ValidSignature(sig) && ValidSignature(Rewritten(sig)) && Injected(sig) == [injected]
      && ConnectionParam(sig) == Some(request.name)
      && Accepted(sig, map[request.name := connection])
  {
    ValidPair(injected, request);
    RequestAlone(injected, request);
    RequestIsConnection(injected, request);
    RewrittenValidExactlyWhen([injected, request]);
    OneArgument(request, connection);
  }

  lemma NeverBound(sig: Signature, kwargs: Kwargs, i: nat)
    requires i < |sig| && sig[i].kind == PositionalOnly && !sig[i].hasDefault
    ensures !Binds(sig, kwargs)
  {
    assert !ByKeyword(sig[i]);
  }

  /** An injected positional-only parameter is never bound: the endpoint is valid, and every call of it fails. */
  lemma PositionalOnlyInjected(get: Resolver, connection: Val)
    requires get("Db").Ok?
    ensures var sig := [Parameter("db", PositionalOnly, false, InjectHint("Db")),
                        Parameter("request", PositionalOrKeyword, false, RequestHint)];
      var kwargs := map["request" := connection];
      && ValidSignature(sig) && ValidSignature(Rewritten(sig))
      && Accepted(sig, kwargs) && Resolves(Injected(sig), get)
      && !Binds(sig, WithInjected(Injected(sig), get, kwargs))
  {
    var db := Parameter("db", PositionalOnly, false, InjectHint("Db"));
    var request := Parameter("request", PositionalOrKeyword, false, RequestHint);
    assert |"db"| != |"request"|;
    RequestCall(db, request, connection);
    NeverBound([db, request], WithInjected([db], get, map["request" := connection]), 0);
  }
}
