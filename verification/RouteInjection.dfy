/**
 integrations/fastapi/route_injection.py: a handler's signature is rewritten so that injected
 parameters disappear from it, and a wrapper turns a call of the rewritten signature into a call
 of the handler. Signatures and binding follow PEP 362, sections "Parameter Object" and
 "Signature Object"; the framework calls endpoints with keyword arguments only.
 */
module RouteInjection {
  import opened Wrappers
  import StableSort

  // ---------------------------------------------------------------- signatures

  datatype Kind = PositionalOnly | PositionalOrKeyword | VarPositional | KeywordOnly | VarKeyword

  /** A resolved annotation: the two connection types, `Inject[T]`, or anything else. */
  datatype Hint = RequestHint | WebSocketHint | InjectHint(type_: string) | OtherHint(name: string)

  datatype Parameter = Parameter(name: string, kind: Kind, hasDefault: bool, hint: Hint)

  type Signature = seq<Parameter>

  function KindRank(k: Kind): nat {
    match k
    case PositionalOnly => 0
    case PositionalOrKeyword => 1
    case VarPositional => 2
    case KeywordOnly => 3
    case VarKeyword => 4
  }

  predicate IsVar(p: Parameter) {
    p.kind == VarPositional || p.kind == VarKeyword
  }

  predicate IsPositional(p: Parameter) {
    p.kind == PositionalOnly || p.kind == PositionalOrKeyword
  }

  /** The parameter can be passed by name. */
  predicate ByKeyword(p: Parameter) {
    p.kind == PositionalOrKeyword || p.kind == KeywordOnly
  }

  /** May `q` come after `p`, as `inspect.Signature` checks it? */
  predicate InOrder(p: Parameter, q: Parameter) {
    && KindRank(p.kind) <= KindRank(q.kind)
    && (IsVar(p) ==> p.kind != q.kind)
    && p.name != q.name
    && (IsPositional(p) && IsPositional(q) && p.hasDefault ==> q.hasDefault)
  }

  /** Kinds in order, names unique, at most one of each variadic kind, and no required positional
      parameter behind a defaulted one. */
  ghost predicate ValidSignature(sig: Signature) {
    forall i, j | 0 <= i < j < |sig| :: InOrder(sig[i], sig[j])
  }

  function Names(sig: Signature): (r: seq<string>)
    ensures |r| == |sig| && forall i | 0 <= i < |sig| :: r[i] == sig[i].name
  {
    seq(|sig|, i requires 0 <= i < |sig| => sig[i].name)
  }

  // ---------------------------------------------------------------- the rewriting

  const REQUEST_NAME := "__pepelats_request"
  const WEBSOCKET_NAME := "__pepelats_websocket"

  const HIDDEN: Signature := [
    Parameter(REQUEST_NAME, KeywordOnly, false, RequestHint),
    Parameter(WEBSOCKET_NAME, KeywordOnly, false, WebSocketHint)
  ]

  predicate IsInjected(p: Parameter) {
    p.hint.InjectHint?
  }

  /** The `T` of an `Inject[T]` parameter. */
  function TypeOf(p: Parameter): string {
    if p.hint.InjectHint? then p.hint.type_ else ""
  }

  /** `_injected_dependencies`: the injected parameters, in order of declaration. */
  function Injected(sig: Signature): Signature {
    if sig == [] then []
    else Injected(sig[..|sig| - 1]) + if IsInjected(sig[|sig| - 1]) then [sig[|sig| - 1]] else []
  }

  function Retained(sig: Signature): Signature {
    if sig == [] then []
    else Retained(sig[..|sig| - 1]) + if IsInjected(sig[|sig| - 1]) then [] else [sig[|sig| - 1]]
  }

  lemma {:induction false} InjectedMembers(sig: Signature)
    ensures forall p :: p in Injected(sig) <==> p in sig && IsInjected(p)
  {
    if sig != [] {
      InjectedMembers(sig[..|sig| - 1]);
      assert sig == sig[..|sig| - 1] + [sig[|sig| - 1]];
    }
  }

  lemma {:induction false} RetainedMembers(sig: Signature)
    ensures forall p :: p in Retained(sig) <==> p in sig && !IsInjected(p)
  {
    if sig != [] {
      RetainedMembers(sig[..|sig| - 1]);
      assert sig == sig[..|sig| - 1] + [sig[|sig| - 1]];
    }
  }

  /** The last parameter with the hint. */
  function LastNamed(sig: Signature, hint: Hint): Option<string> {
    if sig == [] then None
    else if sig[|sig| - 1].hint == hint then Some(sig[|sig| - 1].name)
    else LastNamed(sig[..|sig| - 1], hint)
  }

  /** Where the annotations of a kind stand: Python lists the positional-only ones second. */
  function HintRank(): Parameter -> int {
    (p: Parameter) => match p.kind
      case PositionalOrKeyword => 0
      case PositionalOnly => 1
      case VarPositional => 2
      case KeywordOnly => 3
      case VarKeyword => 4
  }

  /** The parameters in the order of `get_type_hints`. */
  function HintOrder(sig: Signature): Signature {
    StableSort.Sort(HintRank(), sig)
  }

  lemma HintOrderMembers(sig: Signature)
    ensures forall p :: p in HintOrder(sig) <==> p in sig
  {
    StableSort.SortPermutes(HintRank(), sig);
    assert forall p :: p in HintOrder(sig) <==> p in multiset(HintOrder(sig));
    assert forall p :: p in sig <==> p in multiset(sig);
  }

  /** `request_param or websocket_param` of `_find_connection_param`. */
  function ConnectionParam(sig: Signature): Option<string> {
    var request := LastNamed(HintOrder(sig), RequestHint);
    if request.Some? then request else LastNamed(HintOrder(sig), WebSocketHint)
  }

  /** The scan of `_find_connection_param`: later hints overwrite earlier ones. */
  method FindConnectionParam(sig: Signature) returns (r: Option<string>)
    ensures r == ConnectionParam(sig)
  {
    var hints := HintOrder(sig);
    var request, websocket := None, None;
    var i := 0;
    while i < |hints|
      invariant 0 <= i <= |hints|
      invariant request == LastNamed(hints[..i], RequestHint)
      invariant websocket == LastNamed(hints[..i], WebSocketHint)
    {
      var p := hints[i];
      if !IsInjected(p) {
        if p.hint == RequestHint {
          request := Some(p.name);
        } else if p.hint == WebSocketHint {
          websocket := Some(p.name);
        }
      }
      assert hints[..i + 1][..i] == hints[..i];
      i := i + 1;
    }
    assert hints[..i] == hints;
    r := if request.Some? then request else websocket;
  }

  /** The scan of `_injected_dependencies`. */
  method InjectedDependencies(sig: Signature) returns (r: Signature)
    ensures r == Injected(sig)
  {
    r := [];
    var i := 0;
    while i < |sig|
      invariant 0 <= i <= |sig|
      invariant r == Injected(sig[..i])
    {
      assert sig[..i + 1][..i] == sig[..i];
      if IsInjected(sig[i]) {
        r := r + [sig[i]];
      }
      i := i + 1;
    }
    assert sig[..i] == sig;
  }

  function VarKeywords(params: Signature): Signature {
    if params == [] then []
    else (if params[0].kind == VarKeyword then [params[0]] else []) + VarKeywords(params[1..])
  }

  function Others(params: Signature): Signature {
    if params == [] then []
    else (if params[0].kind == VarKeyword then [] else [params[0]]) + Others(params[1..])
  }

  /** `_with_additional`: hidden parameters go before a trailing `**kwargs`. */
  function WithAdditional(params: Signature, additional: Signature): Signature {
    if additional == [] then params else Others(params) + additional + VarKeywords(params)
  }

  function Additional(sig: Signature): Signature {
    if ConnectionParam(sig).Some? then [] else HIDDEN
  }

  /** `_injected_signature`; a handler without injected parameters is left alone. */
  function Rewritten(sig: Signature): Signature {
    if Injected(sig) == [] then sig else WithAdditional(Retained(sig), Additional(sig))
  }

  // ---------------------------------------------------------------- calls

  datatype Val = Val(id: nat)

  type Kwargs = map<string, Val>

  predicate HasParameter(sig: Signature, name: string) {
    exists i | 0 <= i < |sig| :: sig[i].name == name && ByKeyword(sig[i])
  }

  predicate HasVarKeyword(sig: Signature) {
    exists i | 0 <= i < |sig| :: sig[i].kind == VarKeyword
  }

  /** The keyword call is accepted: every required parameter gets a value, every value a parameter. */
  ghost predicate Binds(sig: Signature, kwargs: Kwargs) {
    && (forall i | 0 <= i < |sig| :: !IsVar(sig[i]) && !sig[i].hasDefault ==> ByKeyword(sig[i]) && sig[i].name in kwargs)
    && (forall name | name in kwargs :: HasParameter(sig, name) || HasVarKeyword(sig))
  }

  /** What the call gives parameter `p`: a value, or none when its default applies. */
  function ArgumentOf(p: Parameter, kwargs: Kwargs): Option<Val> {
    if ByKeyword(p) && p.name in kwargs then Some(kwargs[p.name]) else None
  }

  /** What the call leaves to `**kwargs`. */
  function ExtraOf(sig: Signature, kwargs: Kwargs): Kwargs {
    map name | name in kwargs && !HasParameter(sig, name) :: kwargs[name]
  }

  // ---------------------------------------------------------------- the wrapper

  /** `_connection_from`: the connection, and the keyword arguments that go on to the handler. */
  function ConnectionFrom(param: Option<string>, kwargs: Kwargs): Option<(Val, Kwargs)> {
    if param.Some? then
      if param.value in kwargs then Some((kwargs[param.value], kwargs)) else None
    else
      var rest := kwargs - {REQUEST_NAME, WEBSOCKET_NAME};
      if REQUEST_NAME in kwargs then Some((kwargs[REQUEST_NAME], rest))
      else if WEBSOCKET_NAME in kwargs then Some((kwargs[WEBSOCKET_NAME], rest))
      else None
  }

  /** Resolves a type from the request's provider; an Err is what `get` raises. */
  type Resolver = string -> Result<Val, string>

  /** Every one of the parameters resolves. */
  ghost predicate Resolves(injected: Signature, get: Resolver) {
    forall p | p in injected :: get(TypeOf(p)).Ok?
  }

  /** `error` is what the first of the parameters that does not resolve raises. */
  ghost predicate FirstUnresolved(injected: Signature, get: Resolver, error: string) {
    exists i :: 0 <= i < |injected| && Resolves(injected[..i], get) && get(TypeOf(injected[i])) == Err(error)
  }

  function WithInjected(injected: Signature, get: Resolver, kwargs: Kwargs): Kwargs
    requires Resolves(injected, get)
  {
    if injected == [] then kwargs
    else
      var front, last := injected[..|injected| - 1], injected[|injected| - 1];
      WithInjected(front, get, kwargs)[last.name := get(TypeOf(last)).value]
  }

  datatype CallError = NoConnection | Unresolved(error: string)

  /** The resolving loop of the wrapper: every injected parameter in turn, until one fails. */
  method ResolveInjected(injected: Signature, get: Resolver, kwargs: Kwargs) returns (r: Result<Kwargs, string>)
    ensures r.Ok? <==> Resolves(injected, get)
    ensures r.Ok? ==> r.value == WithInjected(injected, get, kwargs)
    ensures r.Err? ==> FirstUnresolved(injected, get, r.error)
  {
    var forwarded := kwargs;
    var i := 0;
    while i < |injected|
      invariant 0 <= i <= |injected|
      invariant Resolves(injected[..i], get)
      invariant forwarded == WithInjected(injected[..i], get, kwargs)
    {
      var resolved := get(TypeOf(injected[i]));
      if resolved.Err? {
        assert injected[i] in injected;
        assert get(TypeOf(injected[i])) == Err(resolved.error);
        return Err(resolved.error);
      }
      forwarded := forwarded[injected[i].name := resolved.value];
      assert injected[..i + 1] == injected[..i] + [injected[i]];
      assert injected[..i + 1][..i] == injected[..i];
      i := i + 1;
    }
    assert injected[..i] == injected;
    return Ok(forwarded);
  }
}
