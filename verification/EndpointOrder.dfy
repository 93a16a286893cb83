/** The rewritten signature keeps the order in which the handler declares its parameters. */
module EndpointOrder {
  import opened Wrappers
  import opened RouteInjection
  import opened EndpointContract

  /** `p` stands before `q`. */
  ghost predicate Before(sig: Signature, p: Parameter, q: Parameter) {
    exists i, j :: 0 <= i < j < |sig| && sig[i] == p && sig[j] == q
  }

  lemma BeforeAppend(sig: Signature, x: Parameter, p: Parameter, q: Parameter)
    ensures Before(sig + [x], p, q) <==> Before(sig, p, q) || (p in sig && q == x)
  {
    var all := sig + [x];
    if Before(all, p, q) {
      var i, j :| 0 <= i < j < |all| && all[i] == p && all[j] == q;
      assert sig[i] == p && (j < |sig| ==> sig[j] == q);
    }
    if Before(sig, p, q) {
      var i, j :| 0 <= i < j < |sig| && sig[i] == p && sig[j] == q;
      assert all[i] == p && all[j] == q;
    }
    if p in sig && q == x {
      var i :| 0 <= i < |sig| && sig[i] == p;
      assert all[i] == p && all[|sig|] == q;
    }
  }

  lemma BeforeConcat(a: Signature, b: Signature, p: Parameter, q: Parameter)
    ensures Before(a + b, p, q) <==> Before(a, p, q) || Before(b, p, q) || (p in a && q in b)
  {
    var all := a + b;
    if Before(all, p, q) {
      var i, j :| 0 <= i < j < |all| && all[i] == p && all[j] == q;
      if j < |a| {
        assert a[i] == p && a[j] == q;
      } else if i < |a| {
        assert a[i] == p && b[j - |a|] == q;
      } else {
        assert b[i - |a|] == p && b[j - |a|] == q;
      }
    }
    if Before(a, p, q) {
      var i, j :| 0 <= i < j < |a| && a[i] == p && a[j] == q;
      assert all[i] == p && all[j] == q;
    }
    if Before(b, p, q) {
      var i, j :| 0 <= i < j < |b| && b[i] == p && b[j] == q;
      assert all[|a| + i] == p && all[|a| + j] == q;
    }
    if p in a && q in b {
      var i :| 0 <= i < |a| && a[i] == p;
      var j :| 0 <= j < |b| && b[j] == q;
      assert all[i] == p && all[|a| + j] == q;
    }
  }

  lemma {:induction false} InjectedInOrder(sig: Signature, p: Parameter, q: Parameter)
    ensures Before(Injected(sig), p, q) <==> Before(sig, p, q) && IsInjected(p) && IsInjected(q)
  {
    if sig != [] {
      var front, last := sig[..|sig| - 1], sig[|sig| - 1];
      assert sig == front + [last];
      InjectedInOrder(front, p, q);
      InjectedMembers(front);
      BeforeAppend(front, last, p, q);
      if IsInjected(last) {
        BeforeAppend(Injected(front), last, p, q);
      } else {
        assert Injected(sig) == Injected(front);
      }
    }
  }

  lemma {:induction false} RetainedInOrder(sig: Signature, p: Parameter, q: Parameter)
    ensures Before(Retained(sig), p, q) <==> Before(sig, p, q) && !IsInjected(p) && !IsInjected(q)
  {
    if sig != [] {
      var front, last := sig[..|sig| - 1], sig[|sig| - 1];
      assert sig == front + [last];
      RetainedInOrder(front, p, q);
      RetainedMembers(front);
      BeforeAppend(front, last, p, q);
      if IsInjected(last) {
        assert Retained(sig) == Retained(front);
      } else {
        BeforeAppend(Retained(front), last, p, q);
      }
    }
  }

  lemma {:induction false} OthersInOrder(params: Signature, p: Parameter, q: Parameter)
    ensures Before(Others(params), p, q) <==> Before(params, p, q) && p.kind != VarKeyword && q.kind != VarKeyword
  {
    if params != [] {
      assert params == [params[0]] + params[1..];
      OthersInOrder(params[1..], p, q);
      SplitMembers(params[1..]);
      BeforeConcat([params[0]], params[1..], p, q);
      BeforeConcat(if params[0].kind == VarKeyword then [] else [params[0]], Others(params[1..]), p, q);
      assert !Before([params[0]], p, q) && !Before([], p, q);
    }
  }

  /** In a valid signature `**kwargs` stands behind everything else, and alone. */
  lemma VarKeywordIsLast(params: Signature, p: Parameter, q: Parameter)
    requires ValidSignature(params) && Before(params, p, q)
    ensures p in params && p.kind != VarKeyword
  {
    var i, j :| 0 <= i < j < |params| && params[i] == p && params[j] == q;
    assert InOrder(params[i], params[j]);
  }

  lemma TwoOrders(params: Signature, p: Parameter, q: Parameter)
    requires ValidSignature(params) && p in params && q in params && p.kind != VarKeyword && q.kind == VarKeyword
    ensures Before(params, p, q)
  {
    var i :| 0 <= i < |params| && params[i] == p;
    var j :| 0 <= j < |params| && params[j] == q;
    var lo, hi := if i < j then i else j, if i < j then j else i;
    assert InOrder(params[lo], params[hi]);
  }

  lemma NoTwoVarKeywords(params: Signature, p: Parameter, q: Parameter)
    requires ValidSignature(params)
    ensures !Before(VarKeywords(params), p, q)
  {
    VarKeywordsValid(params);
    SplitMembers(params);
    if Before(VarKeywords(params), p, q) {
      VarKeywordIsLast(VarKeywords(params), p, q);
    }
  }

  lemma EndpointInOrder(params: Signature, p: Parameter, q: Parameter)
    requires ValidSignature(params) && p in params && q in params && p !in HIDDEN && q !in HIDDEN
    ensures Before(Others(params) + HIDDEN + VarKeywords(params), p, q) <==> Before(params, p, q)
  {
    SplitMembers(params);
    BeforeConcat(Others(params) + HIDDEN, VarKeywords(params), p, q);
    BeforeConcat(Others(params), HIDDEN, p, q);
    OthersInOrder(params, p, q);
    NoTwoVarKeywords(params, p, q);
    assert !Before(HIDDEN, p, q);
    if Before(params, p, q) {
      VarKeywordIsLast(params, p, q);
    } else if p.kind != VarKeyword && q.kind == VarKeyword {
      TwoOrders(params, p, q);
    }
  }

  /** Whatever stays in the signature stays in its order. */
  lemma RewrittenKeepsOrder(sig: Signature, p: Parameter, q: Parameter)
    requires ValidSignature(sig) && ValidSignature(Rewritten(sig)) && Injected(sig) != []
    requires p in Retained(sig) && q in Retained(sig)
    ensures Before(Rewritten(sig), p, q) <==> Before(sig, p, q)
  {
    RetainedMembers(sig);
    RetainedValid(sig);
    RetainedInOrder(sig, p, q);
    if ConnectionParam(sig).None? {
      RewrittenValidExactlyWhen(sig);
      assert Reserved(HIDDEN[0].name) && Reserved(HIDDEN[1].name);
      assert !Reserved(p.name) && !Reserved(q.name);
      EndpointInOrder(Retained(sig), p, q);
    }
  }
}
