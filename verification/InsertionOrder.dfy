/**
 Python's insertion-ordered dict, written as the sequence of its entries. Assigning an existing
 key replaces the value and keeps the position; assigning a new key appends.
 */
module InsertionOrder {
  import opened Wrappers
  import opened SectionData

  /** Position of the first entry with key `k`; the length when there is none. */
  function FirstAt(es: Section, k: Key): (r: nat)
    ensures r <= |es|
    ensures r < |es| ==> es[r].key == k
  {
    if es == [] then 0
    else if es[0].key == k then 0
    else 1 + FirstAt(es[1..], k)
  }

  /** Position of the last entry with key `k`; -1 when there is none. */
  function LastAt(es: Section, k: Key): (r: int)
    ensures -1 <= r < |es|
    ensures r >= 0 ==> es[r].key == k
  {
    if es == [] then -1
    else if es[|es| - 1].key == k then |es| - 1
    else LastAt(es[..|es| - 1], k)
  }

  /** `d[k] = v`. */
  function Put(d: Section, k: Key, v: Value): Section {
    var at := FirstAt(d, k);
    if at < |d| then d[at := Entry(k, v)] else d + [Entry(k, v)]
  }

  /** `d.get(k)`. */
  function Get(d: Section, k: Key): Option<Value> {
    var at := FirstAt(d, k);
    if at < |d| then Some(d[at].value) else None
  }

  /** The dict left by assigning `es` one after the other to an empty dict. */
  function PutAll(es: Section): Section {
    if es == [] then []
    else Put(PutAll(es[..|es| - 1]), es[|es| - 1].key, es[|es| - 1].value)
  }

  ghost predicate UniqueKeys(d: Section) {
    forall i, j | 0 <= i < j < |d| :: d[i].key != d[j].key
  }

  /**
   What `PutAll` promises, without saying how: every assigned key is present, each with the last
   value assigned to it, and the keys stand in the order of their first assignment.
   */
  ghost predicate Collapses(es: Section, d: Section) {
    && (forall i | 0 <= i < |es| :: FirstAt(d, es[i].key) < |d|)
    && (forall j | 0 <= j < |d| :: LastAt(es, d[j].key) >= 0 && d[j].value == es[LastAt(es, d[j].key)].value)
    && (forall i, j | 0 <= i < j < |d| :: FirstAt(es, d[i].key) < FirstAt(es, d[j].key))
  }

  lemma {:induction false} FirstAtIsFirst(es: Section, k: Key, i: nat)
    requires i < |es| && es[i].key == k
    ensures FirstAt(es, k) <= i
  {
    if es[0].key != k {
      FirstAtIsFirst(es[1..], k, i - 1);
    }
  }

  lemma {:induction false} BeforeFirstAt(es: Section, k: Key, i: nat)
    requires i < FirstAt(es, k)
    ensures es[i].key != k
  {
    if i > 0 {
      BeforeFirstAt(es[1..], k, i - 1);
    }
  }

  lemma {:induction false} LastAtIsLast(es: Section, k: Key, i: nat)
    requires i < |es| && es[i].key == k
    ensures i <= LastAt(es, k)
  {
    if es[|es| - 1].key != k {
      LastAtIsLast(es[..|es| - 1], k, i);
    }
  }

  lemma {:induction false} FirstAtAppend(es: Section, e: Entry, k: Key)
    ensures FirstAt(es + [e], k) ==
      if FirstAt(es, k) < |es| then FirstAt(es, k) else if e.key == k then |es| else |es| + 1
  {
    if es == [] {
      assert es + [e] == [e];
    } else if es[0].key != k {
      FirstAtAppend(es[1..], e, k);
      assert (es + [e])[1..] == es[1..] + [e];
    }
  }

  lemma LastAtAppend(es: Section, e: Entry, k: Key)
    ensures LastAt(es + [e], k) == if e.key == k then |es| else LastAt(es, k)
  {
    assert (es + [e])[..|es|] == es;
  }

  lemma PutFinds(d: Section, e: Entry, k: Key)
    requires FirstAt(d, k) < |d| || k == e.key
    ensures FirstAt(Put(d, e.key, e.value), k) < |Put(d, e.key, e.value)|
  {
    var at := if k == e.key then FirstAt(d, e.key) else FirstAt(d, k);
    FirstAtIsFirst(Put(d, e.key, e.value), k, at);
  }

  lemma CollapsesDistinct(es: Section, d: Section, i: nat, j: nat)
    requires Collapses(es, d) && i < |d| && j < |d| && i != j
    ensures d[i].key != d[j].key
  {
    var lo, hi := if i < j then i else j, if i < j then j else i;
    assert FirstAt(es, d[lo].key) < FirstAt(es, d[hi].key);
  }

  /** Positions in the dict are ordered as the first assignments are. */
  lemma KeyOrder(es: Section, d: Section, i: nat, j: nat)
    requires Collapses(es, d) && i < |d| && j < |d|
    ensures i < j <==> FirstAt(es, d[i].key) < FirstAt(es, d[j].key)
    ensures i == j <==> d[i].key == d[j].key
  {
    var lo, hi := if i < j then i else j, if i < j then j else i;
    assert lo < hi ==> FirstAt(es, d[lo].key) < FirstAt(es, d[hi].key);
  }

  lemma KnownKey(es: Section, d: Section, j: nat)
    requires Collapses(es, d) && j < |d|
    ensures FirstAt(es, d[j].key) < |es|
  {
    FirstAtIsFirst(es, d[j].key, LastAt(es, d[j].key));
  }

  lemma AssignedKeyPresent(es: Section, d: Section, k: Key)
    requires Collapses(es, d)
    ensures FirstAt(es, k) < |es| ==> FirstAt(d, k) < |d|
  {
    var i := FirstAt(es, k);
    if i < |es| {
      assert FirstAt(d, es[i].key) < |d|;
    }
  }

  lemma PutGivesLast(es: Section, d: Section, e: Entry, j: nat)
    requires Collapses(es, d) && j < |Put(d, e.key, e.value)|
    ensures var x := Put(d, e.key, e.value)[j];
      LastAt(es + [e], x.key) >= 0 && x.value == (es + [e])[LastAt(es + [e], x.key)].value
  {
    var x, at := Put(d, e.key, e.value)[j], FirstAt(d, e.key);
    LastAtAppend(es, e, x.key);
    if j != at {
      assert x == d[j];
      if at < |d| {
        CollapsesDistinct(es, d, at, j);
      } else {
        BeforeFirstAt(d, e.key, j);
      }
    }
  }

  lemma PutKeepsOrder(es: Section, d: Section, e: Entry, i: nat, j: nat)
    requires Collapses(es, d) && i < j < |Put(d, e.key, e.value)|
    ensures var d' := Put(d, e.key, e.value);
      FirstAt(es + [e], d'[i].key) < FirstAt(es + [e], d'[j].key)
  {
    var d' := Put(d, e.key, e.value);
    FirstAtAppend(es, e, d'[i].key);
    FirstAtAppend(es, e, d'[j].key);
    assert d'[i].key == d[i].key;
    KnownKey(es, d, i);
    if j < |d| {
      assert d'[j].key == d[j].key;
      KnownKey(es, d, j);
      KeyOrder(es, d, i, j);
    } else {
      AssignedKeyPresent(es, d, e.key);
    }
  }

  /** One more assignment keeps the promise; this is the invariant of every dict-filling loop. */
  lemma PutCollapses(es: Section, d: Section, e: Entry)
    requires Collapses(es, d)
    ensures Collapses(es + [e], Put(d, e.key, e.value))
  {
    var d' := Put(d, e.key, e.value);
    forall i | 0 <= i < |es| + 1 ensures FirstAt(d', (es + [e])[i].key) < |d'| {
      PutFinds(d, e, (es + [e])[i].key);
    }
    forall j | 0 <= j < |d'|
      ensures LastAt(es + [e], d'[j].key) >= 0
      ensures d'[j].value == (es + [e])[LastAt(es + [e], d'[j].key)].value
    {
      PutGivesLast(es, d, e, j);
    }
    forall i, j | 0 <= i < j < |d'|
      ensures FirstAt(es + [e], d'[i].key) < FirstAt(es + [e], d'[j].key)
    {
      PutKeepsOrder(es, d, e, i, j);
    }
  }

  lemma {:induction false} PutAllCollapses(es: Section)
    ensures Collapses(es, PutAll(es))
  {
    if es != [] {
      PutAllCollapses(es[..|es| - 1]);
      PutCollapses(es[..|es| - 1], PutAll(es[..|es| - 1]), es[|es| - 1]);
      assert es == es[..|es| - 1] + [es[|es| - 1]];
    }
  }

  lemma CollapsesUniqueKeys(es: Section, d: Section)
    requires Collapses(es, d)
    ensures UniqueKeys(d)
  {
    forall i, j | 0 <= i < j < |d| ensures d[i].key != d[j].key {
      CollapsesDistinct(es, d, i, j);
    }
  }

  /** Every key of `a` is a key of `b`, holding the same value. */
  lemma SameEntrySomewhere(es: Section, a: Section, b: Section, i: nat) returns (j: nat)
    requires Collapses(es, a) && Collapses(es, b) && i < |a|
    ensures j < |b| && b[j] == a[i]
  {
    var p := LastAt(es, a[i].key);
    assert FirstAt(b, es[p].key) < |b|;
    j := FirstAt(b, a[i].key);
  }

  /** The promise leaves no freedom: it fixes keys, values and order. */
  lemma CollapsesDetermines(es: Section, a: Section, b: Section)
    requires Collapses(es, a) && Collapses(es, b)
    ensures a == b
  {
    SamePrefix(es, a, b, |a|);
    SamePrefix(es, b, a, |b|);
  }

  lemma NextEntry(es: Section, a: Section, b: Section, m: nat)
    requires Collapses(es, a) && Collapses(es, b) && m < |a| && m <= |b|
    requires forall i | 0 <= i < m :: a[i] == b[i]
    ensures m < |b| && a[m] == b[m]
  {
    var j := SameEntrySomewhere(es, a, b, m);
    KeyOrder(es, a, if j < m then j else m, m);
    KeyOrder(es, b, m, j);
    var i := SameEntrySomewhere(es, b, a, m);
    KeyOrder(es, a, i, m);
    KeyOrder(es, b, if i < m then i else m, m);
  }

  lemma {:induction false} SamePrefix(es: Section, a: Section, b: Section, n: nat)
    requires Collapses(es, a) && Collapses(es, b) && n <= |a|
    ensures n <= |b| && forall i | 0 <= i < n :: a[i] == b[i]
  {
    if n > 0 {
      SamePrefix(es, a, b, n - 1);
      NextEntry(es, a, b, n - 1);
    }
  }

  /** Reading an assigned key gives the value of the last assignment to it. */
  lemma GetAfterPutAll(es: Section, k: Key)
    ensures Get(PutAll(es), k) == if LastAt(es, k) < 0 then None else Some(es[LastAt(es, k)].value)
  {
    PutAllCollapses(es);
    var at := FirstAt(PutAll(es), k);
    if LastAt(es, k) >= 0 {
      assert FirstAt(PutAll(es), es[LastAt(es, k)].key) < |PutAll(es)|;
    } else if at < |PutAll(es)| {
      assert LastAt(es, PutAll(es)[at].key) >= 0;
    }
  }

  /** Re-inserting the entries of a dict rebuilds it. */
  lemma {:induction false} PutAllOfDict(d: Section)
    requires UniqueKeys(d)
    ensures PutAll(d) == d
  {
    if d != [] {
      PutAllOfDict(d[..|d| - 1]);
      assert d == d[..|d| - 1] + [d[|d| - 1]];
    }
  }
}
