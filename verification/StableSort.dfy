/**
 Python's `sorted(xs, key=...)`: the one ordering by key that keeps entries with equal keys
 in their original order. Used for the middleware list and for index keys of settings sections.
 */
module StableSort {

  /** Puts `x` behind every entry of the sorted `s` whose key is at most that of `x`. */
  function Insert<T>(key: T -> int, x: T, s: seq<T>): (r: seq<T>)
    ensures |r| == |s| + 1
  {
    if s == [] then [x]
    else
      var last := s[|s| - 1];
      if key(last) <= key(x) then s + [x] else Insert(key, x, s[..|s| - 1]) + [last]
  }

  function Sort<T>(key: T -> int, s: seq<T>): (r: seq<T>)
    ensures |r| == |s|
  {
    if s == [] then [] else Insert(key, s[|s| - 1], Sort(key, s[..|s| - 1]))
  }

  ghost predicate Sorted<T>(key: T -> int, s: seq<T>) {
    forall i, j | 0 <= i < j < |s| :: key(s[i]) <= key(s[j])
  }

  /** The entries of `s` with key `k`, in order. */
  function Pick<T>(key: T -> int, k: int, s: seq<T>): (r: seq<T>)
    ensures |r| <= |s|
  {
    if s == [] then []
    else Pick(key, k, s[..|s| - 1]) + if key(s[|s| - 1]) == k then [s[|s| - 1]] else []
  }

  ghost predicate SamePicks<T>(key: T -> int, a: seq<T>, b: seq<T>) {
    forall k :: Pick(key, k, a) == Pick(key, k, b)
  }

  /** `r` is `s` sorted by `key`, entries with the same key in the order `s` has them. */
  ghost predicate IsStableSort<T>(key: T -> int, s: seq<T>, r: seq<T>) {
    Sorted(key, r) && SamePicks(key, s, r)
  }

  lemma PickAppend<T>(key: T -> int, k: int, s: seq<T>, x: T)
    ensures Pick(key, k, s + [x]) == Pick(key, k, s) + if key(x) == k then [x] else []
  {
    assert (s + [x])[..|s|] == s;
  }

  lemma {:induction false} InsertKeepsElements<T>(key: T -> int, x: T, s: seq<T>)
    ensures multiset(Insert(key, x, s)) == multiset(s) + multiset{x}
  {
    if s != [] && key(s[|s| - 1]) > key(x) {
      InsertKeepsElements(key, x, s[..|s| - 1]);
      assert s == s[..|s| - 1] + [s[|s| - 1]];
    }
  }

  lemma {:induction false} SortPermutes<T>(key: T -> int, s: seq<T>)
    ensures multiset(Sort(key, s)) == multiset(s)
  {
    if s != [] {
      SortPermutes(key, s[..|s| - 1]);
      InsertKeepsElements(key, s[|s| - 1], Sort(key, s[..|s| - 1]));
      assert s == s[..|s| - 1] + [s[|s| - 1]];
    }
  }

  lemma {:induction false} InsertSorted<T>(key: T -> int, x: T, s: seq<T>)
    requires Sorted(key, s)
    ensures Sorted(key, Insert(key, x, s))
  {
    if s != [] && key(s[|s| - 1]) > key(x) {
      var front := s[..|s| - 1];
      var r := Insert(key, x, front);
      InsertSorted(key, x, front);
      forall i | 0 <= i < |r| ensures key(r[i]) <= key(s[|s| - 1]) {
        InsertKeepsElements(key, x, front);
        assert r[i] in multiset(r);
        assert r[i] == x || r[i] in front;
      }
    }
  }

  lemma {:induction false} InsertPicks<T>(key: T -> int, k: int, x: T, s: seq<T>)
    ensures Pick(key, k, Insert(key, x, s)) == Pick(key, k, s + [x])
  {
    if s != [] && key(s[|s| - 1]) > key(x) {
      var front, last := s[..|s| - 1], s[|s| - 1];
      InsertPicks(key, k, x, front);
      PickAppend(key, k, Insert(key, x, front), last);
      PickAppend(key, k, front, x);
      PickAppend(key, k, s, x);
    }
  }

  lemma {:induction false} SortIsStable<T>(key: T -> int, s: seq<T>)
    ensures IsStableSort(key, s, Sort(key, s))
  {
    if s != [] {
      var front, last := s[..|s| - 1], s[|s| - 1];
      SortIsStable(key, front);
      InsertSorted(key, last, Sort(key, front));
      forall k ensures Pick(key, k, s) == Pick(key, k, Sort(key, s)) {
        InsertPicks(key, k, last, Sort(key, front));
        PickAppend(key, k, Sort(key, front), last);
      }
    }
  }

  /** There is only one stable sort: whatever algorithm is used, the result is the same. */
  lemma StableSortIsUnique<T>(key: T -> int, s: seq<T>, r: seq<T>)
    requires IsStableSort(key, s, r)
    ensures r == Sort(key, s)
  {
    SortIsStable(key, s);
    assert SamePicks(key, r, Sort(key, s));
    SamePicksSameOrder(key, r, Sort(key, s));
  }

  lemma {:induction false} PickFinds<T>(key: T -> int, s: seq<T>, i: nat)
    requires i < |s|
    ensures s[i] in Pick(key, key(s[i]), s)
  {
    if i < |s| - 1 {
      PickFinds(key, s[..|s| - 1], i);
    }
  }

  lemma {:induction false} PickOnlyFrom<T>(key: T -> int, k: int, s: seq<T>, x: T)
    requires x in Pick(key, k, s)
    ensures x in s && key(x) == k
  {
    if x in Pick(key, k, s[..|s| - 1]) {
      PickOnlyFrom(key, k, s[..|s| - 1], x);
    }
  }

  lemma FoundAgain<T>(key: T -> int, a: seq<T>, b: seq<T>, i: nat) returns (j: nat)
    requires i < |a| && Pick(key, key(a[i]), a) == Pick(key, key(a[i]), b)
    ensures j < |b| && b[j] == a[i]
  {
    PickFinds(key, a, i);
    PickOnlyFrom(key, key(a[i]), b, a[i]);
    j :| 0 <= j < |b| && b[j] == a[i];
  }

  lemma LastIsMaximal<T>(key: T -> int, a: seq<T>, b: seq<T>)
    requires Sorted(key, b) && SamePicks(key, a, b) && a != []
    ensures b != [] && key(a[|a| - 1]) <= key(b[|b| - 1])
  {
    var j := FoundAgain(key, a, b, |a| - 1);
    assert j < |b| - 1 ==> key(b[j]) <= key(b[|b| - 1]);
  }

  lemma {:induction false} SamePicksSameOrder<T>(key: T -> int, a: seq<T>, b: seq<T>)
    requires Sorted(key, a) && Sorted(key, b) && SamePicks(key, a, b)
    ensures a == b
    decreases |a|
  {
    if a != [] {
      LastIsMaximal(key, a, b);
    }
    if b != [] {
      LastIsMaximal(key, b, a);
    }
    if a != [] {
      var a', x := a[..|a| - 1], a[|a| - 1];
      var b', y := b[..|b| - 1], b[|b| - 1];
      var p, q := Pick(key, key(x), a), Pick(key, key(x), b);
      assert p == q && p[|p| - 1] == x && q[|q| - 1] == y;
      forall k ensures Pick(key, k, a') == Pick(key, k, b') {
        assert Pick(key, k, a) == Pick(key, k, b);
        var tail := if key(x) == k then [x] else [];
        assert Pick(key, k, a') == (Pick(key, k, a') + tail)[..|Pick(key, k, a)| - |tail|];
        assert Pick(key, k, b') == (Pick(key, k, b') + tail)[..|Pick(key, k, b)| - |tail|];
      }
      SamePicksSameOrder(key, a', b');
      assert a == a' + [x] && b == b' + [y];
    }
  }

  /** Sorting looks only at the keys, so it commutes with any change that keeps every key. */
  lemma {:induction false} InsertMaps<T, U>(key: T -> int, key': U -> int, x: T, x': U, s: seq<T>, s': seq<U>, f: T -> U)
    requires |s| == |s'| && forall i | 0 <= i < |s| :: s'[i] == f(s[i]) && key'(s'[i]) == key(s[i])
    requires x' == f(x) && key'(x') == key(x)
    ensures forall i | 0 <= i <= |s| ::
      Insert(key', x', s')[i] == f(Insert(key, x, s)[i]) && key'(Insert(key', x', s')[i]) == key(Insert(key, x, s)[i])
  {
    if s != [] && key(s[|s| - 1]) > key(x) {
      InsertMaps(key, key', x, x', s[..|s| - 1], s'[..|s| - 1], f);
    }
  }

  lemma {:induction false} SortMaps<T, U>(key: T -> int, key': U -> int, s: seq<T>, s': seq<U>, f: T -> U)
    requires |s| == |s'| && forall i | 0 <= i < |s| :: s'[i] == f(s[i]) && key'(s'[i]) == key(s[i])
    ensures forall i | 0 <= i < |s| ::
      Sort(key', s')[i] == f(Sort(key, s)[i]) && key'(Sort(key', s')[i]) == key(Sort(key, s)[i])
  {
    if s != [] {
      SortMaps(key, key', s[..|s| - 1], s'[..|s| - 1], f);
      InsertMaps(key, key', s[|s| - 1], s'[|s| - 1],
                 Sort(key, s[..|s| - 1]), Sort(key', s'[..|s| - 1]), f);
    }
  }

  lemma {:induction false} TwoPicked<T>(key: T -> int, s: seq<T>, i: nat, j: nat)
    requires i < j < |s| && key(s[i]) == key(s[j])
    ensures |Pick(key, key(s[i]), s)| >= 2
  {
    if j < |s| - 1 {
      TwoPicked(key, s[..|s| - 1], i, j);
    } else {
      PickFinds(key, s[..|s| - 1], i);
    }
  }

  lemma {:induction false} AtMostOnePicked<T>(key: T -> int, k: int, s: seq<T>)
    requires forall i, j | 0 <= i < j < |s| :: key(s[i]) != key(s[j])
    ensures |Pick(key, k, s)| <= 1
  {
    if s != [] {
      var front, last := s[..|s| - 1], s[|s| - 1];
      AtMostOnePicked(key, k, front);
      if key(last) == k && Pick(key, k, front) != [] {
        PickOnlyFrom(key, k, front, Pick(key, k, front)[0]);
      }
    }
  }

  lemma DistinctStaysDistinct<T>(key: T -> int, s: seq<T>, r: seq<T>)
    requires IsStableSort(key, s, r)
    requires forall i, j | 0 <= i < j < |s| :: key(s[i]) != key(s[j])
    ensures forall i, j | 0 <= i < j < |r| :: key(r[i]) < key(r[j])
  {
    forall i, j | 0 <= i < j < |r| ensures key(r[i]) < key(r[j]) {
      AtMostOnePicked(key, key(r[i]), s);
      assert Pick(key, key(r[i]), s) == Pick(key, key(r[i]), r);
      if key(r[i]) == key(r[j]) {
        TwoPicked(key, r, i, j);
      }
    }
  }

  /** Strictly increasing keys below the length leave each entry at the position its key names. */
  lemma DenseIndexIsPosition<T>(key: T -> int, r: seq<T>, i: nat)
    requires forall a, b | 0 <= a < b < |r| :: key(r[a]) < key(r[b])
    requires forall a | 0 <= a < |r| :: 0 <= key(r[a]) < |r|
    requires i < |r|
    ensures key(r[i]) == i
  {
    AtLeastPosition(key, r, i);
    AtMostPosition(key, r, i);
  }

  lemma {:induction false} AtLeastPosition<T>(key: T -> int, r: seq<T>, i: nat)
    requires forall a, b | 0 <= a < b < |r| :: key(r[a]) < key(r[b])
    requires forall a | 0 <= a < |r| :: 0 <= key(r[a])
    requires i < |r|
    ensures key(r[i]) >= i
  {
    if i > 0 {
      AtLeastPosition(key, r, i - 1);
    }
  }

  lemma {:induction false} AtMostPosition<T>(key: T -> int, r: seq<T>, i: nat)
    requires forall a, b | 0 <= a < b < |r| :: key(r[a]) < key(r[b])
    requires forall a | 0 <= a < |r| :: key(r[a]) < |r|
    requires i < |r|
    ensures key(r[i]) <= i
    decreases |r| - i
  {
    if i < |r| - 1 {
      AtMostPosition(key, r, i + 1);
    }
  }
}
