/** How often things happened, and what happened behind what. */
module Counting {

  /** How often `k` is in the list. */
  function Times(s: seq<nat>, k: nat): nat {
    if s == [] then 0
    else Times(s[..|s| - 1], k) + if s[|s| - 1] == k then 1 else 0
  }

  /** `f` holds of something below `n`. */
  ghost predicate Below(f: nat -> bool, n: nat) {
    exists i: nat :: i < n && f(i)
  }

  /** Below `n`, `g` holds of something behind something `f` holds of. */
  ghost predicate Follows(f: nat -> bool, g: nat -> bool, n: nat) {
    exists i: nat, j: nat :: i < j < n && f(i) && g(j)
  }

  lemma BelowOneMore(f: nat -> bool, n: nat)
    ensures Below(f, n + 1) <==> Below(f, n) || f(n)
  {
  }

  lemma FollowsOneMore(f: nat -> bool, g: nat -> bool, n: nat)
    ensures Follows(f, g, n + 1) <==> Follows(f, g, n) || (Below(f, n) && g(n))
  {
  }
}
