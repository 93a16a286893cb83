/** `str.lower`, `str.isdigit`, `str(int)` and `int(str)` on ASCII text. */
module AsciiText {

  function FoldChar(c: char): char {
    if 'A' <= c <= 'Z' then (c as int + 32) as char else c
  }

  /** `s.lower()` */
  function Fold(s: string): (r: string)
    ensures |r| == |s|
  {
    seq(|s|, i requires 0 <= i < |s| => FoldChar(s[i]))
  }

  /** Folding turns each capital letter into its small one and leaves everything else alone. */
  lemma FoldsCapitals(s: string, i: nat)
    requires i < |s|
    ensures 'A' <= s[i] <= 'Z' ==>
      'a' <= Fold(s)[i] <= 'z' && Fold(s)[i] as int - 'a' as int == s[i] as int - 'A' as int
    ensures !('A' <= s[i] <= 'Z') ==> Fold(s)[i] == s[i]
  {
  }

  predicate IsDigit(c: char) {
    '0' <= c <= '9'
  }

  /** `s.isdigit()` */
  predicate IsDigits(s: string) {
    s != "" && forall i | 0 <= i < |s| :: IsDigit(s[i])
  }

  /** `int(s)` */
  function ParseNat(s: string): nat
    requires IsDigits(s)
  {
    var last := s[|s| - 1] as int - '0' as int;
    if |s| == 1 then last else 10 * ParseNat(s[..|s| - 1]) + last
  }

  /** `str(n)` */
  function ShowInt(n: int): string
    decreases if n < 0 then 1 else 0, if n < 0 then -n else n
  {
    if n < 0 then "-" + ShowInt(-n)
    else if n < 10 then [('0' as int + n) as char]
    else ShowInt(n / 10) + ShowInt(n % 10)
  }

  lemma {:induction false} ShownNatParses(n: nat)
    ensures IsDigits(ShowInt(n)) && ParseNat(ShowInt(n)) == n
  {
    if n >= 10 {
      ShownNatParses(n / 10);
      var s := ShowInt(n);
      assert s[..|s| - 1] == ShowInt(n / 10);
    }
  }

  function Zeros(k: nat): (r: string)
    ensures |r| == k
  {
    seq(k, i requires 0 <= i < k => '0')
  }

  /** One more digit behind a number. */
  lemma ShowOneMore(n: nat, d: char)
    requires IsDigit(d)
    ensures var m := 10 * n + (d as int - '0' as int);
      ShowInt(m) == if n == 0 then [d] else ShowInt(n) + [d]
  {
  }

  lemma ParseOneMore(s: string, d: char)
    requires IsDigits(s) && IsDigit(d)
    ensures IsDigits(s + [d]) && ParseNat(s + [d]) == 10 * ParseNat(s) + (d as int - '0' as int)
  {
    assert (s + [d])[..|s|] == s;
  }

  /** Every string of digits is the decimal number it parses to, behind leading zeros. */
  lemma {:induction false} ParsedNatShows(s: string)
    requires IsDigits(s)
    ensures exists k: nat :: s == Zeros(k) + ShowInt(ParseNat(s))
  {
    var front, last := s[..|s| - 1], s[|s| - 1];
    assert s == front + [last];
    if front == [] {
      ShowOneMore(0, last);
      assert s == Zeros(0) + ShowInt(ParseNat(s));
    } else {
      ParsedNatShows(front);
      var k: nat :| front == Zeros(k) + ShowInt(ParseNat(front));
      ParseOneMore(front, last);
      ShowOneMore(ParseNat(front), last);
      BehindZeros(s, front, last, k);
    }
  }

  lemma Regroup(a: string, b: string, c: string)
    ensures (a + b) + c == a + (b + c)
  {
  }

  lemma OneMoreZero(k: nat)
    ensures Zeros(k) + "0" == Zeros(k + 1)
  {
  }

  lemma BehindZeros(s: string, front: string, last: char, k: nat)
    requires IsDigits(front) && s == front + [last] && IsDigits(s)
    requires front == Zeros(k) + ShowInt(ParseNat(front))
    requires ShowInt(ParseNat(s)) == if ParseNat(front) == 0 then [last] else ShowInt(ParseNat(front)) + [last]
    ensures exists k: nat :: s == Zeros(k) + ShowInt(ParseNat(s))
  {
    if ParseNat(front) == 0 {
      OneMoreZero(k);
      assert s == Zeros(k + 1) + ShowInt(ParseNat(s));
    } else {
      Regroup(Zeros(k), ShowInt(ParseNat(front)), [last]);
      assert s == Zeros(k) + ShowInt(ParseNat(s));
    }
  }

  /** Only non-negative numbers are written with digits alone. */
  lemma ShownDigits(n: int)
    ensures IsDigits(ShowInt(n)) <==> n >= 0
  {
    if n >= 0 {
      ShownNatParses(n);
    } else {
      assert ShowInt(n)[0] == '-';
    }
  }
}
