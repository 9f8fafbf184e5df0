/** Decimal numerals as Python's str and int read and write them. */
module Decimal {

  /** 10^k. */
  function Pow10(k: nat): (r: nat)
    ensures r >= 1
  {
    if k == 0 then 1 else 10 * Pow10(k - 1)
  }

  /** The number of decimal digits of n, as len(str(n)) counts them. */
  function Digits(n: nat): (r: nat)
    ensures r >= 1
  {
    if n < 10 then 1 else 1 + Digits(n / 10)
  }

  /** str(n): the decimal digits of n, most significant first. */
  function Dec(n: nat): (s: string)
    ensures |s| == Digits(n)
  {
    if n < 10 then [(48 + n) as char] else Dec(n / 10) + [(48 + n % 10) as char]
  }

  /** int(s) for a string of decimal digits. */
  function Value(s: string): int {
    if s == [] then 0 else 10 * Value(s[..|s| - 1]) + (s[|s| - 1] as int - 48)
  }

  lemma {:induction false} ValueOfDec(n: nat)
    ensures Value(Dec(n)) == n
  {
    if n >= 10 {
      var s := Dec(n);
      assert s[..|s| - 1] == Dec(n / 10);
      ValueOfDec(n / 10);
    }
  }

  lemma {:induction false} ValueOfAppend(s: string, t: string)
    ensures Value(s + t) == Value(s) * Pow10(|t|) + Value(t)
    decreases |t|
  {
    if t == [] {
      assert s + t == s;
    } else {
      var u, d := t[..|t| - 1], t[|t| - 1] as int - 48;
      ValueOfAppend(s, u);
      var v, p := Value(s), Pow10(|u|);
      assert Value(s + t) == 10 * Value(s + u) + d by {
        assert (s + t)[..|s + t| - 1] == s + u;
        assert (s + t)[|s + t| - 1] == t[|t| - 1];
      }
      assert 10 * (v * p + Value(u)) + d == v * (10 * p) + Value(t) by {
        ShiftTen(v, p);
      }
    }
  }

  lemma ShiftTen(v: int, p: int)
    ensures 10 * (v * p) == v * (10 * p)
  {
  }

  /** A string made only of the digits '0'..'9'. */
  predicate IsNumeral(s: string) {
    forall k :: 0 <= k < |s| ==> '0' <= s[k] <= '9'
  }

  lemma {:induction false} DecIsNumeral(n: nat)
    ensures IsNumeral(Dec(n))
  {
    if n >= 10 {
      DecIsNumeral(n / 10);
    }
  }

  /** A numeral of k digits has a value in [0, 10^k). */
  lemma {:induction false} ValueBounds(s: string)
    requires IsNumeral(s)
    ensures 0 <= Value(s) < Pow10(|s|)
    decreases |s|
  {
    if s != [] {
      ValueBounds(s[..|s| - 1]);
    }
  }
}
