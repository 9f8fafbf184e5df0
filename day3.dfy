/** Day 3: Mull It Over -- a left-to-right scanner for `mul(x,y)`, `do()` and
    `don't()` in corrupted memory. Digits are ASCII and unbounded in length.
    The worked examples give 161 and 48. */
module Day3 {
  import opened Wrappers
  import opened Decimal

  predicate IsDigit(c: char) { '0' <= c <= '9' }

  /** Length of the longest run of digits at the start of s (the greedy `\d+`). */
  function LeadingDigits(s: string): (n: nat)
    ensures n <= |s|
    ensures n < |s| ==> !IsDigit(s[n])
  {
    if s != [] && IsDigit(s[0]) then 1 + LeadingDigits(s[1..]) else 0
  }

  /** The run LeadingDigits measures holds only digits. */
  lemma {:induction false} LeadingDigitsAreDigits(s: string)
    ensures IsNumeral(s[..LeadingDigits(s)])
  {
    if s != [] && IsDigit(s[0]) {
      LeadingDigitsAreDigits(s[1..]);
      assert s[..LeadingDigits(s)] == [s[0]] + s[1..][..LeadingDigits(s[1..])];
    }
  }

  /** A `mul(x,y)` token at the head of the text: its operands and its length. */
  datatype Mul = Mul(x: int, y: int, len: nat)

  /** Matches `mul(` digits `,` digits `)` at the start of s. */
  function MatchMul(s: string): (m: Option<Mul>)
    ensures m.Some? ==> 8 <= m.value.len <= |s|
  {
    if |s| >= 4 && s[0] == 'm' && s[1] == 'u' && s[2] == 'l' && s[3] == '(' then
      var a := s[4..];
      var n := LeadingDigits(a);
      if 0 < n < |a| && a[n] == ',' then
        var b := a[n + 1..];
        var k := LeadingDigits(b);
        if 0 < k < |b| && b[k] == ')' then Some(Mul(Value(a[..n]), Value(b[..k]), 4 + n + 1 + k + 1))
        else None
      else None
    else None
  }

  predicate StartsWith(s: string, p: string) { |p| <= |s| && s[..|p|] == p }

  /** Sum of x*y over the non-overlapping `mul(x,y)` tokens found scanning left to right. */
  function MulSum(s: string): int
    decreases |s|
  {
    if s == [] then 0
    else match MatchMul(s)
      case Some(m) => m.x * m.y + MulSum(s[m.len..])
      case None => MulSum(s[1..])
  }

  /** The same scan, counting a `mul` only while enabled; `do()` enables, `don't()` disables. */
  function ConditionalSum(s: string, enabled: bool): int
    decreases |s|
  {
    if s == [] then 0
    else match MatchMul(s)
      case Some(m) => (if enabled then m.x * m.y else 0) + ConditionalSum(s[m.len..], enabled)
      case None =>
        if StartsWith(s, "do()") then ConditionalSum(s[4..], true)
        else if StartsWith(s, "don't()") then ConditionalSum(s[7..], false)
        else ConditionalSum(s[1..], enabled)
  }

  /** part1 (day3.py:10-15): one pass over the text, accumulating the products. */
  method Part1(s: string) returns (xsum: int)
    ensures xsum == MulSum(s)
  {
    xsum := 0;
    var t := s;
    while t != []
      invariant xsum + MulSum(t) == MulSum(s)
      decreases |t|
    {
      var m := MatchMul(t);
      if m.Some? {
        xsum := xsum + m.value.x * m.value.y;
        t := t[m.value.len..];
      } else {
        t := t[1..];
      }
    }
  }

  /** part2 (day3.py:27-35): the same pass with the `cond` flag, starting enabled. */
  method Part2(s: string) returns (xsum: int)
    ensures xsum == ConditionalSum(s, true)
  {
    xsum := 0;
    var cond := true;
    var t := s;
    while t != []
      invariant xsum + ConditionalSum(t, cond) == ConditionalSum(s, true)
      decreases |t|
    {
      var m := MatchMul(t);
      if m.Some? {
        if cond { xsum := xsum + m.value.x * m.value.y; }
        t := t[m.value.len..];
      } else if StartsWith(t, "do()") {
        cond := true;
        t := t[4..];
      } else if StartsWith(t, "don't()") {
        cond := false;
        t := t[7..];
      } else {
        t := t[1..];
      }
    }
  }

  lemma {:induction false} LeadingDigitsOfRun(d: string, rest: string)
    requires IsNumeral(d)
    requires rest == [] || !IsDigit(rest[0])
    ensures LeadingDigits(d + rest) == |d|
  {
    if d != [] {
      assert (d + rest)[1..] == d[1..] + rest;
      LeadingDigitsOfRun(d[1..], rest);
    }
  }

  /** s starts with `mul(`, a run of n digits with value x, a comma, a run of k digits
      with value y and `)`. */
  ghost predicate TokenAt(s: string, n: nat, k: nat, x: int, y: int) {
    |s| >= n + k + 6 && s[0] == 'm' && s[1] == 'u' && s[2] == 'l' && s[3] == '(' &&
    LeadingDigits(s[4..]) == n && 0 < n && s[4 + n] == ',' && Value(s[4..4 + n]) == x &&
    LeadingDigits(s[5 + n..]) == k && 0 < k && s[5 + n + k] == ')' && Value(s[5 + n..5 + n + k]) == y
  }

  /** MatchMul reads such a token. */
  lemma MatchParts(s: string, n: nat, k: nat, x: int, y: int)
    requires TokenAt(s, n, k, x, y)
    ensures MatchMul(s) == Some(Mul(x, y, n + k + 6))
  {
    var a := s[4..];
    assert a[..n] == s[4..4 + n] && a[n] == ',';
    var b := a[n + 1..];
    assert b == s[5 + n..];
    assert b[..k] == s[5 + n..5 + n + k] && b[k] == ')';
  }

  /** A non-empty numeral u at position i, followed by a non-digit, is the digit run
      there. */
  lemma RunAt(s: string, i: nat, u: string)
    requires u != [] && IsNumeral(u) && i + |u| < |s| && s[i..i + |u|] == u && !IsDigit(s[i + |u|])
    ensures LeadingDigits(s[i..]) == |u| && Value(s[i..i + |u|]) == Value(u)
  {
    assert s[i..] == u + s[i + |u|..];
    LeadingDigitsOfRun(u, s[i + |u|..]);
  }

  /** The text `mul(u,v)`. */
  function MulToken(u: string, v: string): string {
    "mul(" + u + "," + v + ")"
  }

  /** Where the parts of `mul(u,v)` sit in the text. */
  lemma TokenLayout(u: string, v: string, rest: string, s: string)
    requires s == MulToken(u, v) + rest
    ensures |s| == |u| + |v| + 6 + |rest| && s[0] == 'm' && s[1] == 'u' && s[2] == 'l' && s[3] == '('
    ensures s[4..4 + |u|] == u && s[4 + |u|] == ','
    ensures s[5 + |u|..5 + |u| + |v|] == v && s[5 + |u| + |v|] == ')'
  {
    var p := "mul(" + u + ",";
    assert s == p + (v + (")" + rest));
    assert s[4..4 + |u|] == u && s[4 + |u|] == ',' by {
      assert s[..|p|] == p;
    }
  }

  /** For numerals u and v, `mul(u,v)` followed by anything has its digit runs and
      delimiters where MatchMul looks for them. */
  lemma TokenFacts(u: string, v: string, rest: string)
    requires u != [] && v != [] && IsNumeral(u) && IsNumeral(v)
    ensures TokenAt(MulToken(u, v) + rest, |u|, |v|, Value(u), Value(v))
  {
    var s := MulToken(u, v) + rest;
    TokenLayout(u, v, rest, s);
    RunAt(s, 4, u);
    RunAt(s, 5 + |u|, v);
  }

  /** A well-formed token is matched with its own operands and length: for numerals u
      and v, `mul(u,v)` reads as int(u) and int(v). */
  lemma MatchMulToken(u: string, v: string, rest: string)
    requires u != [] && v != [] && IsNumeral(u) && IsNumeral(v)
    ensures MatchMul(MulToken(u, v) + rest) == Some(Mul(Value(u), Value(v), |u| + |v| + 6))
  {
    TokenFacts(u, v, rest);
    MatchParts(MulToken(u, v) + rest, |u|, |v|, Value(u), Value(v));
  }

  /** A `mul(u,v)` token contributes exactly int(u) * int(v), and scanning resumes right
      after it. */
  lemma MulTokenContributes(u: string, v: string, rest: string)
    requires u != [] && v != [] && IsNumeral(u) && IsNumeral(v)
    ensures MulSum(MulToken(u, v) + rest) == Value(u) * Value(v) + MulSum(rest)
  {
    MatchMulToken(u, v, rest);
    var t := MulToken(u, v);
    assert |t| == |u| + |v| + 6;
    assert (t + rest)[|t|..] == rest;
  }

  /** In particular for the decimal text of any x and y. */
  lemma DecTokenContributes(x: nat, y: nat, rest: string)
    ensures MulSum(MulToken(Dec(x), Dec(y)) + rest) == x * y + MulSum(rest)
  {
    DecIsNumeral(x);
    DecIsNumeral(y);
    ValueOfDec(x);
    ValueOfDec(y);
    MulTokenContributes(Dec(x), Dec(y), rest);
  }


  /** A character other than 'm' is skipped without contributing. */
  lemma SkipNonMul(t: string)
    requires t != [] && t[0] != 'm'
    ensures MulSum(t) == MulSum(t[1..])
  {
    assert MatchMul(t).None?;
  }

  /** Text without the letter 'm' can hold no `mul`, and contributes nothing in front
      of anything else. */
  lemma {:induction false} NoMulPrefixContributesNothing(p: string, s: string)
    requires forall k :: 0 <= k < |p| ==> p[k] != 'm'
    ensures MulSum(p + s) == MulSum(s)
  {
    if p != [] {
      assert (p + s)[1..] == p[1..] + s;
      SkipNonMul(p + s);
      NoMulPrefixContributesNothing(p[1..], s);
    } else {
      assert p + s == s;
    }
  }

  /** No `do()` or `don't()` anywhere in s. */
  ghost predicate NoConditionals(s: string) {
    forall k :: 0 <= k <= |s| ==> !StartsWith(s[k..], "do()") && !StartsWith(s[k..], "don't()")
  }

  /** Without conditionals the enabled scan of part2 equals part1. */
  lemma {:induction false} NoConditionalsSameSum(s: string)
    requires NoConditionals(s)
    ensures ConditionalSum(s, true) == MulSum(s)
    decreases |s|
  {
    if s != [] {
      assert s[0..] == s;
      match MatchMul(s)
      case Some(m) =>
        assert NoConditionals(s[m.len..]) by {
          forall k | 0 <= k <= |s[m.len..]| ensures s[m.len..][k..] == s[m.len + k..] { }
        }
        NoConditionalsSameSum(s[m.len..]);
      case None =>
        assert NoConditionals(s[1..]) by {
          forall k | 0 <= k <= |s[1..]| ensures s[1..][k..] == s[1 + k..] { }
        }
        NoConditionalsSameSum(s[1..]);
    }
  }

  /** A disabled scan counts nothing until a `do()` appears. */
  lemma {:induction false} DisabledCountsNothing(s: string)
    requires forall k :: 0 <= k <= |s| ==> !StartsWith(s[k..], "do()")
    ensures ConditionalSum(s, false) == 0
    decreases |s|
  {
    if s != [] {
      assert s[0..] == s;
      match MatchMul(s)
      case Some(m) =>
        forall k | 0 <= k <= |s[m.len..]| ensures s[m.len..][k..] == s[m.len + k..] { }
        DisabledCountsNothing(s[m.len..]);
      case None =>
        if StartsWith(s, "don't()") {
          forall k | 0 <= k <= |s[7..]| ensures s[7..][k..] == s[7 + k..] { }
          DisabledCountsNothing(s[7..]);
        } else {
          forall k | 0 <= k <= |s[1..]| ensures s[1..][k..] == s[1 + k..] { }
          DisabledCountsNothing(s[1..]);
        }
    }
  }
}
