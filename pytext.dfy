/**
 * The Python string operations the puzzle parsers rely on -- str.split with
 * and without a separator, str.strip, int() and str() on integers -- over
 * ASCII text.
 */
module PyText {
  import opened Wrappers
  import opened Decimal

  /** The ASCII characters str.isspace accepts. */
  predicate IsSpace(c: char) {
    c == ' ' || 9 <= c as int <= 13 || 28 <= c as int <= 31
  }

  predicate NoSpace(s: string) {
    forall k :: 0 <= k < |s| ==> !IsSpace(s[k])
  }

  predicate AllSpace(s: string) {
    forall k :: 0 <= k < |s| ==> IsSpace(s[k])
  }

  // ---------------------------------------------------------------------------
  // str.split() without a separator
  // ---------------------------------------------------------------------------

  /** The run of non-space characters s starts with: the longest such prefix. */
  function Word(s: string): (w: string)
    ensures |w| <= |s| && w == s[..|w|] && NoSpace(w)
    ensures |w| < |s| ==> IsSpace(s[|w|])
  {
    if s == [] || IsSpace(s[0]) then [] else [s[0]] + Word(s[1..])
  }

  /** s.split(): the maximal runs of non-space characters of s, in order. */
  function Words(s: string): (r: seq<string>)
    ensures forall k :: 0 <= k < |r| ==> r[k] != [] && NoSpace(r[k])
    decreases |s|
  {
    if s == [] then []
    else if IsSpace(s[0]) then Words(s[1..])
    else var w := Word(s); [w] + Words(s[|w|..])
  }

  /** The word a string starts with ends where its first space is. */
  lemma WordOf(a: string, b: string)
    requires NoSpace(a) && (b == [] || IsSpace(b[0]))
    ensures Word(a + b) == a
  {
    var s := a + b;
    assert s[..|a|] == a;
    assert |Word(s)| == |a|;
  }

  /** Leading spaces do not change the words. */
  lemma {:induction false} WordsSkip(gap: string, b: string)
    requires AllSpace(gap)
    ensures Words(gap + b) == Words(b)
    decreases |gap|
  {
    if gap != [] {
      assert (gap + b)[0] == gap[0];
      assert Words(gap + b) == Words((gap + b)[1..]);
      assert (gap + b)[1..] == gap[1..] + b;
      WordsSkip(gap[1..], b);
    } else {
      assert gap + b == b;
    }
  }

  /** A word, then spaces, then more text: the word comes first. */
  lemma WordsOfJoin(a: string, gap: string, b: string)
    requires a != [] && NoSpace(a) && (gap + b == [] || (gap != [] && AllSpace(gap)))
    ensures Words(a + gap + b) == [a] + Words(b)
  {
    var s := a + (gap + b);
    assert a + gap + b == s;
    assert s[0] == a[0] && !IsSpace(s[0]);
    WordOf(a, gap + b);
    assert Words(s) == [a] + Words(s[|a|..]);
    assert s[|a|..] == gap + b;
    if gap != [] {
      WordsSkip(gap, b);
    } else {
      assert gap + b == b;
    }
  }

  // ---------------------------------------------------------------------------
  // str.split(sep) and str.join
  // ---------------------------------------------------------------------------

  /** sep occurs in s at index i. */
  predicate Occurs(s: string, sep: string, i: int) {
    0 <= i && i + |sep| <= |s| && s[i..i + |sep|] == sep
  }

  /** No occurrence of sep begins inside a, even one that runs on into a following sep. */
  predicate Free(a: string, sep: string) {
    forall i :: 0 <= i < |a| ==> !Occurs(a + sep, sep, i)
  }

  /** sep does not occur in a at all. */
  predicate Lacks(a: string, sep: string) {
    forall i :: 0 <= i <= |a| ==> !Occurs(a, sep, i)
  }

  /**
   * s.split(sep) for a non-empty sep: the pieces between the occurrences of
   * sep met scanning from the left, each taken whole before the search goes on.
   */
  function SplitOn(s: string, sep: string): (r: seq<string>)
    requires sep != []
    ensures |r| >= 1
    decreases |s|
  {
    if |s| < |sep| then [s]
    else if s[..|sep|] == sep then [[]] + SplitOn(s[|sep|..], sep)
    else var t := SplitOn(s[1..], sep); [[s[0]] + t[0]] + t[1..]
  }

  /** sep.join(parts). */
  function Join(parts: seq<string>, sep: string): string
    decreases |parts|
  {
    if parts == [] then [] else if |parts| == 1 then parts[0] else parts[0] + sep + Join(parts[1..], sep)
  }

  /** Joining after an empty first piece puts sep in front. */
  lemma JoinEmptyFirst(t: seq<string>, sep: string)
    requires t != []
    ensures Join([[]] + t, sep) == sep + Join(t, sep)
  {
    var p := [[]] + t;
    assert p[0] == [] && p[1..] == t;
  }

  /** Joining after a character is glued onto the first piece puts that character in front. */
  lemma JoinGlued(c: char, t: seq<string>, sep: string)
    requires t != []
    ensures Join([[c] + t[0]] + t[1..], sep) == [c] + Join(t, sep)
  {
    var p := [[c] + t[0]] + t[1..];
    if |t| > 1 {
      assert p[1..] == t[1..];
    }
  }

  /** Joining the pieces of a split with the separator gives back the text. */
  lemma {:induction false} JoinSplit(s: string, sep: string)
    requires sep != []
    ensures Join(SplitOn(s, sep), sep) == s
    decreases |s|
  {
    if |s| < |sep| {
    } else if s[..|sep|] == sep {
      JoinSplit(s[|sep|..], sep);
      JoinEmptyFirst(SplitOn(s[|sep|..], sep), sep);
      assert s == sep + s[|sep|..];
    } else {
      JoinSplit(s[1..], sep);
      JoinGlued(s[0], SplitOn(s[1..], sep), sep);
      assert s == [s[0]] + s[1..];
    }
  }

  /** A piece free of sep, then sep, then more text: the piece comes first. */
  lemma {:induction false} SplitFirst(a: string, sep: string, b: string)
    requires sep != [] && Free(a, sep)
    ensures SplitOn(a + sep + b, sep) == [a] + SplitOn(b, sep)
    decreases |a|
  {
    var s := a + sep + b;
    if a == [] {
      assert s == sep + b && s[..|sep|] == sep && s[|sep|..] == b;
    } else {
      assert !Occurs(a + sep, sep, 0);
      assert s[..|sep|] == (a + sep)[0..|sep|];
      forall i | 0 <= i < |a| - 1
        ensures !Occurs(a[1..] + sep, sep, i)
      {
        assert !Occurs(a + sep, sep, i + 1);
        assert (a[1..] + sep)[i..i + |sep|] == (a + sep)[i + 1..i + 1 + |sep|];
      }
      SplitFirst(a[1..], sep, b);
      assert s[1..] == a[1..] + sep + b;
      assert [s[0]] + a[1..] == a;
    }
  }

  /** A text without sep splits into itself alone. */
  lemma {:induction false} SplitWhole(a: string, sep: string)
    requires sep != [] && Lacks(a, sep)
    ensures SplitOn(a, sep) == [a]
    decreases |a|
  {
    if |a| >= |sep| {
      assert !Occurs(a, sep, 0);
      forall i | 0 <= i <= |a| - 1
        ensures !Occurs(a[1..], sep, i)
      {
        assert !Occurs(a, sep, i + 1);
        if i + |sep| <= |a| - 1 {
          assert a[1..][i..i + |sep|] == a[i + 1..i + 1 + |sep|];
        }
      }
      SplitWhole(a[1..], sep);
      assert a == [a[0]] + a[1..];
    }
  }

  /** A text without the first character of sep is free of sep and lacks it. */
  lemma WithoutLead(a: string, sep: string)
    requires sep != [] && sep[0] !in a
    ensures Free(a, sep) && Lacks(a, sep)
  {
    forall i | 0 <= i < |a|
      ensures !Occurs(a + sep, sep, i)
    {
      if i + |sep| <= |a + sep| {
        assert (a + sep)[i..i + |sep|][0] == a[i];
      }
    }
    forall i | 0 <= i <= |a|
      ensures !Occurs(a, sep, i)
    {
      if i < |a| && i + |sep| <= |a| {
        assert a[i..i + |sep|][0] == a[i];
      }
    }
  }

  // ---------------------------------------------------------------------------
  // str.strip()
  // ---------------------------------------------------------------------------

  function LStrip(s: string): (r: string)
    ensures |r| <= |s| && r == s[|s| - |r|..]
    ensures r == [] || !IsSpace(r[0])
  {
    if s != [] && IsSpace(s[0]) then LStrip(s[1..]) else s
  }

  function RStrip(s: string): (r: string)
    ensures |r| <= |s| && r == s[..|r|]
    ensures r == [] || !IsSpace(r[|r| - 1])
  {
    if s != [] && IsSpace(s[|s| - 1]) then RStrip(s[..|s| - 1]) else s
  }

  /** s.strip(): s without its leading and trailing spaces. */
  function Strip(s: string): (r: string)
    ensures r == [] || (!IsSpace(r[0]) && !IsSpace(r[|r| - 1]))
  {
    RStrip(LStrip(s))
  }

  /** rstrip removes trailing spaces and stops at a non-space character. */
  lemma {:induction false} RStripTrailing(s: string, gap: string)
    requires s != [] && !IsSpace(s[|s| - 1]) && AllSpace(gap)
    ensures RStrip(s + gap) == s
    decreases |gap|
  {
    if gap == [] {
      assert s + gap == s;
    } else {
      var g := gap[..|gap| - 1];
      assert (s + gap)[..|s + gap| - 1] == s + g;
      RStripTrailing(s, g);
    }
  }

  /** Trailing spaces (a line's newline, say) are stripped, and nothing else of a clean text. */
  lemma StripTrailing(s: string, gap: string)
    requires s != [] && !IsSpace(s[0]) && !IsSpace(s[|s| - 1]) && AllSpace(gap)
    ensures Strip(s + gap) == s
  {
    assert (s + gap)[0] == s[0];
    assert LStrip(s + gap) == s + gap;
    RStripTrailing(s, gap);
  }

  // ---------------------------------------------------------------------------
  // int() and str() on integers
  // ---------------------------------------------------------------------------

  /** A non-empty run of decimal digits. */
  predicate IsDigits(s: string) {
    s != [] && IsNumeral(s)
  }

  /**
   * int(s): a decimal literal with an optional sign, spaces around it
   * allowed; None where int raises ValueError.
   */
  function ParseInt(s: string): Option<int> {
    var t := Strip(s);
    if IsDigits(t) then Some(Value(t))
    else if |t| >= 2 && t[0] == '-' && IsDigits(t[1..]) then Some(-Value(t[1..]))
    else if |t| >= 2 && t[0] == '+' && IsDigits(t[1..]) then Some(Value(t[1..]))
    else None
  }

  /** str(n). */
  function Show(n: int): (s: string)
    ensures s != [] && NoSpace(s) && '0' <= s[|s| - 1] <= '9'
    ensures forall k :: 0 <= k < |s| ==> s[k] == '-' || '0' <= s[k] <= '9'
  {
    DecIsNumeral(if n < 0 then -n else n);
    if n < 0 then "-" + Dec(-n) else Dec(n)
  }

  /** int(str(n)) == n. */
  lemma ParseShow(n: int)
    ensures ParseInt(Show(n)) == Some(n)
  {
    var m := if n < 0 then -n else n;
    DecIsNumeral(m);
    ValueOfDec(m);
    if n < 0 {
      ParseSigned(Dec(m));
    } else {
      ParseUnsigned(Dec(m));
    }
  }

  /** A text with no space at either end is its own strip. */
  lemma StripClean(t: string)
    requires t != [] && !IsSpace(t[0]) && !IsSpace(t[|t| - 1])
    ensures Strip(t) == t
  {
    StripTrailing(t, []);
    assert t + [] == t;
  }

  lemma ParseUnsigned(d: string)
    requires IsDigits(d)
    ensures ParseInt(d) == Some(Value(d))
  {
    StripClean(d);
  }

  lemma ParseSigned(d: string)
    requires IsDigits(d)
    ensures ParseInt("-" + d) == Some(-Value(d))
  {
    var s := "-" + d;
    assert s[1..] == d && s[|s| - 1] == d[|d| - 1];
    StripClean(s);
    assert !IsDigits(s) by {
      assert s[0] == '-';
    }
  }

  /** A character that is neither a digit nor '-' never occurs in str(n). */
  lemma ShowLacks(n: int, c: char)
    requires c != '-' && !('0' <= c <= '9')
    ensures c !in Show(n)
  {
    var s := Show(n);
    forall k | 0 <= k < |s|
      ensures s[k] != c
    {
      assert s[k] == '-' || '0' <= s[k] <= '9';
    }
  }

  /** int() skips the space in front of a number, as in "A: 729". */
  lemma ParseSpaced(n: int)
    ensures ParseInt(" " + Show(n)) == Some(n)
  {
    var s := Show(n);
    ParseShow(n);
    SpacedStrip(s);
  }

  lemma SpacedStrip(s: string)
    requires s != [] && !IsSpace(s[0]) && !IsSpace(s[|s| - 1])
    ensures Strip(" " + s) == Strip(s)
  {
    var t := " " + s;
    assert t[1..] == s;
    assert LStrip(t) == LStrip(s);
  }

  /** Pieces without the first character of sep, joined with sep, split back into
      the pieces. */
  lemma {:induction false} SplitJoin(parts: seq<string>, sep: string)
    requires sep != [] && parts != [] && forall k :: 0 <= k < |parts| ==> sep[0] !in parts[k]
    ensures SplitOn(Join(parts, sep), sep) == parts
    decreases |parts|
  {
    WithoutLead(parts[0], sep);
    if |parts| == 1 {
      SplitWhole(parts[0], sep);
    } else {
      var rest := parts[1..];
      SplitJoin(rest, sep);
      SplitFirst(parts[0], sep, Join(rest, sep));
      assert parts == [parts[0]] + rest;
    }
  }

  /** int() of the two halves of "a,b"; None where the unpacking or int() raises ValueError. */
  function ParsePair(s: string): Option<(int, int)> {
    var halves := SplitOn(s, ",");
    if |halves| != 2 then None
    else match (ParseInt(halves[0]), ParseInt(halves[1]))
      case (Some(a), Some(b)) => Some((a, b))
      case _ => None
  }

  /** Two comma-free texts joined by a comma split back into the two. */
  lemma SplitPair(u: string, w: string)
    requires ',' !in u && ',' !in w
    ensures SplitOn(u + "," + w, ",") == [u, w]
  {
    WithoutLead(u, ",");
    WithoutLead(w, ",");
    SplitFirst(u, ",", w);
    SplitWhole(w, ",");
  }

  lemma ParsePairShow(a: int, b: int)
    ensures ParsePair(Show(a) + "," + Show(b)) == Some((a, b))
  {
    ShowLacks(a, ',');
    ShowLacks(b, ',');
    SplitPair(Show(a), Show(b));
    ParseShow(a);
    ParseShow(b);
  }
}
