/**
 * Day 19 (Linen Layout): which designs can be laid out from the available
 * towel patterns, and in how many ways.  A design is a string of stripe
 * colours; a towel is a non-empty string of colours that may be used any
 * number of times.
 */
module Day19 {
  import opened Wrappers
  import opened PyText

  // ---------------------------------------------------------------------------
  // parse_input
  // ---------------------------------------------------------------------------

  /**
   * The text splits at the blank line into exactly two parts (otherwise the
   * unpacking raises ValueError, modelled as None); the towels are separated
   * by ", " and the designs by line breaks.
   */
  function ParseInput(raw: string): (r: Option<(seq<string>, seq<string>)>)
    ensures r.Some? ==> |r.value.0| >= 1 && |r.value.1| >= 1
  {
    var halves := SplitOn(raw, "\n\n");
    if |halves| != 2 then None
    else Some((SplitOn(halves[0], ", "), SplitOn(halves[1], "\n")))
  }

  /** The puzzle text for a towel list and a design list. */
  function Format(towels: seq<string>, patterns: seq<string>): string {
    Join(towels, ", ") + "\n\n" + Join(patterns, "\n")
  }

  /** c occurs neither in any part nor in the separator, hence not in the joined text. */
  lemma {:induction false} JoinWithout(parts: seq<string>, sep: string, c: char)
    requires c !in sep && forall k :: 0 <= k < |parts| ==> c !in parts[k]
    ensures c !in Join(parts, sep)
    decreases |parts|
  {
    if |parts| > 1 {
      JoinWithout(parts[1..], sep, c);
    }
  }

  /** Non-empty lines without line breaks, joined by line breaks, hold no blank line. */
  lemma {:induction false} NoBlankLine(parts: seq<string>)
    requires forall k :: 0 <= k < |parts| ==> parts[k] != [] && '\n' !in parts[k]
    ensures Lacks(Join(parts, "\n"), "\n\n")
    decreases |parts|
  {
    var s := Join(parts, "\n");
    if |parts| == 1 {
      WithoutLead(parts[0], "\n\n");
    } else if |parts| > 1 {
      var p := parts[0];
      var t := Join(parts[1..], "\n");
      NoBlankLine(parts[1..]);
      assert s == p + "\n" + t;
      assert t != [] && t[0] == parts[1][0] by {
        if |parts[1..]| > 1 {
          assert t == parts[1] + "\n" + Join(parts[2..], "\n");
        }
      }
      forall i | 0 <= i <= |s|
        ensures !Occurs(s, "\n\n", i)
      {
        if i + 2 <= |s| {
          if i < |p| {
            assert s[i] == p[i];
          } else if i == |p| {
            assert s[i + 1] == t[0];
          } else {
            assert !Occurs(t, "\n\n", i - |p| - 1);
            assert s[i..i + 2] == t[i - |p| - 1..i - |p| + 1];
          }
        }
      }
    }
  }

  /** Parsing the formatted text gives back the towels and the designs. */
  lemma ParseFormat(towels: seq<string>, patterns: seq<string>)
    requires towels != [] && patterns != []
    requires forall k :: 0 <= k < |towels| ==> ',' !in towels[k] && '\n' !in towels[k]
    requires forall k :: 0 <= k < |patterns| ==> patterns[k] != [] && '\n' !in patterns[k]
    ensures ParseInput(Format(towels, patterns)) == Some((towels, patterns))
  {
    var a := Join(towels, ", ");
    var b := Join(patterns, "\n");
    JoinWithout(towels, ", ", '\n');
    WithoutLead(a, "\n\n");
    NoBlankLine(patterns);
    SplitFirst(a, "\n\n", b);
    SplitWhole(b, "\n\n");
    SplitJoin(towels, ", ");
    SplitJoin(patterns, "\n");
  }

  // ---------------------------------------------------------------------------
  // Tilings: the meaning of both searches
  // ---------------------------------------------------------------------------

  /** Every towel is non-empty (an empty one would make both searches recurse forever). */
  predicate NoEmpty(subs: seq<string>) {
    forall k :: 0 <= k < |subs| ==> subs[k] != []
  }

  function Concat(x: seq<string>): string {
    if x == [] then [] else x[0] + Concat(x[1..])
  }

  /** x is one or more towels, used with repetition, that spell the target in order. */
  ghost predicate IsTiling(subs: seq<string>, target: string, x: seq<string>) {
    x != [] && (forall k :: 0 <= k < |x| ==> x[k] in subs) && Concat(x) == target
  }

  ghost predicate Tileable(subs: seq<string>, target: string) {
    exists x :: IsTiling(subs, target, x)
  }

  function Prepend(s: string, xs: seq<seq<string>>): (r: seq<seq<string>>)
    ensures |r| == |xs| && forall k :: 0 <= k < |r| ==> r[k] == [s] + xs[k]
  {
    seq(|xs|, k requires 0 <= k < |xs| => [s] + xs[k])
  }

  /**
   * All tilings of the target, enumerated by the towel they start with:
   * the towels in list order, each followed by the tilings of what it leaves.
   */
  function Tilings(subs: seq<string>, target: string): seq<seq<string>>
    requires NoEmpty(subs)
    decreases |target|, |subs| + 1
  {
    TilingsUpTo(subs, target, |subs|)
  }

  /** The tilings that start with one of the first n towels. */
  function TilingsUpTo(subs: seq<string>, target: string, n: nat): seq<seq<string>>
    requires NoEmpty(subs) && n <= |subs|
    decreases |target|, n
  {
    if n == 0 then [] else TilingsUpTo(subs, target, n - 1) + TilingsFrom(subs, target, n - 1)
  }

  /** The tilings that start with towel j. */
  function TilingsFrom(subs: seq<string>, target: string, j: nat): seq<seq<string>>
    requires NoEmpty(subs) && j < |subs|
    decreases |target|, j
  {
    var s := subs[j];
    if s == target then [[s]]
    else if s <= target then Prepend(s, Tilings(subs, target[|s|..]))
    else []
  }

  /** A tiling spells its first towel followed by the rest. */
  lemma ConcatCons(s: string, y: seq<string>)
    ensures Concat([s] + y) == s + Concat(y)
  {
    assert ([s] + y)[1..] == y;
  }

  /** Everything enumerated is a tiling. */
  lemma {:induction false} FromSound(subs: seq<string>, target: string, j: nat)
    requires NoEmpty(subs) && j < |subs|
    ensures forall x :: x in TilingsFrom(subs, target, j) ==> IsTiling(subs, target, x)
    decreases |target|, j
  {
    var s := subs[j];
    if s == target {
      assert Concat([s]) == s + Concat([]);
      assert IsTiling(subs, target, [s]);
    } else if s <= target {
      var rest := target[|s|..];
      var ys := Tilings(subs, rest);
      UpToSound(subs, rest, |subs|);
      assert target == s + rest;
      var xs := TilingsFrom(subs, target, j);
      assert xs == Prepend(s, ys);
      assert s in subs;
      forall a | 0 <= a < |xs|
        ensures IsTiling(subs, target, xs[a])
      {
        var y := ys[a];
        assert y in TilingsUpTo(subs, rest, |subs|);
        assert IsTiling(subs, rest, y);
        assert xs[a] == [s] + y;
        ConcatCons(s, y);
        assert forall i :: 1 <= i < |xs[a]| ==> xs[a][i] == y[i - 1];
      }
    }
  }

  lemma {:induction false} UpToSound(subs: seq<string>, target: string, n: nat)
    requires NoEmpty(subs) && n <= |subs|
    ensures forall x :: x in TilingsUpTo(subs, target, n) ==> IsTiling(subs, target, x)
    decreases |target|, n
  {
    if n > 0 {
      UpToSound(subs, target, n - 1);
      FromSound(subs, target, n - 1);
    }
  }

  /** The tilings starting with towel j are among those starting with one of the first n. */
  lemma {:induction false} UpToHas(subs: seq<string>, target: string, j: nat, n: nat)
    requires NoEmpty(subs) && j < n <= |subs|
    ensures forall x :: x in TilingsFrom(subs, target, j) ==> x in TilingsUpTo(subs, target, n)
    decreases n
  {
    if j < n - 1 {
      UpToHas(subs, target, j, n - 1);
    }
  }

  /** A non-empty sequence of non-empty towels spells a non-empty text. */
  lemma ConcatNonEmpty(subs: seq<string>, x: seq<string>)
    requires NoEmpty(subs) && x != [] && forall k :: 0 <= k < |x| ==> x[k] in subs
    ensures Concat(x) != []
  {
    assert x[0] in subs;
  }

  /** Every tiling is enumerated. */
  lemma {:induction false} TilingsComplete(subs: seq<string>, target: string, x: seq<string>)
    requires NoEmpty(subs) && IsTiling(subs, target, x)
    ensures x in Tilings(subs, target)
    decreases |target|
  {
    var s := x[0];
    assert s in subs;
    var j :| 0 <= j < |subs| && subs[j] == s;
    var y := x[1..];
    assert x == [s] + y;
    ConcatCons(s, y);
    assert target[..|s|] == s;
    if y == [] {
      assert Concat(y) == [] && target == s;
      assert x == [s] && TilingsFrom(subs, target, j) == [[s]];
    } else {
      assert forall k :: 0 <= k < |y| ==> y[k] == x[k + 1];
      ConcatNonEmpty(subs, y);
      var rest := target[|s|..];
      assert Concat(y) == rest;
      TilingsComplete(subs, rest, y);
      var ys := Tilings(subs, rest);
      var k :| 0 <= k < |ys| && ys[k] == y;
      assert TilingsFrom(subs, target, j)[k] == x;
    }
    UpToHas(subs, target, j, |subs|);
  }

  /** The enumeration holds exactly the tilings. */
  lemma TilingsExactly(subs: seq<string>, target: string)
    requires NoEmpty(subs)
    ensures forall x :: x in Tilings(subs, target) <==> IsTiling(subs, target, x)
  {
    UpToSound(subs, target, |subs|);
    forall x | IsTiling(subs, target, x)
      ensures x in Tilings(subs, target)
    {
      TilingsComplete(subs, target, x);
    }
  }

  /** A target is tileable exactly when it has at least one tiling. */
  lemma TileableCount(subs: seq<string>, target: string)
    requires NoEmpty(subs)
    ensures Tileable(subs, target) <==> |Tilings(subs, target)| > 0
  {
    TilingsExactly(subs, target);
    if |Tilings(subs, target)| > 0 {
      assert IsTiling(subs, target, Tilings(subs, target)[0]);
    }
  }

  /** Every tiling from towel j starts with towel j. */
  lemma FromHeads(subs: seq<string>, target: string, j: nat)
    requires NoEmpty(subs) && j < |subs|
    ensures forall x :: x in TilingsFrom(subs, target, j) ==> x != [] && x[0] == subs[j]
  {
  }

  /** Every tiling from the first n towels starts with one of them. */
  lemma {:induction false} UpToHeads(subs: seq<string>, target: string, n: nat)
    requires NoEmpty(subs) && n <= |subs|
    ensures forall x :: x in TilingsUpTo(subs, target, n) ==> x != [] && x[0] in subs[..n]
    decreases n
  {
    if n > 0 {
      UpToHeads(subs, target, n - 1);
      FromHeads(subs, target, n - 1);
      assert subs[..n] == subs[..n - 1] + [subs[n - 1]];
    }
  }

  /** With no towel listed twice, no tiling is enumerated twice. */
  lemma {:induction false} FromDistinct(subs: seq<string>, target: string, j: nat)
    requires NoEmpty(subs) && Distinct(subs) && j < |subs|
    ensures Distinct(TilingsFrom(subs, target, j))
    decreases |target|, j
  {
    var s := subs[j];
    if s != target && s <= target {
      var ys := Tilings(subs, target[|s|..]);
      UpToDistinct(subs, target[|s|..], |subs|);
      var xs := TilingsFrom(subs, target, j);
      forall a, b | 0 <= a < b < |xs|
        ensures xs[a] != xs[b]
      {
        assert xs[a][1..] == ys[a] && xs[b][1..] == ys[b];
      }
    }
  }

  lemma {:induction false} UpToDistinct(subs: seq<string>, target: string, n: nat)
    requires NoEmpty(subs) && Distinct(subs) && n <= |subs|
    ensures Distinct(TilingsUpTo(subs, target, n))
    decreases |target|, n
  {
    if n > 0 {
      UpToDistinct(subs, target, n - 1);
      FromDistinct(subs, target, n - 1);
      UpToHeads(subs, target, n - 1);
      FromHeads(subs, target, n - 1);
      var before := TilingsUpTo(subs, target, n - 1);
      forall a | 0 <= a < |before|
        ensures before[a] !in TilingsFrom(subs, target, n - 1)
      {
        assert before[a] in before;
        var i :| 0 <= i < n - 1 && subs[..n - 1][i] == before[a][0];
        assert subs[i] != subs[n - 1];
      }
      DistinctAppend(TilingsUpTo(subs, target, n - 1), TilingsFrom(subs, target, n - 1));
    }
  }

  // ---------------------------------------------------------------------------
  // recursive_search
  // ---------------------------------------------------------------------------

  /** A towel equal to the target is a tiling by itself. */
  lemma TileWhole(subs: seq<string>, target: string)
    requires target in subs
    ensures Tileable(subs, target)
  {
    assert Concat([target]) == target + Concat([]);
    assert IsTiling(subs, target, [target]);
  }

  /** A towel that starts the target, before a tiling of the rest, tiles the target. */
  lemma TileCons(subs: seq<string>, target: string, s: string)
    requires s in subs && s <= target && Tileable(subs, target[|s|..])
    ensures Tileable(subs, target)
  {
    var y :| IsTiling(subs, target[|s|..], y);
    ConcatCons(s, y);
    assert target == s + target[|s|..];
    var x := [s] + y;
    assert forall i :: 1 <= i < |x| ==> x[i] == y[i - 1];
    assert IsTiling(subs, target, x);
  }

  /** A tileable target is a towel or starts with a towel before a tileable rest. */
  lemma TileSplit(subs: seq<string>, target: string)
    requires NoEmpty(subs)
    ensures Tileable(subs, target) ==>
              target in subs ||
              exists j :: 0 <= j < |subs| && subs[j] <= target && Tileable(subs, target[|subs[j]|..])
  {
    if Tileable(subs, target) && target !in subs {
      var x :| IsTiling(subs, target, x);
      var s := x[0];
      assert s in subs;
      var j :| 0 <= j < |subs| && subs[j] == s;
      var y := x[1..];
      assert x == [s] + y;
      ConcatCons(s, y);
      assert target[..|s|] == s && target[|s|..] == Concat(y);
      assert s != target;
      assert y != [];
      assert forall k :: 0 <= k < |y| ==> y[k] == x[k + 1];
      assert IsTiling(subs, target[|s|..], y);
    }
  }

  /** Every member of the set is a target known to have no tiling. */
  ghost predicate AllImpossible(subs: seq<string>, impossible: set<string>) {
    forall u :: u in impossible ==> !Tileable(subs, u)
  }

  /**
   * True iff the target is one or more towels (with repetition) in a row.
   * The impossible set, shared by the recursive calls, only ever receives
   * targets with no tiling, so skipping them never loses an answer.
   */
  method RecursiveSearch(subs: seq<string>, target: string, impossible: set<string>)
    returns (r: bool, impossible': set<string>)
    requires NoEmpty(subs) && AllImpossible(subs, impossible)
    ensures r <==> Tileable(subs, target)
    ensures impossible <= impossible' && AllImpossible(subs, impossible')
    ensures !r ==> target in impossible'
    decreases |target|
  {
    impossible' := impossible;
    if target in subs {
      TileWhole(subs, target);
      return true, impossible';
    }
    for i := 0 to |subs|
      invariant impossible <= impossible' && AllImpossible(subs, impossible')
      invariant forall j :: 0 <= j < i ==> !(subs[j] <= target && Tileable(subs, target[|subs[j]|..]))
    {
      var s := subs[i];
      if s <= target {
        var rest := target[|s|..];
        if rest !in impossible' {
          var found;
          found, impossible' := RecursiveSearch(subs, rest, impossible');
          if found {
            TileCons(subs, target, s);
            return true, impossible';
          }
        }
      }
    }
    TileSplit(subs, target);
    impossible' := impossible' + {target};
    r := false;
  }

  // ---------------------------------------------------------------------------
  // counting_search
  // ---------------------------------------------------------------------------

  /** Every cached count is the number of tilings of its key. */
  predicate Cached(subs: seq<string>, cache: map<string, nat>)
    requires NoEmpty(subs)
  {
    forall u :: u in cache ==> cache[u] == |Tilings(subs, u)|
  }

  /**
   * The number of ordered towel sequences spelling the target, counted as the
   * enumeration Tilings lists them; the cache, shared by the recursive calls,
   * gains the count of every target it is asked about and keeps its entries.
   */
  method CountingSearch(subs: seq<string>, target: string, cache: map<string, nat>)
    returns (r: nat, cache': map<string, nat>)
    requires NoEmpty(subs) && Cached(subs, cache)
    ensures r == |Tilings(subs, target)|
    ensures cache.Keys <= cache'.Keys && Cached(subs, cache') && target in cache'
    decreases |target|
  {
    var options := 0;
    cache' := cache;
    for i := 0 to |subs|
      invariant options == |TilingsUpTo(subs, target, i)|
      invariant cache.Keys <= cache'.Keys && Cached(subs, cache')
    {
      var s := subs[i];
      if s == target {
        options := options + 1;
        continue;
      }
      if s <= target {
        var rest := target[|s|..];
        if rest !in cache' {
          var count;
          count, cache' := CountingSearch(subs, rest, cache');
        }
        options := options + cache'[rest];
      }
    }
    cache' := cache'[target := options];
    r := options;
  }

  // ---------------------------------------------------------------------------
  // part1 and part2
  // ---------------------------------------------------------------------------

  /** Python's `t in pattern` for strings: t is a substring of the pattern. */
  function Within(t: string, p: string): bool
    decreases |p|
  {
    t <= p || (p != [] && Within(t, p[1..]))
  }

  /** An occurrence at position i makes t a substring. */
  lemma {:induction false} OccursWithin(t: string, p: string, i: int)
    requires Occurs(p, t, i)
    ensures Within(t, p)
    decreases i
  {
    if i == 0 {
      assert p[..|t|] == t;
    } else {
      assert p[1..][i - 1..i - 1 + |t|] == p[i..i + |t|];
      OccursWithin(t, p[1..], i - 1);
    }
  }

  /** A substring occurs at some position. */
  lemma {:induction false} WithinOccurs(t: string, p: string)
    requires Within(t, p)
    ensures exists i :: Occurs(p, t, i)
    decreases |p|
  {
    if t <= p {
      assert Occurs(p, t, 0);
    } else {
      WithinOccurs(t, p[1..]);
      var i :| Occurs(p[1..], t, i);
      assert p[1..][i..i + |t|] == p[i + 1..i + 1 + |t|];
      assert Occurs(p, t, i + 1);
    }
  }

  /** Within holds exactly when t occurs at some position of p. */
  lemma WithinIff(t: string, p: string)
    ensures Within(t, p) <==> exists i :: Occurs(p, t, i)
  {
    if Within(t, p) {
      WithinOccurs(t, p);
    }
    forall i | Occurs(p, t, i)
      ensures Within(t, p)
    {
      OccursWithin(t, p, i);
    }
  }

  /** A substring of a suffix of p is a substring of p. */
  lemma {:induction false} WithinDrop(t: string, p: string, n: nat)
    requires n <= |p| && Within(t, p[n..])
    ensures Within(t, p)
    decreases n
  {
    if n > 0 {
      assert p[1..][n - 1..] == p[n..];
      WithinDrop(t, p[1..], n - 1);
    }
  }

  /** Every towel of a tiling occurs in what it spells. */
  lemma {:induction false} PiecesWithin(x: seq<string>, p: string)
    requires Concat(x) == p
    ensures forall k :: 0 <= k < |x| ==> Within(x[k], p)
    decreases |x|
  {
    if x != [] {
      PiecesWithin(x[1..], Concat(x[1..]));
      assert p == x[0] + Concat(x[1..]) && p[|x[0]|..] == Concat(x[1..]);
      forall k | 1 <= k < |x|
        ensures Within(x[k], p)
      {
        assert x[k] == x[1..][k - 1];
        WithinDrop(x[k], p, |x[0]|);
      }
    }
  }

  /**
   * {t for t in towels if t in pattern}: each towel that occurs in the pattern,
   * once (the iteration order of the Python set is left open; this takes the
   * towels in list order).
   */
  function Relevant(towels: seq<string>, pattern: string): (r: seq<string>)
    ensures forall t :: t in r <==> t in towels && Within(t, pattern)
    ensures Distinct(r)
    ensures NoEmpty(towels) ==> NoEmpty(r)
    decreases |towels|
  {
    if towels == [] then []
    else
      var r := Relevant(towels[..|towels| - 1], pattern);
      var t := towels[|towels| - 1];
      assert towels == towels[..|towels| - 1] + [t];
      if Within(t, pattern) && t !in r then r + [t] else r
  }

  /** Restricting the towels to the relevant ones keeps exactly the same tilings. */
  lemma RelevantTilings(towels: seq<string>, pattern: string)
    ensures forall x :: IsTiling(Relevant(towels, pattern), pattern, x) <==> IsTiling(towels, pattern, x)
  {
    forall x | IsTiling(towels, pattern, x)
      ensures IsTiling(Relevant(towels, pattern), pattern, x)
    {
      PiecesWithin(x, pattern);
    }
  }

  /** The number of designs that can be laid out. */
  ghost function PossibleCount(towels: seq<string>, patterns: seq<string>): nat
    decreases |patterns|
  {
    if patterns == [] then 0
    else (PossibleCount(towels, patterns[..|patterns| - 1]) +
          if Tileable(towels, patterns[|patterns| - 1]) then 1 else 0)
  }

  /** The number of designs that are one or more towels in a row. */
  method Part1(towels: seq<string>, patterns: seq<string>) returns (possible: nat)
    requires NoEmpty(towels)
    ensures possible == PossibleCount(towels, patterns)
  {
    possible := 0;
    for i := 0 to |patterns|
      invariant possible == PossibleCount(towels, patterns[..i])
    {
      var pattern := patterns[i];
      assert patterns[..i + 1][..i] == patterns[..i];
      var relevant := Relevant(towels, pattern);
      RelevantTilings(towels, pattern);
      assert Tileable(relevant, pattern) <==> Tileable(towels, pattern);
      if |relevant| == 0 {
        assert !Tileable(relevant, pattern);
        continue;
      }
      var found, _ := RecursiveSearch(relevant, pattern, {});
      if found {
        possible := possible + 1;
      }
    }
    assert patterns[..|patterns|] == patterns;
  }

  /** For each design the number of distinct towel sequences spelling it, summed. */
  function WaysTotal(towels: seq<string>, patterns: seq<string>): nat
    requires NoEmpty(towels)
    decreases |patterns|
  {
    if patterns == [] then 0
    else (var p := patterns[|patterns| - 1];
          WaysTotal(towels, patterns[..|patterns| - 1]) + |Tilings(Relevant(towels, p), p)|)
  }

  /**
   * What one design contributes to part 2: the tilings over the relevant
   * towels are exactly the tilings over all the towels, each listed once.
   */
  lemma DesignWays(towels: seq<string>, pattern: string)
    requires NoEmpty(towels)
    ensures var ts := Tilings(Relevant(towels, pattern), pattern);
      Distinct(ts) && forall x :: x in ts <==> IsTiling(towels, pattern, x)
  {
    var relevant := Relevant(towels, pattern);
    TilingsExactly(relevant, pattern);
    RelevantTilings(towels, pattern);
    UpToDistinct(relevant, pattern, |relevant|);
  }

  /** The total number of ways to lay out all the designs. */
  method Part2(towels: seq<string>, patterns: seq<string>) returns (options: nat)
    requires NoEmpty(towels)
    ensures options == WaysTotal(towels, patterns)
  {
    options := 0;
    for i := 0 to |patterns|
      invariant options == WaysTotal(towels, patterns[..i])
    {
      var pattern := patterns[i];
      assert patterns[..i + 1][..i] == patterns[..i];
      var relevant := Relevant(towels, pattern);
      assert WaysTotal(towels, patterns[..i + 1]) ==
             WaysTotal(towels, patterns[..i]) + |Tilings(relevant, pattern)|;
      if |relevant| == 0 {
        continue;
      }
      var n, _ := CountingSearch(relevant, pattern, map[]);
      options := options + n;
    }
    assert patterns[..|patterns|] == patterns;
  }
}
