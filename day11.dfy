/** Day 11: Plutonian Pebbles -- stones engraved with numbers change on every blink. */
module Day11 {
  import opened Decimal

  // ---------------------------------------------------------------------------
  // split and evolve
  // ---------------------------------------------------------------------------

  /**
   * split: the integer values of the two halves of a numeral of at least two
   * digits (int('') fails, so a numeral of one digit has no split).  The two
   * values recombine to the numeral's own value, the right one below the
   * power of ten its length gives.
   */
  function Split(stone: string): (r: (int, int))
    requires |stone| >= 2 && IsNumeral(stone)
    ensures var t := |stone| - |stone| / 2;
      0 <= r.0 && 0 <= r.1 < Pow10(t) && Value(stone) == r.0 * Pow10(t) + r.1
  {
    var h := |stone| / 2;
    var left, right := stone[..h], stone[h..];
    assert stone == left + right;
    ValueOfAppend(left, right);
    ValueBounds(left);
    ValueBounds(right);
    (Value(left), Value(right))
  }

  /** Leading zeros of the right half vanish: '1000' splits into 10 and 0. */
  lemma SplitDropsLeadingZeros()
    ensures Split("1000") == (10, 0)
  {
    assert "1000"[..2] == "10" && "10"[..1] == "1" && "1"[..0] == "";
    assert "1000"[2..] == "00" && "00"[..1] == "0" && "0"[..0] == "";
    assert Value("10") == 10 && Value("00") == 0;
  }

  /** The stone splits when it is not 0 and its numeral has an even length. */
  predicate Splits(stone: nat) {
    stone != 0 && Digits(stone) % 2 == 0
  }

  /**
   * evolve: the rules, in order -- 0 becomes 1; a numeral of even length
   * splits into its two halves; every other stone is multiplied by 2024.
   */
  function Evolve(stone: nat): (r: seq<nat>)
    ensures 1 <= |r| <= 2
    ensures |r| == 2 <==> Splits(stone)
    ensures stone == 0 ==> r == [1]
    ensures Splits(stone) ==> stone == r[0] * Pow10(Digits(stone) / 2) + r[1] && r[1] < Pow10(Digits(stone) / 2)
    ensures stone != 0 && !Splits(stone) ==> r == [stone * 2024]
  {
    if stone == 0 then [1]
    else if Digits(stone) % 2 == 0 then
      var s := Dec(stone);
      DecIsNumeral(stone);
      ValueOfDec(stone);
      var (a, b) := Split(s);
      [a, b]
    else [stone * 2024]
  }

  /** One blink: every stone evolves, and the results stay in order. */
  function Blink(stones: seq<nat>): seq<nat> {
    if stones == [] then [] else Evolve(stones[0]) + Blink(stones[1..])
  }

  /** The row of stones after k blinks. */
  function BlinkN(stones: seq<nat>, k: nat): seq<nat> {
    if k == 0 then stones else Blink(BlinkN(stones, k - 1))
  }

  /** A blink keeps the number of stones or at most doubles it. */
  lemma {:induction false} BlinkCount(stones: seq<nat>)
    ensures |stones| <= |Blink(stones)| <= 2 * |stones|
  {
    if stones != [] {
      BlinkCount(stones[1..]);
    }
  }

  /** Stones evolve independently: a blink distributes over concatenation. */
  lemma {:induction false} BlinkAppend(a: seq<nat>, b: seq<nat>)
    ensures Blink(a + b) == Blink(a) + Blink(b)
  {
    if a == [] {
      assert a + b == b;
    } else {
      assert (a + b)[1..] == a[1..] + b;
      BlinkAppend(a[1..], b);
    }
  }

  /** Taking the element at i out of b leaves what is left of a after its head. */
  lemma RemoveMatch<T>(a: seq<T>, b: seq<T>, i: nat)
    requires multiset(a) == multiset(b) && a != [] && i < |b| && b[i] == a[0]
    ensures multiset(a[1..]) == multiset(b[..i] + b[i + 1..])
  {
    assert a == [a[0]] + a[1..];
    assert b == b[..i] + [b[i]] + b[i + 1..];
    assert multiset(a[1..]) == multiset(a) - multiset{a[0]};
  }

  lemma SplitAt<T>(b: seq<T>, i: nat)
    requires i < |b|
    ensures b == b[..i] + [b[i]] + b[i + 1..]
  {
  }

  /** A blink of b holds the successors of b[i] next to the blink of the rest. */
  lemma BlinkPick(b: seq<nat>, i: nat)
    requires i < |b|
    ensures multiset(Blink(b)) == multiset(Evolve(b[i])) + multiset(Blink(b[..i] + b[i + 1..]))
  {
    var b1, x, b2 := b[..i], b[i], b[i + 1..];
    SplitAt(b, i);
    BlinkAppend(b1, b2);
    BlinkAppend(b1 + [x], b2);
    BlinkAppend(b1, [x]);
    assert Blink([x]) == Evolve(x) by {
      assert [x][1..] == [];
    }
  }

  /** The order of the stones does not matter to which stones a blink yields. */
  lemma {:induction false} BlinkPermutation(a: seq<nat>, b: seq<nat>)
    requires multiset(a) == multiset(b)
    ensures multiset(Blink(a)) == multiset(Blink(b))
    decreases |a|
  {
    if a == [] {
      assert |b| == |multiset(b)| == 0;
    } else {
      assert a[0] in multiset(b);
      var i :| 0 <= i < |b| && b[i] == a[0];
      RemoveMatch(a, b, i);
      BlinkPermutation(a[1..], b[..i] + b[i + 1..]);
      BlinkPick(b, i);
    }
  }

  // ---------------------------------------------------------------------------
  // Counting stones by value
  // ---------------------------------------------------------------------------

  /** c copies of x. */
  function Rep(x: nat, c: nat): (r: seq<nat>)
    ensures |r| == c
    ensures forall y :: multiset(r)[y] == (if y == x then c else 0)
  {
    if c == 0 then [] else [x] + Rep(x, c - 1)
  }

  /** Every element of s, repeated c times. */
  function RepeatEach(s: seq<nat>, c: nat): seq<nat> {
    if s == [] then [] else RepeatEach(s[..|s| - 1], c) + Rep(s[|s| - 1], c)
  }

  lemma {:induction false} RepeatEachStep(s: seq<nat>, c: nat)
    requires c >= 1
    ensures multiset(RepeatEach(s, c)) == multiset(s) + multiset(RepeatEach(s, c - 1))
    decreases |s|
  {
    if s != [] {
      var t, e := s[..|s| - 1], s[|s| - 1];
      RepeatEachStep(t, c);
      assert s == t + [e];
      assert Rep(e, c) == [e] + Rep(e, c - 1);
    }
  }

  lemma {:induction false} RepeatEachZero(s: seq<nat>)
    ensures RepeatEach(s, 0) == []
    decreases |s|
  {
    if s != [] {
      RepeatEachZero(s[..|s| - 1]);
    }
  }

  /** Blinking at c copies of a stone yields each of its successors c times. */
  lemma {:induction false} BlinkRep(k: nat, c: nat)
    ensures multiset(Blink(Rep(k, c))) == multiset(RepeatEach(Evolve(k), c))
  {
    if c > 0 {
      BlinkRep(k, c - 1);
      RepeatEachStep(Evolve(k), c);
      var r := Rep(k, c);
      assert r[0] == k && r[1..] == Rep(k, c - 1);
      assert Blink(r) == Evolve(k) + Blink(Rep(k, c - 1));
    } else {
      RepeatEachZero(Evolve(k));
    }
  }

  /**
   * cnt counts the multiset m as a Counter does: every present key has a
   * positive count and every value's count is its multiplicity.
   */
  ghost predicate Counts(cnt: map<nat, nat>, m: multiset<nat>) {
    (forall x :: x in cnt ==> cnt[x] > 0) &&
    (forall x :: m[x] == if x in cnt then cnt[x] else 0)
  }

  /** Adding c > 0 to the count of x adds c copies of x to the multiset. */
  lemma CountsAdd(cnt: map<nat, nat>, m: multiset<nat>, x: nat, c: nat)
    requires Counts(cnt, m) && c > 0
    ensures Counts(cnt[x := (if x in cnt then cnt[x] else 0) + c], m + multiset(Rep(x, c)))
  {
  }

  /** Counter(stones): the multiplicity of every value in the list. */
  method Tally(stones: seq<nat>) returns (cnt: map<nat, nat>)
    ensures Counts(cnt, multiset(stones))
  {
    cnt := map[];
    for i := 0 to |stones|
      invariant Counts(cnt, multiset(stones[..i]))
    {
      var x := stones[i];
      assert stones[..i + 1] == stones[..i] + [x];
      assert Rep(x, 1) == [x];
      CountsAdd(cnt, multiset(stones[..i]), x, 1);
      cnt := cnt[x := (if x in cnt then cnt[x] else 0) + 1];
    }
    assert stones[..|stones|] == stones;
  }

  /** new_counter[new_stone] += count for every successor of one stone. */
  method Credit(counter: map<nat, nat>, evolved: seq<nat>, count: nat, ghost m: multiset<nat>)
    returns (next: map<nat, nat>)
    requires Counts(counter, m) && count > 0
    ensures Counts(next, m + multiset(RepeatEach(evolved, count)))
  {
    next := counter;
    for j := 0 to |evolved|
      invariant Counts(next, m + multiset(RepeatEach(evolved[..j], count)))
    {
      var s := evolved[j];
      assert evolved[..j + 1][..j] == evolved[..j];
      CountsAdd(next, m + multiset(RepeatEach(evolved[..j], count)), s, count);
      next := next[s := (if s in next then next[s] else 0) + count];
    }
    assert evolved[..|evolved|] == evolved;
  }

  /** Blinking at count more copies of a stone adds its successors count times. */
  lemma BlinkMore(done: seq<nat>, stone: nat, count: nat)
    ensures multiset(Blink(done + Rep(stone, count)))
         == multiset(Blink(done)) + multiset(RepeatEach(Evolve(stone), count))
  {
    BlinkRep(stone, count);
    BlinkAppend(done, Rep(stone, count));
  }

  /** done repeats every key of counter outside keys as often as it counts it. */
  ghost predicate Taken(counter: map<nat, nat>, keys: set<nat>, done: seq<nat>) {
    forall x :: multiset(done)[x] == if x in counter && x !in keys then counter[x] else 0
  }

  lemma TakeOne(counter: map<nat, nat>, keys: set<nat>, done: seq<nat>, stone: nat)
    requires Taken(counter, keys, done) && stone in keys && stone in counter
    ensures Taken(counter, keys - {stone}, done + Rep(stone, counter[stone]))
  {
    assert multiset(done + Rep(stone, counter[stone])) == multiset(done) + multiset(Rep(stone, counter[stone]));
  }

  /** Once every key is taken, done is a reordering of the row counted, and so is its blink. */
  lemma TakenAll(counter: map<nat, nat>, done: seq<nat>, stones: seq<nat>)
    requires Taken(counter, {}, done) && Counts(counter, multiset(stones))
    ensures multiset(Blink(done)) == multiset(Blink(stones))
  {
    assert multiset(done) == multiset(stones) by {
      assert forall x :: multiset(done)[x] == multiset(stones)[x];
    }
    BlinkPermutation(done, stones);
  }

  /**
   * One iteration of evolve_and_count: every stone value evolves once, and
   * each successor is credited with the count of the stone it came from.
   * The new counter counts the blink of any row the old counter counts.
   */
  method BlinkCounter(counter: map<nat, nat>, ghost stones: seq<nat>) returns (next: map<nat, nat>)
    requires Counts(counter, multiset(stones))
    ensures Counts(next, multiset(Blink(stones)))
  {
    next := map[];
    var keys := counter.Keys;
    ghost var done: seq<nat> := [];
    while keys != {}
      invariant keys <= counter.Keys
      invariant Taken(counter, keys, done)
      invariant Counts(next, multiset(Blink(done)))
      decreases |keys|
    {
      var stone :| stone in keys;
      var count := counter[stone];
      next := Credit(next, Evolve(stone), count, multiset(Blink(done)));
      BlinkMore(done, stone, count);
      TakeOne(counter, keys, done, stone);
      done := done + Rep(stone, count);
      keys := keys - {stone};
    }
    TakenAll(counter, done, stones);
  }

  /** Removing every copy of x from m leaves |m| - m[x] elements. */
  lemma DropAll(m: multiset<nat>, x: nat)
    ensures |m[x := 0]| + m[x] == |m|
  {
    assert m == m[x := 0] + multiset(Rep(x, m[x]));
  }

  /** sum(counter.values()): the number of stones a counter counts. */
  method CountTotal(counter: map<nat, nat>, ghost m: multiset<nat>) returns (n: nat)
    requires Counts(counter, m)
    ensures n == |m|
  {
    n := 0;
    var keys := counter.Keys;
    ghost var rest := m;
    while keys != {}
      invariant keys <= counter.Keys
      invariant forall x :: rest[x] == if x in keys then counter[x] else 0
      invariant n + |rest| == |m|
      decreases |keys|
    {
      var stone :| stone in keys;
      DropAll(rest, stone);
      n := n + counter[stone];
      rest := rest[stone := 0];
      keys := keys - {stone};
    }
    assert rest == multiset{};
  }

  /**
   * evolve_and_count: the number of stones after the given number of
   * blinks, computed on counts per value rather than on the row itself, is
   * the length of the row obtained by blinking that often.
   */
  method EvolveAndCount(stones: seq<nat>, iterations: nat) returns (n: nat)
    ensures n == |BlinkN(stones, iterations)|
  {
    var counter := Tally(stones);
    for i := 0 to iterations
      invariant Counts(counter, multiset(BlinkN(stones, i)))
    {
      counter := BlinkCounter(counter, BlinkN(stones, i));
    }
    n := CountTotal(counter, multiset(BlinkN(stones, iterations)));
  }
}
