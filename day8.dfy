/** Day 8: Resonant Collinearity -- antennas of one frequency pair up, and each pair
    casts antinodes along its line: one step beyond each antenna, or (with resonance)
    every in-grid step along the line including the antennas. Points are (row, column).
    The worked example gives 14 and 34. */
module Day8 {

  type Pos = (int, int)

  predicate InBox(p: Pos, n: int, m: int) {
    0 <= p.0 < n && 0 <= p.1 < m
  }

  /** p + k·d, written without multiplication. */
  function Shift(p: Pos, d: Pos, k: nat): Pos {
    if k == 0 then p else (Shift(p, d, k - 1).0 + d.0, Shift(p, d, k - 1).1 + d.1)
  }

  /** (d.0, d.1) reversed. */
  function Neg(d: Pos): Pos { (-d.0, -d.1) }

  /** The antenna cells of frequency c: any character but '.'. */
  ghost predicate Antenna(g: seq<string>, c: char, p: Pos) {
    c != '.' && 0 <= p.0 < |g| && 0 <= p.1 < |g[p.0]| && g[p.0][p.1] == c
  }

  /** p comes before q in row-major order. */
  predicate Before(p: Pos, q: Pos) {
    p.0 < q.0 || (p.0 == q.0 && p.1 < q.1)
  }

  ghost predicate RowMajor(s: seq<Pos>) {
    forall a, b :: 0 <= a < b < |s| ==> Before(s[a], s[b])
  }

  /** Every antenna listed in freq comes before cell (i, j) in row-major order, every
      such antenna is listed, under its own frequency, and every list is non-empty. */
  ghost predicate ListedBefore(g: seq<string>, freq: map<char, seq<Pos>>, i: int, j: int) {
    (forall c :: c in freq ==> |freq[c]| > 0 && RowMajor(freq[c])) &&
    (forall c, p :: c in freq && p in freq[c] ==> Antenna(g, c, p) && Before(p, (i, j))) &&
    (forall c, p :: Antenna(g, c, p) && Before(p, (i, j)) ==> c in freq && p in freq[c])
  }

  /** freq after get_frequencies visits cell (i, j). */
  function Visit(g: seq<string>, freq: map<char, seq<Pos>>, i: nat, j: nat): map<char, seq<Pos>>
    requires i < |g| && j < |g[i]|
  {
    var c := g[i][j];
    if c == '.' then freq else freq[c := (if c in freq then freq[c] else []) + [(i, j)]]
  }

  lemma VisitKeepsListed(g: seq<string>, freq: map<char, seq<Pos>>, i: nat, j: nat)
    requires i < |g| && j < |g[i]| && ListedBefore(g, freq, i, j)
    ensures ListedBefore(g, Visit(g, freq, i, j), i, j + 1)
  {
    var c := g[i][j];
    var f := Visit(g, freq, i, j);
    if c != '.' {
      var l := if c in freq then freq[c] else [];
      assert f[c] == l + [(i, j)];
      forall c' | c' in f ensures |f[c']| > 0 && RowMajor(f[c']) {
        if c' == c {
          forall a, b | 0 <= a < b < |f[c]| ensures Before(f[c][a], f[c][b]) {
            if b == |l| { assert f[c][a] in freq[c]; }
          }
        }
      }
      forall c', p | c' in f && p in f[c'] ensures Antenna(g, c', p) && Before(p, (i, j + 1)) {
        if c' != c || p != (i, j) { assert p in freq[c']; }
      }
      forall c', p | Antenna(g, c', p) && Before(p, (i, j + 1)) ensures c' in f && p in f[c'] {
        if p != (i, j) { assert p in freq[c']; }
      }
    } else {
      assert f == freq;
      forall c', p | c' in f && p in f[c'] ensures Before(p, (i, j + 1)) {
        assert Before(p, (i, j));
      }
      forall c', p | Antenna(g, c', p) && Before(p, (i, j + 1)) ensures c' in f && p in f[c'] {
        assert p != (i, j);
        assert Before(p, (i, j));
      }
    }
  }

  lemma RowDone(g: seq<string>, freq: map<char, seq<Pos>>, i: nat)
    requires i < |g| && ListedBefore(g, freq, i, |g[i]|)
    ensures ListedBefore(g, freq, i + 1, 0)
  {
    forall c, p | c in freq && p in freq[c] ensures Before(p, (i + 1, 0)) {
      assert Before(p, (i, |g[i]|));
    }
    forall c, p | Antenna(g, c, p) && Before(p, (i + 1, 0)) ensures c in freq && p in freq[c] {
      assert Before(p, (i, |g[i]|));
    }
  }

  /** The inner loop of get_frequencies over row i. */
  method ScanRow(g: seq<string>, i: nat, freq0: map<char, seq<Pos>>) returns (freq: map<char, seq<Pos>>)
    requires i < |g| && ListedBefore(g, freq0, i, 0)
    ensures ListedBefore(g, freq, i + 1, 0)
  {
    freq := freq0;
    var j := 0;
    while j < |g[i]|
      invariant 0 <= j <= |g[i]|
      invariant ListedBefore(g, freq, i, j)
    {
      VisitKeepsListed(g, freq, i, j);
      var c := g[i][j];
      if c != '.' {
        var old_list := if c in freq then freq[c] else [];
        freq := freq[c := old_list + [(i, j)]];
      }
      j := j + 1;
    }
    RowDone(g, freq, i);
  }

  /** get_frequencies (day8.py:10-19): each frequency's antennas, in row-major order. */
  method GetFrequencies(g: seq<string>) returns (freq: map<char, seq<Pos>>)
    ensures forall c :: c in freq ==> |freq[c]| > 0 && RowMajor(freq[c])
    ensures forall c, p :: c in freq ==> (p in freq[c] <==> Antenna(g, c, p))
    ensures forall c, p :: Antenna(g, c, p) ==> c in freq
  {
    freq := map[];
    var i := 0;
    while i < |g|
      invariant 0 <= i <= |g|
      invariant ListedBefore(g, freq, i, 0)
    {
      freq := ScanRow(g, i, freq);
      i := i + 1;
    }
  }

  /** p is the k-th step from s along d, for some k >= 1 (only k = 1 without
      resonance) such that every step up to the k-th is inside the n × m box. */
  ghost predicate OnRay(s: Pos, d: Pos, p: Pos, n: int, m: int, resonance: bool) {
    exists k: nat :: 1 <= k && (resonance || k == 1) && p == Shift(s, d, k) &&
      forall t: nat :: 1 <= t <= k ==> InBox(Shift(s, d, t), n, m)
  }

  /** A termination measure for walking along a non-zero d inside the box. */
  function Room(p: Pos, d: Pos, n: int, m: int): int {
    if d.0 > 0 then n - p.0 else if d.0 < 0 then p.0 + 1 else if d.1 > 0 then m - p.1 else p.1 + 1
  }

  /** p is one of the steps 1 .. k-1 from s along d. */
  ghost predicate Stepped(s: Pos, d: Pos, p: Pos, k: nat) {
    exists t: nat :: 1 <= t < k && p == Shift(s, d, t)
  }

  lemma SteppedNext(s: Pos, d: Pos, k: nat)
    ensures forall p :: Stepped(s, d, p, k + 1) <==> Stepped(s, d, p, k) || (k >= 1 && p == Shift(s, d, k))
  {
    forall p | Stepped(s, d, p, k + 1) ensures Stepped(s, d, p, k) || (k >= 1 && p == Shift(s, d, k)) {
      var t: nat :| 1 <= t < k + 1 && p == Shift(s, d, t);
      if t < k { assert Stepped(s, d, p, k); }
    }
  }

  /** Once the k-th step leaves the box, the ray holds exactly the steps before it. */
  lemma RayStops(s: Pos, d: Pos, n: int, m: int, resonance: bool, k: nat)
    requires k >= 1 && !InBox(Shift(s, d, k), n, m) && (resonance || k == 1)
    requires forall t: nat :: 1 <= t < k ==> InBox(Shift(s, d, t), n, m)
    ensures forall p :: OnRay(s, d, p, n, m, resonance) <==> Stepped(s, d, p, k)
  {
    forall p | OnRay(s, d, p, n, m, resonance) ensures Stepped(s, d, p, k) {
      var q: nat :| 1 <= q && (resonance || q == 1) && p == Shift(s, d, q) &&
        forall t: nat :: 1 <= t <= q ==> InBox(Shift(s, d, t), n, m);
      assert k <= q ==> InBox(Shift(s, d, k), n, m);
      assert 1 <= q < k && p == Shift(s, d, q);
    }
    forall p | Stepped(s, d, p, k) ensures OnRay(s, d, p, n, m, resonance) {
      var t: nat :| 1 <= t < k && p == Shift(s, d, t);
      assert resonance || t == 1;
      assert forall t': nat :: 1 <= t' <= t ==> InBox(Shift(s, d, t'), n, m);
    }
  }

  /** Without resonance, the ray is the first step alone when that step is inside. */
  lemma RayOnce(s: Pos, d: Pos, n: int, m: int)
    requires InBox(Shift(s, d, 1), n, m)
    ensures forall p :: OnRay(s, d, p, n, m, false) <==> p == Shift(s, d, 1)
  {
    assert OnRay(s, d, Shift(s, d, 1), n, m, false);
  }

  /** One of get_antinodes' two stepping loops (day8.py:31-39 and 41-49). */
  method Ray(s: Pos, d: Pos, n: int, m: int, resonance: bool) returns (pts: set<Pos>)
    requires resonance ==> d != (0, 0)
    ensures forall p :: p in pts <==> OnRay(s, d, p, n, m, resonance)
  {
    pts := {};
    var cur := s;
    ghost var k: nat := 0;
    while true
      invariant cur == Shift(s, d, k)
      invariant forall t: nat :: 1 <= t <= k ==> InBox(Shift(s, d, t), n, m)
      invariant !resonance ==> k == 0
      invariant forall p :: p in pts <==> Stepped(s, d, p, k + 1)
      decreases if InBox(cur, n, m) then Room(cur, d, n, m) else n + m + 2
    {
      ghost var prev := cur;
      cur := (cur.0 + d.0, cur.1 + d.1);
      k := k + 1;
      assert cur == Shift(s, d, k);
      if !InBox(cur, n, m) {
        RayStops(s, d, n, m, resonance, k);
        return;
      }
      pts := pts + {cur};
      SteppedNext(s, d, k);
      if !resonance {
        RayOnce(s, d, n, m);
        return;
      }
      assert Room(cur, d, n, m) < Room(prev, d, n, m) || !InBox(prev, n, m);
    }
  }

  /** p is an antinode of the antennas l1, l2 in an n × m map. */
  ghost predicate IsAntinode(l1: Pos, l2: Pos, p: Pos, n: int, m: int, resonance: bool) {
    var d := (l1.0 - l2.0, l1.1 - l2.1);
    (resonance && (p == l1 || p == l2)) || OnRay(l1, d, p, n, m, resonance) || OnRay(l2, Neg(d), p, n, m, resonance)
  }

  /** get_antinodes (day8.py:21-51). Its loops stop only for distinct antennas when
      resonance is on. */
  method GetAntinodes(l1: Pos, l2: Pos, n: int, m: int, resonance: bool) returns (antinodes: set<Pos>)
    requires resonance ==> l1 != l2
    ensures forall p :: p in antinodes <==> IsAntinode(l1, l2, p, n, m, resonance)
  {
    var d := (l1.0 - l2.0, l1.1 - l2.1);
    antinodes := if resonance then {l1, l2} else {};
    var forward := Ray(l1, d, n, m, resonance);
    var backward := Ray(l2, Neg(d), n, m, resonance);
    antinodes := antinodes + forward + backward;
  }

  /** One step past each antenna, each kept only inside the map. */
  lemma PlainAntinodes(l1: Pos, l2: Pos, p: Pos, n: int, m: int)
    ensures IsAntinode(l1, l2, p, n, m, false) <==>
      (p == (2 * l1.0 - l2.0, 2 * l1.1 - l2.1) || p == (2 * l2.0 - l1.0, 2 * l2.1 - l1.1)) && InBox(p, n, m)
  {
    var d := (l1.0 - l2.0, l1.1 - l2.1);
    assert Shift(l1, d, 1) == (2 * l1.0 - l2.0, 2 * l1.1 - l2.1);
    assert Shift(l2, Neg(d), 1) == (2 * l2.0 - l1.0, 2 * l2.1 - l1.1);
    if InBox(p, n, m) && p == Shift(l1, d, 1) {
      assert OnRay(l1, d, p, n, m, false);
    }
    if InBox(p, n, m) && p == Shift(l2, Neg(d), 1) {
      assert OnRay(l2, Neg(d), p, n, m, false);
    }
  }

  /** Every antinode but a resonating antenna lies inside the map. */
  lemma AntinodesInside(l1: Pos, l2: Pos, p: Pos, n: int, m: int, resonance: bool)
    requires IsAntinode(l1, l2, p, n, m, resonance) && !(resonance && (p == l1 || p == l2))
    ensures InBox(p, n, m)
  {
  }

  /** Swapping the two antennas gives the same antinodes. */
  lemma AntinodesSymmetric(l1: Pos, l2: Pos, p: Pos, n: int, m: int, resonance: bool)
    ensures IsAntinode(l1, l2, p, n, m, resonance) <==> IsAntinode(l2, l1, p, n, m, resonance)
  {
    assert Neg((l1.0 - l2.0, l1.1 - l2.1)) == (l2.0 - l1.0, l2.1 - l1.1);
    assert Neg((l2.0 - l1.0, l2.1 - l1.1)) == (l1.0 - l2.0, l1.1 - l2.1);
  }

  /** In-map points that are antinodes of two distinct antennas of one frequency. */
  ghost function AllAntinodes(g: seq<string>, resonance: bool): set<Pos>
    requires |g| > 0
  {
    set i, j | 0 <= i < |g| && 0 <= j < |g[0]| &&
      exists c, q1, q2 :: Antenna(g, c, q1) && Antenna(g, c, q2) && q1 != q2 && IsAntinode(q1, q2, (i, j), |g|, |g[0]|, resonance)
      :: (i, j)
  }

  /** p is an antinode of a listed pair (a before b) of a frequency in done. */
  ghost predicate FromPairs(freq: map<char, seq<Pos>>, done: set<char>, p: Pos, n: int, m: int, resonance: bool) {
    exists c :: c in done && c in freq && FromList(freq[c], p, n, m, resonance)
  }

  /** p is an antinode of some pair l[a], l[b] with a < b. */
  ghost predicate FromList(l: seq<Pos>, p: Pos, n: int, m: int, resonance: bool) {
    exists a, b :: 0 <= a < b < |l| && IsAntinode(l[a], l[b], p, n, m, resonance)
  }

  /** p is an antinode of a pair l[a'], l[b'] with a' < a and a' < b'. */
  ghost predicate PairsBelow(l: seq<Pos>, a: int, p: Pos, n: int, m: int, resonance: bool) {
    exists a', b' :: 0 <= a' < a && a' < b' < |l| && IsAntinode(l[a'], l[b'], p, n, m, resonance)
  }

  /** p is an antinode of a pair l[a], l[b'] with a < b' < b. */
  ghost predicate PairsWith(l: seq<Pos>, a: nat, b: int, p: Pos, n: int, m: int, resonance: bool)
    requires a < |l|
  {
    exists b' :: a < b' < b && b' < |l| && IsAntinode(l[a], l[b'], p, n, m, resonance)
  }

  lemma PairsWithNext(l: seq<Pos>, a: nat, b: nat, p: Pos, n: int, m: int, resonance: bool)
    requires a < b < |l|
    ensures PairsWith(l, a, b + 1, p, n, m, resonance) <==>
      PairsWith(l, a, b, p, n, m, resonance) || IsAntinode(l[a], l[b], p, n, m, resonance)
  {
  }

  lemma PairsBelowNext(l: seq<Pos>, a: nat, p: Pos, n: int, m: int, resonance: bool)
    requires a < |l|
    ensures PairsBelow(l, a + 1, p, n, m, resonance) <==>
      PairsBelow(l, a, p, n, m, resonance) || PairsWith(l, a, |l|, p, n, m, resonance)
  {
    if PairsBelow(l, a + 1, p, n, m, resonance) && !PairsBelow(l, a, p, n, m, resonance) {
      var a', b' :| 0 <= a' < a + 1 && a' < b' < |l| && IsAntinode(l[a'], l[b'], p, n, m, resonance);
      assert a' == a;
    }
  }

  /** The pairs (a, b) that combinations(antennas, r=2) yields for one a. */
  method PairsFrom(antennas: seq<Pos>, a: nat, n: int, m: int, resonance: bool) returns (found: set<Pos>)
    requires a < |antennas| && RowMajor(antennas)
    ensures forall p :: p in found <==> InBox(p, n, m) && PairsWith(antennas, a, |antennas|, p, n, m, resonance)
  {
    found := {};
    var b := a + 1;
    while b < |antennas|
      invariant a + 1 <= b <= |antennas|
      invariant forall p :: p in found <==> InBox(p, n, m) && PairsWith(antennas, a, b, p, n, m, resonance)
    {
      assert antennas[a] != antennas[b] by { assert Before(antennas[a], antennas[b]); }
      var pts := GetAntinodes(antennas[a], antennas[b], n, m, resonance);
      found := found + set p | p in pts && InBox(p, n, m);
      forall p ensures PairsWith(antennas, a, b + 1, p, n, m, resonance) <==>
        PairsWith(antennas, a, b, p, n, m, resonance) || IsAntinode(antennas[a], antennas[b], p, n, m, resonance)
      {
        PairsWithNext(antennas, a, b, p, n, m, resonance);
      }
      b := b + 1;
    }
  }

  /** The loop over combinations(antennas, r=2) (day8.py:63-66 and 79-82). */
  method PairAntinodes(antennas: seq<Pos>, n: int, m: int, resonance: bool) returns (found: set<Pos>)
    requires RowMajor(antennas)
    ensures forall p :: p in found <==> InBox(p, n, m) && FromList(antennas, p, n, m, resonance)
  {
    found := {};
    var a := 0;
    while a < |antennas|
      invariant 0 <= a <= |antennas|
      invariant forall p :: p in found <==> InBox(p, n, m) && PairsBelow(antennas, a, p, n, m, resonance)
    {
      var more := PairsFrom(antennas, a, n, m, resonance);
      found := found + more;
      forall p ensures PairsBelow(antennas, a + 1, p, n, m, resonance) <==>
        PairsBelow(antennas, a, p, n, m, resonance) || PairsWith(antennas, a, |antennas|, p, n, m, resonance)
      {
        PairsBelowNext(antennas, a, p, n, m, resonance);
      }
      a := a + 1;
    }
    assert forall p :: PairsBelow(antennas, |antennas|, p, n, m, resonance) == FromList(antennas, p, n, m, resonance);
  }

  /** part1 (resonance = false, day8.py:54-67) and part2 (resonance = true,
      day8.py:70-83): the number of distinct in-map antinodes. */
  method CountAntinodes(g: seq<string>, resonance: bool) returns (count: nat)
    requires |g| > 0
    ensures count == |AllAntinodes(g, resonance)|
  {
    var n, m := |g|, |g[0]|;
    var freq := GetFrequencies(g);
    var antinodes: set<Pos> := {};
    var todo := freq.Keys;
    while todo != {}
      invariant todo <= freq.Keys
      invariant forall p :: p in antinodes <==> InBox(p, n, m) && FromPairs(freq, freq.Keys - todo, p, n, m, resonance)
      decreases todo
    {
      var c :| c in todo;
      var found := PairAntinodes(freq[c], n, m, resonance);
      antinodes := antinodes + found;
      todo := todo - {c};
    }
    PairsAreAntennaPairs(g, freq, resonance);
    assert antinodes == AllAntinodes(g, resonance);
    count := |antinodes|;
  }

  /** An antinode of a listed pair is one of two distinct antennas of one frequency. */
  lemma ListedPairIsAntennaPair(g: seq<string>, freq: map<char, seq<Pos>>, p: Pos, resonance: bool)
    requires |g| > 0 && InBox(p, |g|, |g[0]|)
    requires forall c :: c in freq ==> |freq[c]| > 0 && RowMajor(freq[c])
    requires forall c, p :: c in freq ==> (p in freq[c] <==> Antenna(g, c, p))
    requires FromPairs(freq, freq.Keys, p, |g|, |g[0]|, resonance)
    ensures p in AllAntinodes(g, resonance)
  {
    var n, m := |g|, |g[0]|;
    var c :| c in freq.Keys && c in freq && FromList(freq[c], p, n, m, resonance);
    var a, b :| 0 <= a < b < |freq[c]| && IsAntinode(freq[c][a], freq[c][b], p, n, m, resonance);
    assert freq[c][a] in freq[c] && freq[c][b] in freq[c];
    assert Before(freq[c][a], freq[c][b]);
  }

  /** Two distinct antennas of one frequency appear as a listed pair, in some order. */
  lemma AntennaPairIsListed(g: seq<string>, freq: map<char, seq<Pos>>, p: Pos, resonance: bool)
    requires |g| > 0 && InBox(p, |g|, |g[0]|)
    requires forall c, p :: c in freq ==> (p in freq[c] <==> Antenna(g, c, p))
    requires forall c, p :: Antenna(g, c, p) ==> c in freq
    requires p in AllAntinodes(g, resonance)
    ensures FromPairs(freq, freq.Keys, p, |g|, |g[0]|, resonance)
  {
    var n, m := |g|, |g[0]|;
    var c, q1, q2 :| Antenna(g, c, q1) && Antenna(g, c, q2) && q1 != q2 && IsAntinode(q1, q2, p, n, m, resonance);
    var a :| 0 <= a < |freq[c]| && freq[c][a] == q1;
    var b :| 0 <= b < |freq[c]| && freq[c][b] == q2;
    AntinodesSymmetric(q1, q2, p, n, m, resonance);
    if a > b {
      assert IsAntinode(freq[c][b], freq[c][a], p, n, m, resonance);
    } else {
      assert a != b;
    }
    assert FromList(freq[c], p, n, m, resonance);
  }

  /** Listed pairs of one frequency are exactly the pairs of distinct antennas. */
  lemma PairsAreAntennaPairs(g: seq<string>, freq: map<char, seq<Pos>>, resonance: bool)
    requires |g| > 0
    requires forall c :: c in freq ==> |freq[c]| > 0 && RowMajor(freq[c])
    requires forall c, p :: c in freq ==> (p in freq[c] <==> Antenna(g, c, p))
    requires forall c, p :: Antenna(g, c, p) ==> c in freq
    ensures forall p :: InBox(p, |g|, |g[0]|) ==> (FromPairs(freq, freq.Keys, p, |g|, |g[0]|, resonance) <==> p in AllAntinodes(g, resonance))
  {
    forall p | InBox(p, |g|, |g[0]|)
      ensures FromPairs(freq, freq.Keys, p, |g|, |g[0]|, resonance) <==> p in AllAntinodes(g, resonance)
    {
      if FromPairs(freq, freq.Keys, p, |g|, |g[0]|, resonance) {
        ListedPairIsAntennaPair(g, freq, p, resonance);
      }
      if p in AllAntinodes(g, resonance) {
        AntennaPairIsListed(g, freq, p, resonance);
      }
    }
  }
}
