/** Day 10: Hoof It — hiking trails on a topographic map. */
module Day10 {

  type Cell = (int, int)
  type Grid = seq<seq<int>>

  predicate InMap(g: Grid, c: Cell) {
    0 <= c.0 < |g| && 0 <= c.1 < |g[c.0]|
  }

  function At(g: Grid, c: Cell): int
    requires InMap(g, c)
  {
    g[c.0][c.1]
  }

  /** A topographic map as it is read from the puzzle input: rows of one width, each
      cell a digit. */
  predicate Topo(g: Grid) {
    (forall i :: 0 <= i < |g| ==> |g[i]| == |g[0]|) &&
    (forall i, j :: 0 <= i < |g| && 0 <= j < |g[i]| ==> 0 <= g[i][j] <= 9)
  }

  function Up(c: Cell): Cell { (c.0 - 1, c.1) }
  function Down(c: Cell): Cell { (c.0 + 1, c.1) }
  function Left(c: Cell): Cell { (c.0, c.1 - 1) }
  function Right(c: Cell): Cell { (c.0, c.1 + 1) }

  /** The rank of neighbour d of c in the order up, down, left, right. */
  function Dir(c: Cell, d: Cell): int {
    if d == Up(c) then 0 else if d == Down(c) then 1 else if d == Left(c) then 2 else 3
  }

  /** One step of a hiking trail: d is a 4-neighbour of c on the map, exactly one higher. */
  predicate Step(g: Grid, c: Cell, d: Cell)
    requires InMap(g, c)
  {
    (d == Up(c) || d == Down(c) || d == Left(c) || d == Right(c)) && InMap(g, d) && At(g, d) == At(g, c) + 1
  }

  predicate NoDup<T(==)>(s: seq<T>) {
    forall a, b :: 0 <= a < b < |s| ==> s[a] != s[b]
  }

  // ---------------------------------------------------------------------------
  // find_trailheads (day10.py:6-15)
  // ---------------------------------------------------------------------------

  /** The 0-cells of row i among its first j columns, left to right. */
  function RowZeros(row: seq<int>, i: int, j: nat): seq<Cell>
    requires j <= |row|
  {
    if j == 0 then [] else RowZeros(row, i, j - 1) + (if row[j - 1] == 0 then [(i, j - 1)] else [])
  }

  /** The 0-cells of the first i rows, in row-major order. */
  function ZerosUpTo(g: Grid, i: nat): seq<Cell>
    requires i <= |g|
  {
    if i == 0 then [] else ZerosUpTo(g, i - 1) + RowZeros(g[i - 1], i - 1, |g[i - 1]|)
  }

  function Zeros(g: Grid): (r: seq<Cell>)
    ensures forall c :: c in r ==> InMap(g, c) && At(g, c) == 0
  {
    ZerosUpToSpec(g, |g|);
    ZerosUpTo(g, |g|)
  }

  /** Cell a comes before cell b in row-major order. */
  predicate Before(a: Cell, b: Cell) {
    a.0 < b.0 || (a.0 == b.0 && a.1 < b.1)
  }

  lemma {:induction false} RowZerosSpec(g: Grid, i: nat, j: nat)
    requires i < |g| && j <= |g[i]|
    ensures forall c :: c in RowZeros(g[i], i, j) <==> (c.0 == i && 0 <= c.1 < j && g[i][c.1] == 0)
    ensures forall a, b :: 0 <= a < b < |RowZeros(g[i], i, j)| ==> Before(RowZeros(g[i], i, j)[a], RowZeros(g[i], i, j)[b])
  {
    if j > 0 { RowZerosSpec(g, i, j - 1); }
  }

  lemma {:induction false} ZerosUpToSpec(g: Grid, i: nat)
    requires i <= |g|
    ensures forall c :: c in ZerosUpTo(g, i) <==> (c.0 < i && InMap(g, c) && At(g, c) == 0)
    ensures forall a, b :: 0 <= a < b < |ZerosUpTo(g, i)| ==> Before(ZerosUpTo(g, i)[a], ZerosUpTo(g, i)[b])
  {
    if i > 0 {
      ZerosUpToSpec(g, i - 1);
      RowZerosSpec(g, i - 1, |g[i - 1]|);
    }
  }

  /** find_trailheads returns exactly the 0-cells, each once, in row-major order. */
  lemma ZerosSpec(g: Grid)
    ensures forall c :: c in Zeros(g) <==> (InMap(g, c) && At(g, c) == 0)
    ensures forall a, b :: 0 <= a < b < |Zeros(g)| ==> Before(Zeros(g)[a], Zeros(g)[b])
  {
    ZerosUpToSpec(g, |g|);
  }

  method FindTrailheads(g: Grid) returns (ts: seq<Cell>)
    ensures ts == Zeros(g)
  {
    ts := [];
    for i := 0 to |g|
      invariant ts == ZerosUpTo(g, i)
    {
      for j := 0 to |g[i]|
        invariant ts == ZerosUpTo(g, i) + RowZeros(g[i], i, j)
      {
        if g[i][j] == 0 {
          ts := ts + [(i, j)];
        }
      }
    }
  }

  // ---------------------------------------------------------------------------
  // accessible_nodes (day10.py:17-36)
  // ---------------------------------------------------------------------------

  /** The next steps of a trail from c, in the order up, down, left, right. */
  function Accessible(g: Grid, c: Cell): (r: seq<Cell>)
    requires Topo(g) && InMap(g, c)
    ensures forall d :: d in r <==> Step(g, c, d)
    ensures Ranked(c, r)
    ensures NoDup(r)
  {
    var n, m := |g|, |g[0]|;
    var (i, j) := c;
    var e := g[i][j];
    var up := if i > 0 && g[i - 1][j] == e + 1 then [(i - 1, j)] else [];
    var down := if i < n - 1 && g[i + 1][j] == e + 1 then [(i + 1, j)] else [];
    var left := if j > 0 && g[i][j - 1] == e + 1 then [(i, j - 1)] else [];
    var right := if j < m - 1 && g[i][j + 1] == e + 1 then [(i, j + 1)] else [];
    NeighbourSteps(g, c);
    assert forall d :: d in up <==> d == Up(c) && Step(g, c, d);
    assert forall d :: d in down <==> d == Down(c) && Step(g, c, d);
    assert forall d :: d in left <==> d == Left(c) && Step(g, c, d);
    assert forall d :: d in right <==> d == Right(c) && Step(g, c, d);
    AppendRanked(c, [], up, 0);
    AppendRanked(c, up, down, 1);
    AppendRanked(c, up + down, left, 2);
    AppendRanked(c, up + down + left, right, 3);
    var r := up + down + left + right;
    assert forall d :: d in r <==> d in up || d in down || d in left || d in right;
    RankedNoDup(c, r);
    r
  }

  /** The tests of accessible_nodes, one per direction, are the steps of a trail. */
  lemma NeighbourSteps(g: Grid, c: Cell)
    requires Topo(g) && InMap(g, c)
    ensures var (i, j) := c;
      (i > 0 && g[i - 1][j] == g[i][j] + 1 <==> Step(g, c, Up(c))) &&
      (i < |g| - 1 && g[i + 1][j] == g[i][j] + 1 <==> Step(g, c, Down(c))) &&
      (j > 0 && g[i][j - 1] == g[i][j] + 1 <==> Step(g, c, Left(c))) &&
      (j < |g[0]| - 1 && g[i][j + 1] == g[i][j] + 1 <==> Step(g, c, Right(c)))
  {
    var (i, j) := c;
    assert |g[i]| == |g[0]|;
    if i > 0 { assert |g[i - 1]| == |g[0]|; }
    if i < |g| - 1 { assert |g[i + 1]| == |g[0]|; }
  }

  /** Directions strictly increase along s. */
  predicate Ranked(c: Cell, s: seq<Cell>) {
    forall a, b :: 0 <= a < b < |s| ==> Dir(c, s[a]) < Dir(c, s[b])
  }

  lemma RankedNoDup(c: Cell, s: seq<Cell>)
    requires Ranked(c, s)
    ensures NoDup(s)
  {
    forall a, b | 0 <= a < b < |s| ensures s[a] != s[b] {
      assert Dir(c, s[a]) < Dir(c, s[b]);
    }
  }

  /** Appending at most one neighbour in direction k after the ones before k. */
  lemma AppendRanked(c: Cell, s: seq<Cell>, t: seq<Cell>, k: int)
    requires Ranked(c, s) && (forall x :: x in s ==> Dir(c, x) < k)
    requires |t| <= 1 && forall x :: x in t ==> Dir(c, x) == k
    ensures Ranked(c, s + t) && (forall x :: x in s + t ==> Dir(c, x) <= k)
  {
    if |t| == 1 {
      assert t[0] in t;
      forall a, b | 0 <= a < b < |s + t| ensures Dir(c, (s + t)[a]) < Dir(c, (s + t)[b]) {
        if b < |s| {
        } else {
          assert (s + t)[a] == s[a] && s[a] in s;
        }
      }
    }
  }

  /** A summit has no next step: no digit is one higher than 9. */
  lemma SummitIsLast(g: Grid, c: Cell)
    requires Topo(g) && InMap(g, c) && At(g, c) == 9
    ensures Accessible(g, c) == []
  {
  }

  // ---------------------------------------------------------------------------
  // What the searches compute
  // ---------------------------------------------------------------------------

  /** A hiking trail: cells on the map, each step one higher and to a 4-neighbour. */
  ghost predicate IsTrail(g: Grid, p: seq<Cell>) {
    |p| > 0 && (forall i :: 0 <= i < |p| ==> InMap(g, p[i])) &&
    (forall i :: 0 <= i < |p| - 1 ==> Step(g, p[i], p[i + 1]))
  }

  ghost predicate Connected(g: Grid, c: Cell, d: Cell) {
    exists p :: IsTrail(g, p) && p[0] == c && p[|p| - 1] == d
  }

  /** The cells reachable from c by a trail: c itself and what its next steps reach. */
  ghost function Reach(g: Grid, c: Cell): set<Cell>
    requires Topo(g) && InMap(g, c)
    decreases 10 - At(g, c), 1, 0
  {
    {c} + ReachAll(g, c, Accessible(g, c))
  }

  ghost function ReachAll(g: Grid, c: Cell, l: seq<Cell>): set<Cell>
    requires Topo(g) && InMap(g, c) && forall x :: x in l ==> Step(g, c, x)
    decreases 10 - At(g, c), 0, |l|
  {
    if l == [] then {} else assert l[0] in l && Step(g, c, l[0]); Reach(g, l[0]) + ReachAll(g, c, l[1..])
  }

  /** Everything reachable from the cells of l. */
  ghost function Cover(g: Grid, l: seq<Cell>): set<Cell>
    requires Topo(g) && forall x :: x in l ==> InMap(g, x)
  {
    if l == [] then {} else Reach(g, l[0]) + Cover(g, l[1..])
  }

  lemma {:induction false} ReachAllIsCover(g: Grid, c: Cell, l: seq<Cell>)
    requires Topo(g) && InMap(g, c) && forall x :: x in l ==> Step(g, c, x)
    ensures ReachAll(g, c, l) == Cover(g, l)
  {
    if l != [] {
      assert Step(g, c, l[0]);
      ReachAllIsCover(g, c, l[1..]);
    }
  }

  /** What one step of a trail adds to the reach of c. */
  lemma ReachUnfold(g: Grid, c: Cell)
    requires Topo(g) && InMap(g, c)
    ensures Reach(g, c) == {c} + Cover(g, Accessible(g, c))
  {
    ReachAllIsCover(g, c, Accessible(g, c));
  }

  lemma {:induction false} CoverMembers(g: Grid, l: seq<Cell>, z: Cell)
    requires Topo(g) && forall x :: x in l ==> InMap(g, x)
    ensures z in Cover(g, l) <==> exists y :: y in l && z in Reach(g, y)
  {
    if l != [] {
      CoverMembers(g, l[1..], z);
      if z in Reach(g, l[0]) { assert l[0] in l; }
      forall y | y in l && z in Reach(g, y) ensures z in Cover(g, l) {
        if y != l[0] { assert y in l[1..]; }
      }
    }
  }

  lemma {:induction false} CoverHas(g: Grid, l: seq<Cell>, x: Cell)
    requires Topo(g) && (forall y :: y in l ==> InMap(g, y)) && x in l
    ensures Reach(g, x) <= Cover(g, l)
  {
    if l[0] != x { CoverHas(g, l[1..], x); }
  }

  /** A trail from c's next step nb extends to a trail from c. */
  lemma Extend(g: Grid, c: Cell, nb: Cell, d: Cell)
    requires InMap(g, c) && Step(g, c, nb) && Connected(g, nb, d)
    ensures Connected(g, c, d)
  {
    var p :| IsTrail(g, p) && p[0] == nb && p[|p| - 1] == d;
    assert IsTrail(g, [c] + p);
    assert ([c] + p)[|[c] + p| - 1] == d;
  }

  lemma {:induction false} ReachConnected(g: Grid, c: Cell, d: Cell)
    requires Topo(g) && InMap(g, c) && d in Reach(g, c)
    ensures Connected(g, c, d)
    decreases 10 - At(g, c)
  {
    if d == c {
      assert IsTrail(g, [c]);
    } else {
      ReachUnfold(g, c);
      CoverMembers(g, Accessible(g, c), d);
      var y :| y in Accessible(g, c) && d in Reach(g, y);
      ReachConnected(g, y, d);
      Extend(g, c, y, d);
    }
  }

  lemma {:induction false} TrailReaches(g: Grid, p: seq<Cell>)
    requires Topo(g) && IsTrail(g, p)
    ensures p[|p| - 1] in Reach(g, p[0])
    decreases |p|
  {
    if |p| > 1 {
      assert Step(g, p[0], p[1]);
      assert IsTrail(g, p[1..]);
      TrailReaches(g, p[1..]);
      assert p[1..][|p[1..]| - 1] == p[|p| - 1];
      ReachUnfold(g, p[0]);
      CoverHas(g, Accessible(g, p[0]), p[1]);
    }
  }

  /** Reach is exactly the set of trail ends. */
  lemma ReachIsConnected(g: Grid, c: Cell, d: Cell)
    requires Topo(g) && InMap(g, c)
    ensures d in Reach(g, c) <==> Connected(g, c, d)
  {
    if d in Reach(g, c) {
      ReachConnected(g, c, d);
    }
    if Connected(g, c, d) {
      var p :| IsTrail(g, p) && p[0] == c && p[|p| - 1] == d;
      TrailReaches(g, p);
    }
  }

  ghost function Nines(g: Grid, s: set<Cell>): set<Cell> {
    set c | c in s && InMap(g, c) && At(g, c) == 9
  }

  /** A trailhead's score: the number of distinct summits its trails reach. */
  ghost function Score(g: Grid, t: Cell): nat
    requires Topo(g) && InMap(g, t)
  {
    |Nines(g, Reach(g, t))|
  }

  /** The scores of the first k trailheads, added up. */
  ghost function TotalScore(g: Grid, ts: seq<Cell>, k: nat): nat
    requires Topo(g) && k <= |ts| && forall t :: t in ts ==> InMap(g, t)
  {
    if k == 0 then 0 else TotalScore(g, ts, k - 1) + Score(g, ts[k - 1])
  }

  /** The number of trails from c to a summit. */
  ghost function Paths(g: Grid, c: Cell): nat
    requires Topo(g) && InMap(g, c)
    decreases 10 - At(g, c), 1, 0
  {
    if At(g, c) == 9 then 1 else PathsAll(g, c, Accessible(g, c))
  }

  ghost function PathsAll(g: Grid, c: Cell, l: seq<Cell>): nat
    requires Topo(g) && InMap(g, c) && forall x :: x in l ==> Step(g, c, x)
    decreases 10 - At(g, c), 0, |l|
  {
    if l == [] then 0 else assert l[0] in l && Step(g, c, l[0]); Paths(g, l[0]) + PathsAll(g, c, l[1..])
  }

  /** A trail from c to a summit. */
  ghost predicate SummitTrail(g: Grid, c: Cell, p: seq<Cell>) {
    IsTrail(g, p) && p[0] == c && At(g, p[|p| - 1]) == 9
  }

  function Prepend(c: Cell, ps: seq<seq<Cell>>): (r: seq<seq<Cell>>)
    ensures |r| == |ps|
    ensures forall k :: 0 <= k < |r| ==> r[k] == [c] + ps[k]
  {
    seq(|ps|, k requires 0 <= k < |ps| => [c] + ps[k])
  }

  /** Every trail from c to a summit, listed by first step in the order of Accessible. */
  ghost function Trails(g: Grid, c: Cell): seq<seq<Cell>>
    requires Topo(g) && InMap(g, c)
    decreases 10 - At(g, c), 1, 0
  {
    if At(g, c) == 9 then [[c]] else TrailsAll(g, c, Accessible(g, c))
  }

  ghost function TrailsAll(g: Grid, c: Cell, l: seq<Cell>): seq<seq<Cell>>
    requires Topo(g) && InMap(g, c) && forall x :: x in l ==> Step(g, c, x)
    decreases 10 - At(g, c), 0, |l|
  {
    if l == [] then [] else assert l[0] in l && Step(g, c, l[0]); Prepend(c, Trails(g, l[0])) + TrailsAll(g, c, l[1..])
  }

  /** Paths counts the trails: Trails lists as many as Paths says (and, below, only
      trails from c to a summit, every such trail, and none twice). */
  lemma {:induction false} TrailsCount(g: Grid, c: Cell)
    requires Topo(g) && InMap(g, c)
    ensures |Trails(g, c)| == Paths(g, c)
    decreases 10 - At(g, c), 1, 0
  {
    if At(g, c) != 9 { TrailsAllCount(g, c, Accessible(g, c)); }
  }

  lemma {:induction false} TrailsAllCount(g: Grid, c: Cell, l: seq<Cell>)
    requires Topo(g) && InMap(g, c) && forall x :: x in l ==> Step(g, c, x)
    ensures |TrailsAll(g, c, l)| == PathsAll(g, c, l)
    decreases 10 - At(g, c), 0, |l|
  {
    if l != [] {
      assert Step(g, c, l[0]);
      TrailsCount(g, l[0]);
      TrailsAllCount(g, c, l[1..]);
    }
  }

  /** Prepending c to trails from its next step nb gives trails from c through nb. */
  lemma PrependSound(g: Grid, c: Cell, nb: Cell, ps: seq<seq<Cell>>)
    requires Topo(g) && InMap(g, c) && Step(g, c, nb)
    requires forall q :: q in ps ==> SummitTrail(g, nb, q)
    ensures forall p :: p in Prepend(c, ps) ==> SummitTrail(g, c, p) && |p| > 1 && p[1] == nb
  {
    forall p | p in Prepend(c, ps) ensures SummitTrail(g, c, p) && |p| > 1 && p[1] == nb {
      var k :| 0 <= k < |ps| && p == [c] + ps[k];
      assert ps[k] in ps;
      assert p[1..] == ps[k];
    }
  }

  lemma {:induction false} TrailsSound(g: Grid, c: Cell)
    requires Topo(g) && InMap(g, c)
    ensures forall p :: p in Trails(g, c) ==> SummitTrail(g, c, p)
    decreases 10 - At(g, c), 1, 0
  {
    if At(g, c) == 9 {
      assert IsTrail(g, [c]);
    } else {
      TrailsAllSound(g, c, Accessible(g, c));
    }
  }

  lemma {:induction false} TrailsAllSound(g: Grid, c: Cell, l: seq<Cell>)
    requires Topo(g) && InMap(g, c) && forall x :: x in l ==> Step(g, c, x)
    ensures forall p :: p in TrailsAll(g, c, l) ==> SummitTrail(g, c, p) && |p| > 1 && p[1] in l
    decreases 10 - At(g, c), 0, |l|
  {
    if l != [] {
      assert Step(g, c, l[0]);
      TrailsSound(g, l[0]);
      PrependSound(g, c, l[0], Trails(g, l[0]));
      TrailsAllSound(g, c, l[1..]);
    }
  }

  lemma {:induction false} TrailsAllHas(g: Grid, c: Cell, l: seq<Cell>, nb: Cell, q: seq<Cell>)
    requires Topo(g) && InMap(g, c) && (forall x :: x in l ==> Step(g, c, x)) && nb in l && Step(g, c, nb)
    requires q in Trails(g, nb)
    ensures [c] + q in TrailsAll(g, c, l)
  {
    if l[0] == nb {
      var k :| 0 <= k < |Trails(g, nb)| && Trails(g, nb)[k] == q;
      assert Prepend(c, Trails(g, nb))[k] == [c] + q;
    } else {
      TrailsAllHas(g, c, l[1..], nb, q);
    }
  }

  lemma {:induction false} TrailsComplete(g: Grid, c: Cell, p: seq<Cell>)
    requires Topo(g) && InMap(g, c) && SummitTrail(g, c, p)
    ensures p in Trails(g, c)
    decreases 10 - At(g, c)
  {
    if |p| == 1 {
      assert At(g, c) == 9;
      assert p == [c];
    } else {
      var nb := p[1];
      assert Step(g, c, nb);
      assert At(g, c) != 9;
      assert SummitTrail(g, nb, p[1..]);
      TrailsComplete(g, nb, p[1..]);
      TrailsAllHas(g, c, Accessible(g, c), nb, p[1..]);
      assert [c] + p[1..] == p;
    }
  }

  lemma PrependNoDup(c: Cell, ps: seq<seq<Cell>>)
    requires NoDup(ps)
    ensures NoDup(Prepend(c, ps))
  {
    forall a, b | 0 <= a < b < |ps| ensures Prepend(c, ps)[a] != Prepend(c, ps)[b] {
      assert Prepend(c, ps)[a][1..] == ps[a];
      assert Prepend(c, ps)[b][1..] == ps[b];
    }
  }

  lemma ConcatNoDup(a: seq<seq<Cell>>, b: seq<seq<Cell>>)
    requires NoDup(a) && NoDup(b) && forall x, y :: x in a && y in b ==> x != y
    ensures NoDup(a + b)
  {
    forall i, j | 0 <= i < j < |a + b| ensures (a + b)[i] != (a + b)[j] {
      if i < |a| && j >= |a| {
        assert (a + b)[i] in a;
        assert (a + b)[j] in b;
      } else if i >= |a| {
        assert (a + b)[i] == b[i - |a|] && (a + b)[j] == b[j - |a|];
      }
    }
  }

  lemma {:induction false} TrailsDistinct(g: Grid, c: Cell)
    requires Topo(g) && InMap(g, c)
    ensures NoDup(Trails(g, c))
    decreases 10 - At(g, c), 1, 0
  {
    if At(g, c) != 9 { TrailsAllDistinct(g, c, Accessible(g, c)); }
  }

  lemma {:induction false} TrailsAllDistinct(g: Grid, c: Cell, l: seq<Cell>)
    requires Topo(g) && InMap(g, c) && (forall x :: x in l ==> Step(g, c, x)) && NoDup(l)
    ensures NoDup(TrailsAll(g, c, l))
    decreases 10 - At(g, c), 0, |l|
  {
    if l != [] {
      assert Step(g, c, l[0]);
      var head := Prepend(c, Trails(g, l[0]));
      TrailsDistinct(g, l[0]);
      PrependNoDup(c, Trails(g, l[0]));
      TrailsSound(g, l[0]);
      PrependSound(g, c, l[0], Trails(g, l[0]));
      assert NoDup(l[1..]);
      TrailsAllDistinct(g, c, l[1..]);
      TrailsAllSound(g, c, l[1..]);
      assert l[0] !in l[1..];
      ConcatNoDup(head, TrailsAll(g, c, l[1..]));
    }
  }

  // ---------------------------------------------------------------------------
  // part1 (day10.py:39-68): depth-first search with a visited set per trailhead
  // ---------------------------------------------------------------------------

  /** `[n for n in accessible if n not in visited]` */
  function Unvisited(l: seq<Cell>, visited: set<Cell>): (r: seq<Cell>)
    ensures forall x :: x in r <==> x in l && x !in visited
    ensures NoDup(l) ==> NoDup(r)
  {
    if l == [] then [] else (if l[0] in visited then [] else [l[0]]) + Unvisited(l[1..], visited)
  }

  /** Everything reachable from the cells of l higher than e. */
  ghost function CoverAbove(g: Grid, l: seq<Cell>, e: int): set<Cell>
    requires Topo(g) && forall x :: x in l ==> InMap(g, x)
  {
    if l == [] then {} else (if At(g, l[0]) > e then Reach(g, l[0]) else {}) + CoverAbove(g, l[1..], e)
  }

  lemma {:induction false} CoverConcat(g: Grid, a: seq<Cell>, b: seq<Cell>)
    requires Topo(g) && (forall x :: x in a ==> InMap(g, x)) && forall x :: x in b ==> InMap(g, x)
    ensures Cover(g, a + b) == Cover(g, a) + Cover(g, b)
    ensures forall e :: CoverAbove(g, a + b, e) == CoverAbove(g, a, e) + CoverAbove(g, b, e)
  {
    if a == [] {
      assert a + b == b;
    } else {
      assert (a + b)[1..] == a[1..] + b;
      CoverConcat(g, a[1..], b);
    }
  }

  lemma {:induction false} CoverAboveNone(g: Grid, l: seq<Cell>, e: int)
    requires Topo(g) && forall x :: x in l ==> InMap(g, x) && At(g, x) <= e
    ensures CoverAbove(g, l, e) == {}
  {
    if l != [] { CoverAboveNone(g, l[1..], e); }
  }

  lemma {:induction false} CoverAboveAll(g: Grid, l: seq<Cell>, e: int)
    requires Topo(g) && forall x :: x in l ==> InMap(g, x) && At(g, x) > e
    ensures CoverAbove(g, l, e) == Cover(g, l)
  {
    if l != [] { CoverAboveAll(g, l[1..], e); }
  }

  lemma {:induction false} CoverAboveSub(g: Grid, l: seq<Cell>, e: int)
    requires Topo(g) && forall x :: x in l ==> InMap(g, x)
    ensures CoverAbove(g, l, e) <= Cover(g, l)
  {
    if l != [] { CoverAboveSub(g, l[1..], e); }
  }

  /** Dropping the visited cells whose reach is already visited loses nothing. */
  lemma {:induction false} CoverUnvisited(g: Grid, l: seq<Cell>, visited: set<Cell>)
    requires Topo(g) && forall x :: x in l ==> InMap(g, x)
    requires forall x :: x in l && x in visited ==> Reach(g, x) <= visited
    ensures Cover(g, l) <= visited + Cover(g, Unvisited(l, visited))
    ensures Cover(g, Unvisited(l, visited)) <= Cover(g, l)
  {
    if l != [] {
      CoverUnvisited(g, l[1..], visited);
      var r := Unvisited(l[1..], visited);
      if l[0] !in visited {
        assert Unvisited(l, visited) == [l[0]] + r;
        assert ([l[0]] + r)[1..] == r;
      } else {
        assert Unvisited(l, visited) == r;
      }
    }
  }

  /** The pending cells of a trailhead: on the map above level 0, unvisited, distinct,
      and in non-increasing height from the top of the stack. */
  ghost predicate Pending(g: Grid, seg: seq<Cell>, visited: set<Cell>) {
    (forall x :: x in seg ==> InMap(g, x) && At(g, x) >= 1 && x !in visited) &&
    (forall a, b :: 0 <= a < b < |seg| ==> At(g, seg[a]) >= At(g, seg[b])) &&
    NoDup(seg)
  }

  /** Trailhead t reaches what is visited and what the pending cells reach. */
  ghost predicate Covers(g: Grid, t: Cell, seg: seq<Cell>, visited: set<Cell>)
    requires Topo(g) && InMap(g, t) && forall x :: x in seg ==> InMap(g, x)
  {
    Reach(g, t) == visited + {t} + Cover(g, seg)
  }

  /** A visited cell's reach is visited or reachable from the pending cells above it. */
  ghost predicate Closed(g: Grid, seg: seq<Cell>, visited: set<Cell>)
    requires Topo(g) && (forall x :: x in seg ==> InMap(g, x)) && forall v :: v in visited ==> InMap(g, v)
  {
    forall v {:trigger ClosedAt(g, seg, visited, v)} :: v in visited ==> ClosedAt(g, seg, visited, v)
  }

  ghost predicate ClosedAt(g: Grid, seg: seq<Cell>, visited: set<Cell>, v: Cell)
    requires Topo(g) && (forall x :: x in seg ==> InMap(g, x)) && InMap(g, v)
  {
    Reach(g, v) <= visited + CoverAbove(g, seg, At(g, v))
  }

  ghost predicate Heads(g: Grid, ts: seq<Cell>) {
    forall t :: t in ts ==> InMap(g, t) && At(g, t) == 0
  }

  /** The state of part1's loop, with the stack split into seg (the pending cells of
      trailhead ts[ti - 1]) and the trailheads not yet started: score counts the visited
      summits, total adds up the scores of the trailheads before. */
  ghost predicate DfsState(g: Grid, ts: seq<Cell>, ti: nat, seg: seq<Cell>, visited: set<Cell>, score: nat, total: nat) {
    DfsShape(g, ts, ti, seg, visited) &&
    DfsProgress(g, ts, ti, seg, visited, score) &&
    Closed(g, seg, visited) &&
    total == TotalScore(g, ts, if ti == 0 then 0 else ti - 1)
  }

  /** The cells involved are on the map, the trailheads are 0s, the pending cells wait. */
  ghost predicate DfsShape(g: Grid, ts: seq<Cell>, ti: nat, seg: seq<Cell>, visited: set<Cell>) {
    Topo(g) && ti <= |ts| && Heads(g, ts) &&
    (forall v :: v in visited ==> InMap(g, v)) &&
    Pending(g, seg, visited)
  }

  /** Before the first trailhead nothing is visited; after, the current trailhead's
      reach is split into visited and pending, and score counts the visited summits. */
  ghost predicate DfsProgress(g: Grid, ts: seq<Cell>, ti: nat, seg: seq<Cell>, visited: set<Cell>, score: nat)
    requires DfsShape(g, ts, ti, seg, visited)
  {
    (ti == 0 ==> seg == [] && visited == {} && score == 0) &&
    (ti > 0 ==> Covers(g, ts[ti - 1], seg, visited) && score == |Nines(g, visited)|)
  }

  /** When no cell of the current trailhead is pending, its score is complete. */
  lemma TrailheadDone(g: Grid, ts: seq<Cell>, ti: nat, visited: set<Cell>, score: nat, total: nat)
    requires DfsState(g, ts, ti, [], visited, score, total)
    ensures total + score == TotalScore(g, ts, ti)
  {
    if ti > 0 {
      var t := ts[ti - 1];
      assert t in ts;
      assert Nines(g, Reach(g, t)) == Nines(g, visited);
    }
  }

  lemma {:induction false} UnvisitedNone(l: seq<Cell>)
    ensures Unvisited(l, {}) == l
  {
    if l != [] {
      UnvisitedNone(l[1..]);
      assert [l[0]] + l[1..] == l;
    }
  }

  /** The first pending cells of trailhead t: its next steps. */
  lemma StartSeg(g: Grid, t: Cell)
    requires Topo(g) && InMap(g, t) && At(g, t) == 0
    ensures var seg := Unvisited(Accessible(g, t), {});
      (forall x :: x in seg ==> InMap(g, x)) && Pending(g, seg, {}) && Covers(g, t, seg, {})
  {
    var seg := Accessible(g, t);
    UnvisitedNone(seg);
    forall a | 0 <= a < |seg| ensures InMap(g, seg[a]) && At(g, seg[a]) == 1 {
      assert seg[a] in seg && Step(g, t, seg[a]);
    }
    ReachUnfold(g, t);
  }

  /** Popping trailhead ts[ti]: the score so far is added to the total, the visited set
      is cleared, and the trailhead's next steps are pushed. */
  lemma TrailheadStart(g: Grid, ts: seq<Cell>, ti: nat, visited: set<Cell>, score: nat, total: nat)
    requires DfsState(g, ts, ti, [], visited, score, total) && ti < |ts|
    ensures DfsState(g, ts, ti + 1, Unvisited(Accessible(g, ts[ti]), {}), {}, 0, total + score)
  {
    TrailheadDone(g, ts, ti, visited, score, total);
    assert ts[ti] in ts;
    StartSeg(g, ts[ti]);
    assert Nines(g, {}) == {};
  }

  lemma NinesAdd(g: Grid, visited: set<Cell>, x: Cell)
    requires InMap(g, x) && x !in visited
    ensures |Nines(g, visited + {x})| == |Nines(g, visited)| + (if At(g, x) == 9 then 1 else 0)
  {
    if At(g, x) == 9 {
      assert Nines(g, visited + {x}) == Nines(g, visited) + {x};
    } else {
      assert Nines(g, visited + {x}) == Nines(g, visited);
    }
  }

  /** The reach of the popped cell x is visited or reachable from its unvisited next steps. */
  lemma PopReach(g: Grid, seg: seq<Cell>, visited: set<Cell>, ch: seq<Cell>)
    requires Topo(g) && seg != [] && (forall v :: v in visited ==> InMap(g, v)) && Pending(g, seg, visited)
    requires Closed(g, seg, visited)
    requires ch == Unvisited(Accessible(g, seg[0]), visited + {seg[0]})
    ensures forall x :: x in ch ==> InMap(g, x) && At(g, x) == At(g, seg[0]) + 1
    ensures Reach(g, seg[0]) <= visited + {seg[0]} + Cover(g, ch)
    ensures Cover(g, ch) <= Reach(g, seg[0])
  {
    var x := seg[0];
    var acc := Accessible(g, x);
    assert forall y :: y in acc ==> Step(g, x, y);
    forall y | y in acc && y in visited + {x} ensures Reach(g, y) <= visited + {x} {
      assert y != x;
      assert ClosedAt(g, seg, visited, y);
      forall s | s in seg ensures InMap(g, s) && At(g, s) <= At(g, y) {
        var a :| 0 <= a < |seg| && seg[a] == s;
      }
      CoverAboveNone(g, seg, At(g, y));
    }
    CoverUnvisited(g, acc, visited + {x});
    ReachUnfold(g, x);
  }

  /** Cells one level up pushed on top of a non-increasing stack of lower cells keep it
      non-increasing and free of repeats. */
  lemma PushHigher(g: Grid, ch: seq<Cell>, rest: seq<Cell>, e: int)
    requires (forall y :: y in ch ==> InMap(g, y) && At(g, y) == e + 1) && NoDup(ch)
    requires (forall y :: y in rest ==> InMap(g, y) && At(g, y) <= e) && NoDup(rest)
    requires forall a, b :: 0 <= a < b < |rest| ==> At(g, rest[a]) >= At(g, rest[b])
    ensures forall a, b :: 0 <= a < b < |ch + rest| ==> At(g, (ch + rest)[a]) >= At(g, (ch + rest)[b])
    ensures NoDup(ch + rest)
  {
    var s := ch + rest;
    forall a, b | 0 <= a < b < |s| ensures At(g, s[a]) >= At(g, s[b]) && s[a] != s[b] {
      if b < |ch| {
        assert s[a] == ch[a] && s[b] == ch[b];
      } else if a >= |ch| {
        assert s[a] == rest[a - |ch|] && s[b] == rest[b - |ch|];
      } else {
        assert s[a] == ch[a] && s[b] == rest[b - |ch|];
        assert ch[a] in ch && rest[b - |ch|] in rest;
      }
    }
  }

  /** After the pop, the pending cells are still as Pending says. */
  lemma PopPending(g: Grid, seg: seq<Cell>, visited: set<Cell>)
    requires Topo(g) && seg != [] && Pending(g, seg, visited)
    ensures var x := seg[0];
      Pending(g, Unvisited(Accessible(g, x), visited + {x}) + seg[1..], visited + {x})
  {
    var x, rest := seg[0], seg[1..];
    var ch := Unvisited(Accessible(g, x), visited + {x});
    PendingTail(g, seg, visited);
    assert forall y :: y in ch ==> Step(g, x, y) && y !in visited + {x};
    PushHigher(g, ch, rest, At(g, x));
    assert forall y :: y in ch + rest ==> y in ch || y in rest;
  }

  /** Below the top of the stack, the pending cells are pending once the top is visited,
      and none is higher than the top. */
  lemma PendingTail(g: Grid, seg: seq<Cell>, visited: set<Cell>)
    requires seg != [] && Pending(g, seg, visited)
    ensures Pending(g, seg[1..], visited + {seg[0]})
    ensures forall y :: y in seg[1..] ==> At(g, y) <= At(g, seg[0])
  {
    var x, rest := seg[0], seg[1..];
    forall y | y in rest ensures y in seg && y != x && At(g, y) <= At(g, x) {
      var b :| 0 <= b < |rest| && rest[b] == y;
      assert seg[b + 1] == y;
    }
    assert forall a, b :: 0 <= a < b < |rest| ==> rest[a] == seg[a + 1] && rest[b] == seg[b + 1];
  }

  /** After the pop, the trailhead still reaches exactly what is visited or pending. */
  lemma PopCovers(g: Grid, t: Cell, seg: seq<Cell>, visited: set<Cell>)
    requires Topo(g) && InMap(g, t) && seg != [] && (forall v :: v in visited ==> InMap(g, v))
    requires Pending(g, seg, visited) && Closed(g, seg, visited) && Covers(g, t, seg, visited)
    ensures var x := seg[0];
      var ch := Unvisited(Accessible(g, x), visited + {x});
      (forall y :: y in ch ==> InMap(g, y)) &&
      Covers(g, t, ch + seg[1..], visited + {x})
  {
    var x, rest := seg[0], seg[1..];
    var ch := Unvisited(Accessible(g, x), visited + {x});
    PopReach(g, seg, visited, ch);
    CoverConcat(g, ch, rest);
    assert Cover(g, seg) == Reach(g, x) + Cover(g, rest);
  }

  /** The set algebra behind PopClosed: what a visited cell reached through the popped
      cell x is now visited or reached from x's unvisited next steps. */
  lemma ClosedKeep(r: set<Cell>, visited: set<Cell>, x: Cell, rx: set<Cell>, c: set<Cell>,
                   aboveCh: set<Cell>, aboveRest: set<Cell>, higher: bool)
    requires r <= visited + (if higher then rx else {}) + aboveRest
    requires rx <= visited + {x} + c
    requires higher ==> aboveCh == c
    ensures r <= visited + {x} + (aboveCh + aboveRest)
  {
  }

  /** After the pop, every visited cell's reach is still visited or pending above it. */
  lemma PopClosed(g: Grid, seg: seq<Cell>, visited: set<Cell>)
    requires Topo(g) && seg != [] && (forall v :: v in visited ==> InMap(g, v))
    requires Pending(g, seg, visited) && Closed(g, seg, visited)
    ensures var x := seg[0];
      var ch := Unvisited(Accessible(g, x), visited + {x});
      (forall y :: y in ch ==> InMap(g, y)) &&
      Closed(g, ch + seg[1..], visited + {x})
  {
    var x, rest := seg[0], seg[1..];
    var e := At(g, x);
    var visited' := visited + {x};
    var ch := Unvisited(Accessible(g, x), visited');
    var seg' := ch + rest;
    PopReach(g, seg, visited, ch);
    CoverConcat(g, ch, rest);
    forall v | v in visited' ensures ClosedAt(g, seg', visited', v) {
      var ev := At(g, v);
      if ev <= e {
        CoverAboveAll(g, ch, ev);
      }
      assert CoverAbove(g, seg', ev) == CoverAbove(g, ch, ev) + CoverAbove(g, rest, ev);
      if v == x {
        ClosedKeep(Reach(g, v), visited, x, Reach(g, x), Cover(g, ch), CoverAbove(g, ch, ev), CoverAbove(g, rest, ev), true);
      } else {
        assert ClosedAt(g, seg, visited, v);
        assert CoverAbove(g, seg, ev) == (if e > ev then Reach(g, x) else {}) + CoverAbove(g, rest, ev);
        ClosedKeep(Reach(g, v), visited, x, Reach(g, x), Cover(g, ch), CoverAbove(g, ch, ev), CoverAbove(g, rest, ev), e > ev);
      }
    }
  }

  lemma CardShrink(r: set<Cell>, visited: set<Cell>, x: Cell)
    requires x in r && x !in visited
    ensures |r - (visited + {x})| < |r - visited|
  {
    assert r - visited == (r - (visited + {x})) + {x};
  }

  /** Popping a pending cell x: it is marked visited, a summit adds one to the score, and
      its unvisited next steps are pushed (a summit has none). */
  lemma SegStep(g: Grid, ts: seq<Cell>, ti: nat, seg: seq<Cell>, visited: set<Cell>, score: nat, total: nat)
    requires DfsState(g, ts, ti, seg, visited, score, total) && seg != []
    ensures ti > 0
    ensures var x := seg[0];
      DfsState(g, ts, ti, Unvisited(Accessible(g, x), visited + {x}) + seg[1..], visited + {x},
               score + (if At(g, x) == 9 then 1 else 0), total)
    ensures |Reach(g, ts[ti - 1]) - (visited + {seg[0]})| < |Reach(g, ts[ti - 1]) - visited|
  {
    var x := seg[0];
    var t := ts[ti - 1];
    assert t in ts;
    assert x in seg;
    PopPending(g, seg, visited);
    PopCovers(g, t, seg, visited);
    PopClosed(g, seg, visited);
    NinesAdd(g, visited, x);
    CoverHas(g, seg, x);
    assert x in Reach(g, x);
    CardShrink(Reach(g, t), visited, x);
  }

  /** Popping the front of seg + ts[ti..]. */
  lemma PopFront<T>(seg: seq<T>, ts: seq<T>, ti: nat)
    requires ti <= |ts| && |seg + ts[ti..]| > 0
    ensures seg == [] ==> ti < |ts| && (seg + ts[ti..])[0] == ts[ti] && (seg + ts[ti..])[1..] == ts[ti + 1..]
    ensures seg != [] ==> (seg + ts[ti..])[0] == seg[0] && (seg + ts[ti..])[1..] == seg[1..] + ts[ti..]
  {
    if seg == [] {
      assert seg + ts[ti..] == ts[ti..];
    }
  }

  lemma AppendAssoc<T>(a: seq<T>, b: seq<T>, c: seq<T>)
    ensures (a + b) + c == a + (b + c)
  {
  }

  /** Before the loop: no trailhead started yet. */
  lemma DfsStart(g: Grid, ts: seq<Cell>)
    requires Topo(g) && Heads(g, ts)
    ensures DfsLoop(g, ts, 0, [], ts, {}, 0, 0)
  {
    assert [] + ts[0..] == ts;
  }

  /** The invariant of part1's loop: the stack is the current trailhead's pending cells
      on top of the trailheads not yet started. */
  ghost predicate DfsLoop(g: Grid, ts: seq<Cell>, ti: nat, seg: seq<Cell>, queue: seq<Cell>,
                          visited: set<Cell>, score: nat, total: nat) {
    ti <= |ts| && queue == seg + ts[ti..] && DfsState(g, ts, ti, seg, visited, score, total)
  }

  /** What the current trailhead reaches that is not yet visited. */
  ghost function Unreached(g: Grid, ts: seq<Cell>, ti: nat, visited: set<Cell>): nat {
    if 0 < ti <= |ts| && Topo(g) && InMap(g, ts[ti - 1]) then |Reach(g, ts[ti - 1]) - visited| else 0
  }

  /** An empty stack: every trailhead is started and the last one is complete. */
  lemma DfsDone(g: Grid, ts: seq<Cell>, ti: nat, seg: seq<Cell>, visited: set<Cell>, score: nat, total: nat)
    requires DfsLoop(g, ts, ti, seg, [], visited, score, total)
    ensures total + score == TotalScore(g, ts, |ts|)
  {
    EmptyStack(seg, ts, ti);
    TrailheadDone(g, ts, ti, visited, score, total);
  }

  lemma EmptyStack<T>(seg: seq<T>, ts: seq<T>, ti: nat)
    requires ti <= |ts| && seg + ts[ti..] == []
    ensures seg == [] && ti == |ts|
  {
    assert |seg + ts[ti..]| == |seg| + (|ts| - ti);
  }

  /** The stack, visited set, score and total after one pass of part1's loop. */
  function Pop(g: Grid, queue: seq<Cell>, visited: set<Cell>, score: nat, total: nat): (seq<Cell>, set<Cell>, nat, nat)
    requires Topo(g) && |queue| > 0 && InMap(g, queue[0])
  {
    var c := queue[0];
    var visited' := if At(g, c) == 0 then {} else visited + {c};
    var score' := if At(g, c) == 0 then 0 else score;
    var total' := if At(g, c) == 0 then total + score else total;
    if At(g, c) == 9 then (queue[1..], visited', score' + 1, total')
    else (Unvisited(Accessible(g, c), visited') + queue[1..], visited', score', total')
  }

  /** One pass of part1's loop keeps its invariant and makes progress. */
  ghost predicate PopKeeps(g: Grid, ts: seq<Cell>, ti: nat, seg: seq<Cell>, queue: seq<Cell>,
                           visited: set<Cell>, score: nat, total: nat, ti': nat, seg': seq<Cell>)
    requires Topo(g) && |queue| > 0 && InMap(g, queue[0])
  {
    var p := Pop(g, queue, visited, score, total);
    DfsLoop(g, ts, ti', seg', p.0, p.1, p.2, p.3) &&
    (ti' > ti || (ti' == ti && Unreached(g, ts, ti, p.1) < Unreached(g, ts, ti, visited)))
  }

  lemma PopKept(g: Grid, ts: seq<Cell>, ti: nat, ti': nat, seg': seq<Cell>, p: (seq<Cell>, set<Cell>, nat, nat),
                visited0: set<Cell>, queue: seq<Cell>, visited: set<Cell>, score: nat, total: nat)
    requires DfsLoop(g, ts, ti', seg', p.0, p.1, p.2, p.3)
    requires ti' > ti || (ti' == ti && Unreached(g, ts, ti, p.1) < Unreached(g, ts, ti, visited0))
    requires p == (queue, visited, score, total)
    ensures DfsLoop(g, ts, ti', seg', queue, visited, score, total)
    ensures ti' > ti || (ti' == ti && Unreached(g, ts, ti, visited) < Unreached(g, ts, ti, visited0))
  {
  }

  /** What one pass of part1's loop does to trailhead t = ts[ti] on top of the stack: the
      score goes into the total, the visited set is cleared, and t's next steps are pushed. */
  lemma PopStartValues(g: Grid, ts: seq<Cell>, ti: nat, queue: seq<Cell>, visited: set<Cell>, score: nat, total: nat)
    requires Topo(g) && ti < |ts| && queue == [] + ts[ti..]
    requires InMap(g, ts[ti]) && At(g, ts[ti]) == 0
    ensures Pop(g, queue, visited, score, total) ==
      (Unvisited(Accessible(g, ts[ti]), {}) + ts[ti + 1..], {}, 0, total + score)
  {
    PopFront([], ts, ti);
  }

  /** Popping trailhead ts[ti] when no cell of the previous one is pending starts it. */
  lemma PopStart(g: Grid, ts: seq<Cell>, ti: nat, queue: seq<Cell>, visited: set<Cell>, score: nat, total: nat)
    requires |queue| > 0 && DfsLoop(g, ts, ti, [], queue, visited, score, total)
    ensures InMap(g, queue[0]) && PopKeeps(g, ts, ti, [], queue, visited, score, total, ti + 1, Unvisited(Accessible(g, queue[0]), {}))
  {
    PopFront([], ts, ti);
    assert ts[ti] in ts;
    PopStartValues(g, ts, ti, queue, visited, score, total);
    TrailheadStart(g, ts, ti, visited, score, total);
  }

  /** What one pass of part1's loop does to a pending cell c on top of the stack: c is
      marked visited, a 9 is counted, and anything lower has its unvisited next steps pushed. */
  lemma PopPendingValues(g: Grid, ts: seq<Cell>, ti: nat, seg: seq<Cell>, queue: seq<Cell>,
                         visited: set<Cell>, score: nat, total: nat)
    requires Topo(g) && seg != [] && ti <= |ts| && queue == seg + ts[ti..]
    requires InMap(g, seg[0]) && At(g, seg[0]) != 0
    ensures var c := seg[0];
      Pop(g, queue, visited, score, total) ==
        ((Unvisited(Accessible(g, c), visited + {c}) + seg[1..]) + ts[ti..], visited + {c},
         score + (if At(g, c) == 9 then 1 else 0), total)
  {
    PopFront(seg, ts, ti);
    var c := seg[0];
    var ch := Unvisited(Accessible(g, c), visited + {c});
    if At(g, c) == 9 {
      SummitIsLast(g, c);
      assert ch == [];
      assert ch + seg[1..] == seg[1..];
    } else {
      AppendAssoc(ch, seg[1..], ts[ti..]);
    }
  }

  /** Popping a pending cell visits it. */
  lemma PopVisit(g: Grid, ts: seq<Cell>, ti: nat, seg: seq<Cell>, queue: seq<Cell>, visited: set<Cell>, score: nat, total: nat)
    requires seg != [] && DfsLoop(g, ts, ti, seg, queue, visited, score, total)
    ensures |queue| > 0 && InMap(g, queue[0])
    ensures PopKeeps(g, ts, ti, seg, queue, visited, score, total, ti, Unvisited(Accessible(g, queue[0]), visited + {queue[0]}) + seg[1..])
  {
    PopFront(seg, ts, ti);
    assert seg[0] in seg;
    PopPendingValues(g, ts, ti, seg, queue, visited, score, total);
    SegStep(g, ts, ti, seg, visited, score, total);
  }

  /** One pass of part1's loop keeps its invariant: popping trailhead ts[ti] (seg is
      empty, the cell is a 0) starts that trailhead; popping a pending cell visits it. */
  lemma PopStep(g: Grid, ts: seq<Cell>, ti: nat, seg: seq<Cell>, queue: seq<Cell>,
                visited: set<Cell>, score: nat, total: nat) returns (ti': nat, seg': seq<Cell>)
    requires |queue| > 0 && DfsLoop(g, ts, ti, seg, queue, visited, score, total)
    ensures Topo(g) && InMap(g, queue[0]) && PopKeeps(g, ts, ti, seg, queue, visited, score, total, ti', seg')
  {
    if seg == [] {
      PopStart(g, ts, ti, queue, visited, score, total);
      ti', seg' := ti + 1, Unvisited(Accessible(g, queue[0]), {});
    } else {
      PopVisit(g, ts, ti, seg, queue, visited, score, total);
      ti', seg' := ti, Unvisited(Accessible(g, queue[0]), visited + {queue[0]}) + seg[1..];
    }
  }

  /** One pass of part1's loop (day10.py:51-64): pop the top cell, mark it visited,
      close the previous trailhead's score at a 0, count a 9, and push the unvisited
      next steps of anything else. */
  method DfsPop(g: Grid, queue: seq<Cell>, visited: set<Cell>, score: nat, total: nat)
    returns (queue': seq<Cell>, visited': set<Cell>, score': nat, total': nat)
    requires Topo(g) && |queue| > 0 && InMap(g, queue[0])
    ensures (queue', visited', score', total') == Pop(g, queue, visited, score, total)
  {
    var c := queue[0];
    queue' := queue[1..];
    visited' := visited + {c};
    score', total' := score, total;
    if At(g, c) == 0 {
      total' := total' + score';
      score' := 0;
      visited' := {};
    }
    if At(g, c) == 9 {
      score' := score' + 1;
    } else {
      var accessible := Accessible(g, c);
      queue' := Unvisited(accessible, visited') + queue';
    }
  }

  /** part1: the total score of all trailheads. */
  method Part1(g: Grid) returns (total: nat)
    requires Topo(g)
    ensures total == TotalScore(g, Zeros(g), |Zeros(g)|)
  {
    total := 0;
    var score := 0;
    var queue := FindTrailheads(g);
    ghost var ts := queue;
    DfsStart(g, ts);
    var visited: set<Cell> := {};
    ghost var ti, seg := 0, [];
    while |queue| > 0
      invariant DfsLoop(g, ts, ti, seg, queue, visited, score, total)
      decreases |ts| - ti, Unreached(g, ts, ti, visited)
    {
      ghost var ti', seg' := PopStep(g, ts, ti, seg, queue, visited, score, total);
      ghost var visited0 := visited;
      ghost var p := Pop(g, queue, visited, score, total);
      queue, visited, score, total := DfsPop(g, queue, visited, score, total);
      PopKept(g, ts, ti, ti', seg', p, visited0, queue, visited, score, total);
      ti, seg := ti', seg';
    }
    DfsDone(g, ts, ti, seg, visited, score, total);
    total := total + score;
  }

  // ---------------------------------------------------------------------------
  // part2 (day10.py:71-100): depth-first search counting every trail
  // ---------------------------------------------------------------------------

  /** Paths(g, c), the rating of c, is the number of distinct trails from c to a summit. */
  lemma RatingCountsTrails(g: Grid, c: Cell)
    requires Topo(g) && InMap(g, c)
    ensures Paths(g, c) == |Trails(g, c)|
    ensures forall p :: p in Trails(g, c) <==> SummitTrail(g, c, p)
    ensures NoDup(Trails(g, c))
  {
    TrailsCount(g, c);
    TrailsSound(g, c);
    TrailsDistinct(g, c);
    forall p | SummitTrail(g, c, p) ensures p in Trails(g, c) {
      TrailsComplete(g, c, p);
    }
  }

  /** The ratings of the cells of l, added up. */
  ghost function RatingSum(g: Grid, l: seq<Cell>): nat
    requires Topo(g) && forall x :: x in l ==> InMap(g, x)
  {
    if l == [] then 0 else Paths(g, l[0]) + RatingSum(g, l[1..])
  }

  /** The number of cells part2 pops for c: c itself and, below a summit, those it pops
      for each next step. */
  ghost function Size(g: Grid, c: Cell): nat
    requires Topo(g) && InMap(g, c)
    decreases 10 - At(g, c), 1, 0
  {
    if At(g, c) == 9 then 1 else 1 + SizeAll(g, c, Accessible(g, c))
  }

  ghost function SizeAll(g: Grid, c: Cell, l: seq<Cell>): nat
    requires Topo(g) && InMap(g, c) && forall x :: x in l ==> Step(g, c, x)
    decreases 10 - At(g, c), 0, |l|
  {
    if l == [] then 0 else assert l[0] in l && Step(g, c, l[0]); Size(g, l[0]) + SizeAll(g, c, l[1..])
  }

  ghost function StackSize(g: Grid, l: seq<Cell>): nat
    requires Topo(g) && forall x :: x in l ==> InMap(g, x)
  {
    if l == [] then 0 else Size(g, l[0]) + StackSize(g, l[1..])
  }

  lemma {:induction false} SumsOfSteps(g: Grid, c: Cell, l: seq<Cell>)
    requires Topo(g) && InMap(g, c) && forall x :: x in l ==> Step(g, c, x)
    ensures PathsAll(g, c, l) == RatingSum(g, l)
    ensures SizeAll(g, c, l) == StackSize(g, l)
  {
    if l != [] {
      assert Step(g, c, l[0]);
      SumsOfSteps(g, c, l[1..]);
    }
  }

  lemma {:induction false} SumsConcat(g: Grid, a: seq<Cell>, b: seq<Cell>)
    requires Topo(g) && (forall x :: x in a ==> InMap(g, x)) && forall x :: x in b ==> InMap(g, x)
    ensures RatingSum(g, a + b) == RatingSum(g, a) + RatingSum(g, b)
    ensures StackSize(g, a + b) == StackSize(g, a) + StackSize(g, b)
  {
    if a == [] {
      assert a + b == b;
    } else {
      assert (a + b)[1..] == a[1..] + b;
      SumsConcat(g, a[1..], b);
    }
  }

  /** Popping c and pushing its next steps (none for a summit) keeps the rating of the
      stack plus the summits counted, and pops one cell of the stack's size. */
  lemma RatingPop(g: Grid, queue: seq<Cell>)
    requires Topo(g) && |queue| > 0 && forall x :: x in queue ==> InMap(g, x)
    ensures var c := queue[0];
      var next := if At(g, c) == 9 then queue[1..] else Accessible(g, c) + queue[1..];
      (forall x :: x in next ==> InMap(g, x)) &&
      RatingSum(g, next) + (if At(g, c) == 9 then 1 else 0) == RatingSum(g, queue) &&
      StackSize(g, next) < StackSize(g, queue)
  {
    var c, rest := queue[0], queue[1..];
    assert c in queue;
    assert forall x :: x in rest ==> x in queue;
    if At(g, c) != 9 {
      var acc := Accessible(g, c);
      assert forall x :: x in acc ==> Step(g, c, x);
      SumsOfSteps(g, c, acc);
      SumsConcat(g, acc, rest);
    }
  }

  /** part2: the total rating of all trailheads. The membership test of day10.py:96
      compares a cell with (cell, parent) pairs and never holds, so every next step is pushed
      and the visited set and parents play no part. */
  method Part2(g: Grid) returns (total: nat)
    requires Topo(g)
    ensures total == RatingSum(g, Zeros(g))
  {
    total := 0;
    var rating := 0;
    var queue := FindTrailheads(g);
    while |queue| > 0
      invariant forall x :: x in queue ==> InMap(g, x)
      invariant total + rating + RatingSum(g, queue) == RatingSum(g, Zeros(g))
      decreases StackSize(g, queue)
    {
      RatingPop(g, queue);
      var c := queue[0];
      queue := queue[1..];
      if At(g, c) == 0 {
        total := total + rating;
        rating := 0;
      }
      if At(g, c) == 9 {
        rating := rating + 1;
      } else {
        var accessible := Accessible(g, c);
        queue := accessible + queue;
      }
    }
    total := total + rating;
  }
}
