/** Day 12: Garden Groups -- regions of a garden map, their perimeters and their sides. */
module Day12 {
  import opened Wrappers

  type Cell = (int, int)
  type Garden = seq<string>

  /** A perimeter segment: the cell outside the region, then the region cell it borders. */
  type Edge = (Cell, Cell)

  /** Every row as wide as the first, as the map's bounds checks take for granted. */
  predicate Rect(g: Garden) {
    forall i :: 0 <= i < |g| ==> |g[i]| == |g[0]|
  }

  predicate InGrid(g: Garden, c: Cell) {
    0 <= c.0 < |g| && 0 <= c.1 < |g[c.0]|
  }

  function Sym(g: Garden, c: Cell): char
    requires InGrid(g, c)
  {
    g[c.0][c.1]
  }

  function Up(c: Cell): Cell { (c.0 - 1, c.1) }
  function Down(c: Cell): Cell { (c.0 + 1, c.1) }
  function Left(c: Cell): Cell { (c.0, c.1 - 1) }
  function Right(c: Cell): Cell { (c.0, c.1 + 1) }

  function Around(c: Cell): set<Cell> {
    {Up(c), Down(c), Left(c), Right(c)}
  }

  /** A move between 4-neighbours carrying the same plant. */
  predicate Step(g: Garden, a: Cell, b: Cell) {
    InGrid(g, a) && InGrid(g, b) && b in Around(a) && Sym(g, a) == Sym(g, b)
  }

  lemma StepBack(g: Garden, a: Cell, b: Cell)
    requires Step(g, a, b)
    ensures Step(g, b, a)
  {
  }

  /** The cells of the map. */
  ghost function Cells(g: Garden): set<Cell> {
    set i, j | 0 <= i < |g| && 0 <= j < |g[i]| :: (i, j)
  }

  // ---------------------------------------------------------------------------
  // Regions as the components of the same-plant neighbour relation
  // ---------------------------------------------------------------------------

  /** p is a walk of same-plant steps through the map. */
  ghost predicate Walk(g: Garden, p: seq<Cell>)
    decreases |p|
  {
    |p| >= 1 && InGrid(g, p[0]) &&
    (|p| >= 2 ==> Walk(g, p[..|p| - 1]) && Step(g, p[|p| - 2], p[|p| - 1]))
  }

  ghost predicate Linked(g: Garden, a: Cell, b: Cell) {
    exists p :: Walk(g, p) && p[0] == a && p[|p| - 1] == b
  }

  /** The region of start: every cell a same-plant walk from start reaches. */
  ghost function Component(g: Garden, start: Cell): set<Cell> {
    set c | c in Cells(g) && Linked(g, start, c)
  }

  /** R is closed when no same-plant step leads out of it. */
  ghost predicate ClosedAt(g: Garden, r: set<Cell>, c: Cell) {
    (Step(g, c, Up(c)) ==> Up(c) in r) &&
    (Step(g, c, Down(c)) ==> Down(c) in r) &&
    (Step(g, c, Left(c)) ==> Left(c) in r) &&
    (Step(g, c, Right(c)) ==> Right(c) in r)
  }

  ghost predicate Closed(g: Garden, r: set<Cell>) {
    forall c {:trigger ClosedAt(g, r, c)} :: c in r ==> ClosedAt(g, r, c)
  }

  lemma LinkedSelf(g: Garden, c: Cell)
    requires InGrid(g, c)
    ensures Linked(g, c, c)
  {
    assert Walk(g, [c]);
  }

  lemma LinkedStep(g: Garden, a: Cell, b: Cell, c: Cell)
    requires Linked(g, a, b) && Step(g, b, c)
    ensures Linked(g, a, c)
  {
    var p :| Walk(g, p) && p[0] == a && p[|p| - 1] == b;
    var q := p + [c];
    assert q[..|q| - 1] == p;
    assert Walk(g, q);
  }

  /** A walk keeps to the plant and the map of its first cell. */
  lemma {:induction false} WalkKeeps(g: Garden, p: seq<Cell>)
    requires Walk(g, p)
    ensures InGrid(g, p[|p| - 1]) && Sym(g, p[|p| - 1]) == Sym(g, p[0])
    decreases |p|
  {
    if |p| >= 2 {
      WalkKeeps(g, p[..|p| - 1]);
    }
  }

  /** A walk that starts in a closed set stays in it. */
  lemma {:induction false} ClosedForward(g: Garden, r: set<Cell>, p: seq<Cell>)
    requires Closed(g, r) && Walk(g, p) && p[0] in r
    ensures p[|p| - 1] in r
    decreases |p|
  {
    if |p| >= 2 {
      ClosedForward(g, r, p[..|p| - 1]);
      assert ClosedAt(g, r, p[|p| - 2]);
    }
  }

  /** A walk that ends in a closed set started in it. */
  lemma {:induction false} ClosedBack(g: Garden, r: set<Cell>, p: seq<Cell>)
    requires Closed(g, r) && Walk(g, p) && p[|p| - 1] in r
    ensures p[0] in r
    decreases |p|
  {
    if |p| >= 2 {
      var a, b := p[|p| - 2], p[|p| - 1];
      StepBack(g, a, b);
      assert ClosedAt(g, r, b);
      assert a in r;
      ClosedBack(g, r, p[..|p| - 1]);
    }
  }

  /** The region holds its start, and every cell of it lies in the map and carries the start's plant. */
  lemma ComponentPlant(g: Garden, start: Cell)
    requires InGrid(g, start)
    ensures start in Component(g, start)
    ensures forall c :: c in Component(g, start) ==> InGrid(g, c) && Sym(g, c) == Sym(g, start)
  {
    LinkedSelf(g, start);
    forall c | c in Component(g, start)
      ensures InGrid(g, c) && Sym(g, c) == Sym(g, start)
    {
      var p :| Walk(g, p) && p[0] == start && p[|p| - 1] == c;
      WalkKeeps(g, p);
    }
  }

  /** The region is closed: every same-plant neighbour of a member is a member. */
  lemma ComponentClosed(g: Garden, start: Cell)
    ensures Closed(g, Component(g, start))
  {
    var r := Component(g, start);
    forall c | c in r
      ensures ClosedAt(g, r, c)
    {
      forall d | d in Around(c) && Step(g, c, d)
        ensures d in r
      {
        LinkedStep(g, start, c, d);
      }
    }
  }

  /** A closed set holding start holds all of start's region. */
  lemma ComponentLeast(g: Garden, start: Cell, r: set<Cell>)
    requires Closed(g, r) && start in r
    ensures Component(g, start) <= r
  {
    forall c | c in Component(g, start)
      ensures c in r
    {
      var p :| Walk(g, p) && p[0] == start && p[|p| - 1] == c;
      ClosedForward(g, r, p);
    }
  }

  /** A region meets a closed set only if its start lies in that set. */
  lemma ComponentMeets(g: Garden, start: Cell, r: set<Cell>)
    requires Closed(g, r) && start !in r
    ensures Component(g, start) * r == {}
  {
    forall c | c in Component(g, start)
      ensures c !in r
    {
      var p :| Walk(g, p) && p[0] == start && p[|p| - 1] == c;
      if c in r {
        ClosedBack(g, r, p);
      }
    }
  }

  // ---------------------------------------------------------------------------
  // get_region: breadth-first flood fill
  // ---------------------------------------------------------------------------

  /** [d] when the fill may move from c to d, a cell not yet in the region. */
  function Gain(g: Garden, c: Cell, d: Cell, r: set<Cell>): seq<Cell> {
    if Step(g, c, d) && d !in r then [d] else []
  }

  function GainSet(g: Garden, c: Cell, d: Cell, r: set<Cell>): set<Cell> {
    if Step(g, c, d) && d !in r then {d} else {}
  }

  /** The queue q once c's new same-plant neighbours join its back, in the order the source tries them. */
  function Pushed(g: Garden, c: Cell, r: set<Cell>, q: seq<Cell>): seq<Cell> {
    q + Gain(g, c, Up(c), r) + Gain(g, c, Down(c), r) + Gain(g, c, Left(c), r) + Gain(g, c, Right(c), r)
  }

  /** The region r once c's same-plant neighbours join it. */
  function Grown(g: Garden, c: Cell, r: set<Cell>): set<Cell> {
    r + GainSet(g, c, Up(c), r) + GainSet(g, c, Down(c), r) + GainSet(g, c, Left(c), r) + GainSet(g, c, Right(c), r)
  }

  /** What an expansion adds: the same-plant neighbours outside the region, to both region and queue. */
  lemma GrownMembers(g: Garden, c: Cell, r: set<Cell>, q: seq<Cell>)
    ensures forall x :: x in Grown(g, c, r) <==> x in r || (x in Around(c) && Step(g, c, x))
    ensures forall x :: x in Pushed(g, c, r, q) <==> x in q || (x in Around(c) && Step(g, c, x) && x !in r)
    ensures Grown(g, c, r) == r ==> Pushed(g, c, r, q) == q
  {
  }

  /** The source's bounds-and-plant tests are the same-plant steps. */
  lemma SourceTests(g: Garden, c: Cell, symbol: char)
    requires Rect(g) && InGrid(g, c) && Sym(g, c) == symbol
    ensures (c.0 > 0 && g[c.0 - 1][c.1] == symbol) == Step(g, c, Up(c))
    ensures (c.0 < |g| - 1 && g[c.0 + 1][c.1] == symbol) == Step(g, c, Down(c))
    ensures (c.1 > 0 && g[c.0][c.1 - 1] == symbol) == Step(g, c, Left(c))
    ensures (c.1 < |g[0]| - 1 && g[c.0][c.1 + 1] == symbol) == Step(g, c, Right(c))
  {
  }

  /** The state of the flood fill between two pops. */
  ghost predicate Filling(g: Garden, start: Cell, region: set<Cell>, queue: seq<Cell>) {
    start in region &&
    region <= Component(g, start) &&
    (forall c :: c in queue ==> c in region) &&
    (forall c :: c in region && c !in queue ==> ClosedAt(g, region, c))
  }

  /**
   * One of the source's four tests: d joins the region and the back of the
   * queue when the test ok passes and d is new.  ok is the same-plant step
   * from c to d, and d is in region exactly when it was in the region r0
   * the expansion started from.
   */
  method Visit(ghost g: Garden, ghost c: Cell, d: Cell, ok: bool, ghost r0: set<Cell>,
               region: set<Cell>, queue: seq<Cell>)
    returns (region': set<Cell>, queue': seq<Cell>)
    requires ok == Step(g, c, d) && (d in region <==> d in r0)
    ensures queue' == queue + Gain(g, c, d, r0)
    ensures region' == region + GainSet(g, c, d, r0)
  {
    region', queue' := region, queue;
    if ok && d !in region {
      queue' := queue + [d];
      region' := region + {d};
    }
  }

  /**
   * One pop of the flood fill: every same-plant neighbour of c not yet in
   * the region joins the region and the back of the queue.
   */
  method Expand(g: Garden, c: Cell, symbol: char, region: set<Cell>, queue: seq<Cell>)
    returns (region': set<Cell>, queue': seq<Cell>)
    requires Rect(g) && InGrid(g, c) && Sym(g, c) == symbol
    ensures queue' == Pushed(g, c, region, queue)
    ensures region' == Grown(g, c, region)
  {
    SourceTests(g, c, symbol);
    var n, m := |g|, |g[0]|;
    var i, j := c.0, c.1;
    var q1, q2, q3, r1, r2, r3;
    r1, q1 := Visit(g, c, Up(c), i > 0 && g[i - 1][j] == symbol, region, region, queue);
    r2, q2 := Visit(g, c, Down(c), i < n - 1 && g[i + 1][j] == symbol, region, r1, q1);
    r3, q3 := Visit(g, c, Left(c), j > 0 && g[i][j - 1] == symbol, region, r2, q2);
    region', queue' := Visit(g, c, Right(c), j < m - 1 && g[i][j + 1] == symbol, region, r3, q3);
  }

  /** The fill state survives a pop, and the pop makes progress. */
  lemma FillStep(g: Garden, start: Cell, region: set<Cell>, queue: seq<Cell>)
    requires Filling(g, start, region, queue) && region <= Cells(g) && |queue| > 0
    ensures var c := queue[0];
      var region' := Grown(g, c, region);
      Filling(g, start, region', Pushed(g, c, region, queue[1..])) &&
      region' <= Cells(g) &&
      (region' == region || |Cells(g) - region'| < |Cells(g) - region|)
  {
    var c := queue[0];
    var region' := Grown(g, c, region);
    GrowLinked(g, start, c, region);
    GrowQueue(g, c, region, queue);
    GrowClosed(g, c, region, queue);
    if region' != region {
      Shrinks(Cells(g), region, region');
    }
  }

  /** The cells an expansion adds are linked to start, as c is. */
  lemma GrowLinked(g: Garden, start: Cell, c: Cell, region: set<Cell>)
    requires region <= Component(g, start) && c in region
    ensures Grown(g, c, region) <= Component(g, start)
  {
    GrownMembers(g, c, region, []);
    forall x | x in Grown(g, c, region) && x !in region
      ensures x in Component(g, start)
    {
      LinkedStep(g, start, c, x);
    }
  }

  /** The queue after a pop holds only region cells. */
  lemma GrowQueue(g: Garden, c: Cell, region: set<Cell>, queue: seq<Cell>)
    requires |queue| > 0 && c == queue[0] && forall x :: x in queue ==> x in region
    ensures forall x :: x in Pushed(g, c, region, queue[1..]) ==> x in Grown(g, c, region)
  {
    GrownMembers(g, c, region, queue[1..]);
    assert forall x :: x in queue[1..] ==> x in queue;
  }

  /** Every region cell off the queue after a pop is closed, c among them. */
  lemma GrowClosed(g: Garden, c: Cell, region: set<Cell>, queue: seq<Cell>)
    requires |queue| > 0 && c == queue[0]
    requires forall x :: x in region && x !in queue ==> ClosedAt(g, region, x)
    ensures var region', queue' := Grown(g, c, region), Pushed(g, c, region, queue[1..]);
      forall x :: x in region' && x !in queue' ==> ClosedAt(g, region', x)
  {
    var region', queue' := Grown(g, c, region), Pushed(g, c, region, queue[1..]);
    GrownMembers(g, c, region, queue[1..]);
    forall x | x in region' && x !in queue'
      ensures ClosedAt(g, region', x)
    {
      if x != c {
        assert x in region && x !in queue[1..];
        assert x !in queue;
        assert ClosedAt(g, region, x);
      }
    }
  }

  lemma Shrinks<T>(all: set<T>, r: set<T>, r': set<T>)
    requires r < r' <= all
    ensures |all - r'| < |all - r|
  {
    assert exists y :: y in r' && y !in r;
    var x :| x in r' && x !in r;
    var d, e := all - r, all - r';
    assert x in d - e;
    assert d == (d - e) + e && (d - e) * e == {};
    assert |d| == |d - e| + |e|;
  }

  /**
   * get_region: the region of start -- exactly the cells a same-plant walk
   * from start reaches.
   */
  method GetRegion(g: Garden, start: Cell) returns (region: set<Cell>)
    requires Rect(g) && InGrid(g, start)
    ensures region == Component(g, start)
  {
    var symbol := g[start.0][start.1];
    region := {start};
    var queue := [start];
    LinkedSelf(g, start);
    while |queue| > 0
      invariant Filling(g, start, region, queue) && region <= Cells(g)
      decreases |Cells(g) - region|, |queue|
    {
      FillStep(g, start, region, queue);
      var c := queue[0];
      queue := queue[1..];
      ComponentPlant(g, start);
      ghost var region0, queue0 := region, queue;
      region, queue := Expand(g, c, symbol, region, queue);
      assert region == region0 ==> queue == queue0 by {
        GrownMembers(g, c, region0, queue0);
      }
    }
    assert Closed(g, region);
    ComponentLeast(g, start, region);
  }

  // ---------------------------------------------------------------------------
  // get_perimeter
  // ---------------------------------------------------------------------------

  predicate NoDup<T(==)>(s: seq<T>) {
    forall a, b :: 0 <= a < b < |s| ==> s[a] != s[b]
  }

  /** e is a perimeter segment of r: its inner cell is in r, its outer cell a neighbour outside r. */
  predicate IsEdge(r: set<Cell>, e: Edge) {
    e.1 in r && e.0 in Around(e.1) && e.0 !in r
  }

  /** The perimeter of r, as a set of segments. */
  ghost function Perimeter(r: set<Cell>): set<Edge> {
    set c, d | c in r && d in Around(c) && d !in r :: (d, c)
  }

  lemma PerimeterMembers(r: set<Cell>)
    ensures forall e :: e in Perimeter(r) <==> IsEdge(r, e)
  {
    forall e | IsEdge(r, e)
      ensures e in Perimeter(r)
    {
      var (d, c) := e;
      assert (d, c) == e;
    }
  }

  /** [(d, c)] when d lies outside r. */
  function Out(r: set<Cell>, c: Cell, d: Cell): seq<Edge> {
    if d !in r then [(d, c)] else []
  }

  /** The segments the source records for c, in the order it tries the neighbours. */
  function Outside(r: set<Cell>, c: Cell, perimeter: seq<Edge>): seq<Edge> {
    perimeter + Out(r, c, Up(c)) + Out(r, c, Down(c)) + Out(r, c, Left(c)) + Out(r, c, Right(c))
  }

  /** The four tests of get_perimeter for one region cell c. */
  method Border(region: set<Cell>, c: Cell, perimeter: seq<Edge>) returns (perimeter': seq<Edge>)
    ensures perimeter' == Outside(region, c, perimeter)
  {
    perimeter' := perimeter;
    if Up(c) !in region {
      perimeter' := perimeter' + [(Up(c), c)];
    }
    if Down(c) !in region {
      perimeter' := perimeter' + [(Down(c), c)];
    }
    if Left(c) !in region {
      perimeter' := perimeter' + [(Left(c), c)];
    }
    if Right(c) !in region {
      perimeter' := perimeter' + [(Right(c), c)];
    }
  }

  /** Recording c adds exactly c's segments, once each. */
  lemma OutsideSpec(r: set<Cell>, c: Cell, perimeter: seq<Edge>)
    requires NoDup(perimeter) && forall e :: e in perimeter ==> e.1 != c
    ensures NoDup(Outside(r, c, perimeter))
    ensures forall e :: e in Outside(r, c, perimeter) <==> e in perimeter || (e.1 == c && e.0 in Around(c) && e.0 !in r)
  {
    var t := Out(r, c, Up(c)) + Out(r, c, Down(c)) + Out(r, c, Left(c)) + Out(r, c, Right(c));
    assert Outside(r, c, perimeter) == perimeter + t;
    OutsOfCell(r, c);
    NoDupAppend(perimeter, t);
  }

  /** The segments recorded for c are c's segments, once each. */
  lemma OutsOfCell(r: set<Cell>, c: Cell)
    ensures var t := Out(r, c, Up(c)) + Out(r, c, Down(c)) + Out(r, c, Left(c)) + Out(r, c, Right(c));
      NoDup(t) && forall e :: e in t <==> e.1 == c && e.0 in Around(c) && e.0 !in r
  {
    var t := Out(r, c, Up(c)) + Out(r, c, Down(c)) + Out(r, c, Left(c)) + Out(r, c, Right(c));
    assert forall a, b :: 0 <= a < b < |t| ==> t[a].0 != t[b].0;
  }

  lemma NoDupAppend<T>(a: seq<T>, b: seq<T>)
    requires NoDup(a) && NoDup(b) && forall x :: x in a ==> x !in b
    ensures NoDup(a + b)
  {
    forall i, j | 0 <= i < j < |a + b|
      ensures (a + b)[i] != (a + b)[j]
    {
      if j >= |a| && i < |a| {
        assert (a + b)[i] in a && (a + b)[j] in b;
      }
    }
  }

  /**
   * get_perimeter: every segment of the region's perimeter, each once --
   * one per region cell and neighbour outside the region.
   */
  method GetPerimeter(region: set<Cell>) returns (perimeter: seq<Edge>)
    ensures NoDup(perimeter)
    ensures forall e :: e in perimeter <==> IsEdge(region, e)
    ensures |perimeter| == |Perimeter(region)|
  {
    perimeter := [];
    var rest := region;
    while rest != {}
      invariant rest <= region
      invariant NoDup(perimeter)
      invariant forall e :: e in perimeter <==> IsEdge(region, e) && e.1 !in rest
      decreases |rest|
    {
      var c :| c in rest;
      OutsideSpec(region, c, perimeter);
      perimeter := Border(region, c, perimeter);
      rest := rest - {c};
    }
    PerimeterLength(region, perimeter);
  }

  /** A list without repeats is as long as the set of its elements. */
  lemma {:induction false} NoDupCard<T>(s: seq<T>)
    requires NoDup(s)
    ensures |set x | x in s| == |s|
  {
    if s != [] {
      var t := s[..|s| - 1];
      NoDupCard(t);
      assert s == t + [s[|s| - 1]];
      assert (set x | x in s) == (set x | x in t) + {s[|s| - 1]};
    }
  }

  /** get_perimeter's length is the size of the perimeter. */
  lemma PerimeterLength(region: set<Cell>, perimeter: seq<Edge>)
    requires NoDup(perimeter) && forall e :: e in perimeter <==> IsEdge(region, e)
    ensures |perimeter| == |Perimeter(region)|
  {
    PerimeterMembers(region);
    NoDupCard(perimeter);
    assert (set x | x in perimeter) == Perimeter(region);
  }

  // ---------------------------------------------------------------------------
  // part1: every region priced by area times perimeter
  // ---------------------------------------------------------------------------

  ghost function Union(rs: seq<set<Cell>>): set<Cell> {
    if rs == [] then {} else Union(rs[..|rs| - 1]) + rs[|rs| - 1]
  }

  ghost predicate Disjoint(rs: seq<set<Cell>>) {
    forall a, b :: 0 <= a < b < |rs| ==> rs[a] * rs[b] == {}
  }

  /** r is the region of one of its cells. */
  ghost predicate IsRegion(g: Garden, r: set<Cell>) {
    exists c :: InGrid(g, c) && r == Component(g, c)
  }

  /** area * perimeter, summed over the regions. */
  ghost function FencePrice(rs: seq<set<Cell>>): nat {
    if rs == [] then 0 else FencePrice(rs[..|rs| - 1]) + |rs[|rs| - 1]| * |Perimeter(rs[|rs| - 1])|
  }

  /** The cells of the map before (i, j) in row-major order. */
  ghost predicate SweptTo(g: Garden, visited: set<Cell>, i: int, j: int) {
    forall a, b :: 0 <= a < |g| && 0 <= b < |g[a]| && (a < i || (a == i && b < j)) ==> (a, b) in visited
  }

  lemma SweptStep(g: Garden, visited: set<Cell>, visited': set<Cell>, i: int, j: int)
    requires SweptTo(g, visited, i, j) && visited <= visited' && (i, j) in visited'
    ensures SweptTo(g, visited', i, j + 1)
  {
  }

  lemma SweptRow(g: Garden, visited: set<Cell>, i: int)
    requires 0 <= i < |g| && SweptTo(g, visited, i, |g[i]|)
    ensures SweptTo(g, visited, i + 1, 0)
  {
  }

  /** regions are distinct regions of the map, together making up visited. */
  ghost predicate Sweep(g: Garden, visited: set<Cell>, regions: seq<set<Cell>>) {
    visited == Union(regions) && visited <= Cells(g) && Closed(g, visited) && Disjoint(regions) &&
    forall k :: 0 <= k < |regions| ==> IsRegion(g, regions[k])
  }

  /** Adding the region of an unvisited cell keeps the sweep. */
  lemma SweepAdd(g: Garden, visited: set<Cell>, regions: seq<set<Cell>>, c: Cell)
    requires Sweep(g, visited, regions) && InGrid(g, c) && c !in visited
    ensures var r := Component(g, c);
      Sweep(g, visited + r, regions + [r]) && c in visited + r
  {
    var r := Component(g, c);
    var rs := regions + [r];
    ComponentPlant(g, c);
    ComponentClosed(g, c);
    ComponentMeets(g, c, visited);
    assert rs[..|rs| - 1] == regions;
    assert Union(rs) == visited + r;
    forall a, b | 0 <= a < b < |rs|
      ensures rs[a] * rs[b] == {}
    {
      if b < |regions| {
        assert rs[a] == regions[a] && rs[b] == regions[b];
      } else {
        UnionHas(regions, a);
      }
    }
    forall k | 0 <= k < |rs|
      ensures IsRegion(g, rs[k])
    {
      if k < |regions| {
        assert rs[k] == regions[k];
      }
    }
    assert r <= Cells(g);
    ClosedUnion(g, visited, r);
  }

  lemma {:induction false} UnionHas(rs: seq<set<Cell>>, k: nat)
    requires k < |rs|
    ensures rs[k] <= Union(rs)
  {
    if k < |rs| - 1 {
      UnionHas(rs[..|rs| - 1], k);
    }
  }

  lemma ClosedUnion(g: Garden, a: set<Cell>, b: set<Cell>)
    requires Closed(g, a) && Closed(g, b)
    ensures Closed(g, a + b)
  {
    forall c | c in a + b
      ensures ClosedAt(g, a + b, c)
    {
      if c in a {
        assert ClosedAt(g, a, c);
      } else {
        assert ClosedAt(g, b, c);
      }
    }
  }

  /**
   * part1: the price of fencing every region, area times perimeter.  The
   * regions priced are distinct regions of the map that together cover it.
   */
  method Part1(g: Garden) returns (total: nat, ghost regions: seq<set<Cell>>)
    requires Rect(g)
    ensures Sweep(g, Cells(g), regions)
    ensures total == FencePrice(regions)
  {
    var visited: set<Cell> := {};
    total, regions := 0, [];
    for i := 0 to |g|
      invariant Sweep(g, visited, regions) && SweptTo(g, visited, i, 0)
      invariant total == FencePrice(regions)
    {
      for j := 0 to |g[i]|
        invariant Sweep(g, visited, regions) && SweptTo(g, visited, i, j)
        invariant total == FencePrice(regions)
      {
        ghost var visited0 := visited;
        if (i, j) !in visited {
          var region := GetRegion(g, (i, j));
          var perimeter := GetPerimeter(region);
          SweepAdd(g, visited, regions, (i, j));
          PriceAdd(regions, region);
          total := total + |region| * |perimeter|;
          visited := visited + region;
          regions := regions + [region];
        }
        SweptStep(g, visited0, visited, i, j);
      }
      SweptRow(g, visited, i);
    }
    assert visited == Cells(g);
  }

  lemma PriceAdd(rs: seq<set<Cell>>, r: set<Cell>)
    ensures FencePrice(rs + [r]) == FencePrice(rs) + |r| * |Perimeter(r)|
  {
    assert (rs + [r])[..|rs|] == rs;
  }

  // ---------------------------------------------------------------------------
  // get_sides: perimeter segments merged into straight sides
  // ---------------------------------------------------------------------------

  /** The source's test for a segment whose side runs from top to bottom. */
  predicate Vertical(e: Edge) {
    e.0.0 == e.1.0
  }

  /** e moved t places along its side (down a vertical side, right along a horizontal one). */
  function Shift(e: Edge, t: int): Edge {
    if Vertical(e) then ((e.0.0 + t, e.0.1), (e.1.0 + t, e.1.1))
    else ((e.0.0, e.0.1 + t), (e.1.0, e.1.1 + t))
  }

  lemma ShiftShift(e: Edge, a: int, b: int)
    ensures Vertical(Shift(e, a)) == Vertical(e)
    ensures Shift(Shift(e, a), b) == Shift(e, a + b)
  {
  }

  lemma ShiftInjective(e: Edge, a: int, b: int)
    ensures Shift(e, a) == Shift(e, b) <==> a == b
  {
  }

  /** The side of len segments starting at b. */
  ghost function Run(b: Edge, len: nat): set<Edge> {
    set t | 0 <= t < len :: Shift(b, t)
  }

  /** The segments of d that start a side: no segment of d precedes them along their side. */
  ghost function Starts(d: set<Edge>): set<Edge> {
    set e | e in d && Shift(e, -1) !in d
  }

  lemma RunMember(b: Edge, len: nat, x: Edge)
    ensures x in Run(b, len) <==> exists t :: 0 <= t < len && x == Shift(b, t)
  {
  }

  /** A segment outside d whose predecessor ends run b closes the run: b's run grows by it. */
  lemma JoinAfter(b: Edge, len: nat, e: Edge, d: set<Edge>)
    requires Run(b, len) <= d && e !in d && Shift(e, -1) in Run(b, len)
    ensures len >= 1 && e == Shift(b, len)
    ensures Run(b, len) + {e} == Run(b, len + 1)
    ensures Shift(e, 1) !in Run(b, len)
  {
    var u :| 0 <= u < len && Shift(e, -1) == Shift(b, u);
    ShiftShift(b, u, 1);
    ShiftShift(e, -1, 1);
    assert e == Shift(b, u + 1);
    assert u + 1 >= len;
    ShiftShift(b, len, 1);
    forall v | 0 <= v < len
      ensures Shift(e, 1) != Shift(b, v)
    {
      ShiftInjective(b, len + 1, v);
    }
    assert Run(b, len + 1) == Run(b, len) + {Shift(b, len)} by {
      forall x | x in Run(b, len + 1)
        ensures x in Run(b, len) + {Shift(b, len)}
      {
        var t :| 0 <= t < len + 1 && x == Shift(b, t);
        if t < len {
          assert x in Run(b, len);
        }
      }
    }
  }

  /** A segment outside d whose successor is in run b opens it: the run now starts at e. */
  lemma JoinBefore(b: Edge, len: nat, e: Edge, d: set<Edge>)
    requires Run(b, len) <= d && e !in d && Shift(e, 1) in Run(b, len)
    ensures b == Shift(e, 1)
    ensures Run(b, len) + {e} == Run(e, len + 1)
  {
    var v :| 0 <= v < len && Shift(e, 1) == Shift(b, v);
    ShiftShift(b, v, -1);
    ShiftShift(e, 1, -1);
    assert e == Shift(b, v - 1);
    assert v < 1;
    assert b == Shift(e, 1);
    forall t | 0 <= t < len + 1
      ensures Shift(e, t) == if t == 0 then e else Shift(b, t - 1)
    {
      ShiftShift(e, 1, t - 1);
    }
    assert Run(e, len + 1) == Run(b, len) + {e} by {
      forall x | x in Run(b, len)
        ensures x in Run(e, len + 1)
      {
        var t :| 0 <= t < len && x == Shift(b, t);
        assert x == Shift(e, t + 1);
      }
    }
  }

  /** Two runs that a segment joins merge into one. */
  lemma Merge(b: Edge, len: nat, e: Edge, len': nat)
    requires len >= 1 && e == Shift(b, len)
    ensures Run(b, len) + Run(e, len' + 1) == Run(b, len + 1 + len')
  {
    forall t | 0 <= t
      ensures Shift(e, t) == Shift(b, len + t)
    {
      ShiftShift(b, len, t);
    }
    var whole, after := Run(b, len + 1 + len'), Run(e, len' + 1);
    forall x | x in whole
      ensures x in Run(b, len) + after
    {
      var t :| 0 <= t < len + 1 + len' && x == Shift(b, t);
      if t >= len {
        assert x == Shift(e, t - len);
      }
    }
    forall x | x in after
      ensures x in whole
    {
      var t :| 0 <= t < len' + 1 && x == Shift(e, t);
      assert x == Shift(b, len + t);
    }
  }

  /** Adding e to d starts a side at e unless its predecessor is in d, and e's successor starts no side any more. */
  lemma StartsAdd(d: set<Edge>, e: Edge)
    requires e !in d
    ensures Shift(e, -1) in d && Shift(e, 1) in d ==> |Starts(d + {e})| == |Starts(d)| - 1
    ensures Shift(e, -1) in d && Shift(e, 1) !in d ==> |Starts(d + {e})| == |Starts(d)|
    ensures Shift(e, -1) !in d && Shift(e, 1) in d ==> |Starts(d + {e})| == |Starts(d)|
    ensures Shift(e, -1) !in d && Shift(e, 1) !in d ==> |Starts(d + {e})| == |Starts(d)| + 1
  {
    var p1, p2 := Shift(e, -1), Shift(e, 1);
    var s := Starts(d);
    var core := s - {p2};
    StartsStep(d, e);
    assert p2 in d ==> p2 in s by {
      ShiftShift(e, 1, -1);
    }
    assert e !in core;
    assert |core| == |s| - (if p2 in d then 1 else 0);
  }

  /** Placing e ends the start at its successor and starts a side at e unless its predecessor is placed. */
  lemma StartsStep(d: set<Edge>, e: Edge)
    requires e !in d
    ensures Starts(d + {e}) == (Starts(d) - {Shift(e, 1)}) + (if Shift(e, -1) !in d then {e} else {})
  {
    var s, s' := Starts(d), Starts(d + {e});
    var rhs := (s - {Shift(e, 1)}) + (if Shift(e, -1) !in d then {e} else {});
    forall x | x in d
      ensures x in s' <==> x in rhs
    {
      ShiftShift(x, -1, 1);
    }
  }

  lemma StartsFewer(d: set<Edge>)
    ensures |Starts(d)| <= |d|
  {
    assert Starts(d) <= d;
    assert d == Starts(d) + (d - Starts(d));
  }

  /** Some side of sides holds x. */
  ghost predicate InSome(sides: map<nat, set<Edge>>, x: Edge) {
    exists k :: k in sides && x in sides[k]
  }

  ghost predicate SidesDisjoint(sides: map<nat, set<Edge>>) {
    forall a, b :: a in sides && b in sides && a != b ==> sides[a] * sides[b] == {}
  }

  ghost predicate Covers(sides: map<nat, set<Edge>>, done: set<Edge>) {
    forall x :: x in done <==> InSome(sides, x)
  }

  /** Every side is a straight run, keyed by an id below counter. */
  ghost predicate Runs(sides: map<nat, set<Edge>>, counter: nat, base: map<nat, Edge>, len: map<nat, nat>) {
    forall k :: k in sides ==> k < counter && k in base && k in len && len[k] >= 1 && sides[k] == Run(base[k], len[k])
  }

  /**
   * The state of get_sides once the segments of done are placed: the sides
   * are disjoint straight runs that together hold done, one per segment of
   * done that starts a side.
   */
  ghost predicate Placed(sides: map<nat, set<Edge>>, counter: nat, base: map<nat, Edge>, len: map<nat, nat>, done: set<Edge>) {
    Runs(sides, counter, base, len) && SidesDisjoint(sides) && Covers(sides, done) &&
    |sides| == |Starts(done)|
  }

  /**
   * The search of get_sides over sides.items(): the ids of the sides that
   * hold p1 and p2, None where no side holds one.
   */
  method FindSides(sides: map<nat, set<Edge>>, p1: Edge, p2: Edge) returns (s1: Option<nat>, s2: Option<nat>)
    ensures s1.Some? ==> s1.value in sides && p1 in sides[s1.value]
    ensures s1.None? ==> forall k :: k in sides ==> p1 !in sides[k]
    ensures s2.Some? ==> s2.value in sides && p2 in sides[s2.value]
    ensures s2.None? ==> forall k :: k in sides ==> p2 !in sides[k]
  {
    s1, s2 := None, None;
    var keys := sides.Keys;
    while keys != {}
      invariant keys <= sides.Keys
      invariant s1.Some? ==> s1.value in sides && p1 in sides[s1.value]
      invariant s1.None? ==> forall k :: k in sides && k !in keys ==> p1 !in sides[k]
      invariant s2.Some? ==> s2.value in sides && p2 in sides[s2.value]
      invariant s2.None? ==> forall k :: k in sides && k !in keys ==> p2 !in sides[k]
      decreases |keys|
    {
      var k :| k in keys;
      var s := sides[k];
      if s1.None? && p1 in s {
        s1 := Some(k);
      }
      if s2.None? && p2 in s {
        s2 := Some(k);
      }
      if s1.Some? && s2.Some? {
        break;
      }
      keys := keys - {k};
    }
  }

  lemma MapRemove<V>(m: map<nat, V>, k: nat)
    requires k in m
    ensures |m - {k}| == |m| - 1
  {
    assert (m - {k}).Keys == m.Keys - {k};
  }


  /** A new segment in a new side: the sides stay disjoint and hold one more segment. */
  lemma CoverAlone(sides: map<nat, set<Edge>>, n: nat, done: set<Edge>, e: Edge)
    requires SidesDisjoint(sides) && Covers(sides, done) && e !in done && n !in sides
    ensures var sides' := sides[n := {e}];
      SidesDisjoint(sides') && Covers(sides', done + {e}) && |sides'| == |sides| + 1
  {
    AloneCovers(sides, n, done, e);
    assert !InSome(sides, e);
    AloneDisjoint(sides, n, e);
  }

  lemma AloneCovers(sides: map<nat, set<Edge>>, n: nat, done: set<Edge>, e: Edge)
    requires Covers(sides, done) && n !in sides
    ensures Covers(sides[n := {e}], done + {e})
  {
    var sides' := sides[n := {e}];
    forall x | x in done + {e}
      ensures InSome(sides', x)
    {
      if x == e {
        assert e in sides'[n];
      } else {
        var k :| k in sides && x in sides[k];
        assert x in sides'[k];
      }
    }
    forall x | InSome(sides', x)
      ensures x in done + {e}
    {
      var k :| k in sides' && x in sides'[k];
      if k != n {
        assert x in sides[k];
      }
    }
  }

  lemma AloneDisjoint(sides: map<nat, set<Edge>>, n: nat, e: Edge)
    requires SidesDisjoint(sides) && n !in sides && forall k :: k in sides ==> e !in sides[k]
    ensures SidesDisjoint(sides[n := {e}])
  {
    var sides' := sides[n := {e}];
    forall a, b | a in sides' && b in sides' && a != b
      ensures sides'[a] * sides'[b] == {}
    {
      if a != n && b != n {
        assert sides'[a] == sides[a] && sides'[b] == sides[b];
      }
    }
  }

  /** A new segment added to side k: the sides stay disjoint and hold one more segment. */
  lemma CoverJoin(sides: map<nat, set<Edge>>, k: nat, done: set<Edge>, e: Edge)
    requires SidesDisjoint(sides) && Covers(sides, done) && e !in done && k in sides
    ensures var sides' := sides[k := sides[k] + {e}];
      SidesDisjoint(sides') && Covers(sides', done + {e}) && |sides'| == |sides|
  {
    var sides' := sides[k := sides[k] + {e}];
    forall x | x in done + {e}
      ensures InSome(sides', x)
    {
      if x !in sides'[k] {
        var j :| j in sides && x in sides[j];
        assert x in sides'[j];
      }
    }
    assert !InSome(sides, e);
  }

  /** A new segment joining sides k1 and k2 under the new id n. */
  lemma CoverMerge(sides: map<nat, set<Edge>>, n: nat, k1: nat, k2: nat, done: set<Edge>, e: Edge)
    requires SidesDisjoint(sides) && Covers(sides, done) && e !in done
    requires n !in sides && k1 in sides && k2 in sides && k1 != k2
    ensures var merged := sides[n := sides[k1] + sides[k2] + {e}] - {k1} - {k2};
      SidesDisjoint(merged) && Covers(merged, done + {e}) && |merged| == |sides| - 1
  {
    var grown := sides[n := sides[k1] + sides[k2] + {e}];
    var merged := grown - {k1} - {k2};
    MapRemove(grown, k1);
    MapRemove(grown - {k1}, k2);
    MergedCovers(sides, n, k1, k2, done, e, merged);
    assert !InSome(sides, e);
    MergedDisjoint(sides, n, k1, k2, e, merged);
  }

  lemma MergedCovers(sides: map<nat, set<Edge>>, n: nat, k1: nat, k2: nat, done: set<Edge>, e: Edge, merged: map<nat, set<Edge>>)
    requires Covers(sides, done) && n !in sides && k1 in sides && k2 in sides
    requires merged == sides[n := sides[k1] + sides[k2] + {e}] - {k1} - {k2}
    ensures Covers(merged, done + {e})
  {
    forall x | x in done + {e}
      ensures InSome(merged, x)
    {
      if x !in merged[n] {
        var j :| j in sides && x in sides[j];
        assert x in merged[j];
      }
    }
    forall x | InSome(merged, x)
      ensures x in done + {e}
    {
      var j :| j in merged && x in merged[j];
      if j != n {
        assert x in sides[j];
      } else if x != e {
        assert x in sides[k1] || x in sides[k2];
      }
    }
  }

  lemma MergedDisjoint(sides: map<nat, set<Edge>>, n: nat, k1: nat, k2: nat, e: Edge, merged: map<nat, set<Edge>>)
    requires SidesDisjoint(sides) && n !in sides && k1 in sides && k2 in sides
    requires forall j :: j in sides ==> e !in sides[j]
    requires merged == sides[n := sides[k1] + sides[k2] + {e}] - {k1} - {k2}
    ensures SidesDisjoint(merged)
  {
    forall a, b | a in merged && b in merged && a != b
      ensures merged[a] * merged[b] == {}
    {
      if a == n {
        assert sides[b] * sides[k1] == {} && sides[b] * sides[k2] == {};
      } else if b == n {
        assert sides[a] * sides[k1] == {} && sides[a] * sides[k2] == {};
      } else {
        assert merged[a] == sides[a] && merged[b] == sides[b];
      }
    }
  }

  /** A segment with neither neighbour placed opens a side of its own. */
  lemma PlaceAlone(sides: map<nat, set<Edge>>, counter: nat, base: map<nat, Edge>, len: map<nat, nat>, done: set<Edge>, e: Edge)
    requires Placed(sides, counter, base, len, done) && e !in done
    requires Shift(e, -1) !in done && Shift(e, 1) !in done
    ensures counter !in sides
    ensures Placed(sides[counter := {e}], counter + 1, base[counter := e], len[counter := 1], done + {e})
  {
    assert Run(e, 1) == {e} by {
      assert Shift(e, 0) == e;
    }
    CoverAlone(sides, counter, done, e);
    StartsAdd(done, e);
    RunsAlone(sides, counter, base, len, e);
  }

  lemma RunsAlone(sides: map<nat, set<Edge>>, counter: nat, base: map<nat, Edge>, len: map<nat, nat>, e: Edge)
    requires Runs(sides, counter, base, len) && Run(e, 1) == {e}
    ensures Runs(sides[counter := {e}], counter + 1, base[counter := e], len[counter := 1])
  {
  }

  /** A segment whose predecessor ends a side extends that side. */
  lemma PlaceAfter(sides: map<nat, set<Edge>>, counter: nat, base: map<nat, Edge>, len: map<nat, nat>, done: set<Edge>, e: Edge, k: nat)
    requires Placed(sides, counter, base, len, done) && e !in done
    requires k in sides && Shift(e, -1) in sides[k]
    requires forall j :: j in sides ==> Shift(e, 1) !in sides[j]
    ensures Placed(sides[k := sides[k] + {e}], counter, base, len[k := len[k] + 1], done + {e})
  {
    assert sides[k] <= done && sides[k] == Run(base[k], len[k]);
    JoinAfter(base[k], len[k], e, done);
    assert Shift(e, -1) in done && !InSome(sides, Shift(e, 1));
    CoverJoin(sides, k, done, e);
    StartsAdd(done, e);
    RunsOn(sides, counter, base, len, k, sides[k] + {e});
  }

  /** Side k replaced by the run of len[k] + 1 segments from its base. */
  lemma RunsOn(sides: map<nat, set<Edge>>, counter: nat, base: map<nat, Edge>, len: map<nat, nat>, k: nat, side: set<Edge>)
    requires Runs(sides, counter, base, len) && k in sides && side == Run(base[k], len[k] + 1)
    ensures Runs(sides[k := side], counter, base, len[k := len[k] + 1])
  {
  }

  /** Side k replaced by the run of len[k] + 1 segments from b. */
  lemma RunsGrow(sides: map<nat, set<Edge>>, counter: nat, base: map<nat, Edge>, len: map<nat, nat>, k: nat, b: Edge, side: set<Edge>)
    requires Runs(sides, counter, base, len) && k in sides && side == Run(b, len[k] + 1)
    ensures Runs(sides[k := side], counter, base[k := b], len[k := len[k] + 1])
  {
  }

  /** A segment whose successor starts a side extends that side backwards. */
  lemma PlaceBefore(sides: map<nat, set<Edge>>, counter: nat, base: map<nat, Edge>, len: map<nat, nat>, done: set<Edge>, e: Edge, k: nat)
    requires Placed(sides, counter, base, len, done) && e !in done
    requires k in sides && Shift(e, 1) in sides[k]
    requires forall j :: j in sides ==> Shift(e, -1) !in sides[j]
    ensures Placed(sides[k := sides[k] + {e}], counter, base[k := e], len[k := len[k] + 1], done + {e})
  {
    assert sides[k] <= done && sides[k] == Run(base[k], len[k]);
    JoinBefore(base[k], len[k], e, done);
    assert Shift(e, 1) in done && !InSome(sides, Shift(e, -1));
    CoverJoin(sides, k, done, e);
    StartsAdd(done, e);
    RunsGrow(sides, counter, base, len, k, e, sides[k] + {e});
  }

  /** No side holds both neighbours of a segment not yet placed. */
  lemma PlaceApart(sides: map<nat, set<Edge>>, counter: nat, base: map<nat, Edge>, len: map<nat, nat>, done: set<Edge>, e: Edge, k1: nat, k2: nat)
    requires Runs(sides, counter, base, len) && e !in done
    requires k1 in sides && sides[k1] <= done && Shift(e, -1) in sides[k1]
    requires k2 in sides && Shift(e, 1) in sides[k2]
    ensures k1 != k2
  {
    JoinAfter(base[k1], len[k1], e, done);
  }

  /** A segment between two sides joins them into one side under a new id. */
  lemma PlaceBetween(sides: map<nat, set<Edge>>, counter: nat, base: map<nat, Edge>, len: map<nat, nat>, done: set<Edge>, e: Edge, k1: nat, k2: nat)
    requires Placed(sides, counter, base, len, done) && e !in done
    requires k1 in sides && Shift(e, -1) in sides[k1]
    requires k2 in sides && Shift(e, 1) in sides[k2]
    requires k1 != k2
    ensures Placed(sides[counter := sides[k1] + sides[k2] + {e}] - {k1} - {k2}, counter + 1,
                   base[counter := base[k1]], len[counter := len[k1] + 1 + len[k2]], done + {e})
  {
    var merged := sides[counter := sides[k1] + sides[k2] + {e}] - {k1} - {k2};
    assert sides[k1] == Run(base[k1], len[k1]) && sides[k2] == Run(base[k2], len[k2]);
    assert sides[k1] <= done && sides[k2] <= done;
    MergedRun(base[k1], len[k1], base[k2], len[k2], e, done);
    RunsMerge(sides, counter, base, len, k1, k2, sides[k1] + sides[k2] + {e});
    CounterFresh(sides, counter, base, len);
    CoverMerge(sides, counter, k1, k2, done, e);
    assert Shift(e, -1) in done && Shift(e, 1) in done;
    StartsAdd(done, e);
    assert |merged| == |Starts(done + {e})|;
  }

  /** The run ending before e, e, and the run starting after e make one run. */
  lemma MergedRun(b1: Edge, l1: nat, b2: Edge, l2: nat, e: Edge, done: set<Edge>)
    requires Run(b1, l1) <= done && Run(b2, l2) <= done && e !in done
    requires Shift(e, -1) in Run(b1, l1) && Shift(e, 1) in Run(b2, l2)
    ensures Run(b1, l1) + Run(b2, l2) + {e} == Run(b1, l1 + 1 + l2)
  {
    var a, b := Run(b1, l1), Run(b2, l2);
    JoinAfter(b1, l1, e, done);
    JoinBefore(b2, l2, e, done);
    Merge(b1, l1, e, l2);
    assert a + b + {e} == a + (b + {e});
  }

  lemma RunsMerge(sides: map<nat, set<Edge>>, counter: nat, base: map<nat, Edge>, len: map<nat, nat>, k1: nat, k2: nat, side: set<Edge>)
    requires Runs(sides, counter, base, len) && k1 in sides && k2 in sides
    requires side == Run(base[k1], len[k1] + 1 + len[k2])
    ensures Runs(sides[counter := side] - {k1} - {k2}, counter + 1, base[counter := base[k1]], len[counter := len[k1] + 1 + len[k2]])
  {
  }

  /** The id of a side is below counter, so a fresh id is never in use. */
  lemma CounterFresh(sides: map<nat, set<Edge>>, counter: nat, base: map<nat, Edge>, len: map<nat, nat>)
    requires Runs(sides, counter, base, len)
    ensures counter !in sides
  {
  }

  /** The elements of a prefix one longer. */
  lemma PrefixSet<T>(s: seq<T>, i: nat, j: nat)
    requires i < j == i + 1 <= |s|
    ensures (set x | x in s[..j]) == (set x | x in s[..i]) + {s[i]}
  {
    assert s[..j] == s[..i] + [s[i]];
  }

  /** The neighbours p1 and p2 of a segment along its side, as get_sides computes them. */
  method Neighbours(e: Edge) returns (p1: Edge, p2: Edge)
    ensures p1 == Shift(e, -1) && p2 == Shift(e, 1)
    ensures Shift(p1, 1) == e && Shift(p2, -1) == e
  {
    var (ext, inr) := e;
    if ext.0 == inr.0 {
      p1 := ((ext.0 - 1, ext.1), (inr.0 - 1, inr.1));
      p2 := ((ext.0 + 1, ext.1), (inr.0 + 1, inr.1));
    } else {
      p1 := ((ext.0, ext.1 - 1), (inr.0, inr.1 - 1));
      p2 := ((ext.0, ext.1 + 1), (inr.0, inr.1 + 1));
    }
  }

  /** A segment with neither neighbour placed: a new side under id counter. */
  method NewSide(sides: map<nat, set<Edge>>, counter: nat, ghost base: map<nat, Edge>, ghost len: map<nat, nat>, ghost done: set<Edge>, e: Edge)
    returns (sides': map<nat, set<Edge>>, counter': nat, ghost base': map<nat, Edge>, ghost len': map<nat, nat>)
    requires Placed(sides, counter, base, len, done) && e !in done
    requires Shift(e, -1) !in done && Shift(e, 1) !in done
    ensures sides' == sides[counter := {e}] && counter' == counter + 1
    ensures Placed(sides', counter', base', len', done + {e})
  {
    PlaceAlone(sides, counter, base, len, done, e);
    sides' := sides[counter := {e}];
    base', len' := base[counter := e], len[counter := 1];
    counter' := counter + 1;
  }

  /** A segment whose successor starts side k: k grows backwards. */
  method ExtendBack(sides: map<nat, set<Edge>>, counter: nat, ghost base: map<nat, Edge>, ghost len: map<nat, nat>, ghost done: set<Edge>, e: Edge, k: nat)
    returns (sides': map<nat, set<Edge>>, ghost base': map<nat, Edge>, ghost len': map<nat, nat>)
    requires Placed(sides, counter, base, len, done) && e !in done
    requires k in sides && Shift(e, 1) in sides[k]
    requires forall j :: j in sides ==> Shift(e, -1) !in sides[j]
    ensures sides' == sides[k := sides[k] + {e}]
    ensures Placed(sides', counter, base', len', done + {e})
  {
    PlaceBefore(sides, counter, base, len, done, e, k);
    sides' := sides[k := sides[k] + {e}];
    base', len' := base[k := e], len[k := len[k] + 1];
  }

  /** A segment whose predecessor ends side k: k grows forwards. */
  method ExtendOn(sides: map<nat, set<Edge>>, counter: nat, ghost base: map<nat, Edge>, ghost len: map<nat, nat>, ghost done: set<Edge>, e: Edge, k: nat)
    returns (sides': map<nat, set<Edge>>, ghost len': map<nat, nat>)
    requires Placed(sides, counter, base, len, done) && e !in done
    requires k in sides && Shift(e, -1) in sides[k]
    requires forall j :: j in sides ==> Shift(e, 1) !in sides[j]
    ensures sides' == sides[k := sides[k] + {e}]
    ensures Placed(sides', counter, base, len', done + {e})
  {
    PlaceAfter(sides, counter, base, len, done, e, k);
    sides' := sides[k := sides[k] + {e}];
    len' := len[k := len[k] + 1];
  }

  /** A segment between sides k1 and k2: both give way to their union with it, under id counter. */
  method Join(sides: map<nat, set<Edge>>, counter: nat, ghost base: map<nat, Edge>, ghost len: map<nat, nat>, ghost done: set<Edge>, e: Edge, k1: nat, k2: nat)
    returns (sides': map<nat, set<Edge>>, counter': nat, ghost base': map<nat, Edge>, ghost len': map<nat, nat>)
    requires Placed(sides, counter, base, len, done) && e !in done
    requires k1 in sides && Shift(e, -1) in sides[k1]
    requires k2 in sides && Shift(e, 1) in sides[k2]
    requires k1 != k2
    ensures sides' == sides[counter := sides[k1] + sides[k2] + {e}] - {k1} - {k2} && counter' == counter + 1
    ensures Placed(sides', counter', base', len', done + {e})
  {
    PlaceBetween(sides, counter, base, len, done, e, k1, k2);
    sides' := sides[counter := sides[k1] + sides[k2] + {e}];
    sides' := sides' - {k1};
    sides' := sides' - {k2};
    base', len' := base[counter := base[k1]], len[counter := len[k1] + 1 + len[k2]];
    counter' := counter + 1;
  }

  /**
   * The four cases of get_sides for one segment e, given the sides s1 and s2
   * that hold its neighbours: a new side, an extension at either end, or a
   * merge of two sides under a new id.
   */
  method Place(sides: map<nat, set<Edge>>, counter: nat, ghost base: map<nat, Edge>, ghost len: map<nat, nat>, ghost done: set<Edge>, e: Edge, s1: Option<nat>, s2: Option<nat>)
    returns (sides': map<nat, set<Edge>>, counter': nat, ghost base': map<nat, Edge>, ghost len': map<nat, nat>)
    requires Placed(sides, counter, base, len, done) && e !in done
    requires s1.Some? ==> s1.value in sides && Shift(e, -1) in sides[s1.value]
    requires s1.None? ==> forall k :: k in sides ==> Shift(e, -1) !in sides[k]
    requires s2.Some? ==> s2.value in sides && Shift(e, 1) in sides[s2.value]
    requires s2.None? ==> forall k :: k in sides ==> Shift(e, 1) !in sides[k]
    ensures Placed(sides', counter', base', len', done + {e})
  {
    if s1.Some? && s2.Some? {
      PlaceApart(sides, counter, base, len, done, e, s1.value, s2.value);
    }
    if s1.None? && s2.None? {
      assert !InSome(sides, Shift(e, -1)) && !InSome(sides, Shift(e, 1));
      sides', counter', base', len' := NewSide(sides, counter, base, len, done, e);
    } else if s1.None? {
      sides', base', len' := ExtendBack(sides, counter, base, len, done, e, s2.value);
      counter' := counter;
    } else if s2.None? || s1.value == s2.value {
      sides', len' := ExtendOn(sides, counter, base, len, done, e, s1.value);
      counter', base' := counter, base;
    } else {
      sides', counter', base', len' := Join(sides, counter, base, len, done, e, s1.value, s2.value);
    }
  }

  /**
   * get_sides: the perimeter of the region split into its straight sides.
   * The sides are disjoint and together hold the perimeter, and there is one
   * side for every segment that starts one (no segment precedes it along its
   * side), so there are never more sides than segments.
   */
  method GetSides(region: set<Cell>) returns (sides: map<nat, set<Edge>>)
    ensures SidesDisjoint(sides)
    ensures forall e :: e in Perimeter(region) <==> InSome(sides, e)
    ensures forall k :: k in sides ==> sides[k] != {}
    ensures |sides| == |Starts(Perimeter(region))| <= |Perimeter(region)|
  {
    var perimeter := GetPerimeter(region);
    sides := map[];
    var counter := 0;
    ghost var base: map<nat, Edge>, len: map<nat, nat> := map[], map[];
    ghost var done: set<Edge> := {};
    for i := 0 to |perimeter|
      invariant done == set e | e in perimeter[..i]
      invariant Placed(sides, counter, base, len, done)
    {
      var e := perimeter[i];
      var p1, p2 := Neighbours(e);
      assert e !in done by {
        assert forall a :: 0 <= a < i ==> perimeter[a] != e;
      }
      var s1, s2 := FindSides(sides, p1, p2);
      sides, counter, base, len := Place(sides, counter, base, len, done, e, s1, s2);
      PrefixSet(perimeter, i, i + 1);
      done := done + {e};
    }
    assert perimeter[..|perimeter|] == perimeter;
    PerimeterMembers(region);
    assert done == Perimeter(region);
    StartsFewer(done);
    forall k | k in sides
      ensures sides[k] != {}
    {
      assert Shift(base[k], 0) in sides[k];
    }
  }

  // ---------------------------------------------------------------------------
  // part2: pricing by sides over the padded map
  // ---------------------------------------------------------------------------

  /** pad: the map framed by a border of c, one cell wide. */
  function Pad(g: Garden, c: char): (r: Garden)
    requires |g| > 0
    ensures |r| == |g| + 2 && |r[0]| == |g[0]| + 2
  {
    var frame := seq(|g[0]| + 2, _ => c);
    [frame] + seq(|g|, i requires 0 <= i < |g| => [c] + g[i] + [c]) + [frame]
  }

  /** The padded map: a frame of c around the map, whose cell (i, j) moves to (i + 1, j + 1). */
  lemma PadShape(g: Garden, c: char)
    requires |g| > 0
    ensures var r := Pad(g, c);
      |r[|g| + 1]| == |g[0]| + 2 &&
      (forall j :: 0 <= j < |g[0]| + 2 ==> r[0][j] == c && r[|g| + 1][j] == c) &&
      (forall i :: 1 <= i <= |g| ==> |r[i]| == |g[i - 1]| + 2 && r[i][0] == c && r[i][|r[i]| - 1] == c) &&
      (forall i, j :: 0 <= i < |g| && 0 <= j < |g[i]| ==> r[i + 1][j + 1] == g[i][j])
  {
  }

  lemma PadRect(g: Garden, c: char)
    requires |g| > 0 && Rect(g)
    ensures Rect(Pad(g, c))
  {
    PadShape(g, c);
  }

  /** The cells of the padded map that hold the original map. */
  ghost function Inner(g: Garden): set<Cell>
    requires |g| > 0
  {
    set a, b | 1 <= a <= |g| && 1 <= b <= |g[0]| :: (a, b)
  }

  /** No cell of the map holds c. */
  predicate Absent(g: Garden, c: char) {
    forall i, j :: 0 <= i < |g| && 0 <= j < |g[i]| ==> g[i][j] != c
  }

  /** With c absent from the map, a region of the padded map that starts inside stays inside the frame. */
  lemma InnerComponent(g: Garden, c: char, start: Cell)
    requires |g| > 0 && Rect(g) && Absent(g, c) && start in Inner(g)
    ensures Component(Pad(g, c), start) <= Inner(g)
  {
    var p := Pad(g, c);
    PadShape(g, c);
    assert InGrid(p, start) && Sym(p, start) == g[start.0 - 1][start.1 - 1];
    ComponentPlant(p, start);
    forall x | x in Component(p, start)
      ensures x in Inner(g)
    {
      assert InGrid(p, x) && Sym(p, x) != c;
    }
  }

  /** The price by sides of a sequence of regions: area times number of sides. */
  ghost function SidePrice(rs: seq<set<Cell>>): nat {
    if rs == [] then 0 else SidePrice(rs[..|rs| - 1]) + |rs[|rs| - 1]| * |Starts(Perimeter(rs[|rs| - 1]))|
  }

  lemma SidePriceAdd(rs: seq<set<Cell>>, r: set<Cell>)
    ensures SidePrice(rs + [r]) == SidePrice(rs) + |r| * |Starts(Perimeter(r))|
  {
    assert (rs + [r])[..|rs|] == rs;
  }

  /** The cells inside the frame of p before (i, j) in row-major order. */
  ghost predicate SweptInside(p: Garden, visited: set<Cell>, i: int, j: int)
    requires |p| > 0
  {
    forall a, b :: 1 <= a < |p| - 1 && 1 <= b < |p[0]| - 1 && (a < i || (a == i && b < j)) ==> (a, b) in visited
  }

  lemma InsideStep(p: Garden, visited: set<Cell>, visited': set<Cell>, i: int, j: int)
    requires |p| > 0 && SweptInside(p, visited, i, j) && visited <= visited' && (i, j) in visited'
    ensures SweptInside(p, visited', i, j + 1)
  {
  }

  lemma InsideRow(p: Garden, visited: set<Cell>, i: int)
    requires |p| > 0 && SweptInside(p, visited, i, |p[0]| - 1)
    ensures SweptInside(p, visited, i + 1, 1)
  {
  }

  lemma InsideAll(g: Garden, p: Garden, visited: set<Cell>)
    requires |g| > 0 && |p| == |g| + 2 && |p[0]| == |g[0]| + 2
    requires SweptInside(p, visited, |p| - 1, 1)
    ensures Inner(g) <= visited
  {
  }

  /** Every priced region holds a cell of the original map: the frame is never priced
      on its own. */
  ghost predicate Seeded(g: Garden, regions: seq<set<Cell>>)
    requires |g| > 0
  {
    forall k :: 0 <= k < |regions| ==> regions[k] * Inner(g) != {}
  }

  /**
   * One region priced by part2: the region of c, an unvisited cell inside
   * the frame, joins the sweep and adds its area times its number of sides.
   */
  method PriceRegion(g: Garden, padded: Garden, visited: set<Cell>, ghost regions: seq<set<Cell>>, total: nat, c: Cell)
    returns (visited': set<Cell>, ghost regions': seq<set<Cell>>, total': nat)
    requires |g| > 0 && Rect(g) && padded == Pad(g, '#') && Rect(padded) && c in Inner(g) && c !in visited
    requires Sweep(padded, visited, regions) && (Absent(g, '#') ==> visited <= Inner(g)) && total == SidePrice(regions)
    requires Seeded(g, regions)
    ensures Sweep(padded, visited', regions') && (Absent(g, '#') ==> visited' <= Inner(g)) && total' == SidePrice(regions')
    ensures Seeded(g, regions')
    ensures visited <= visited' && c in visited'
  {
    var region := GetRegion(padded, c);
    var sides := GetSides(region);
    SweepAdd(padded, visited, regions, c);
    SidePriceAdd(regions, region);
    if Absent(g, '#') {
      InnerComponent(g, '#', c);
    }
    total' := total + |region| * |sides|;
    visited' := visited + region;
    regions' := regions + [region];
    assert c in region * Inner(g);
  }

  /**
   * part2: the price of fencing every region, area times number of sides,
   * over the map padded with '#'.  The regions priced are distinct regions
   * of the padded map, each holding a cell of the original map and together
   * covering it; when the map holds no
   * '#', they make up exactly the original map.
   */
  method Part2(g: Garden) returns (total: nat, ghost regions: seq<set<Cell>>)
    requires |g| > 0 && Rect(g)
    ensures Sweep(Pad(g, '#'), Union(regions), regions)
    ensures Inner(g) <= Union(regions)
    ensures Absent(g, '#') ==> Union(regions) == Inner(g)
    ensures Seeded(g, regions)
    ensures total == SidePrice(regions)
  {
    var padded := Pad(g, '#');
    PadRect(g, '#');
    var visited: set<Cell> := {};
    total, regions := 0, [];
    for i := 1 to |padded| - 1
      invariant Sweep(padded, visited, regions) && SweptInside(padded, visited, i, 1)
      invariant Absent(g, '#') ==> visited <= Inner(g)
      invariant Seeded(g, regions) && total == SidePrice(regions)
    {
      for j := 1 to |padded[0]| - 1
        invariant Sweep(padded, visited, regions) && SweptInside(padded, visited, i, j)
        invariant Absent(g, '#') ==> visited <= Inner(g)
        invariant Seeded(g, regions) && total == SidePrice(regions)
      {
        ghost var visited0 := visited;
        if (i, j) !in visited {
          visited, regions, total := PriceRegion(g, padded, visited, regions, total, (i, j));
        }
        InsideStep(padded, visited0, visited, i, j);
      }
      InsideRow(padded, visited, i);
    }
    InsideAll(g, padded, visited);
  }
}
