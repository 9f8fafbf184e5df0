/** Day 18: RAM Run -- the shortest way from the top-left to the bottom-right corner
    of a memory grid around corrupted cells, found breadth first, and the first
    falling byte that cuts the two corners apart. */
module Day18 {
  import opened Wrappers
  import opened PyText

  /** A cell (x, y) of the memory grid. */
  type Cell = (int, int)

  /** The map size (width, height). */
  type Size = (int, int)

  /** A queue entry: a cell and its distance from (0, 0). */
  type Entry = (Cell, int)

  // ---------------------------------------------------------------------------
  // parse_input
  // ---------------------------------------------------------------------------

  /** parse_input (day18.py:6-10): each line "x,y", stripped, as a cell; None where
      int() raises ValueError or a line does not hold exactly two fields. */
  function ParseInput(lines: seq<string>): (r: Option<seq<Cell>>)
    ensures r.Some? ==> |r.value| == |lines|
  {
    if lines == [] then Some([])
    else match (ParsePair(Strip(lines[0])), ParseInput(lines[1..]))
      case (Some(p), Some(ps)) => Some([p] + ps)
      case _ => None
  }

  /** The line readlines() gives for a cell. */
  function Line(p: Cell): string {
    Show(p.0) + "," + Show(p.1) + "\n"
  }

  /** The lines of a list of cells. */
  function Lines(cells: seq<Cell>): seq<string> {
    if cells == [] then [] else [Line(cells[0])] + Lines(cells[1..])
  }

  /** parse_input reads back the lines of any list of cells. */
  lemma {:induction false} ParseLines(cells: seq<Cell>)
    ensures ParseInput(Lines(cells)) == Some(cells)
    decreases |cells|
  {
    if cells != [] {
      var lines := Lines(cells);
      ParseLine(cells[0]);
      ParseLines(cells[1..]);
      ParseInputCons(lines, cells[0], cells[1..]);
      FirstRest(cells);
    }
  }

  lemma ParseInputCons(lines: seq<string>, p: Cell, ps: seq<Cell>)
    requires lines != [] && ParsePair(Strip(lines[0])) == Some(p) && ParseInput(lines[1..]) == Some(ps)
    ensures ParseInput(lines) == Some([p] + ps)
  {
  }

  lemma ParseLine(p: Cell)
    ensures ParsePair(Strip(Line(p))) == Some(p)
  {
    var s := Show(p.0) + "," + Show(p.1);
    assert s[0] == Show(p.0)[0];
    assert s[|s| - 1] == Show(p.1)[|Show(p.1)| - 1];
    assert Line(p) == s + "\n";
    StripTrailing(s, "\n");
    ParsePairShow(p.0, p.1);
  }

  // ---------------------------------------------------------------------------
  // get_successors
  // ---------------------------------------------------------------------------

  /** get_successors (day18.py:12-29): up, left, down, right, each when it stays on
      the map and is not corrupted. */
  function Successors(size: Size, corrupted: set<Cell>, node: Cell): seq<Cell> {
    var (x, y) := node;
    (if x > 0 && (x - 1, y) !in corrupted then [(x - 1, y)] else []) +
    (if y > 0 && (x, y - 1) !in corrupted then [(x, y - 1)] else []) +
    (if x < size.0 - 1 && (x + 1, y) !in corrupted then [(x + 1, y)] else []) +
    (if y < size.1 - 1 && (x, y + 1) !in corrupted then [(x, y + 1)] else [])
  }

  predicate OnMap(size: Size, p: Cell) {
    0 <= p.0 < size.0 && 0 <= p.1 < size.1
  }

  predicate Adjacent(p: Cell, q: Cell) {
    (p.0 == q.0 && (p.1 - q.1 == 1 || q.1 - p.1 == 1)) ||
    (p.1 == q.1 && (p.0 - q.0 == 1 || q.0 - p.0 == 1))
  }

  /** From a cell on the map, the successors are exactly the neighbours on the map
      that are not corrupted, at most four of them. */
  lemma SuccessorsExactly(size: Size, corrupted: set<Cell>, node: Cell)
    requires OnMap(size, node)
    ensures |Successors(size, corrupted, node)| <= 4
    ensures forall s :: s in Successors(size, corrupted, node) <==>
      OnMap(size, s) && Adjacent(node, s) && s !in corrupted
  {
  }

  /** The cells a search from (0, 0) can visit: the map, or the start alone on a map
      without cells. */
  function Box(size: Size): set<Cell> {
    var w, h := if size.0 < 1 then 1 else size.0, if size.1 < 1 then 1 else size.1;
    set x, y | 0 <= x < w && 0 <= y < h :: (x, y)
  }

  lemma StartInBox(size: Size)
    ensures (0, 0) in Box(size)
  {
  }

  /** Successors of a cell in the box stay in the box. */
  lemma SuccessorsInBox(size: Size, corrupted: set<Cell>, node: Cell)
    requires node in Box(size)
    ensures forall s :: s in Successors(size, corrupted, node) ==> s in Box(size)
  {
    var (x, y) := node;
    var w, h := if size.0 < 1 then 1 else size.0, if size.1 < 1 then 1 else size.1;
    assert 0 <= x < w && 0 <= y < h;
    forall s | s in Successors(size, corrupted, node)
      ensures s in Box(size)
    {
      assert 0 <= s.0 < w && 0 <= s.1 < h;
    }
  }

  // ---------------------------------------------------------------------------
  // Distances: the cells reachable from (0, 0) in at most k moves, for any
  // successor function g
  // ---------------------------------------------------------------------------

  /** A successor function on cells. */
  type Graph = Cell -> seq<Cell>

  /** The moves of the memory grid: get_successors for this size and corruption. */
  function Moves(size: Size, corrupted: set<Cell>): Graph {
    n => Successors(size, corrupted, n)
  }

  /** The bottom-right corner. */
  function End(size: Size): Cell {
    (size.0 - 1, size.1 - 1)
  }

  /** Every successor of a cell of s. */
  ghost function Next(g: Graph, s: set<Cell>): set<Cell> {
    set n, t | n in s && t in g(n) :: t
  }

  /** The cells reachable from (0, 0) in at most k moves. */
  ghost function Reach(g: Graph, k: nat): set<Cell> {
    if k == 0 then {(0, 0)} else Reach(g, k - 1) + Next(g, Reach(g, k - 1))
  }

  /** Some cell within k moves of (0, 0) has end as a successor: a walk of k + 1
      moves reaches end. */
  ghost predicate Hits(g: Graph, end: Cell, k: nat) {
    end in Next(g, Reach(g, k))
  }

  /** No walk from (0, 0) of one move or more reaches end. */
  ghost predicate Blocked(g: Graph, end: Cell) {
    forall k: nat :: !Hits(g, end, k)
  }

  /** r is what a breadth-first search from (0, 0) should report: the number of moves
      of a shortest walk to end, or None when no walk reaches it. */
  ghost predicate Answer(g: Graph, end: Cell, r: Option<int>) {
    (r.Some? ==> r.value >= 1 && Hits(g, end, r.value - 1) &&
                 forall k: nat :: k < r.value - 1 ==> !Hits(g, end, k)) &&
    (r.None? <==> Blocked(g, end))
  }

  lemma {:induction false} ReachGrows(g: Graph, j: nat, k: nat)
    requires j <= k
    ensures Reach(g, j) <= Reach(g, k)
    decreases k
  {
    if j < k {
      ReachGrows(g, j, k - 1);
    }
  }

  lemma NextOf(g: Graph, s: set<Cell>, n: Cell, t: Cell)
    requires n in s && t in g(n)
    ensures t in Next(g, s)
  {
  }

  /** A cell that is the successor of no member of s is not in Next(s). */
  lemma NotNext(g: Graph, s: set<Cell>, t: Cell)
    requires forall n :: n in s ==> t !in g(n)
    ensures t !in Next(g, s)
  {
  }

  /** Every successor of n is in v. */
  ghost predicate Closed(g: Graph, v: set<Cell>, n: Cell) {
    forall i :: 0 <= i < |g(n)| ==> g(n)[i] in v
  }

  /** A set holding (0, 0) and closed under successors holds every reachable cell. */
  lemma {:induction false} ReachWithin(g: Graph, v: set<Cell>, k: nat)
    requires (0, 0) in v
    requires forall n :: n in v ==> Closed(g, v, n)
    ensures Reach(g, k) <= v
    decreases k
  {
    if k > 0 {
      ReachWithin(g, v, k - 1);
      var r := Reach(g, k - 1);
      forall t | t in Next(g, r)
        ensures t in v
      {
        var n :| n in r && t in g(n);
        assert Closed(g, v, n);
      }
    }
  }

  // ---------------------------------------------------------------------------
  // Walks: the reference meaning of Reach and Answer
  // ---------------------------------------------------------------------------

  /** A walk from (0, 0) along successors, of |p| - 1 moves. */
  ghost predicate IsWalk(g: Graph, p: seq<Cell>) {
    |p| >= 1 && p[0] == (0, 0) && forall i :: 0 <= i < |p| - 1 ==> p[i + 1] in g(p[i])
  }

  /** Some walk of at most k moves ends at n. */
  ghost predicate WalkWithin(g: Graph, n: Cell, k: nat) {
    exists p :: IsWalk(g, p) && |p| <= k + 1 && p[|p| - 1] == n
  }

  lemma WalkExtend(g: Graph, p: seq<Cell>, n: Cell)
    requires IsWalk(g, p) && n in g(p[|p| - 1])
    ensures IsWalk(g, p + [n])
  {
    var q := p + [n];
    forall i | 0 <= i < |q| - 1
      ensures q[i + 1] in g(q[i])
    {
      if i < |p| - 1 {
        assert q[i] == p[i] && q[i + 1] == p[i + 1];
      }
    }
  }

  lemma WalkShorten(g: Graph, p: seq<Cell>)
    requires IsWalk(g, p) && |p| >= 2
    ensures IsWalk(g, p[..|p| - 1]) && p[|p| - 1] in g(p[..|p| - 1][|p| - 2])
  {
    var q := p[..|p| - 1];
    forall i | 0 <= i < |q| - 1
      ensures q[i + 1] in g(q[i])
    {
      assert q[i] == p[i] && q[i + 1] == p[i + 1];
    }
  }

  /** The cells within k moves are exactly the ends of walks of at most k moves. */
  lemma {:induction false} ReachWalks(g: Graph, k: nat, n: Cell)
    ensures n in Reach(g, k) <==> WalkWithin(g, n, k)
    decreases k
  {
    if n in Reach(g, k) {
      ReachToWalk(g, k, n);
    }
    if WalkWithin(g, n, k) {
      var p :| IsWalk(g, p) && |p| <= k + 1 && p[|p| - 1] == n;
      WalkToReach(g, p, k);
    }
  }

  lemma {:induction false} ReachToWalk(g: Graph, k: nat, n: Cell)
    requires n in Reach(g, k)
    ensures WalkWithin(g, n, k)
    decreases k
  {
    if k == 0 {
      assert IsWalk(g, [(0, 0)]);
    } else if n in Reach(g, k - 1) {
      ReachToWalk(g, k - 1, n);
      var p :| IsWalk(g, p) && |p| <= k && p[|p| - 1] == n;
      assert |p| <= k + 1;
    } else {
      var m :| m in Reach(g, k - 1) && n in g(m);
      ReachToWalk(g, k - 1, m);
      var p :| IsWalk(g, p) && |p| <= k && p[|p| - 1] == m;
      WalkExtend(g, p, n);
      assert (p + [n])[|p + [n]| - 1] == n;
    }
  }

  lemma {:induction false} WalkToReach(g: Graph, p: seq<Cell>, k: nat)
    requires IsWalk(g, p) && |p| <= k + 1
    ensures p[|p| - 1] in Reach(g, k)
    decreases |p|
  {
    if |p| == 1 {
      ReachGrows(g, 0, k);
    } else {
      var q := p[..|p| - 1];
      WalkShorten(g, p);
      WalkToReach(g, q, k - 1);
      NextOf(g, Reach(g, k - 1), q[|q| - 1], p[|p| - 1]);
    }
  }

  /** A walk of m >= 1 moves to end means a hit at m - 1. */
  lemma WalkHits(g: Graph, end: Cell, p: seq<Cell>)
    requires IsWalk(g, p) && |p| >= 2 && p[|p| - 1] == end
    ensures Hits(g, end, |p| - 2)
  {
    var q := p[..|p| - 1];
    WalkShorten(g, p);
    WalkToReach(g, q, |p| - 2);
    NextOf(g, Reach(g, |p| - 2), q[|q| - 1], end);
  }

  /** A hit at k - 1 gives a walk of at most k moves to end. */
  lemma HitWalk(g: Graph, end: Cell, k: nat) returns (p: seq<Cell>)
    requires k >= 1 && Hits(g, end, k - 1)
    ensures IsWalk(g, p) && p[|p| - 1] == end && 2 <= |p| <= k + 1
  {
    var n :| n in Reach(g, k - 1) && end in g(n);
    ReachToWalk(g, k - 1, n);
    var q :| IsWalk(g, q) && |q| <= k && q[|q| - 1] == n;
    WalkExtend(g, q, end);
    p := q + [end];
    assert p[|p| - 1] == end;
  }

  /** An Answer is the number of moves of a shortest walk from (0, 0) to end (of at
      least one move), and None exactly when no such walk exists. */
  lemma ShortestWalk(g: Graph, end: Cell, r: Option<int>)
    requires Answer(g, end, r)
    ensures r.Some? ==> exists p :: IsWalk(g, p) && p[|p| - 1] == end && |p| == r.value + 1
    ensures forall p :: IsWalk(g, p) && |p| >= 2 && p[|p| - 1] == end ==> r.Some? && |p| - 1 >= r.value
  {
    forall p | IsWalk(g, p) && |p| >= 2 && p[|p| - 1] == end
      ensures r.Some? && |p| - 1 >= r.value
    {
      WalkHits(g, end, p);
    }
    if r.Some? {
      var p := HitWalk(g, end, r.value);
      WalkHits(g, end, p);
      assert |p| == r.value + 1;
    }
  }

  // ---------------------------------------------------------------------------
  // The search, as in part1
  // ---------------------------------------------------------------------------

  /** What the inner loop of part1 (day18.py:42-47) does with the successors of a
      node popped at distance d. */
  datatype Expansion = Found | Pushed(queue: seq<Entry>, visited: set<Cell>)

  function Visit(end: Cell, succs: seq<Cell>, d: int, queue: seq<Entry>, visited: set<Cell>): Expansion
    decreases |succs|
  {
    if succs == [] then Pushed(queue, visited)
    else if succs[0] == end then Found
    else if succs[0] in visited then Visit(end, succs[1..], d, queue, visited)
    else Visit(end, succs[1..], d, queue + [(succs[0], d + 1)], visited + {succs[0]})
  }

  /** The cells of a queue. */
  function Nodes(q: seq<Entry>): set<Cell> {
    set i | 0 <= i < |q| :: q[i].0
  }

  /** No cell is queued twice. */
  predicate OnceEach(q: seq<Entry>) {
    forall i, j :: 0 <= i < j < |q| ==> q[i].0 != q[j].0
  }

  /** The inner loop stops exactly when the end corner is among the successors. */
  lemma {:induction false} VisitFound(end: Cell, succs: seq<Cell>, d: int, queue: seq<Entry>, visited: set<Cell>)
    ensures Visit(end, succs, d, queue, visited) == Found <==> end in succs
    decreases |succs|
  {
    if succs != [] && succs[0] != end {
      if succs[0] in visited {
        VisitFound(end, succs[1..], d, queue, visited);
      } else {
        VisitFound(end, succs[1..], d, queue + [(succs[0], d + 1)], visited + {succs[0]});
      }
    }
  }

  /** Otherwise it appends each successor not yet visited, once, at distance d + 1,
      and marks it visited: afterwards every successor is visited. */
  lemma {:induction false} VisitPushed(end: Cell, succs: seq<Cell>, d: int, queue: seq<Entry>, visited: set<Cell>)
    requires Visit(end, succs, d, queue, visited).Pushed?
    ensures Pushes(succs, d, queue, visited, Visit(end, succs, d, queue, visited))
    decreases |succs|
  {
    var x := Visit(end, succs, d, queue, visited);
    if succs == [] {
      assert Nodes(x.queue[|queue|..]) == {};
    } else if succs[0] in visited {
      VisitPushed(end, succs[1..], d, queue, visited);
    } else {
      var q, v := queue + [(succs[0], d + 1)], visited + {succs[0]};
      VisitPushed(end, succs[1..], d, q, v);
      PushesCons(succs, d, queue, visited, q, v, x);
    }
  }

  /** What the pushes do, for Visit's result x. */
  ghost predicate Pushes(succs: seq<Cell>, d: int, queue: seq<Entry>, visited: set<Cell>, x: Expansion)
    requires x.Pushed?
  {
    |queue| <= |x.queue| && x.queue[..|queue|] == queue &&
    (forall i :: |queue| <= i < |x.queue| ==> Fresh(succs, d, visited, x.queue[i])) &&
    OnceEach(x.queue[|queue|..]) &&
    x.visited == visited + Nodes(x.queue[|queue|..]) &&
    (forall i :: 0 <= i < |succs| ==> succs[i] in x.visited)
  }

  /** A pushed entry: a successor not visited before, at distance d + 1. */
  predicate Fresh(succs: seq<Cell>, d: int, visited: set<Cell>, e: Entry) {
    e.0 in succs && e.0 !in visited && e.1 == d + 1
  }

  lemma PushesCons(succs: seq<Cell>, d: int, queue: seq<Entry>, visited: set<Cell>,
                   q: seq<Entry>, v: set<Cell>, x: Expansion)
    requires succs != [] && succs[0] !in visited && x.Pushed?
    requires q == queue + [(succs[0], d + 1)] && v == visited + {succs[0]}
    requires Pushes(succs[1..], d, q, v, x)
    ensures Pushes(succs, d, queue, visited, x)
  {
    var tail := x.queue[|q|..];
    var pushed := x.queue[|queue|..];
    assert x.queue[..|q|] == q;
    assert pushed == [(succs[0], d + 1)] + tail;
    assert pushed[0] == (succs[0], d + 1);
    forall i | |queue| <= i < |x.queue|
      ensures Fresh(succs, d, visited, x.queue[i])
    {
      if i > |queue| {
        assert Fresh(succs[1..], d, v, x.queue[i]);
      }
    }
    forall i, j | 0 <= i < j < |pushed|
      ensures pushed[i].0 != pushed[j].0
    {
      if i == 0 {
        assert Fresh(succs[1..], d, v, x.queue[|queue| + j]);
      } else {
        assert pushed[i] == tail[i - 1] && pushed[j] == tail[j - 1];
      }
    }
    NodesCons((succs[0], d + 1), tail);
  }

  lemma NodesCons(e: Entry, q: seq<Entry>)
    ensures Nodes([e] + q) == {e.0} + Nodes(q)
  {
    var s := [e] + q;
    forall c | c in Nodes(s)
      ensures c in {e.0} + Nodes(q)
    {
      var i :| 0 <= i < |s| && s[i].0 == c;
      if i > 0 {
        assert q[i - 1].0 == c;
      }
    }
    forall c | c in {e.0} + Nodes(q)
      ensures c in Nodes(s)
    {
      if c != e.0 {
        var i :| 0 <= i < |q| && q[i].0 == c;
        assert s[i + 1].0 == c;
      } else {
        assert s[0].0 == c;
      }
    }
  }

  /** The inner loop of part1, over the successors of one popped node. */
  method Expand(end: Cell, succs: seq<Cell>, d: int, queue: seq<Entry>, visited: set<Cell>)
    returns (found: bool, queue': seq<Entry>, visited': set<Cell>)
    ensures found <==> Visit(end, succs, d, queue, visited) == Found
    ensures !found ==> Visit(end, succs, d, queue, visited) == Pushed(queue', visited')
  {
    queue', visited' := queue, visited;
    for i := 0 to |succs|
      invariant Visit(end, succs, d, queue, visited) == Visit(end, succs[i..], d, queue', visited')
    {
      var s := succs[i];
      assert succs[i..][1..] == succs[i + 1..];
      if s == end {
        return true, queue', visited';
      }
      if s !in visited' {
        queue' := queue' + [(s, d + 1)];
        visited' := visited' + {s};
      }
    }
    assert succs[|succs|..] == [];
    found := false;
  }

  // ---------------------------------------------------------------------------
  // The invariant of the breadth-first search
  // ---------------------------------------------------------------------------

  /** Cell n lies exactly d moves from (0, 0). */
  ghost predicate Exact(g: Graph, n: Cell, d: int) {
    d >= 0 && n in Reach(g, d) && (d > 0 ==> n !in Reach(g, d - 1))
  }

  /** An expanded cell: all its successors are visited, and none is the end. */
  ghost predicate Expanded(g: Graph, end: Cell, visited: set<Cell>, n: Cell) {
    Closed(g, visited, n) && end !in g(n)
  }

  /** The successors of cells of box stay in box. */
  ghost predicate Confined(g: Graph, box: set<Cell>) {
    forall n :: n in box ==> Closed(g, box, n)
  }

  /** The queue holds each cell once, the visited cells are the expanded ones and
      the queued ones, and everything stays in the box. */
  ghost predicate Shape(box: set<Cell>, queue: seq<Entry>, visited: set<Cell>, done: set<Cell>) {
    OnceEach(queue) && visited == done + Nodes(queue) && done !! Nodes(queue) &&
    (0, 0) in visited && visited <= box
  }

  /** Queued distances are exact, lie in [d, d + 1] and never decrease along the
      queue. */
  ghost predicate Layered(g: Graph, queue: seq<Entry>, d: nat) {
    (forall i :: 0 <= i < |queue| ==> Exact(g, queue[i].0, queue[i].1)) &&
    (forall i :: 0 <= i < |queue| ==> d <= queue[i].1 <= d + 1) &&
    (forall i, j :: 0 <= i < j < |queue| ==> queue[i].1 <= queue[j].1)
  }

  /** Every cell within d - 1 moves is expanded, every expanded one is within d
      moves, and every cell within d moves is visited. */
  ghost predicate Frontier(g: Graph, end: Cell, visited: set<Cell>, done: set<Cell>, d: nat) {
    (forall n :: n in done ==> Expanded(g, end, visited, n)) &&
    done <= Reach(g, d) &&
    (d > 0 ==> Reach(g, d - 1) <= done) &&
    Reach(g, d) <= visited
  }

  ghost predicate Inv(g: Graph, end: Cell, box: set<Cell>, queue: seq<Entry>, visited: set<Cell>,
                      done: set<Cell>, d: nat) {
    Shape(box, queue, visited, done) && Layered(g, queue, d) && Frontier(g, end, visited, done, d)
  }

  lemma InitInv(g: Graph, end: Cell, box: set<Cell>)
    requires (0, 0) in box
    ensures Inv(g, end, box, [((0, 0), 0)], {(0, 0)}, {}, 0)
  {
    assert Nodes([((0, 0), 0)]) == {(0, 0)} by {
      assert [((0, 0), 0)][0].0 == (0, 0);
    }
  }

  /** A set none of whose members is queued shares nothing with the queue. */
  lemma Apart(q: seq<Entry>, s: set<Cell>)
    requires forall i :: 0 <= i < |q| ==> q[i].0 !in s
    ensures Nodes(q) !! s
  {
  }

  /** Once only entries at distance d + 1 are left, the search has moved on to them. */
  lemma Advance(g: Graph, end: Cell, box: set<Cell>, queue: seq<Entry>, visited: set<Cell>, done: set<Cell>, d: nat)
    requires Inv(g, end, box, queue, visited, done, d)
    requires queue != [] && queue[0].1 != d
    ensures Inv(g, end, box, queue, visited, done, d + 1)
  {
    ReachGrows(g, d, d + 1);
    AdvanceDone(g, queue, visited, done, d);
    AdvanceVisited(g, end, visited, done, d);
  }

  lemma AdvanceDone(g: Graph, queue: seq<Entry>, visited: set<Cell>, done: set<Cell>, d: nat)
    requires Layered(g, queue, d) && visited == done + Nodes(queue) && Reach(g, d) <= visited
    requires queue != [] && queue[0].1 != d
    ensures Reach(g, d) <= done
  {
    forall i | 0 <= i < |queue|
      ensures queue[i].0 !in Reach(g, d)
    {
      assert queue[0].1 <= queue[i].1;
      Later(g, queue[i], d);
    }
    Apart(queue, Reach(g, d));
  }

  lemma Later(g: Graph, e: Entry, d: nat)
    requires Exact(g, e.0, e.1) && e.1 == d + 1
    ensures e.0 !in Reach(g, d)
  {
  }

  lemma AdvanceVisited(g: Graph, end: Cell, visited: set<Cell>, done: set<Cell>, d: nat)
    requires forall n :: n in done ==> Expanded(g, end, visited, n)
    requires Reach(g, d) <= done && Reach(g, d) <= visited
    ensures Reach(g, d + 1) <= visited
  {
    forall t | t in Next(g, Reach(g, d))
      ensures t in visited
    {
      var n :| n in Reach(g, d) && t in g(n);
      assert Expanded(g, end, visited, n);
    }
  }

  /** No cell of a reach inside the expanded cells has the end as a successor. */
  lemma NoHitWithin(g: Graph, end: Cell, visited: set<Cell>, done: set<Cell>, k: nat)
    requires forall n :: n in done ==> Expanded(g, end, visited, n)
    requires Reach(g, k) <= done
    ensures !Hits(g, end, k)
  {
    forall n | n in Reach(g, k)
      ensures end !in g(n)
    {
      assert Expanded(g, end, visited, n);
    }
    NotNext(g, Reach(g, k), end);
  }

  /** The end found among the successors of a node at the front, d moves away:
      a walk of d + 1 moves, and none shorter. */
  lemma FoundEnd(g: Graph, end: Cell, box: set<Cell>, queue: seq<Entry>, visited: set<Cell>, done: set<Cell>, d: nat)
    requires Inv(g, end, box, queue, visited, done, d)
    requires queue != [] && queue[0].1 == d && end in g(queue[0].0)
    ensures Answer(g, end, Some(d + 1))
  {
    assert Exact(g, queue[0].0, queue[0].1);
    FoundAt(g, end, visited, done, d, queue[0].0);
  }

  /** A cell first reached after d moves, with end as a successor, while everything
      reached in fewer moves has been expanded without meeting end: d + 1 is the answer. */
  lemma FoundAt(g: Graph, end: Cell, visited: set<Cell>, done: set<Cell>, d: nat, n: Cell)
    requires Exact(g, n, d) && end in g(n)
    requires forall m :: m in done ==> Expanded(g, end, visited, m)
    requires d > 0 ==> Reach(g, d - 1) <= done
    ensures Answer(g, end, Some(d + 1))
  {
    NextOf(g, Reach(g, d), n, end);
    forall k: nat | k < d
      ensures !Hits(g, end, k)
    {
      ReachGrows(g, k, d - 1);
      NoHitWithin(g, end, visited, done, k);
    }
  }

  /** The queue ran dry: the visited cells are closed, so no walk reaches the end. */
  lemma Exhausted(g: Graph, end: Cell, box: set<Cell>, visited: set<Cell>, done: set<Cell>, d: nat)
    requires Inv(g, end, box, [], visited, done, d)
    ensures Answer(g, end, None)
  {
    assert Nodes([]) == {};
    forall n | n in visited
      ensures Closed(g, visited, n)
    {
      assert Expanded(g, end, visited, n);
    }
    forall k: nat
      ensures !Hits(g, end, k)
    {
      ReachWithin(g, visited, k);
      NoHitWithin(g, end, visited, done, k);
    }
  }

  /** Popping the front node at distance d and pushing its new successors keeps the
      invariant, with the node now expanded. */
  lemma PopKeeps(g: Graph, end: Cell, box: set<Cell>, queue: seq<Entry>, visited: set<Cell>, done: set<Cell>, d: nat,
                 x: Expansion)
    requires Inv(g, end, box, queue, visited, done, d) && Confined(g, box)
    requires queue != [] && queue[0].1 == d
    requires x == Visit(end, g(queue[0].0), d, queue[1..], visited) && x.Pushed?
    ensures Inv(g, end, box, x.queue, x.visited, done + {queue[0].0}, d)
    ensures visited <= x.visited <= box
    ensures x.visited == visited ==> |x.queue| < |queue|
  {
    var n := queue[0].0;
    var succs := g(n);
    VisitFound(end, succs, d, queue[1..], visited);
    VisitPushed(end, succs, d, queue[1..], visited);
    assert Exact(g, n, d);
    assert Closed(g, box, n);
    PopShape(succs, box, queue, visited, done, d, x);
    PopLayered(g, queue, visited, done, d, x);
    PopFrontier(g, end, queue, visited, done, d, x);
  }

  lemma PopShape(succs: seq<Cell>, box: set<Cell>, queue: seq<Entry>, visited: set<Cell>, done: set<Cell>, d: nat,
                 x: Expansion)
    requires Shape(box, queue, visited, done)
    requires forall i :: 0 <= i < |succs| ==> succs[i] in box
    requires queue != [] && x.Pushed?
    requires Pushes(succs, d, queue[1..], visited, x)
    ensures Shape(box, x.queue, x.visited, done + {queue[0].0})
    ensures visited <= x.visited <= box
    ensures x.visited == visited ==> |x.queue| < |queue|
  {
    var n := queue[0].0;
    var rest := queue[1..];
    var pushed := x.queue[|rest|..];
    assert queue == [queue[0]] + rest;
    NodesCons(queue[0], rest);
    assert x.queue == rest + pushed;
    NodesAppend(rest, pushed);
    forall i | 0 <= i < |pushed|
      ensures pushed[i].0 !in visited && pushed[i].0 in box
    {
      assert Fresh(succs, d, visited, x.queue[|rest| + i]);
    }
    forall i, j | 0 <= i < j < |x.queue|
      ensures x.queue[i].0 != x.queue[j].0
    {
      if j < |rest| {
        assert queue[i + 1].0 != queue[j + 1].0;
      } else if i >= |rest| {
        assert pushed[i - |rest|].0 != pushed[j - |rest|].0;
      } else {
        assert x.queue[i].0 in Nodes(rest);
        assert pushed[j - |rest|].0 !in visited;
      }
    }
    forall j | 0 <= j < |rest|
      ensures rest[j].0 !in {n}
    {
      assert queue[0].0 != queue[j + 1].0;
    }
    Apart(rest, {n});
    if pushed != [] {
      assert pushed[0].0 in x.visited && pushed[0].0 !in visited;
    }
  }

  lemma NodesAppend(a: seq<Entry>, b: seq<Entry>)
    ensures Nodes(a + b) == Nodes(a) + Nodes(b)
  {
    var s := a + b;
    forall c | c in Nodes(s)
      ensures c in Nodes(a) + Nodes(b)
    {
      var i :| 0 <= i < |s| && s[i].0 == c;
      if i >= |a| {
        assert b[i - |a|].0 == c;
      } else {
        assert a[i].0 == c;
      }
    }
    forall c | c in Nodes(a) + Nodes(b)
      ensures c in Nodes(s)
    {
      if c in Nodes(a) {
        var i :| 0 <= i < |a| && a[i].0 == c;
        assert s[i].0 == c;
      } else {
        var i :| 0 <= i < |b| && b[i].0 == c;
        assert s[|a| + i].0 == c;
      }
    }
  }

  lemma PopLayered(g: Graph, queue: seq<Entry>, visited: set<Cell>, done: set<Cell>, d: nat, x: Expansion)
    requires Layered(g, queue, d) && Reach(g, d) <= visited
    requires queue != [] && queue[0].1 == d && x.Pushed?
    requires Pushes(g(queue[0].0), d, queue[1..], visited, x)
    ensures Layered(g, x.queue, d)
  {
    var rest := queue[1..];
    assert Exact(g, queue[0].0, queue[0].1);
    forall i | 0 <= i < |x.queue|
      ensures Exact(g, x.queue[i].0, x.queue[i].1) && d <= x.queue[i].1 <= d + 1
    {
      if i < |rest| {
        assert x.queue[i] == queue[i + 1];
      } else {
        PushedExact(g, queue[0].0, d, visited, x.queue[i]);
      }
    }
    forall i, j | 0 <= i < j < |x.queue|
      ensures x.queue[i].1 <= x.queue[j].1
    {
      if j < |rest| {
        assert x.queue[i] == queue[i + 1] && x.queue[j] == queue[j + 1];
      } else {
        assert Fresh(g(queue[0].0), d, visited, x.queue[j]);
      }
    }
  }

  /** A pushed successor of a node d moves away is d + 1 moves away. */
  lemma PushedExact(g: Graph, n: Cell, d: nat, visited: set<Cell>, e: Entry)
    requires n in Reach(g, d) && Reach(g, d) <= visited
    requires Fresh(g(n), d, visited, e)
    ensures Exact(g, e.0, e.1) && e.1 == d + 1
  {
    NextOf(g, Reach(g, d), n, e.0);
  }

  lemma PopFrontier(g: Graph, end: Cell, queue: seq<Entry>, visited: set<Cell>, done: set<Cell>, d: nat,
                    x: Expansion)
    requires Frontier(g, end, visited, done, d)
    requires queue != [] && queue[0].1 == d && x.Pushed?
    requires Exact(g, queue[0].0, d) && end !in g(queue[0].0)
    requires Pushes(g(queue[0].0), d, queue[1..], visited, x)
    ensures Frontier(g, end, x.visited, done + {queue[0].0}, d)
  {
    var n := queue[0].0;
    forall m | m in done + {n}
      ensures Expanded(g, end, x.visited, m)
    {
      if m in done {
        assert Expanded(g, end, visited, m);
      }
    }
  }

  /** Visiting more cells of the box leaves fewer unvisited. */
  lemma Shrinks(box: set<Cell>, v: set<Cell>, v': set<Cell>)
    requires v <= v' <= box
    ensures v' == v || box - v' < box - v
  {
    if v' != v {
      var c :| c in v' && c !in v;
      assert c in box - v && c !in box - v';
    }
  }

  // ---------------------------------------------------------------------------
  // part1 and part2
  // ---------------------------------------------------------------------------

  /** get_successors keeps a search from (0, 0) inside the box. */
  lemma MovesConfined(size: Size, corrupted: set<Cell>)
    ensures (0, 0) in Box(size) && Confined(Moves(size, corrupted), Box(size))
  {
    var g := Moves(size, corrupted);
    forall n | n in Box(size)
      ensures Closed(g, Box(size), n)
    {
      SuccessorsInBox(size, corrupted, n);
    }
  }

  /** part1 (day18.py:32-49): breadth first from (0, 0); the distance of a shortest
      walk to the end corner, or None once the queue is empty. */
  method Part1(size: Size, corrupted: set<Cell>) returns (r: Option<int>)
    ensures Answer(Moves(size, corrupted), End(size), r)
  {
    ghost var g := Moves(size, corrupted);
    ghost var box := Box(size);
    var end := (size.0 - 1, size.1 - 1);
    var queue: seq<Entry> := [((0, 0), 0)];
    var visited: set<Cell> := {(0, 0)};
    ghost var done: set<Cell> := {};
    ghost var d: nat := 0;
    MovesConfined(size, corrupted);
    InitInv(g, end, box);
    while |queue| > 0
      invariant Inv(g, end, box, queue, visited, done, d)
      decreases box - visited, |queue|
    {
      var found, distance, queue', visited', d' := Round(size, corrupted, end, box, queue, visited, done, d);
      if found {
        return Some(distance);
      }
      Shrinks(box, visited, visited');
      queue, visited, done, d := queue', visited', done + {queue[0].0}, d';
    }
    Exhausted(g, end, box, visited, done, d);
    r := None;
  }

  /** One round of part1's loop (day18.py:40-47): the head of the queue is popped and its
      successors visited. Either the end is among them, and the answer is one more than the
      popped distance, or the invariant holds again with the head expanded, and the search
      made progress. */
  method Round(size: Size, corrupted: set<Cell>, end: Cell, ghost box: set<Cell>, queue: seq<Entry>,
               visited: set<Cell>, ghost done: set<Cell>, ghost d: nat)
    returns (found: bool, distance: int, queue': seq<Entry>, visited': set<Cell>, ghost d': nat)
    requires end == End(size) && box == Box(size) && Confined(Moves(size, corrupted), box)
    requires Inv(Moves(size, corrupted), end, box, queue, visited, done, d) && queue != []
    ensures found ==> Answer(Moves(size, corrupted), end, Some(distance))
    ensures !found ==> Inv(Moves(size, corrupted), end, box, queue', visited', done + {queue[0].0}, d')
    ensures !found ==> visited <= visited' <= box && (visited' == visited ==> |queue'| < |queue|)
  {
    ghost var g := Moves(size, corrupted);
    d' := d;
    if queue[0].1 != d {
      Advance(g, end, box, queue, visited, done, d);
      d' := d + 1;
    }
    var node := queue[0].0;
    distance := queue[0].1;
    var succs := Successors(size, corrupted, node);
    assert succs == g(node);
    found, queue', visited' := Expand(end, succs, distance, queue[1..], visited);
    if found {
      VisitFound(end, succs, distance, queue[1..], visited);
      FoundEnd(g, end, box, queue, visited, done, d');
      distance := distance + 1;
    } else {
      PopKeeps(g, end, box, queue, visited, done, d', Pushed(queue', visited'));
    }
  }

  /** On a 1x1 map the start is the end, but the search has no move to make: part1
      reports None, whatever is corrupted. */
  lemma SingleCell(corrupted: set<Cell>)
    ensures Answer(Moves((1, 1), corrupted), End((1, 1)), None)
  {
    var g := Moves((1, 1), corrupted);
    assert g((0, 0)) == [];
    forall k: nat
      ensures !Hits(g, End((1, 1)), k)
    {
      SingleCellReach(corrupted, k);
      NotNext(g, {(0, 0)}, (0, 0));
    }
  }

  lemma {:induction false} SingleCellReach(corrupted: set<Cell>, k: nat)
    ensures Reach(Moves((1, 1), corrupted), k) == {(0, 0)}
    decreases k
  {
    var g := Moves((1, 1), corrupted);
    if k > 0 {
      SingleCellReach(corrupted, k - 1);
      assert g((0, 0)) == [];
      NotNextAny(g, {(0, 0)});
    }
  }

  lemma NotNextAny(g: Graph, s: set<Cell>)
    requires forall n :: n in s ==> g(n) == []
    ensures Next(g, s) == {}
  {
  }

  /** The set of corrupted cells, which part2 extends in place. */
  class Corrupted {
    var cells: set<Cell>

    constructor(cells: set<Cell>)
      ensures this.cells == cells
    {
      this.cells := cells;
    }
  }

  /** The corruption once the incoming cells up to and including i have fallen. */
  function Fallen(corrupted: set<Cell>, incoming: seq<Cell>, i: nat): set<Cell>
    requires i < |incoming|
  {
    corrupted + Elems(incoming[..i + 1])
  }

  /** Whether the end is cut off after each fall. */
  ghost function Cuts(size: Size, corrupted: set<Cell>, incoming: seq<Cell>): seq<bool> {
    seq(|incoming|, i requires 0 <= i < |incoming| => Blocked(Moves(size, Fallen(corrupted, incoming, i)), End(size)))
  }

  /** The first index from i on that holds true, if any. */
  function FirstTrue(b: seq<bool>, i: nat): (r: Option<nat>)
    requires i <= |b|
    ensures r.Some? ==> i <= r.value < |b|
    decreases |b| - i
  {
    if i == |b| then None else if b[i] then Some(i) else FirstTrue(b, i + 1)
  }

  /** One step of FirstTrue. */
  lemma FirstTrueStep(b: seq<bool>, i: nat)
    requires i < |b|
    ensures b[i] ==> FirstTrue(b, i) == Some(i)
    ensures !b[i] ==> FirstTrue(b, i) == FirstTrue(b, i + 1)
  {
  }

  /** FirstTrue finds an index that holds true ... */
  lemma {:induction false} FirstTrueHolds(b: seq<bool>, i: nat)
    requires i <= |b| && FirstTrue(b, i).Some?
    ensures b[FirstTrue(b, i).value]
    decreases |b| - i
  {
    if !b[i] {
      FirstTrueHolds(b, i + 1);
    }
  }

  /** ... and the least one: none from i before it holds (none at all when it is None). */
  lemma {:induction false} FirstTrueLeast(b: seq<bool>, i: nat, j: nat)
    requires i <= j < |b|
    requires FirstTrue(b, i).None? || j < FirstTrue(b, i).value
    ensures !b[j]
    decreases j - i
  {
    if i < j {
      FirstTrueLeast(b, i + 1, j);
    }
  }

  /** part2 (day18.py:52-63): the incoming cells fall one by one into the corrupted
      set; the first one after which no walk reaches the end corner, or None where
      the source raises RuntimeError once all have fallen. */
  method Part2(size: Size, corrupted: Corrupted, incoming: seq<Cell>) returns (r: Option<Cell>)
    modifies corrupted
    ensures var cut := FirstTrue(Cuts(size, old(corrupted.cells), incoming), 0);
      (cut.Some? ==> r == Some(incoming[cut.value]) &&
                     corrupted.cells == Fallen(old(corrupted.cells), incoming, cut.value)) &&
      (cut.None? ==> r.None? && corrupted.cells == old(corrupted.cells) + Elems(incoming))
  {
    ghost var c0 := corrupted.cells;
    ghost var cuts := Cuts(size, c0, incoming);
    for i := 0 to |incoming|
      invariant corrupted.cells == c0 + Elems(incoming[..i])
      invariant FirstTrue(cuts, 0) == FirstTrue(cuts, i)
    {
      ElemsSnoc(incoming, i);
      corrupted.cells := corrupted.cells + {incoming[i]};
      var cut := CutOff(size, corrupted.cells, c0, incoming, i);
      FirstTrueStep(cuts, i);
      if cut {
        return Some(incoming[i]);
      }
    }
    assert incoming[..|incoming|] == incoming;
    r := None;
  }

  /** The test of day18.py:60: part1 finds no way once cell i has fallen exactly
      when that fall cuts the end off. */
  method CutOff(size: Size, cells: set<Cell>, ghost c0: set<Cell>, ghost incoming: seq<Cell>, ghost i: nat)
    returns (cut: bool)
    requires i < |incoming| && cells == Fallen(c0, incoming, i)
    ensures cut <==> Cuts(size, c0, incoming)[i]
  {
    var d := Part1(size, cells);
    CutAt(size, c0, incoming, i, cells, d);
    cut := d.None?;
  }

  /** What part1 reports after the fall of cell i decides the search for the cut. */
  lemma CutAt(size: Size, c0: set<Cell>, incoming: seq<Cell>, i: nat, cells: set<Cell>, d: Option<int>)
    requires i < |incoming| && cells == Fallen(c0, incoming, i)
    requires Answer(Moves(size, cells), End(size), d)
    ensures d.None? <==> Cuts(size, c0, incoming)[i]
  {
  }

  /** Corrupting more cells takes successors away and never adds one. */
  lemma FewerMoves(size: Size, c: set<Cell>, c': set<Cell>, n: Cell)
    requires c <= c'
    ensures forall t :: t in Successors(size, c', n) ==> t in Successors(size, c, n)
  {
  }

  /** With more corrupted cells, fewer cells are within k moves. */
  lemma {:induction false} ReachShrinks(size: Size, c: set<Cell>, c': set<Cell>, k: nat)
    requires c <= c'
    ensures Reach(Moves(size, c'), k) <= Reach(Moves(size, c), k)
    decreases k
  {
    if k > 0 {
      ReachShrinks(size, c, c', k - 1);
      NextShrinks(size, c, c', Reach(Moves(size, c'), k - 1), Reach(Moves(size, c), k - 1));
    }
  }

  lemma NextShrinks(size: Size, c: set<Cell>, c': set<Cell>, s': set<Cell>, s: set<Cell>)
    requires c <= c' && s' <= s
    ensures Next(Moves(size, c'), s') <= Next(Moves(size, c), s)
  {
    forall t | t in Next(Moves(size, c'), s')
      ensures t in Next(Moves(size, c), s)
    {
      var n :| n in s' && t in Moves(size, c')(n);
      FewerMoves(size, c, c', n);
      NextOf(Moves(size, c), s, n, t);
    }
  }

  /** A blocked end stays blocked when more cells are corrupted. */
  lemma StaysBlocked(size: Size, c: set<Cell>, c': set<Cell>)
    requires c <= c' && Blocked(Moves(size, c), End(size))
    ensures Blocked(Moves(size, c'), End(size))
  {
    forall k: nat
      ensures !Hits(Moves(size, c'), End(size), k)
    {
      ReachShrinks(size, c, c', k);
      NextShrinks(size, c, c', Reach(Moves(size, c'), k), Reach(Moves(size, c), k));
      assert !Hits(Moves(size, c), End(size), k);
    }
  }

  /** Once the fallen cells block the end, every later fall keeps it blocked: the
      first cut is where the corners part for good. */
  lemma CutForGood(size: Size, corrupted: set<Cell>, incoming: seq<Cell>, i: nat, j: nat)
    requires i <= j < |incoming|
    requires Blocked(Moves(size, Fallen(corrupted, incoming, i)), End(size))
    ensures Blocked(Moves(size, Fallen(corrupted, incoming, j)), End(size))
  {
    var a, b := incoming[..i + 1], incoming[..j + 1];
    forall c | c in Elems(a)
      ensures c in Elems(b)
    {
      var k :| 0 <= k < |a| && a[k] == c;
      assert b[k] == c;
    }
    StaysBlocked(size, Fallen(corrupted, incoming, i), Fallen(corrupted, incoming, j));
  }
}
