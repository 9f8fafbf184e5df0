/** Day 16: Reindeer Maze -- a reindeer starts facing east, a step forward costs 1
    and a quarter turn costs 1000. part1 searches best first for the cheapest way to
    the end tile; part2 runs Dijkstra's algorithm keeping every equally cheap parent
    and walks those parents back from the end to count the tiles on cheapest paths.
    Tiles are (row, column). */
module Day16 {
  import opened Wrappers

  /** The four headings, written '^', '>', 'v', '<' in the source. */
  datatype Dir = Up | Right | Down | Left

  /** A tile (row, column). */
  type Pos = (int, int)

  /** A reindeer: its tile and heading. */
  type State = (Pos, Dir)

  /** A queue entry (score, state), as heapq holds them. */
  type Entry = (int, State)

  // ---------------------------------------------------------------------------
  // NEXT_I, NEXT_J, NEXT_P, CW, CCW
  // ---------------------------------------------------------------------------

  /** NEXT_I (day16.py:8): the row after one step; horizontal headings keep it. */
  function NextI(i: int, d: Dir): int {
    match d
    case Up => i - 1
    case Down => i + 1
    case _ => i
  }

  /** NEXT_J (day16.py:9): the column after one step; vertical headings keep it. */
  function NextJ(j: int, d: Dir): int {
    match d
    case Left => j - 1
    case Right => j + 1
    case _ => j
  }

  /** NEXT_P (day16.py:10): the tile one step ahead. */
  function NextP(p: Pos, d: Dir): Pos {
    (NextI(p.0, d), NextJ(p.1, d))
  }

  /** CW (day16.py:12): a quarter turn clockwise. */
  function Cw(d: Dir): Dir {
    match d
    case Up => Right
    case Right => Down
    case Down => Left
    case Left => Up
  }

  /** CCW (day16.py:13): a quarter turn counter-clockwise. */
  function Ccw(d: Dir): Dir {
    match d
    case Up => Left
    case Left => Down
    case Down => Right
    case Right => Up
  }

  /** CW and CCW undo each other, four turns either way are no turn, and the two
      turns and the heading itself are three different headings. */
  lemma Turns(d: Dir)
    ensures Ccw(Cw(d)) == d && Cw(Ccw(d)) == d
    ensures Cw(Cw(Cw(Cw(d)))) == d && Ccw(Ccw(Ccw(Ccw(d)))) == d
    ensures Cw(d) != d && Ccw(d) != d && Cw(d) != Ccw(d)
  {
  }

  /** A step moves to one of the four neighbours: by one row or by one column. */
  lemma StepIsNeighbour(p: Pos, d: Dir)
    ensures NextP(p, d) != p
    ensures (NextP(p, d).0 == p.0 && (NextP(p, d).1 - p.1 == 1 || p.1 - NextP(p, d).1 == 1)) ||
            (NextP(p, d).1 == p.1 && (NextP(p, d).0 - p.0 == 1 || p.0 - NextP(p, d).0 == 1))
  {
  }

  /** A step after turning round twice walks back. */
  lemma StepBack(p: Pos, d: Dir)
    ensures NextP(NextP(p, d), Cw(Cw(d))) == p
  {
  }

  // ---------------------------------------------------------------------------
  // get_successors
  // ---------------------------------------------------------------------------

  /** get_successors (day16.py:35-57): a step forward at score + 1, and each quarter
      turn at score + 1000, each only when the tile one step ahead in the resulting
      heading is not a wall. */
  function Successors(walls: set<Pos>, score: int, node: State): set<Entry> {
    var (p, d) := node;
    (if NextP(p, d) !in walls then {(score + 1, (NextP(p, d), d))} else {}) +
    (if NextP(p, Cw(d)) !in walls then {(score + 1000, (p, Cw(d)))} else {}) +
    (if NextP(p, Ccw(d)) !in walls then {(score + 1000, (p, Ccw(d)))} else {})
  }

  /** The successor states of a state, whatever the score. */
  function Moves(walls: set<Pos>, node: State): set<State> {
    var (p, d) := node;
    (if NextP(p, d) !in walls then {(NextP(p, d), d)} else {}) +
    (if NextP(p, Cw(d)) !in walls then {(p, Cw(d))} else {}) +
    (if NextP(p, Ccw(d)) !in walls then {(p, Ccw(d))} else {})
  }

  /** What a move from n to m costs: 1 for a step, 1000 for a turn. */
  function Cost(n: State, m: State): int {
    if m.1 == n.1 then 1 else 1000
  }

  /** There are at most three successors. */
  lemma SuccessorsAtMostThree(walls: set<Pos>, score: int, node: State)
    ensures |Successors(walls, score, node)| <= 3
  {
    var (p, d) := node;
    var a := if NextP(p, d) !in walls then {(score + 1, (NextP(p, d), d))} else {};
    var b := if NextP(p, Cw(d)) !in walls then {(score + 1000, (p, Cw(d)))} else {};
    var c := if NextP(p, Ccw(d)) !in walls then {(score + 1000, (p, Ccw(d)))} else {};
    assert |a| <= 1 && |b| <= 1 && |c| <= 1;
    assert |a + b| <= |a| + |b|;
    assert |a + b + c| <= |a + b| + |c|;
  }

  /** A step keeps the heading and moves one tile ahead at score + 1; a turn keeps
      the tile, turns a quarter, at score + 1000. No successor faces a wall: the tile
      one step ahead of the old tile in the new heading is free, so a turn into a
      dead end is never made. */
  lemma SuccessorsShape(walls: set<Pos>, score: int, node: State)
    ensures forall e :: e in Successors(walls, score, node) ==>
              NextP(node.0, e.1.1) !in walls &&
              ((e.0 == score + 1 && e.1 == (NextP(node.0, node.1), node.1)) ||
               (e.0 == score + 1000 && e.1.0 == node.0 && (e.1.1 == Cw(node.1) || e.1.1 == Ccw(node.1))))
  {
  }

  /** The successors are exactly the moves, each at its cost: the score of the
      successor states the tiles allow, each reached once. */
  lemma SuccessorsAreMoves(walls: set<Pos>, score: int, node: State)
    ensures forall e :: e in Successors(walls, score, node) <==>
              e.1 in Moves(walls, node) && e.0 == score + Cost(node, e.1)
  {
    Turns(node.1);
  }

  // ---------------------------------------------------------------------------
  // parse_input
  // ---------------------------------------------------------------------------

  /** Tile p is one of the characters of the lines. */
  predicate InLines(lines: seq<string>, p: Pos) {
    0 <= p.0 < |lines| && 0 <= p.1 < |lines[p.0]|
  }

  /** Tile p comes before (i, j) in reading order. */
  predicate Before(p: Pos, i: int, j: int) {
    p.0 < i || (p.0 == i && p.1 < j)
  }

  /** r is the last tile holding c before (i, j) in reading order, or None when no
      tile before (i, j) holds c: a later 'S' or 'E' overwrites an earlier one. */
  ghost predicate LastSeen(lines: seq<string>, c: char, i: int, j: int, r: Option<Pos>) {
    (r.None? ==> forall p :: InLines(lines, p) && Before(p, i, j) ==> lines[p.0][p.1] != c) &&
    (r.Some? ==> InLines(lines, r.value) && Before(r.value, i, j) && lines[r.value.0][r.value.1] == c &&
                 forall p :: InLines(lines, p) && Before(p, i, j) && lines[p.0][p.1] == c ==>
                   p == r.value || Before(p, r.value.0, r.value.1))
  }

  /** The walls, start and end parse_input holds once it has read up to (i, j). */
  ghost predicate Scanned(lines: seq<string>, i: int, j: int, walls: set<Pos>, start: Option<Pos>,
                          end: Option<Pos>) {
    (forall p :: p in walls <==> InLines(lines, p) && Before(p, i, j) && lines[p.0][p.1] == '#') &&
    LastSeen(lines, 'S', i, j, start) && LastSeen(lines, 'E', i, j, end)
  }

  /** Reading a whole row is reading up to the start of the next one. */
  lemma RowDone(lines: seq<string>, i: int, walls: set<Pos>, start: Option<Pos>, end: Option<Pos>)
    requires 0 <= i < |lines| && Scanned(lines, i, |lines[i]|, walls, start, end)
    ensures Scanned(lines, i + 1, 0, walls, start, end)
  {
    assert forall p :: InLines(lines, p) ==> (Before(p, i, |lines[i]|) <==> Before(p, i + 1, 0));
  }

  /** The tiles before (i, j + 1) are those before (i, j) and (i, j) itself. */
  lemma BeforeNext(i: int, j: int)
    ensures forall p :: Before(p, i, j + 1) <==> Before(p, i, j) || p == (i, j)
  {
  }

  /** Reading a tile other than c keeps the last c. */
  lemma LastSeenKeep(lines: seq<string>, c: char, i: int, j: int, r: Option<Pos>)
    requires InLines(lines, (i, j)) && lines[i][j] != c && LastSeen(lines, c, i, j, r)
    ensures LastSeen(lines, c, i, j + 1, r)
  {
    BeforeNext(i, j);
  }

  /** Reading c makes its tile the last c. */
  lemma LastSeenSet(lines: seq<string>, c: char, i: int, j: int)
    requires InLines(lines, (i, j)) && lines[i][j] == c
    ensures LastSeen(lines, c, i, j + 1, Some((i, j)))
  {
    BeforeNext(i, j);
  }

  /** Reading a tile adds it to the walls exactly when it is a '#'. */
  lemma WallsNext(lines: seq<string>, i: int, j: int, walls: set<Pos>)
    requires InLines(lines, (i, j))
    requires forall p :: p in walls <==> InLines(lines, p) && Before(p, i, j) && lines[p.0][p.1] == '#'
    ensures var w := if lines[i][j] == '#' then walls + {(i, j)} else walls;
            forall p :: p in w <==> InLines(lines, p) && Before(p, i, j + 1) && lines[p.0][p.1] == '#'
  {
    BeforeNext(i, j);
  }

  /** One tile of the inner loop of parse_input. */
  lemma ScanStep(lines: seq<string>, i: int, j: int, walls: set<Pos>, start: Option<Pos>, end: Option<Pos>)
    requires InLines(lines, (i, j)) && Scanned(lines, i, j, walls, start, end)
    ensures var c := lines[i][j];
            Scanned(lines, i, j + 1, if c == '#' then walls + {(i, j)} else walls,
                    if c == 'S' then Some((i, j)) else start, if c == 'E' then Some((i, j)) else end)
  {
    WallsNext(lines, i, j, walls);
    if lines[i][j] == 'S' {
      LastSeenSet(lines, 'S', i, j);
    } else {
      LastSeenKeep(lines, 'S', i, j, start);
    }
    if lines[i][j] == 'E' {
      LastSeenSet(lines, 'E', i, j);
    } else {
      LastSeenKeep(lines, 'E', i, j, end);
    }
  }

  /** parse_input (day16.py:17-33): every '#' is a wall; start and end are the last
      'S' and 'E' in reading order, None when there is none. */
  method ParseInput(lines: seq<string>) returns (walls: set<Pos>, start: Option<Pos>, end: Option<Pos>)
    ensures forall p :: p in walls <==> InLines(lines, p) && lines[p.0][p.1] == '#'
    ensures LastSeen(lines, 'S', |lines|, 0, start) && LastSeen(lines, 'E', |lines|, 0, end)
  {
    walls, start, end := {}, None, None;
    for i := 0 to |lines|
      invariant Scanned(lines, i, 0, walls, start, end)
    {
      for j := 0 to |lines[i]|
        invariant Scanned(lines, i, j, walls, start, end)
      {
        var cell := lines[i][j];
        ScanStep(lines, i, j, walls, start, end);
        if cell == '#' {
          walls := walls + {(i, j)};
        } else if cell == 'S' {
          start := Some((i, j));
        } else if cell == 'E' {
          end := Some((i, j));
        }
      }
      RowDone(lines, i, walls, start, end);
    }
  }

  // ---------------------------------------------------------------------------
  // Walks through the maze
  // ---------------------------------------------------------------------------

  /** Where every search starts: the start tile, facing east, at score 0. */
  function Origin(start: Pos): Entry {
    (0, (start, Right))
  }

  /** A walk: each entry a successor of the one before it. */
  ghost predicate Chain(walls: set<Pos>, es: seq<Entry>) {
    forall k :: 0 <= k < |es| - 1 ==> Link(walls, es, k)
  }

  /** Entry k + 1 of es is a successor of entry k. */
  ghost predicate Link(walls: set<Pos>, es: seq<Entry>, k: int)
    requires 0 <= k < |es| - 1
  {
    es[k + 1] in Successors(walls, es[k].0, es[k].1)
  }

  /** A walk cut short is a walk. */
  lemma ChainPrefix(walls: set<Pos>, es: seq<Entry>, n: nat)
    requires Chain(walls, es) && n <= |es|
    ensures Chain(walls, es[..n])
  {
    forall k | 0 <= k < n - 1
      ensures Link(walls, es[..n], k)
    {
      assert Link(walls, es, k);
      assert es[..n][k] == es[k] && es[..n][k + 1] == es[k + 1];
    }
  }

  /** A walk from the start, facing east at score 0. */
  ghost predicate Walk(walls: set<Pos>, start: Pos, es: seq<Entry>) {
    |es| >= 1 && es[0] == Origin(start) && Chain(walls, es)
  }

  /** Some walk from the start ends in state e.1 at score e.0, its cost. */
  ghost predicate Reaches(walls: set<Pos>, start: Pos, e: Entry) {
    exists es :: Walk(walls, start, es) && es[|es| - 1] == e
  }

  lemma ReachesOrigin(walls: set<Pos>, start: Pos)
    ensures Reaches(walls, start, Origin(start))
  {
    assert Walk(walls, start, [Origin(start)]);
  }

  lemma ReachesStep(walls: set<Pos>, start: Pos, e: Entry, f: Entry)
    requires Reaches(walls, start, e) && f in Successors(walls, e.0, e.1)
    ensures Reaches(walls, start, f)
  {
    var es :| Walk(walls, start, es) && es[|es| - 1] == e;
    var fs := es + [f];
    forall k | 0 <= k < |fs| - 1
      ensures Link(walls, fs, k)
    {
      if k < |es| - 1 {
        assert Link(walls, es, k);
        assert fs[k] == es[k] && fs[k + 1] == es[k + 1];
      }
    }
    assert fs[|fs| - 1] == f && Walk(walls, start, fs);
  }

  /** Along a walk the score grows with every move. */
  lemma {:induction false} ChainScores(walls: set<Pos>, es: seq<Entry>)
    requires |es| >= 1 && Chain(walls, es)
    ensures es[|es| - 1].0 >= es[0].0 + |es| - 1
    decreases |es|
  {
    if |es| > 1 {
      var fs := es[..|es| - 1];
      ChainPrefix(walls, es, |es| - 1);
      ChainScores(walls, fs);
      assert Link(walls, es, |es| - 2);
      SuccessorsShape(walls, es[|es| - 2].0, es[|es| - 2].1);
    }
  }

  /** Only the origin has score 0; every other reachable entry costs at least 1. */
  lemma ReachesScore(walls: set<Pos>, start: Pos, e: Entry)
    requires Reaches(walls, start, e)
    ensures e.0 >= 0 && (e.0 == 0 ==> e == Origin(start))
  {
    var es :| Walk(walls, start, es) && es[|es| - 1] == e;
    ChainScores(walls, es);
  }

  /** Some walk reaches the end tile, in any heading. */
  ghost predicate EndReachable(walls: set<Pos>, start: Pos, end: Pos) {
    exists e :: Reaches(walls, start, e) && e.1.0 == end
  }

  // ---------------------------------------------------------------------------
  // Closed sets of states
  // ---------------------------------------------------------------------------

  /** Every successor state of a member of v is in v. */
  ghost predicate MovesWithin(walls: set<Pos>, v: set<State>) {
    forall n :: n in v ==> Moves(walls, n) <= v
  }

  /** A set holding the start state and closed under moves holds every state a walk
      reaches. */
  lemma {:induction false} ClosedHoldsChain(walls: set<Pos>, v: set<State>, es: seq<Entry>)
    requires |es| >= 1 && es[0].1 in v && MovesWithin(walls, v) && Chain(walls, es)
    ensures es[|es| - 1].1 in v
    decreases |es|
  {
    if |es| > 1 {
      var fs := es[..|es| - 1];
      ChainPrefix(walls, es, |es| - 1);
      ClosedHoldsChain(walls, v, fs);
      assert Link(walls, es, |es| - 2);
      var n := es[|es| - 2];
      SuccessorsAreMoves(walls, n.0, n.1);
      assert es[|es| - 1].1 in Moves(walls, n.1);
    }
  }

  lemma ClosedHoldsReached(walls: set<Pos>, start: Pos, v: set<State>, e: Entry)
    requires Origin(start).1 in v && MovesWithin(walls, v) && Reaches(walls, start, e)
    ensures e.1 in v
  {
    var es :| Walk(walls, start, es) && es[|es| - 1] == e;
    ClosedHoldsChain(walls, v, es);
  }

  /** The walls enclose area: a step from a tile of area onto a free tile stays in
      area. */
  ghost predicate Enclosed(walls: set<Pos>, area: set<Pos>) {
    forall p, d :: p in area && NextP(p, d) !in walls ==> NextP(p, d) in area
  }

  /** The states on the tiles of area. */
  ghost function StatesOf(area: set<Pos>): set<State> {
    set p, d | p in area && d in {Up, Right, Down, Left} :: (p, d)
  }

  lemma MovesEnclosed(walls: set<Pos>, area: set<Pos>, n: State)
    requires Enclosed(walls, area) && n in StatesOf(area)
    ensures Moves(walls, n) <= StatesOf(area)
  {
    var (p, d) := n;
    assert p in area;
    forall m | m in Moves(walls, n)
      ensures m in StatesOf(area)
    {
      assert m.0 in area;
      assert m.1 in {Up, Right, Down, Left};
    }
  }

  /** Adding states to a set of them within all leaves fewer states of all missing. */
  lemma Fewer(all: set<State>, v: set<State>, v': set<State>)
    requires v <= v' <= all
    ensures |all - v'| <= |all - v|
    ensures v' != v ==> |all - v'| < |all - v|
  {
    var x, y := all - v, all - v';
    assert y <= x;
    assert x == y + (x - y) && y !! (x - y);
    if v' != v {
      var n :| n in v' && n !in v;
      assert n in x - y;
    }
  }

  // ---------------------------------------------------------------------------
  // The priority queue
  // ---------------------------------------------------------------------------

  /** q[i] has the least score in q: what heappop may return. The source fixes no
      order among equal scores, so any least entry may come out. */
  predicate IsMin(q: seq<Entry>, i: int) {
    0 <= i < |q| && forall j :: 0 <= j < |q| ==> q[i].0 <= q[j].0
  }

  /** The first entry of least score. */
  function MinIndex(q: seq<Entry>): (i: nat)
    requires q != []
    ensures IsMin(q, i)
    decreases |q|
  {
    if |q| == 1 then 0
    else
      var k := MinIndex(q[1..]);
      assert forall j :: 1 <= j < |q| ==> q[j] == q[1..][j - 1];
      if q[0].0 <= q[k + 1].0 then 0 else k + 1
  }

  /** q with its entry i taken out. */
  function Without(q: seq<Entry>, i: nat): (r: seq<Entry>)
    requires i < |q|
    ensures |r| == |q| - 1
    ensures forall j :: 0 <= j < |r| ==> r[j] == (if j < i then q[j] else q[j + 1])
  {
    q[..i] + q[i + 1..]
  }

  /** The states of a queue. */
  function States(q: seq<Entry>): set<State> {
    set k | 0 <= k < |q| :: q[k].1
  }

  /** No state is queued twice. */
  predicate OnceEach(q: seq<Entry>) {
    forall j, k :: 0 <= j < k < |q| ==> q[j].1 != q[k].1
  }

  lemma StatesWithout(q: seq<Entry>, i: nat)
    requires i < |q| && OnceEach(q)
    ensures OnceEach(Without(q, i)) && States(Without(q, i)) == States(q) - {q[i].1}
  {
    var r := Without(q, i);
    forall n | n in States(q) - {q[i].1}
      ensures n in States(r)
    {
      var k :| 0 <= k < |q| && q[k].1 == n;
      if k < i {
        assert r[k].1 == n;
      } else {
        assert r[k - 1].1 == n;
      }
    }
    forall n | n in States(r)
      ensures n in States(q) - {q[i].1}
    {
      var k :| 0 <= k < |r| && r[k].1 == n;
      if k < i {
        assert q[k].1 == n;
      } else {
        assert q[k + 1].1 == n;
      }
    }
  }

  lemma StatesAppend(a: seq<Entry>, b: seq<Entry>)
    ensures States(a + b) == States(a) + States(b)
  {
    var s := a + b;
    forall n | n in States(s)
      ensures n in States(a) + States(b)
    {
      var k :| 0 <= k < |s| && s[k].1 == n;
      if k < |a| {
        assert a[k].1 == n;
      } else {
        assert b[k - |a|].1 == n;
      }
    }
    forall n | n in States(a) + States(b)
      ensures n in States(s)
    {
      if n in States(a) {
        var k :| 0 <= k < |a| && a[k].1 == n;
        assert s[k].1 == n;
      } else {
        var k :| 0 <= k < |b| && b[k].1 == n;
        assert s[|a| + k].1 == n;
      }
    }
  }

  lemma OnceEachAppend(a: seq<Entry>, b: seq<Entry>)
    requires OnceEach(a) && OnceEach(b) && States(a) !! States(b)
    ensures OnceEach(a + b)
  {
    var s := a + b;
    forall j, k | 0 <= j < k < |s|
      ensures s[j].1 != s[k].1
    {
      if j < |a| && k >= |a| {
        assert s[j].1 in States(a) && s[k].1 == b[k - |a|].1;
        assert s[k].1 in States(b);
      } else if j >= |a| {
        assert s[j] == b[j - |a|] && s[k] == b[k - |a|];
      }
    }
  }

  // ---------------------------------------------------------------------------
  // part1
  // ---------------------------------------------------------------------------

  /** What the inner loop of part1 (day16.py:73-76) pushed: successors of the popped
      entry whose states were not visited, each state once, all marked visited, and
      every successor state is visited afterwards. */
  ghost predicate Pushed(walls: set<Pos>, popped: Entry, visited: set<State>, pushed: seq<Entry>,
                         visited': set<State>) {
    (forall k :: 0 <= k < |pushed| ==>
       pushed[k] in Successors(walls, popped.0, popped.1) && pushed[k].1 !in visited) &&
    OnceEach(pushed) && visited' == visited + States(pushed) &&
    Moves(walls, popped.1) <= visited'
  }

  /** The inner loop of part1: every successor not yet visited is pushed and marked
      visited. The loop variable is the one the source names score, so afterwards it
      holds the score of the last successor taken, or the popped score when there is
      none. */
  method PushNew(walls: set<Pos>, popped: Entry, queue: seq<Entry>, visited: set<State>)
    returns (queue': seq<Entry>, visited': set<State>, score: int)
    ensures |queue| <= |queue'| && queue'[..|queue|] == queue
    ensures Pushed(walls, popped, visited, queue'[|queue|..], visited')
    ensures score == popped.0 || exists e :: e in Successors(walls, popped.0, popped.1) && e.0 == score
  {
    var succs := Successors(walls, popped.0, popped.1);
    SuccessorsAreMoves(walls, popped.0, popped.1);
    var todo := succs;
    queue', visited', score := queue, visited, popped.0;
    while todo != {}
      invariant todo <= succs
      invariant |queue| <= |queue'| && queue'[..|queue|] == queue
      invariant forall k :: |queue| <= k < |queue'| ==> queue'[k] in succs && queue'[k].1 !in visited
      invariant OnceEach(queue'[|queue|..]) && visited' == visited + States(queue'[|queue|..])
      invariant forall e :: e in succs - todo ==> e.1 in visited'
      invariant score == popped.0 || exists e :: e in succs && e.0 == score
      decreases todo
    {
      var e :| e in todo;
      score := e.0;
      if e.1 !in visited' {
        var pushed := queue'[|queue|..];
        StatesAppend(pushed, [e]);
        assert States([e]) == {e.1} by {
          assert [e][0] == e;
        }
        OnceEachAppend(pushed, [e]);
        queue' := queue' + [e];
        assert queue'[|queue|..] == pushed + [e];
        visited' := visited' + {e.1};
      }
      todo := todo - {e};
    }
    forall m | m in Moves(walls, popped.1)
      ensures m in visited'
    {
      assert (popped.0 + Cost(popped.1, m), m) in succs;
    }
  }

  /** The state of part1's search: each queued state once; the visited states are the
      expanded ones and the queued ones, all on tiles of area; every queued entry is
      the cost of a walk; an expanded state is not on the end tile and all its
      successor states are visited. */
  ghost predicate Searching(walls: set<Pos>, start: Pos, end: Pos, area: set<Pos>, queue: seq<Entry>,
                            visited: set<State>, done: set<State>) {
    OnceEach(queue) && visited == done + States(queue) && done !! States(queue) &&
    Origin(start).1 in visited && visited <= StatesOf(area) &&
    (forall k :: 0 <= k < |queue| ==> Reaches(walls, start, queue[k])) &&
    (forall n :: n in done ==> n.0 != end && Moves(walls, n) <= visited)
  }

  lemma SearchStart(walls: set<Pos>, start: Pos, end: Pos, area: set<Pos>)
    requires start in area
    ensures Searching(walls, start, end, area, [Origin(start)], {Origin(start).1}, {})
  {
    assert States([Origin(start)]) == {Origin(start).1} by {
      assert [Origin(start)][0] == Origin(start);
    }
    ReachesOrigin(walls, start);
  }

  /** Popping entry i, off the end tile, and pushing its new successors. */
  lemma SearchStep(walls: set<Pos>, start: Pos, end: Pos, area: set<Pos>, queue: seq<Entry>,
                   visited: set<State>, done: set<State>, i: nat, rest: seq<Entry>, visited': set<State>)
    requires Enclosed(walls, area)
    requires Searching(walls, start, end, area, queue, visited, done)
    requires i < |queue| && queue[i].1.0 != end
    requires |Without(queue, i)| <= |rest| && rest[..|Without(queue, i)|] == Without(queue, i)
    requires Pushed(walls, queue[i], visited, rest[|Without(queue, i)|..], visited')
    ensures Searching(walls, start, end, area, rest, visited', done + {queue[i].1})
    ensures visited <= visited' <= StatesOf(area)
    ensures visited' == visited ==> |rest| < |queue|
  {
    var e, q := queue[i], Without(queue, i);
    var pushed := rest[|q|..];
    assert rest == q + pushed;
    StatesWithout(queue, i);
    StatesAppend(q, pushed);
    OnceEachAppend(q, pushed);
    assert e.1 in visited;
    forall k | 0 <= k < |rest|
      ensures Reaches(walls, start, rest[k])
    {
      if k < |q| {
        assert rest[k] == q[k];
        if k < i {
          assert q[k] == queue[k];
        } else {
          assert q[k] == queue[k + 1];
        }
      } else {
        assert rest[k] == pushed[k - |q|];
        assert Reaches(walls, start, queue[i]);
        ReachesStep(walls, start, e, rest[k]);
      }
    }
    MovesEnclosed(walls, area, e.1);
    forall n | n in States(pushed)
      ensures n in Moves(walls, e.1)
    {
      var k :| 0 <= k < |pushed| && pushed[k].1 == n;
      SuccessorsAreMoves(walls, e.0, e.1);
    }
    if pushed != [] {
      assert pushed[0].1 in States(pushed) && pushed[0].1 !in visited;
    }
  }

  /** At the end of a search that found no end tile, no walk reaches it. */
  lemma SearchExhausted(walls: set<Pos>, start: Pos, end: Pos, area: set<Pos>, visited: set<State>,
                        done: set<State>)
    requires Searching(walls, start, end, area, [], visited, done)
    ensures !EndReachable(walls, start, end)
  {
    assert States([]) == {};
    forall e | Reaches(walls, start, e)
      ensures e.1.0 != end
    {
      ClosedHoldsReached(walls, start, visited, e);
    }
  }

  /** part1 (day16.py:60-78), the search as written: a best-first search from the
      start facing east that marks states visited when they are pushed and stops at
      the first popped entry on the end tile. Its score is the cost of a walk to the
      end tile whenever one exists, and 0 when the start is the end. (The loop
      variable of the inner loop rebinds score; when the queue runs dry score is the
      last value it took, still the score of some reachable entry.) */
  method Part1(walls: set<Pos>, start: Pos, end: Pos, ghost area: set<Pos>) returns (score: int)
    requires start in area && Enclosed(walls, area)
    ensures start == end ==> score == 0
    ensures EndReachable(walls, start, end) ==> exists d :: Reaches(walls, start, (score, (end, d)))
    ensures exists n :: Reaches(walls, start, (score, n))
  {
    var queue := [Origin(start)];
    var visited := {Origin(start).1};
    ghost var done: set<State> := {};
    SearchStart(walls, start, end, area);
    score := 0;
    ghost var at := Origin(start).1;
    ReachesOrigin(walls, start);
    ghost var found := false;
    while queue != []
      invariant Searching(walls, start, end, area, queue, visited, done)
      invariant Reaches(walls, start, (score, at))
      invariant start == end ==> queue == [Origin(start)]
      invariant !found
      decreases |StatesOf(area) - visited|, |queue|
    {
      assert IsMin(queue, MinIndex(queue));
      var i :| 0 <= i < |queue| && IsMin(queue, i);
      var e := queue[i];
      var rest := Without(queue, i);
      score, at := e.0, e.1;
      if e.1.0 == end {
        found := true;
        break;
      }
      var queue', visited', last := PushNew(walls, e, rest, visited);
      SearchStep(walls, start, end, area, queue, visited, done, i, queue', visited');
      Fewer(StatesOf(area), visited, visited');
      if last != e.0 {
        var f :| f in Successors(walls, e.0, e.1) && f.0 == last;
        ReachesStep(walls, start, e, f);
        at := f.1;
      }
      queue, visited, done, score := queue', visited', done + {e.1}, last;
    }
    if !found {
      SearchExhausted(walls, start, end, area, visited, done);
    }
  }

  // ---------------------------------------------------------------------------
  // part2, the search: Dijkstra's algorithm keeping every equally cheap parent
  // ---------------------------------------------------------------------------

  /** distances in part2: for each state reached, its lowest score so far and the
      states it was reached from at that score. */
  type Distances = map<State, (int, set<State>)>

  /** Whether relaxing f pushes it: f.1 has no record, or one no better than f.0. */
  predicate Pushes(dist: Distances, f: Entry) {
    f.1 !in dist || dist[f.1].0 >= f.0
  }

  /** The record of f.1 once successor f of parent is relaxed (day16.py:102-108): a
      strictly lower score replaces the record by this parent alone, an equal score
      adds this parent, a higher one leaves the record as it was. The record never
      gets worse, and every parent it holds reached it at its score. */
  function Relax(dist: Distances, f: Entry, parent: State): (r: (int, set<State>))
    ensures Pushes(dist, f) <==> r.0 == f.0
    ensures !Pushes(dist, f) ==> r == dist[f.1]
    ensures r.0 <= f.0 && (f.1 in dist ==> r.0 <= dist[f.1].0)
    ensures r.0 == f.0 ==> parent in r.1
    ensures f.1 in dist && r.0 == dist[f.1].0 ==> dist[f.1].1 <= r.1
    ensures forall q :: q in r.1 ==>
              (q == parent && r.0 == f.0) || (f.1 in dist && q in dist[f.1].1 && r.0 == dist[f.1].0)
  {
    if f.1 !in dist || dist[f.1].0 > f.0 then (f.0, {parent})
    else if dist[f.1].0 == f.0 then (f.0, dist[f.1].1 + {parent})
    else dist[f.1]
  }

  /** The states of a set of entries. */
  function StatesIn(es: set<Entry>): set<State> {
    set e | e in es :: e.1
  }

  /** Each successor state comes with one score, and the successor states are the
      moves. */
  lemma SuccessorStates(walls: set<Pos>, score: int, node: State)
    ensures forall e, f ::
              (e in Successors(walls, score, node) && f in Successors(walls, score, node) && e.1 == f.1) ==> e == f
    ensures StatesIn(Successors(walls, score, node)) == Moves(walls, node)
  {
    SuccessorsAreMoves(walls, score, node);
    forall n | n in Moves(walls, node)
      ensures n in StatesIn(Successors(walls, score, node))
    {
      assert (score + Cost(node, n), n) in Successors(walls, score, node);
    }
  }

  /** The inner loop of part2 (day16.py:101-108) part way through, relaxing from
      parent: of the successors handled, exactly those that relaxing pushes were
      appended to the queue; their records are relaxed; every other record is as it
      was. */
  ghost predicate Relaxing(parent: State, queue: seq<Entry>, dist: Distances, handled: set<Entry>,
                           queue': seq<Entry>, dist': Distances) {
    |queue| <= |queue'| <= |queue| + |handled| && queue'[..|queue|] == queue &&
    (forall k :: |queue| <= k < |queue'| ==> queue'[k] in handled && Pushes(dist, queue'[k])) &&
    (forall f :: f in handled && Pushes(dist, f) ==> f in queue'[|queue|..]) &&
    (forall f :: f in handled ==> f.1 in dist' && dist'[f.1] == Relax(dist, f, parent)) &&
    (forall n :: n !in StatesIn(handled) ==> (n in dist' <==> n in dist) && (n in dist ==> dist'[n] == dist[n]))
  }

  /** The inner loop of part2 once every successor of popped is handled. */
  ghost predicate RelaxedBy(walls: set<Pos>, popped: Entry, queue: seq<Entry>, dist: Distances,
                            queue': seq<Entry>, dist': Distances) {
    Relaxing(popped.1, queue, dist, Successors(walls, popped.0, popped.1), queue', dist')
  }

  lemma StatesInTake(handled: set<Entry>, f: Entry)
    ensures StatesIn(handled + {f}) == StatesIn(handled) + {f.1}
  {
  }

  /** Handling one more successor, of a state not handled yet. */
  lemma RelaxingStep(parent: State, queue: seq<Entry>, dist: Distances, handled: set<Entry>,
                     qa: seq<Entry>, da: Distances, f: Entry, qb: seq<Entry>, db: Distances)
    requires Relaxing(parent, queue, dist, handled, qa, da)
    requires f.1 !in StatesIn(handled)
    requires Pushes(dist, f) ==> qb == qa + [f] && db == da[f.1 := Relax(dist, f, parent)]
    requires !Pushes(dist, f) ==> qb == qa && db == da
    ensures Relaxing(parent, queue, dist, handled + {f}, qb, db)
  {
    StatesInTake(handled, f);
    assert f !in handled;
    assert |handled + {f}| == |handled| + 1;
    if Pushes(dist, f) {
      RelaxingPush(parent, queue, dist, handled, qa, da, f, qb, db);
    } else {
      RelaxingSkip(parent, queue, dist, handled, qa, da, f);
    }
  }

  /** Handling a successor that relaxing pushes. */
  lemma RelaxingPush(parent: State, queue: seq<Entry>, dist: Distances, handled: set<Entry>,
                     qa: seq<Entry>, da: Distances, f: Entry, qb: seq<Entry>, db: Distances)
    requires Relaxing(parent, queue, dist, handled, qa, da)
    requires f.1 !in StatesIn(handled) && f !in handled && Pushes(dist, f)
    requires StatesIn(handled + {f}) == StatesIn(handled) + {f.1} && |handled + {f}| == |handled| + 1
    requires qb == qa + [f] && db == da[f.1 := Relax(dist, f, parent)]
    ensures Relaxing(parent, queue, dist, handled + {f}, qb, db)
  {
    assert qb[..|queue|] == qa[..|queue|];
    forall k | |queue| <= k < |qb|
      ensures qb[k] in handled + {f} && Pushes(dist, qb[k])
    {
      if k < |qa| {
        assert qb[k] == qa[k];
      }
    }
    forall g | g in handled + {f} && Pushes(dist, g)
      ensures g in qb[|queue|..]
    {
      if g != f {
        var k :| |queue| <= k < |qa| && qa[k] == g;
        assert qb[k] == g;
      } else {
        assert qb[|qb| - 1] == f;
      }
    }
    forall g | g in handled
      ensures g.1 in db && db[g.1] == Relax(dist, g, parent)
    {
      assert g.1 in StatesIn(handled);
    }
  }

  /** Handling a successor that relaxing leaves alone. */
  lemma RelaxingSkip(parent: State, queue: seq<Entry>, dist: Distances, handled: set<Entry>,
                     qa: seq<Entry>, da: Distances, f: Entry)
    requires Relaxing(parent, queue, dist, handled, qa, da)
    requires f.1 !in StatesIn(handled) && f !in handled && !Pushes(dist, f)
    requires StatesIn(handled + {f}) == StatesIn(handled) + {f.1} && |handled + {f}| == |handled| + 1
    ensures Relaxing(parent, queue, dist, handled + {f}, qa, da)
  {
    assert f.1 in dist && da[f.1] == Relax(dist, f, parent);
  }

  /** Relaxing depends on nothing but the record of the successor's state. */
  lemma RelaxSame(dist: Distances, dist': Distances, f: Entry, parent: State)
    requires (f.1 in dist' <==> f.1 in dist) && (f.1 in dist ==> dist'[f.1] == dist[f.1])
    ensures Pushes(dist', f) == Pushes(dist, f) && Relax(dist', f, parent) == Relax(dist, f, parent)
  {
  }

  /** One pass of the inner loop of part2 (day16.py:102-108): successor f of parent
      is pushed when its score is no worse than its record, and its record is then
      relaxed. */
  method Visit(parent: State, f: Entry, queue: seq<Entry>, dist: Distances)
    returns (queue': seq<Entry>, dist': Distances)
    ensures Pushes(dist, f) ==> queue' == queue + [f] && dist' == dist[f.1 := Relax(dist, f, parent)]
    ensures !Pushes(dist, f) ==> queue' == queue && dist' == dist
  {
    var node := f.1;
    if node !in dist || dist[node].0 > f.0 {
      queue' := queue + [f];
      dist' := dist[node := (f.0, {parent})];
    } else if dist[node].0 == f.0 {
      queue' := queue + [f];
      dist' := dist[node := (f.0, dist[node].1 + {parent})];
    } else {
      queue', dist' := queue, dist;
    }
  }

  /** A successor still to handle is in a state no handled successor is in. */
  lemma FreshState(walls: set<Pos>, popped: Entry, todo: set<Entry>, f: Entry)
    requires f in todo && todo <= Successors(walls, popped.0, popped.1)
    ensures f.1 !in StatesIn(Successors(walls, popped.0, popped.1) - todo)
  {
    SuccessorStates(walls, popped.0, popped.1);
  }

  /** The inner loop of part2, over the successors in any order. */
  method RelaxAll(walls: set<Pos>, popped: Entry, queue: seq<Entry>, dist: Distances)
    returns (queue': seq<Entry>, dist': Distances)
    ensures RelaxedBy(walls, popped, queue, dist, queue', dist')
  {
    var succs := Successors(walls, popped.0, popped.1);
    var todo := succs;
    queue', dist' := queue, dist;
    assert StatesIn({}) == {};
    while todo != {}
      invariant todo <= succs
      invariant Relaxing(popped.1, queue, dist, succs - todo, queue', dist')
      decreases todo
    {
      var f :| f in todo;
      var node := f.1;
      FreshState(walls, popped, todo, f);
      RelaxSame(dist, dist', f, popped.1);
      ghost var (qa, da) := (queue', dist');
      queue', dist' := Visit(popped.1, f, queue', dist');
      RelaxingStep(popped.1, queue, dist, succs - todo, qa, da, f, queue', dist');
      MoveOne(succs, todo, f);
      todo := todo - {f};
    }
    assert succs - todo == succs;
  }

  /** The records after relaxing from entry e: each successor state's record is
      relaxed, every other record is as it was. */
  ghost predicate Updated(walls: set<Pos>, e: Entry, dist: Distances, dist': Distances) {
    (forall n :: n in Moves(walls, e.1) ==> n in dist' && dist'[n] == Relax(dist, (e.0 + Cost(e.1, n), n), e.1)) &&
    (forall n :: n !in Moves(walls, e.1) ==> (n in dist' <==> n in dist) && (n in dist ==> dist'[n] == dist[n]))
  }

  /** The queue after relaxing from entry e: what was in rest, and the successors
      that relaxing pushes. */
  ghost predicate Requeued(walls: set<Pos>, e: Entry, rest: seq<Entry>, dist: Distances, queue': seq<Entry>) {
    (forall x :: x in queue' ==> x in rest || (x in Successors(walls, e.0, e.1) && Pushes(dist, x))) &&
    (forall n :: n in Moves(walls, e.1) && Pushes(dist, (e.0 + Cost(e.1, n), n)) ==>
       (e.0 + Cost(e.1, n), n) in queue') &&
    (forall x :: x in rest ==> x in queue')
  }

  lemma RelaxedUpdated(walls: set<Pos>, e: Entry, rest: seq<Entry>, dist: Distances,
                       queue': seq<Entry>, dist': Distances)
    requires RelaxedBy(walls, e, rest, dist, queue', dist')
    ensures Updated(walls, e, dist, dist')
  {
    SuccessorsAreMoves(walls, e.0, e.1);
    forall n | n in Moves(walls, e.1)
      ensures n in dist' && dist'[n] == Relax(dist, (e.0 + Cost(e.1, n), n), e.1)
    {
      assert (e.0 + Cost(e.1, n), n) in Successors(walls, e.0, e.1);
    }
    SuccessorStates(walls, e.0, e.1);
  }

  lemma RelaxedRequeued(walls: set<Pos>, e: Entry, rest: seq<Entry>, dist: Distances,
                        queue': seq<Entry>, dist': Distances)
    requires RelaxedBy(walls, e, rest, dist, queue', dist')
    ensures Requeued(walls, e, rest, dist, queue')
  {
    forall x | x in queue'
      ensures x in rest || (x in Successors(walls, e.0, e.1) && Pushes(dist, x))
    {
      var k :| 0 <= k < |queue'| && queue'[k] == x;
      if k < |rest| {
        assert queue'[..|rest|][k] == x;
      }
    }
    SuccessorsAreMoves(walls, e.0, e.1);
    forall n | n in Moves(walls, e.1) && Pushes(dist, (e.0 + Cost(e.1, n), n))
      ensures (e.0 + Cost(e.1, n), n) in queue'
    {
      var f := (e.0 + Cost(e.1, n), n);
      assert f in Successors(walls, e.0, e.1);
      assert f in queue'[|rest|..];
    }
    forall x | x in rest
      ensures x in queue'
    {
      var k :| 0 <= k < |rest| && rest[k] == x;
      assert queue'[..|rest|][k] == x;
    }
  }

  /** No record of dist is lost or worse in dist'. */
  ghost predicate Improves(dist: Distances, dist': Distances) {
    forall n :: n in dist ==> n in dist' && dist'[n].0 <= dist[n].0
  }

  /** Relaxing loses no record and makes none worse; new records are of successor
      states. */
  lemma UpdatedMonotone(walls: set<Pos>, e: Entry, dist: Distances, dist': Distances)
    requires Updated(walls, e, dist, dist')
    ensures Improves(dist, dist')
    ensures forall n :: n in dist' ==> n in dist || n in Moves(walls, e.1)
  {
    forall n | n in dist
      ensures n in dist' && dist'[n].0 <= dist[n].0
    {
      if n in Moves(walls, e.1) {
        var r := Relax(dist, (e.0 + Cost(e.1, n), n), e.1);
      }
    }
  }

  /** An entry of q is the one taken out at i or is still in q without it. */
  lemma InWithout(q: seq<Entry>, i: nat)
    requires i < |q|
    ensures forall x :: x in q ==> x == q[i] || x in Without(q, i)
    ensures forall x :: x in Without(q, i) ==> x in q
  {
    var r := Without(q, i);
    forall x | x in q
      ensures x == q[i] || x in r
    {
      var k :| 0 <= k < |q| && q[k] == x;
      if k < i {
        assert r[k] == x;
      } else if k > i {
        assert r[k - 1] == x;
      }
    }
  }

  /** Every record is the cost of a walk. */
  ghost predicate RecordsReal(walls: set<Pos>, start: Pos, dist: Distances) {
    forall n :: n in dist ==> Reaches(walls, start, (dist[n].0, n))
  }

  /** Every queued entry is the cost of a walk, and its state has a record no worse. */
  ghost predicate QueueReal(walls: set<Pos>, start: Pos, queue: seq<Entry>, dist: Distances) {
    forall x :: x in queue ==> Reaches(walls, start, x) && x.1 in dist && dist[x.1].0 <= x.0
  }

  /** Every expanded entry is the cost of a walk, and its state has a record. */
  ghost predicate DoneReal(walls: set<Pos>, start: Pos, done: set<Entry>, dist: Distances) {
    forall x :: x in done ==> Reaches(walls, start, x) && x.1 in dist
  }

  /** Each record is waiting in the queue at its score, or was expanded at it. */
  ghost predicate Witnessed(queue: seq<Entry>, dist: Distances, done: set<Entry>) {
    forall n :: n in dist ==> (dist[n].0, n) in queue || (dist[n].0, n) in done
  }

  /** Every successor of an expanded entry has a record no worse than its score. */
  ghost predicate Expanded(walls: set<Pos>, dist: Distances, done: set<Entry>) {
    forall x, n :: x in done && n in Moves(walls, x.1) ==> n in dist && dist[n].0 <= x.0 + Cost(x.1, n)
  }

  /** The start state keeps a record of at most 0. */
  ghost predicate StartKept(start: Pos, dist: Distances) {
    Origin(start).1 in dist && dist[Origin(start).1].0 <= 0
  }

  /** Each recorded parent was expanded at the score that, with the move, makes the
      record. */
  ghost predicate ParentsSound(walls: set<Pos>, dist: Distances, done: set<Entry>) {
    forall n, q :: n in dist && q in dist[n].1 ==>
      n in Moves(walls, q) && (dist[n].0 - Cost(q, n), q) in done
  }

  /** An expanded entry whose move meets the record of the state moved to is one of
      its recorded parents. */
  ghost predicate ParentsComplete(walls: set<Pos>, dist: Distances, done: set<Entry>) {
    forall x, n :: x in done && n in Moves(walls, x.1) && n in dist && dist[n].0 == x.0 + Cost(x.1, n) ==>
      x.1 in dist[n].1
  }

  /** Only entries up to best are expanded; when best is 0, so only the start entry
      can be, every record is the start state's or one of its successors'. */
  ghost predicate Known(walls: set<Pos>, start: Pos, best: int, dist: Distances, done: set<Entry>) {
    (forall x :: x in done ==> x.0 <= best) &&
    (best == 0 ==> forall n :: n in dist ==> n == Origin(start).1 || n in Moves(walls, Origin(start).1))
  }

  /** The invariant of part2's search (day16.py:93-108), with done the entries
      popped and expanded so far. */
  ghost predicate Dijkstra(walls: set<Pos>, start: Pos, best: int, queue: seq<Entry>, dist: Distances,
                           done: set<Entry>) {
    RecordsReal(walls, start, dist) && QueueReal(walls, start, queue, dist) && DoneReal(walls, start, done, dist) &&
    Witnessed(queue, dist, done) && Expanded(walls, dist, done) && StartKept(start, dist) &&
    ParentsSound(walls, dist, done) && ParentsComplete(walls, dist, done) && Known(walls, start, best, dist, done)
  }

  lemma DijkstraStart(walls: set<Pos>, start: Pos, best: int)
    ensures Dijkstra(walls, start, best, [Origin(start)], map[Origin(start).1 := (0, {})], {})
  {
    ReachesOrigin(walls, start);
  }

  lemma StepRecords(walls: set<Pos>, start: Pos, e: Entry, dist: Distances, dist': Distances)
    requires RecordsReal(walls, start, dist) && Reaches(walls, start, e) && Updated(walls, e, dist, dist')
    ensures RecordsReal(walls, start, dist')
  {
    forall n | n in dist'
      ensures Reaches(walls, start, (dist'[n].0, n))
    {
      if n in Moves(walls, e.1) {
        var f := (e.0 + Cost(e.1, n), n);
        SuccessorsAreMoves(walls, e.0, e.1);
        ReachesStep(walls, start, e, f);
        assert dist'[n] == Relax(dist, f, e.1);
      }
    }
  }

  lemma StepQueue(walls: set<Pos>, start: Pos, e: Entry, rest: seq<Entry>, dist: Distances,
                  queue': seq<Entry>, dist': Distances)
    requires QueueReal(walls, start, rest, dist) && Reaches(walls, start, e)
    requires Updated(walls, e, dist, dist') && Requeued(walls, e, rest, dist, queue')
    ensures QueueReal(walls, start, queue', dist')
  {
    UpdatedMonotone(walls, e, dist, dist');
    forall x | x in queue'
      ensures Reaches(walls, start, x) && x.1 in dist' && dist'[x.1].0 <= x.0
    {
      if x in rest {
        QueueKept(walls, start, rest, dist, dist', x);
      } else {
        QueuePushed(walls, start, e, dist, dist', x);
      }
    }
  }

  lemma QueueKept(walls: set<Pos>, start: Pos, rest: seq<Entry>, dist: Distances, dist': Distances, x: Entry)
    requires QueueReal(walls, start, rest, dist) && Improves(dist, dist') && x in rest
    ensures Reaches(walls, start, x) && x.1 in dist' && dist'[x.1].0 <= x.0
  {
    assert x.1 in dist;
  }

  lemma QueuePushed(walls: set<Pos>, start: Pos, e: Entry, dist: Distances, dist': Distances, x: Entry)
    requires Reaches(walls, start, e) && Updated(walls, e, dist, dist') && x in Successors(walls, e.0, e.1)
    ensures Reaches(walls, start, x) && x.1 in dist' && dist'[x.1].0 <= x.0
  {
    SuccessorsAreMoves(walls, e.0, e.1);
    ReachesStep(walls, start, e, x);
    assert x.1 in Moves(walls, e.1) && x == (e.0 + Cost(e.1, x.1), x.1);
  }

  lemma StepWitnessed(walls: set<Pos>, queue: seq<Entry>, dist: Distances, done: set<Entry>, i: nat,
                      queue': seq<Entry>, dist': Distances)
    requires Witnessed(queue, dist, done) && i < |queue|
    requires Updated(walls, queue[i], dist, dist') && Requeued(walls, queue[i], Without(queue, i), dist, queue')
    ensures Witnessed(queue', dist', done + {queue[i]})
  {
    var e, rest := queue[i], Without(queue, i);
    InWithout(queue, i);
    forall n | n in dist'
      ensures (dist'[n].0, n) in queue' || (dist'[n].0, n) in done + {e}
    {
      var f := (e.0 + Cost(e.1, n), n);
      if n in Moves(walls, e.1) && Pushes(dist, f) {
        assert dist'[n] == Relax(dist, f, e.1);
      } else if n in Moves(walls, e.1) {
        assert dist'[n] == Relax(dist, f, e.1) == dist[n];
      } else {
        assert n in dist && dist'[n] == dist[n];
      }
    }
  }

  lemma ExpandedNew(walls: set<Pos>, e: Entry, dist: Distances, dist': Distances)
    requires Updated(walls, e, dist, dist')
    ensures Expanded(walls, dist', {e})
  {
    forall x, n | x in {e} && n in Moves(walls, x.1)
      ensures n in dist' && dist'[n].0 <= x.0 + Cost(x.1, n)
    {
      assert dist'[n] == Relax(dist, (e.0 + Cost(e.1, n), n), e.1);
    }
  }

  lemma ExpandedOld(walls: set<Pos>, dist: Distances, done: set<Entry>, dist': Distances)
    requires Expanded(walls, dist, done) && Improves(dist, dist')
    ensures Expanded(walls, dist', done)
  {
    forall x, n | x in done && n in Moves(walls, x.1)
      ensures n in dist' && dist'[n].0 <= x.0 + Cost(x.1, n)
    {
      assert n in dist;
    }
  }

  lemma ExpandedUnion(walls: set<Pos>, dist: Distances, a: set<Entry>, b: set<Entry>)
    requires Expanded(walls, dist, a) && Expanded(walls, dist, b)
    ensures Expanded(walls, dist, a + b)
  {
  }

  lemma StepExpanded(walls: set<Pos>, e: Entry, dist: Distances, done: set<Entry>, dist': Distances)
    requires Expanded(walls, dist, done) && Updated(walls, e, dist, dist')
    ensures Expanded(walls, dist', done + {e})
  {
    ExpandedNew(walls, e, dist, dist');
    UpdatedMonotone(walls, e, dist, dist');
    ExpandedOld(walls, dist, done, dist');
    ExpandedUnion(walls, dist', done, {e});
  }

  lemma StepParentsSound(walls: set<Pos>, e: Entry, dist: Distances, done: set<Entry>, dist': Distances)
    requires ParentsSound(walls, dist, done) && Updated(walls, e, dist, dist')
    ensures ParentsSound(walls, dist', done + {e})
  {
    forall n, q | n in dist' && q in dist'[n].1
      ensures n in Moves(walls, q) && (dist'[n].0 - Cost(q, n), q) in done + {e}
    {
      if n in Moves(walls, e.1) {
        SoundAt(walls, e, dist, done, dist'[n], n, q);
      } else {
        assert n in dist && dist'[n] == dist[n];
      }
    }
  }

  /** A parent in the relaxed record of a successor state n of e is e's state or was
      already a sound parent. */
  lemma SoundAt(walls: set<Pos>, e: Entry, dist: Distances, done: set<Entry>, r: (int, set<State>),
                n: State, q: State)
    requires ParentsSound(walls, dist, done) && n in Moves(walls, e.1)
    requires r == Relax(dist, (e.0 + Cost(e.1, n), n), e.1) && q in r.1
    ensures n in Moves(walls, q) && (r.0 - Cost(q, n), q) in done + {e}
  {
    if !(q == e.1 && r.0 == e.0 + Cost(e.1, n)) {
      assert q in dist[n].1 && r.0 == dist[n].0;
    }
  }

  lemma StepParentsComplete(walls: set<Pos>, e: Entry, dist: Distances, done: set<Entry>, dist': Distances)
    requires ParentsComplete(walls, dist, done) && Expanded(walls, dist, done) && Updated(walls, e, dist, dist')
    ensures ParentsComplete(walls, dist', done + {e})
  {
    UpdatedMonotone(walls, e, dist, dist');
    forall x, n | x in done + {e} && n in Moves(walls, x.1) && n in dist' && dist'[n].0 == x.0 + Cost(x.1, n)
      ensures x.1 in dist'[n].1
    {
      if x == e {
        assert dist'[n] == Relax(dist, (e.0 + Cost(e.1, n), n), e.1);
      } else {
        assert x in done;
        ExpandedAt(walls, dist, done, x, n);
        if n in Moves(walls, e.1) {
          CompleteAt(walls, e, dist, done, dist'[n], x, n);
        } else {
          assert dist'[n] == dist[n];
        }
      }
    }
  }

  /** An expanded entry whose move meets the relaxed record of a successor state n
      of e was a complete parent before and is kept. */
  lemma CompleteAt(walls: set<Pos>, e: Entry, dist: Distances, done: set<Entry>, r: (int, set<State>),
                   x: Entry, n: State)
    requires ParentsComplete(walls, dist, done) && x in done && n in Moves(walls, x.1)
    requires n in dist && dist[n].0 <= x.0 + Cost(x.1, n)
    requires r == Relax(dist, (e.0 + Cost(e.1, n), n), e.1) && r.0 == x.0 + Cost(x.1, n)
    ensures x.1 in r.1
  {
    assert r.0 <= dist[n].0;
    assert dist[n].0 == x.0 + Cost(x.1, n) && x.1 in dist[n].1;
  }

  lemma StepKnown(walls: set<Pos>, start: Pos, best: int, e: Entry, dist: Distances, done: set<Entry>,
                  dist': Distances)
    requires Known(walls, start, best, dist, done) && e.0 <= best && Reaches(walls, start, e)
    requires Updated(walls, e, dist, dist')
    ensures Known(walls, start, best, dist', done + {e})
  {
    UpdatedMonotone(walls, e, dist, dist');
    if best == 0 {
      ReachesScore(walls, start, e);
      assert e == Origin(start);
    }
  }

  /** Popping entry i, no higher than best, and relaxing its successors keeps the
      invariant. */
  lemma DijkstraStep(walls: set<Pos>, start: Pos, best: int, queue: seq<Entry>, dist: Distances,
                     done: set<Entry>, i: nat, queue': seq<Entry>, dist': Distances)
    requires Dijkstra(walls, start, best, queue, dist, done) && i < |queue| && queue[i].0 <= best
    requires RelaxedBy(walls, queue[i], Without(queue, i), dist, queue', dist')
    ensures Dijkstra(walls, start, best, queue', dist', done + {queue[i]})
  {
    var e, rest := queue[i], Without(queue, i);
    RelaxedUpdated(walls, e, rest, dist, queue', dist');
    RelaxedRequeued(walls, e, rest, dist, queue', dist');
    InWithout(queue, i);
    assert Reaches(walls, start, e) && e.1 in dist;
    StepReal(walls, start, e, queue, dist, done, i, queue', dist');
    StepParents(walls, start, best, e, dist, done, dist');
  }

  /** How one round keeps the records, the queue and the expanded entries real, and
      every record witnessed. */
  lemma StepReal(walls: set<Pos>, start: Pos, e: Entry, queue: seq<Entry>, dist: Distances, done: set<Entry>, i: nat,
                 queue': seq<Entry>, dist': Distances)
    requires i < |queue| && e == queue[i] && Reaches(walls, start, e) && e.1 in dist
    requires RecordsReal(walls, start, dist) && QueueReal(walls, start, Without(queue, i), dist)
    requires DoneReal(walls, start, done, dist) && Witnessed(queue, dist, done) && StartKept(start, dist)
    requires Updated(walls, e, dist, dist') && Requeued(walls, e, Without(queue, i), dist, queue')
    ensures RecordsReal(walls, start, dist') && QueueReal(walls, start, queue', dist')
    ensures DoneReal(walls, start, done + {e}, dist') && Witnessed(queue', dist', done + {e})
    ensures StartKept(start, dist')
  {
    UpdatedMonotone(walls, e, dist, dist');
    StepRecords(walls, start, e, dist, dist');
    StepQueue(walls, start, e, Without(queue, i), dist, queue', dist');
    StepWitnessed(walls, queue, dist, done, i, queue', dist');
  }

  /** How one round keeps the expanded entries' successors recorded, the parents
      sound and complete, and the expanded scores at most best. */
  lemma StepParents(walls: set<Pos>, start: Pos, best: int, e: Entry, dist: Distances, done: set<Entry>,
                    dist': Distances)
    requires Expanded(walls, dist, done) && ParentsSound(walls, dist, done) && ParentsComplete(walls, dist, done)
    requires Known(walls, start, best, dist, done) && e.0 <= best && Reaches(walls, start, e)
    requires Updated(walls, e, dist, dist')
    ensures Expanded(walls, dist', done + {e}) && ParentsSound(walls, dist', done + {e})
    ensures ParentsComplete(walls, dist', done + {e}) && Known(walls, start, best, dist', done + {e})
  {
    StepExpanded(walls, e, dist, done, dist');
    StepParentsSound(walls, e, dist, done, dist');
    StepParentsComplete(walls, e, dist, done, dist');
    StepKnown(walls, start, best, e, dist, done, dist');
  }

  // ---------------------------------------------------------------------------
  // Why part2's search ends: every pop at most best replaces one queued entry by
  // at most three of higher score, and a queued score s counts 4^(b - s).
  // ---------------------------------------------------------------------------

  function Pow4(k: nat): (r: nat)
    ensures r >= 1
  {
    if k == 0 then 1 else 4 * Pow4(k - 1)
  }

  lemma {:induction false} Pow4Grows(j: nat, k: nat)
    requires j <= k
    ensures Pow4(j) <= Pow4(k)
    decreases k
  {
    if j < k {
      Pow4Grows(j, k - 1);
    }
  }

  /** How far score s is below the bound b, or 0. */
  function Gap(b: int, s: int): nat {
    if s >= b then 0 else b - s
  }

  /** The weight of a queue: 4^Gap summed over its entries. */
  function Weight(b: int, q: seq<Entry>): nat
    decreases |q|
  {
    if q == [] then 0 else Pow4(Gap(b, q[0].0)) + Weight(b, q[1..])
  }

  lemma {:induction false} WeightAppend(b: int, p: seq<Entry>, q: seq<Entry>)
    ensures Weight(b, p + q) == Weight(b, p) + Weight(b, q)
    decreases |p|
  {
    if p != [] {
      assert (p + q)[1..] == p[1..] + q;
      WeightAppend(b, p[1..], q);
    } else {
      assert p + q == q;
    }
  }

  lemma WeightWithout(b: int, q: seq<Entry>, i: nat)
    requires i < |q|
    ensures Weight(b, q) == Weight(b, Without(q, i)) + Pow4(Gap(b, q[i].0))
  {
    assert q == q[..i] + [q[i]] + q[i + 1..];
    WeightAppend(b, q[..i] + [q[i]], q[i + 1..]);
    WeightAppend(b, q[..i], [q[i]]);
    WeightAppend(b, q[..i], q[i + 1..]);
    assert Weight(b, [q[i]]) == Pow4(Gap(b, q[i].0)) by {
      assert [q[i]][1..] == [];
    }
  }

  /** A queue whose every gap is at most g weighs at most |q| * 4^g. */
  lemma {:induction false} WeightBound(b: int, q: seq<Entry>, g: nat)
    requires forall k :: 0 <= k < |q| ==> Gap(b, q[k].0) <= g
    ensures Weight(b, q) <= |q| * Pow4(g)
    decreases |q|
  {
    if q != [] {
      assert forall k :: 0 <= k < |q[1..]| ==> q[1..][k] == q[k + 1];
      WeightBound(b, q[1..], g);
      Pow4Grows(Gap(b, q[0].0), g);
      MulSucc(|q| - 1, Pow4(g));
    }
  }

  lemma MulSucc(n: nat, m: nat)
    ensures n * m + m == (n + 1) * m
  {
  }

  /** Replacing an entry of score s below b by at most three of higher scores
      lowers the weight. */
  lemma WeightStep(b: int, s: int, rest: seq<Entry>, pushed: seq<Entry>)
    requires s < b && |pushed| <= 3
    requires forall k :: 0 <= k < |pushed| ==> pushed[k].0 > s
    ensures Weight(b, rest + pushed) < Weight(b, rest) + Pow4(Gap(b, s))
  {
    WeightAppend(b, rest, pushed);
    var g := Gap(b, s);
    WeightBound(b, pushed, g - 1);
    assert Pow4(g) == 4 * Pow4(g - 1);
    FewLess(Weight(b, pushed), |pushed|, Pow4(g - 1));
  }

  /** Relaxing from e appends at most three entries, each of higher score. */
  lemma RelaxedPushes(walls: set<Pos>, e: Entry, rest: seq<Entry>, dist: Distances,
                      queue': seq<Entry>, dist': Distances)
    requires RelaxedBy(walls, e, rest, dist, queue', dist')
    ensures queue' == rest + queue'[|rest|..] && |queue'[|rest|..]| <= 3
    ensures forall k :: 0 <= k < |queue'[|rest|..]| ==> queue'[|rest|..][k].0 > e.0
  {
    SuccessorsAtMostThree(walls, e.0, e.1);
    SuccessorsShape(walls, e.0, e.1);
    ExtendsBy(queue', rest);
    forall k | 0 <= k < |queue'[|rest|..]|
      ensures queue'[|rest|..][k].0 > e.0
    {
      assert queue'[|rest|..][k] == queue'[|rest| + k];
    }
  }

  /** At most three parts of weight at most m weigh less than 4 * m. */
  lemma FewLess(w: nat, n: nat, m: nat)
    requires w <= n * m && n <= 3 && m >= 1
    ensures w < 4 * m
  {
    assert n * m <= 3 * m;
  }

  // ---------------------------------------------------------------------------
  // What part2's search leaves behind
  // ---------------------------------------------------------------------------

  /** Along a walk no score exceeds the last. */
  lemma {:induction false} ChainUpTo(walls: set<Pos>, es: seq<Entry>, j: nat)
    requires Chain(walls, es) && j < |es|
    ensures es[j].0 <= es[|es| - 1].0
    decreases |es| - j
  {
    if j < |es| - 1 {
      ChainUpTo(walls, es, j + 1);
      assert Link(walls, es, j);
      SuccessorsShape(walls, es[j].0, es[j].1);
    }
  }

  /** Once every queued score is at least low, each state a walk of cost below low
      reaches has a record no worse than that cost, expanded at its record. */
  lemma {:induction false} Cut(walls: set<Pos>, start: Pos, queue: seq<Entry>, dist: Distances,
                               done: set<Entry>, low: int, es: seq<Entry>, j: nat)
    requires Witnessed(queue, dist, done) && Expanded(walls, dist, done) && StartKept(start, dist)
    requires forall k :: 0 <= k < |queue| ==> queue[k].0 >= low
    requires Walk(walls, start, es) && es[|es| - 1].0 < low && j < |es|
    ensures es[j].1 in dist && dist[es[j].1].0 <= es[j].0 && (dist[es[j].1].0, es[j].1) in done
    decreases j
  {
    if j > 0 {
      Cut(walls, start, queue, dist, done, low, es, j - 1);
      assert Link(walls, es, j - 1);
      CutLink(walls, dist, done, es[j - 1], es[j]);
    }
    ChainUpTo(walls, es, j);
    CutDone(queue, dist, done, low, es[j]);
  }

  /** A successor of an entry expanded at its record has a record no worse. */
  lemma CutLink(walls: set<Pos>, dist: Distances, done: set<Entry>, m: Entry, f: Entry)
    requires Expanded(walls, dist, done) && f in Successors(walls, m.0, m.1)
    requires m.1 in dist && dist[m.1].0 <= m.0 && (dist[m.1].0, m.1) in done
    ensures f.1 in dist && dist[f.1].0 <= f.0
  {
    SuccessorsAreMoves(walls, m.0, m.1);
    assert f.1 in Moves(walls, m.1);
  }

  /** A record below every queued score was expanded. */
  lemma CutDone(queue: seq<Entry>, dist: Distances, done: set<Entry>, low: int, f: Entry)
    requires Witnessed(queue, dist, done) && forall k :: 0 <= k < |queue| ==> queue[k].0 >= low
    requires f.1 in dist && dist[f.1].0 <= f.0 < low
    ensures (dist[f.1].0, f.1) in done
  {
    assert (dist[f.1].0, f.1) !in queue;
  }

  lemma CutEntry(walls: set<Pos>, start: Pos, queue: seq<Entry>, dist: Distances, done: set<Entry>,
                 low: int, c: int, m: State)
    requires Witnessed(queue, dist, done) && Expanded(walls, dist, done) && StartKept(start, dist)
    requires forall k :: 0 <= k < |queue| ==> queue[k].0 >= low
    requires Reaches(walls, start, (c, m)) && c < low
    ensures m in dist && dist[m].0 <= c && (dist[m].0, m) in done
  {
    var es :| Walk(walls, start, es) && es[|es| - 1] == (c, m);
    Cut(walls, start, queue, dist, done, low, es, |es| - 1);
  }

  /** A recorded move: q has a record, and the move from q to n meets n's record. */
  ghost predicate Tight(walls: set<Pos>, dist: Distances, q: State, n: State) {
    q in dist && n in dist && n in Moves(walls, q) && dist[q].0 + Cost(q, n) == dist[n].0
  }

  /** What distances holds once part2's search stops (day16.py:93-108): every record
      is the cost of a walk; every state some walk of cost at most best reaches has
      a record no higher than that cost; a record at most best holds exactly the
      states whose recorded moves meet it; parents have records; and when best is 0
      the records are the start state's and its successors'. */
  ghost predicate Settled(walls: set<Pos>, start: Pos, best: int, dist: Distances) {
    RecordsReal(walls, start, dist) && Covers(walls, start, best, dist) && ExactParents(walls, best, dist) &&
    ParentsRecorded(dist) && StartOnly(walls, start, best, dist)
  }

  /** Every state some walk of cost at most best reaches has a record no higher. */
  ghost predicate Covers(walls: set<Pos>, start: Pos, best: int, dist: Distances) {
    forall c, m :: Reaches(walls, start, (c, m)) && c <= best ==> m in dist && dist[m].0 <= c
  }

  /** A record at most best holds exactly the states whose recorded moves meet it. */
  ghost predicate ExactParents(walls: set<Pos>, best: int, dist: Distances) {
    forall n, q :: n in dist && dist[n].0 <= best ==> (q in dist[n].1 <==> Tight(walls, dist, q, n))
  }

  /** Every recorded parent has a record. */
  ghost predicate ParentsRecorded(dist: Distances) {
    forall n, q :: n in dist && q in dist[n].1 ==> q in dist
  }

  /** When best is 0 the records are the start state's and its successors'. */
  ghost predicate StartOnly(walls: set<Pos>, start: Pos, best: int, dist: Distances) {
    best == 0 ==> dist.Keys == {Origin(start).1} + Moves(walls, Origin(start).1)
  }

  lemma DoneParents(walls: set<Pos>, start: Pos, best: int, queue: seq<Entry>, dist: Distances,
                    done: set<Entry>, low: int, n: State, q: State)
    requires Dijkstra(walls, start, best, queue, dist, done) && best < low
    requires forall k :: 0 <= k < |queue| ==> queue[k].0 >= low
    requires n in dist && dist[n].0 <= best
    ensures q in dist[n].1 <==> Tight(walls, dist, q, n)
  {
    if q in dist[n].1 {
      ParentTight(walls, start, queue, dist, done, low, n, q);
    }
    if Tight(walls, dist, q, n) {
      TightParent(walls, start, best, queue, dist, done, low, n, q);
    }
  }

  /** A recorded parent of a record below low was expanded at its own record, which
      with the move makes the record. */
  lemma ParentTight(walls: set<Pos>, start: Pos, queue: seq<Entry>, dist: Distances,
                    done: set<Entry>, low: int, n: State, q: State)
    requires Witnessed(queue, dist, done) && Expanded(walls, dist, done) && StartKept(start, dist)
    requires ParentsSound(walls, dist, done) && DoneReal(walls, start, done, dist)
    requires forall k :: 0 <= k < |queue| ==> queue[k].0 >= low
    requires n in dist && dist[n].0 < low && q in dist[n].1
    ensures Tight(walls, dist, q, n)
  {
    var s := dist[n].0 - Cost(q, n);
    assert n in Moves(walls, q) && (s, q) in done;
    CutEntry(walls, start, queue, dist, done, low, s, q);
    assert (dist[q].0, q) in done;
  }

  /** A recorded move into a record below low came from an expanded entry, so it is
      a recorded parent. */
  lemma TightParent(walls: set<Pos>, start: Pos, best: int, queue: seq<Entry>, dist: Distances,
                    done: set<Entry>, low: int, n: State, q: State)
    requires Witnessed(queue, dist, done) && Expanded(walls, dist, done) && StartKept(start, dist)
    requires RecordsReal(walls, start, dist) && ParentsComplete(walls, dist, done)
    requires forall k :: 0 <= k < |queue| ==> queue[k].0 >= low
    requires Tight(walls, dist, q, n) && dist[n].0 < low
    ensures q in dist[n].1
  {
    CutEntry(walls, start, queue, dist, done, low, dist[q].0, q);
    assert (dist[q].0, q) in done;
  }

  lemma DoneStart(walls: set<Pos>, start: Pos, queue: seq<Entry>, dist: Distances, done: set<Entry>,
                  low: int)
    requires RecordsReal(walls, start, dist) && Witnessed(queue, dist, done) && Expanded(walls, dist, done)
    requires StartKept(start, dist) && Known(walls, start, 0, dist, done) && 0 < low
    requires forall k :: 0 <= k < |queue| ==> queue[k].0 >= low
    ensures dist.Keys == {Origin(start).1} + Moves(walls, Origin(start).1)
  {
    var o := Origin(start);
    ReachesOrigin(walls, start);
    CutEntry(walls, start, queue, dist, done, low, 0, o.1);
    ReachesScore(walls, start, (dist[o.1].0, o.1));
    assert o in done;
    forall n | n in Moves(walls, o.1)
      ensures n in dist
    {
      ExpandedAt(walls, dist, done, o, n);
    }
  }

  lemma ExpandedAt(walls: set<Pos>, dist: Distances, done: set<Entry>, x: Entry, n: State)
    requires Expanded(walls, dist, done) && x in done && n in Moves(walls, x.1)
    ensures n in dist && dist[n].0 <= x.0 + Cost(x.1, n)
  {
  }

  /** When every queued score is above best, the records are settled. */
  lemma DijkstraDone(walls: set<Pos>, start: Pos, best: int, queue: seq<Entry>, dist: Distances,
                     done: set<Entry>, low: int)
    requires Dijkstra(walls, start, best, queue, dist, done) && best < low
    requires forall k :: 0 <= k < |queue| ==> queue[k].0 >= low
    ensures Settled(walls, start, best, dist)
  {
    forall c, m | Reaches(walls, start, (c, m)) && c <= best
      ensures m in dist && dist[m].0 <= c
    {
      CutEntry(walls, start, queue, dist, done, low, c, m);
    }
    forall n, q | n in dist && dist[n].0 <= best
      ensures q in dist[n].1 <==> Tight(walls, dist, q, n)
    {
      DoneParents(walls, start, best, queue, dist, done, low, n, q);
    }
    forall n, q | n in dist && q in dist[n].1
      ensures q in dist
    {
      assert (dist[n].0 - Cost(q, n), q) in done;
    }
    if best == 0 {
      DoneStart(walls, start, queue, dist, done, low);
    }
  }

  /** A least queued entry above best stops the search with the records settled. */
  lemma DijkstraStops(walls: set<Pos>, start: Pos, best: int, queue: seq<Entry>, dist: Distances,
                      done: set<Entry>, i: int)
    requires Dijkstra(walls, start, best, queue, dist, done) && IsMin(queue, i) && queue[i].0 > best
    ensures Settled(walls, start, best, dist)
  {
    DijkstraDone(walls, start, best, queue, dist, done, queue[i].0);
  }

  /** One round of part2's search (day16.py:97, 101-108): entry i is popped and its
      successors relaxed; the invariant holds for the new state with entry i
      expanded, and the queue weighs less. */
  method Expand(walls: set<Pos>, start: Pos, best: int, queue: seq<Entry>, dist: Distances,
                ghost done: set<Entry>, i: nat) returns (queue': seq<Entry>, dist': Distances)
    requires Dijkstra(walls, start, best, queue, dist, done) && i < |queue| && queue[i].0 <= best
    ensures Dijkstra(walls, start, best, queue', dist', done + {queue[i]})
    ensures Weight(best + 1, queue') < Weight(best + 1, queue)
  {
    var rest := Without(queue, i);
    queue', dist' := RelaxAll(walls, queue[i], rest, dist);
    DijkstraStep(walls, start, best, queue, dist, done, i, queue', dist');
    WeightWithout(best + 1, queue, i);
    RelaxedPushes(walls, queue[i], rest, dist, queue', dist');
    WeightStep(best + 1, queue[i].0, rest, queue'[|rest|..]);
  }

  /** part2's search (day16.py:93-108): Dijkstra's algorithm from the start facing
      east, popping any least entry, stopping at the first pop above best. */
  method BestParents(walls: set<Pos>, start: Pos, best: int) returns (dist: Distances)
    ensures Settled(walls, start, best, dist)
  {
    var queue := [Origin(start)];
    dist := map[Origin(start).1 := (0, {})];
    ghost var done: set<Entry> := {};
    DijkstraStart(walls, start, best);
    while queue != []
      invariant Dijkstra(walls, start, best, queue, dist, done)
      decreases Weight(best + 1, queue)
    {
      assert IsMin(queue, MinIndex(queue));
      var i :| 0 <= i < |queue| && IsMin(queue, i);
      var e := queue[i];
      if e.0 > best {
        DijkstraStops(walls, start, best, queue, dist, done, i);
        return;
      }
      queue, dist := Expand(walls, start, best, queue, dist, done, i);
      done := done + {e};
    }
    DijkstraDone(walls, start, best, queue, dist, done, best + 1);
  }

  // ---------------------------------------------------------------------------
  // part2, the reverse search
  // ---------------------------------------------------------------------------

  /** distances.get(n, (0, None))[0] (day16.py:111): the recorded score, 0 when
      there is none. */
  function Recorded(dist: Distances, n: State): int {
    if n in dist then dist[n].0 else 0
  }

  /** The reverse search's first queue (day16.py:111): the end tile facing north,
      then facing east, each kept when its recorded score is best. */
  function Seeds(dist: Distances, end: Pos, best: int): (r: seq<State>)
    ensures forall n :: n in r <==> (n == (end, Up) || n == (end, Right)) && Recorded(dist, n) == best
  {
    (if Recorded(dist, (end, Up)) == best then [(end, Up)] else []) +
    (if Recorded(dist, (end, Right)) == best then [(end, Right)] else [])
  }

  /** Each state of c after the first is a recorded parent of the one before. */
  ghost predicate ParentChain(dist: Distances, c: seq<State>) {
    forall k :: 0 <= k < |c| - 1 ==> Hop(dist, c, k)
  }

  /** c[k + 1] is a recorded parent of c[k]. */
  ghost predicate Hop(dist: Distances, c: seq<State>, k: int)
    requires 0 <= k < |c| - 1
  {
    c[k] in dist && c[k + 1] in dist[c[k]].1
  }

  /** v is found by following recorded parents back from a seed. */
  ghost predicate Traced(dist: Distances, seeds: seq<State>, v: State) {
    exists c :: |c| >= 1 && c[0] in seeds && ParentChain(dist, c) && c[|c| - 1] == v
  }

  lemma TracedSeed(dist: Distances, seeds: seq<State>, v: State)
    requires v in seeds
    ensures Traced(dist, seeds, v)
  {
    assert [v][0] == v && ParentChain(dist, [v]);
  }

  lemma TracedParent(dist: Distances, seeds: seq<State>, v: State, q: State)
    requires Traced(dist, seeds, v) && v in dist && q in dist[v].1
    ensures Traced(dist, seeds, q)
  {
    var c :| |c| >= 1 && c[0] in seeds && ParentChain(dist, c) && c[|c| - 1] == v;
    var c' := c + [q];
    forall k | 0 <= k < |c'| - 1
      ensures Hop(dist, c', k)
    {
      assert c'[k] == c[k];
      if k < |c| - 1 {
        assert Hop(dist, c, k) && c'[k + 1] == c[k + 1];
      }
    }
    assert c'[0] in seeds && c'[|c'| - 1] == q;
  }

  /** A set holding the seeds, closed under recorded parents, holds every state
      traced. */
  lemma {:induction false} TracedWithin(dist: Distances, seeds: seq<State>, vs: set<State>, c: seq<State>)
    requires forall s :: s in seeds ==> s in vs
    requires forall v :: v in vs ==> v in dist && dist[v].1 <= vs
    requires |c| >= 1 && c[0] in seeds && ParentChain(dist, c)
    ensures c[|c| - 1] in vs
    decreases |c|
  {
    if |c| > 1 {
      var c' := c[..|c| - 1];
      forall k | 0 <= k < |c'| - 1
        ensures Hop(dist, c', k)
      {
        assert Hop(dist, c, k) && c'[k] == c[k] && c'[k + 1] == c[k + 1];
      }
      TracedWithin(dist, seeds, vs, c');
      assert Hop(dist, c, |c| - 2);
    }
  }

  /** Every state recorded, as a key or as a parent. */
  function Mentioned(dist: Distances): set<State> {
    dist.Keys + set n, q | n in dist && q in dist[n].1 :: q
  }

  /** The list comprehension of day16.py:116: the members of ps not in visited, in
      any order. */
  method NewParents(ps: set<State>, visited: set<State>) returns (l: seq<State>)
    ensures forall v :: v in l <==> v in ps && v !in visited
  {
    l := [];
    var todo := ps;
    while todo != {}
      invariant todo <= ps
      invariant forall v :: v in l <==> v in ps - todo && v !in visited
      decreases todo
    {
      var p :| p in todo;
      if p !in visited {
        l := l + [p];
      }
      todo := todo - {p};
    }
  }

  /** The reverse search (day16.py:111-118): pops states first in first out and
      queues each recorded parent not seen yet. It fails, as the source does with a
      KeyError, exactly when some traced state has no record; otherwise it returns
      the traced states. */
  method ReverseSearch(dist: Distances, seeds: seq<State>) returns (r: Option<set<State>>)
    ensures r.None? <==> exists v :: Traced(dist, seeds, v) && v !in dist
    ensures r.Some? ==> forall v :: v in r.value <==> Traced(dist, seeds, v)
  {
    var queue := seeds;
    var visited := Elems(seeds);
    ghost var done: set<State> := {};
    ghost var all := visited + Mentioned(dist);
    UnwindStart(dist, seeds, all);
    while queue != []
      invariant Unwinding(dist, seeds, all, queue, visited, done)
      decreases |all - visited|, |queue|
    {
      var node := queue[0];
      if node !in dist {
        UnwindMissing(dist, seeds, all, queue, visited, done);
        return None;
      }
      var parents := NewParents(dist[node].1, visited);
      UnwindStep(dist, seeds, all, queue, visited, done, parents);
      UnwindProgress(dist, all, queue, visited, parents);
      queue := queue[1..] + parents;
      visited := visited + Elems(parents);
      done := done + {node};
    }
    UnwoundAll(dist, seeds, all, visited, done);
    r := Some(visited);
  }

  /** The loop invariant of ReverseSearch: visited is what was expanded plus what is
      queued, it holds only traced states, and the expanded states have all their
      parents visited. */
  ghost predicate Unwinding(dist: Distances, seeds: seq<State>, all: set<State>, queue: seq<State>,
                            visited: set<State>, done: set<State>)
  {
    && visited == done + Elems(queue)
    && Elems(seeds) <= visited <= all
    && (forall v :: v in visited ==> Traced(dist, seeds, v))
    && (forall v :: v in done ==> v in dist && dist[v].1 <= visited)
  }

  lemma UnwindStart(dist: Distances, seeds: seq<State>, all: set<State>)
    requires all == Elems(seeds) + Mentioned(dist)
    ensures Unwinding(dist, seeds, all, seeds, Elems(seeds), {})
  {
    forall v | v in Elems(seeds)
      ensures Traced(dist, seeds, v)
    {
      TracedSeed(dist, seeds, v);
    }
  }

  /** A queued state with no record is a traced state with no record. */
  lemma UnwindMissing(dist: Distances, seeds: seq<State>, all: set<State>, queue: seq<State>,
                      visited: set<State>, done: set<State>)
    requires Unwinding(dist, seeds, all, queue, visited, done) && queue != [] && queue[0] !in dist
    ensures exists v :: Traced(dist, seeds, v) && v !in dist
  {
    ElemsSplit(queue, []);
    assert queue[0] in visited;
  }

  /** Expanding the head of the queue keeps Unwinding and makes progress: either the
      visited set grows within all, or it is unchanged and the queue got shorter. */
  lemma UnwindStep(dist: Distances, seeds: seq<State>, all: set<State>, queue: seq<State>,
                   visited: set<State>, done: set<State>, parents: seq<State>)
    requires Mentioned(dist) <= all
    requires Unwinding(dist, seeds, all, queue, visited, done)
    requires queue != [] && queue[0] in dist
    requires forall v :: v in parents <==> v in dist[queue[0]].1 && v !in visited
    ensures Unwinding(dist, seeds, all, queue[1..] + parents, visited + Elems(parents), done + {queue[0]})
  {
    var node := queue[0];
    ElemsSplit(queue, parents);
    assert node in Elems(queue);
    UnwindDone(dist, node, visited, done, parents);
    Revisit(dist, seeds, node, all, visited, parents);
  }

  /** Expanding the head of the queue makes progress: either the visited set grows
      within all, or it is unchanged and the queue gets shorter. */
  lemma UnwindProgress(dist: Distances, all: set<State>, queue: seq<State>, visited: set<State>,
                       parents: seq<State>)
    requires queue != [] && visited <= all && Elems(parents) <= all
    requires forall v :: v in parents ==> v !in visited
    ensures parents != [] ==> |all - (visited + Elems(parents))| < |all - visited|
    ensures parents == [] ==> visited + Elems(parents) == visited && |queue[1..] + parents| < |queue|
  {
    if parents == [] {
      assert Elems(parents) == {};
    } else {
      assert parents[0] in Elems(parents);
    }
    Fewer(all, visited, visited + Elems(parents));
  }

  /** The expanded node has all its parents visited once its new parents are added. */
  lemma UnwindDone(dist: Distances, node: State, visited: set<State>, done: set<State>, parents: seq<State>)
    requires node in dist
    requires forall v :: v in done ==> v in dist && dist[v].1 <= visited
    requires forall v :: v in parents <==> v in dist[node].1 && v !in visited
    ensures forall v :: v in done + {node} ==> v in dist && dist[v].1 <= visited + Elems(parents)
  {
    forall v | v in dist[node].1
      ensures v in visited + Elems(parents)
    {
      if v !in visited {
        assert v in parents;
      }
    }
  }

  /** When the queue is empty every traced state has been visited. */
  lemma UnwoundAll(dist: Distances, seeds: seq<State>, all: set<State>, visited: set<State>, done: set<State>)
    requires Unwinding(dist, seeds, all, [], visited, done)
    ensures forall v :: v in visited <==> Traced(dist, seeds, v)
  {
    assert visited == done;
    forall v | Traced(dist, seeds, v)
      ensures v in visited
    {
      var c :| |c| >= 1 && c[0] in seeds && ParentChain(dist, c) && c[|c| - 1] == v;
      TracedWithin(dist, seeds, visited, c);
    }
  }

  /** Adding the new parents of a traced node keeps every visited state traced and
      within all, and grows the visited set when there are any. */
  lemma Revisit(dist: Distances, seeds: seq<State>, node: State, all: set<State>, visited: set<State>,
                parents: seq<State>)
    requires node in dist && Traced(dist, seeds, node) && Mentioned(dist) <= all
    requires forall v :: v in parents <==> v in dist[node].1 && v !in visited
    ensures forall v :: v in Elems(parents) ==> Traced(dist, seeds, v) && v in all
    ensures parents != [] ==> visited + Elems(parents) != visited
  {
    forall v | v in Elems(parents)
      ensures Traced(dist, seeds, v) && v in all
    {
      TracedParent(dist, seeds, node, v);
    }
    if parents != [] {
      assert parents[0] in Elems(parents) && parents[0] !in visited;
    }
  }

  // ---------------------------------------------------------------------------
  // What part2 counts: the tiles on cheapest walks to the end
  // ---------------------------------------------------------------------------

  /** e is a cheapest entry: some walk reaches it and none reaches its state for less. */
  ghost predicate Least(walls: set<Pos>, start: Pos, e: Entry) {
    Reaches(walls, start, e) && forall c :: Reaches(walls, start, (c, e.1)) ==> e.0 <= c
  }

  /** Where part2's reverse search starts from: the end tile facing north or east at
      score best, reached no cheaper. */
  ghost predicate Goal(walls: set<Pos>, start: Pos, end: Pos, best: int, e: Entry) {
    (e.1 == (end, Up) || e.1 == (end, Right)) && e.0 == best && Least(walls, start, e)
  }

  /** v is a state along some walk from the start to a goal. */
  ghost predicate OnBest(walls: set<Pos>, start: Pos, end: Pos, best: int, v: State) {
    exists es: seq<Entry>, k: int :: Walk(walls, start, es) && Goal(walls, start, end, best, es[|es| - 1]) &&
                    0 <= k < |es| && es[k].1 == v
  }

  /** The end tile in heading d is neither the start state nor one move from it. */
  predicate Absent(walls: set<Pos>, start: Pos, end: Pos, d: Dir) {
    (end, d) != Origin(start).1 && (end, d) !in Moves(walls, Origin(start).1)
  }

  /** When part2 raises a KeyError (day16.py:111, 116): best is 0, so a seed with no
      record is queued, and the end tile facing north or east has no record. */
  predicate Missing(walls: set<Pos>, start: Pos, end: Pos, best: int) {
    best == 0 && (Absent(walls, start, end, Up) || Absent(walls, start, end, Right))
  }

  /** The tiles of a set of states (day16.py:120). */
  function Tiles(vs: set<State>): set<Pos> {
    set v | v in vs :: v.0
  }

  /** part2's answer from the reverse search's result: None for the KeyError,
      otherwise the number of tiles visited. */
  function Count(r: Option<set<State>>): Option<int> {
    if r.None? then None else Some(|Tiles(r.value)|)
  }

  /** What part2 answers given part1's score best: None exactly when it raises a
      KeyError, and otherwise the number of tiles on walks to a goal. */
  ghost predicate Answer(walls: set<Pos>, start: Pos, end: Pos, best: int, r: Option<int>) {
    (r.None? <==> Missing(walls, start, end, best)) &&
    (r.Some? ==> exists vs: set<State> ::
       (forall v :: v in vs <==> OnBest(walls, start, end, best, v)) && r.value == |Tiles(vs)|)
  }

  /** What part1 promises of its score (the ensures of Part1). */
  ghost predicate Part1Result(walls: set<Pos>, start: Pos, end: Pos, score: int) {
    (start == end ==> score == 0) &&
    (EndReachable(walls, start, end) ==> exists d :: Reaches(walls, start, (score, (end, d)))) &&
    (exists n :: Reaches(walls, start, (score, n)))
  }

  /** The entries of es, each score moved by d. */
  ghost function Shift(es: seq<Entry>, d: int): seq<Entry> {
    seq(|es|, k requires 0 <= k < |es| => (es[k].0 + d, es[k].1))
  }

  /** A walk moved to another starting score is still a walk. */
  lemma ChainShift(walls: set<Pos>, es: seq<Entry>, d: int)
    requires Chain(walls, es)
    ensures Chain(walls, Shift(es, d))
  {
    var fs := Shift(es, d);
    forall k | 0 <= k < |fs| - 1
      ensures Link(walls, fs, k)
    {
      assert Link(walls, es, k);
      SuccessorsAreMoves(walls, es[k].0, es[k].1);
      SuccessorsAreMoves(walls, fs[k].0, fs[k].1);
      assert fs[k] == (es[k].0 + d, es[k].1) && fs[k + 1] == (es[k + 1].0 + d, es[k + 1].1);
    }
  }

  /** The end of a walk is a walk. */
  lemma ChainSuffix(walls: set<Pos>, es: seq<Entry>, j: nat)
    requires Chain(walls, es) && j <= |es|
    ensures Chain(walls, es[j..])
  {
    forall k | 0 <= k < |es| - j - 1
      ensures Link(walls, es[j..], k)
    {
      assert Link(walls, es, j + k);
      assert es[j..][k] == es[j + k] && es[j..][k + 1] == es[j + k + 1];
    }
  }

  /** Two walks, the second starting where the first ends, make one walk. */
  lemma ChainJoin(walls: set<Pos>, es: seq<Entry>, fs: seq<Entry>)
    requires |es| >= 1 && |fs| >= 1 && Chain(walls, es) && Chain(walls, fs) && es[|es| - 1] == fs[0]
    ensures Chain(walls, es + fs[1..])
    ensures (es + fs[1..])[|es| + |fs| - 2] == fs[|fs| - 1]
  {
    var ws := es + fs[1..];
    forall k | 0 <= k < |ws| - 1
      ensures Link(walls, ws, k)
    {
      if k < |es| - 1 {
        assert Link(walls, es, k);
        assert ws[k] == es[k] && ws[k + 1] == es[k + 1];
      } else {
        var j := k - |es| + 1;
        assert Link(walls, fs, j);
        assert ws[k] == fs[j] && ws[k + 1] == fs[j + 1];
      }
    }
  }

  /** A walk us to the state of entry j of ws, followed by the rest of ws, reaches
      the last state of ws at a cost changed by what us saves on ws's first j steps. */
  lemma Detour(walls: set<Pos>, start: Pos, ws: seq<Entry>, j: nat, us: seq<Entry>)
    requires Walk(walls, start, ws) && j < |ws| && Walk(walls, start, us) && us[|us| - 1].1 == ws[j].1
    ensures Reaches(walls, start, (ws[|ws| - 1].0 + us[|us| - 1].0 - ws[j].0, ws[|ws| - 1].1))
  {
    var d := us[|us| - 1].0 - ws[j].0;
    var suf := Shift(ws[j..], d);
    ChainSuffix(walls, ws, j);
    ChainShift(walls, ws[j..], d);
    assert suf[0] == us[|us| - 1];
    ChainJoin(walls, us, suf);
    var vs := us + suf[1..];
    assert vs[0] == us[0] && Walk(walls, start, vs);
    assert suf[|suf| - 1] == (ws[|ws| - 1].0 + d, ws[|ws| - 1].1);
  }

  /** Every entry along a walk to a cheapest entry is itself cheapest: a cheaper
      way to one of them would make the rest of the walk cheaper too. */
  lemma PrefixLeast(walls: set<Pos>, start: Pos, ws: seq<Entry>, j: nat)
    requires Walk(walls, start, ws) && Least(walls, start, ws[|ws| - 1]) && j < |ws|
    ensures Least(walls, start, ws[j])
  {
    ChainPrefix(walls, ws, j + 1);
    assert Walk(walls, start, ws[..j + 1]) && ws[..j + 1][j] == ws[j];
    forall c | Reaches(walls, start, (c, ws[j].1))
      ensures ws[j].0 <= c
    {
      var us :| Walk(walls, start, us) && us[|us| - 1] == (c, ws[j].1);
      Detour(walls, start, ws, j, us);
    }
  }

  /** A record at most best is the cheapest cost of its state. */
  lemma RecordLeast(walls: set<Pos>, start: Pos, best: int, dist: Distances, n: State)
    requires RecordsReal(walls, start, dist) && Covers(walls, start, best, dist) && n in dist && dist[n].0 <= best
    ensures Least(walls, start, (dist[n].0, n))
  {
    forall c | Reaches(walls, start, (c, n))
      ensures dist[n].0 <= c
    {
      if c <= best {
        assert n in dist && dist[n].0 <= c;
      }
    }
  }

  /** A cheapest entry at most best is its state's record. */
  lemma LeastRecorded(walls: set<Pos>, start: Pos, best: int, dist: Distances, e: Entry)
    requires RecordsReal(walls, start, dist) && Covers(walls, start, best, dist) && Least(walls, start, e) && e.0 <= best
    ensures e.1 in dist && dist[e.1].0 == e.0
  {
    assert e.1 in dist && dist[e.1].0 <= e.0;
    assert Reaches(walls, start, (dist[e.1].0, e.1));
  }

  /** A recorded move is a successor at the recorded scores. */
  lemma TightStep(walls: set<Pos>, dist: Distances, q: State, n: State)
    requires Tight(walls, dist, q, n)
    ensures (dist[n].0, n) in Successors(walls, dist[q].0, q)
  {
    SuccessorsAreMoves(walls, dist[q].0, q);
  }

  /** A step along a cheapest walk at most best is a recorded parent. */
  lemma LinkRecorded(walls: set<Pos>, start: Pos, best: int, dist: Distances, x: Entry, y: Entry)
    requires ExactParents(walls, best, dist)
    requires x.1 in dist && dist[x.1].0 == x.0 && y.1 in dist && dist[y.1].0 == y.0 && y.0 <= best
    requires y in Successors(walls, x.0, x.1)
    ensures x.1 in dist[y.1].1
  {
    SuccessorsAreMoves(walls, x.0, x.1);
    assert Tight(walls, dist, x.1, y.1);
  }

  /** A recorded parent chain from a state recorded at most best, read backwards, is
      a walk along the records. */
  lemma {:induction false} BackWalk(walls: set<Pos>, start: Pos, best: int, dist: Distances, c: seq<State>)
    returns (fs: seq<Entry>)
    requires ExactParents(walls, best, dist)
    requires |c| >= 1 && ParentChain(dist, c) && c[0] in dist && dist[c[0]].0 <= best
    ensures c[|c| - 1] in dist && dist[c[|c| - 1]].0 <= best
    ensures |fs| >= 1 && Chain(walls, fs)
    ensures fs[0] == (dist[c[|c| - 1]].0, c[|c| - 1]) && fs[|fs| - 1] == (dist[c[0]].0, c[0])
    decreases |c|
  {
    if |c| == 1 {
      fs := [(dist[c[0]].0, c[0])];
    } else {
      var c' := c[..|c| - 1];
      forall k | 0 <= k < |c'| - 1
        ensures Hop(dist, c', k)
      {
        assert Hop(dist, c, k) && c'[k] == c[k] && c'[k + 1] == c[k + 1];
      }
      var fs' := BackWalk(walls, start, best, dist, c');
      var n, q := c[|c| - 2], c[|c| - 1];
      assert Hop(dist, c, |c| - 2) && n == c'[|c'| - 1];
      assert Tight(walls, dist, q, n);
      TightStep(walls, dist, q, n);
      fs := [(dist[q].0, q)] + fs';
      forall k | 0 <= k < |fs| - 1
        ensures Link(walls, fs, k)
      {
        if k > 0 {
          assert Link(walls, fs', k - 1);
          assert fs[k] == fs'[k - 1] && fs[k + 1] == fs'[k];
        }
      }
    }
  }

  /** Every state the reverse search traces lies on a walk to a goal. */
  lemma TracedOnBest(walls: set<Pos>, start: Pos, end: Pos, best: int, dist: Distances, v: State)
    requires Settled(walls, start, best, dist)
    requires Traced(dist, Seeds(dist, end, best), v)
    requires forall s :: s in Seeds(dist, end, best) ==> s in dist
    ensures OnBest(walls, start, end, best, v)
  {
    var seeds := Seeds(dist, end, best);
    var c :| |c| >= 1 && c[0] in seeds && ParentChain(dist, c) && c[|c| - 1] == v;
    var s := c[0];
    assert s in dist && dist[s].0 == best;
    var fs := BackWalk(walls, start, best, dist, c);
    assert Reaches(walls, start, (dist[v].0, v));
    var es :| Walk(walls, start, es) && es[|es| - 1] == (dist[v].0, v);
    ChainJoin(walls, es, fs);
    var ws := es + fs[1..];
    RecordLeast(walls, start, best, dist, s);
    assert ws[0] == es[0] && ws[|ws| - 1] == (best, s);
    assert Walk(walls, start, ws) && Goal(walls, start, end, best, ws[|ws| - 1]);
    assert ws[|es| - 1].1 == v;
  }

  /** Along a walk to a goal every entry is its state's record. */
  lemma GoalRecords(walls: set<Pos>, start: Pos, end: Pos, best: int, dist: Distances, ws: seq<Entry>)
    requires RecordsReal(walls, start, dist) && Covers(walls, start, best, dist)
    requires Walk(walls, start, ws) && Goal(walls, start, end, best, ws[|ws| - 1])
    ensures forall j :: 0 <= j < |ws| ==> ws[j].1 in dist && dist[ws[j].1].0 == ws[j].0 && ws[j].0 <= best
  {
    forall j | 0 <= j < |ws|
      ensures ws[j].1 in dist && dist[ws[j].1].0 == ws[j].0 && ws[j].0 <= best
    {
      PrefixLeast(walls, start, ws, j);
      ChainUpTo(walls, ws, j);
      LeastRecorded(walls, start, best, dist, ws[j]);
    }
  }

  /** Read backwards from its last entry down to entry k, a walk along the records
      at most best is a recorded parent chain. */
  lemma BackChain(walls: set<Pos>, start: Pos, best: int, dist: Distances, ws: seq<Entry>, k: nat)
    returns (c: seq<State>)
    requires ExactParents(walls, best, dist) && Chain(walls, ws) && k < |ws|
    requires forall j :: 0 <= j < |ws| ==> ws[j].1 in dist && dist[ws[j].1].0 == ws[j].0 && ws[j].0 <= best
    ensures |c| >= 1 && ParentChain(dist, c) && c[0] == ws[|ws| - 1].1 && c[|c| - 1] == ws[k].1
  {
    var m := |ws| - 1;
    c := seq(m - k + 1, i requires 0 <= i <= m - k => ws[m - i].1);
    forall i | 0 <= i < |c| - 1
      ensures Hop(dist, c, i)
    {
      var j := m - i - 1;
      assert Link(walls, ws, j);
      LinkRecorded(walls, start, best, dist, ws[j], ws[j + 1]);
      assert c[i] == ws[j + 1].1 && c[i + 1] == ws[j].1;
    }
  }

  /** Every state on a walk to a goal is traced by the reverse search. */
  lemma OnBestTraced(walls: set<Pos>, start: Pos, end: Pos, best: int, dist: Distances, v: State)
    requires Settled(walls, start, best, dist)
    requires OnBest(walls, start, end, best, v)
    ensures Traced(dist, Seeds(dist, end, best), v)
  {
    var ws: seq<Entry>, k: int :| Walk(walls, start, ws) && Goal(walls, start, end, best, ws[|ws| - 1]) &&
                                   0 <= k < |ws| && ws[k].1 == v;
    GoalRecords(walls, start, end, best, dist, ws);
    var c := BackChain(walls, start, best, dist, ws, k);
    assert c[0] in Seeds(dist, end, best);
  }

  /** The last state of a parent chain longer than one is a recorded parent, so it
      has a record. */
  lemma ChainEnd(dist: Distances, c: seq<State>)
    requires ParentsRecorded(dist) && |c| > 1 && ParentChain(dist, c)
    ensures c[|c| - 1] in dist
  {
    assert Hop(dist, c, |c| - 2);
  }

  /** The reverse search meets a state with no record exactly in the KeyError case:
      only a seed can lack a record, and a seed without one means best is 0. */
  lemma MissingSeed(walls: set<Pos>, start: Pos, end: Pos, best: int, dist: Distances)
    requires ParentsRecorded(dist) && StartOnly(walls, start, best, dist)
    ensures (exists v :: Traced(dist, Seeds(dist, end, best), v) && v !in dist) <==>
            Missing(walls, start, end, best)
  {
    var seeds := Seeds(dist, end, best);
    if v :| Traced(dist, seeds, v) && v !in dist {
      var c :| |c| >= 1 && c[0] in seeds && ParentChain(dist, c) && c[|c| - 1] == v;
      if |c| > 1 {
        ChainEnd(dist, c);
      }
    }
    if Missing(walls, start, end, best) {
      var d := if Absent(walls, start, end, Up) then Up else Right;
      assert (end, d) !in dist;
      TracedSeed(dist, seeds, (end, d));
    }
  }

  /** part2's answer follows from the settled records and the reverse search. */
  lemma Answered(walls: set<Pos>, start: Pos, end: Pos, best: int, dist: Distances, r: Option<set<State>>)
    requires Settled(walls, start, best, dist)
    requires r.None? <==> exists v :: Traced(dist, Seeds(dist, end, best), v) && v !in dist
    requires r.Some? ==> forall v :: v in r.value <==> Traced(dist, Seeds(dist, end, best), v)
    ensures Answer(walls, start, end, best, Count(r))
  {
    MissingSeed(walls, start, end, best, dist);
    if r.Some? {
      var seeds := Seeds(dist, end, best);
      forall s | s in seeds
        ensures s in dist
      {
        TracedSeed(dist, seeds, s);
      }
      forall v
        ensures v in r.value <==> OnBest(walls, start, end, best, v)
      {
        if v in r.value {
          TracedOnBest(walls, start, end, best, dist, v);
        }
        if OnBest(walls, start, end, best, v) {
          OnBestTraced(walls, start, end, best, dist, v);
        }
      }
    }
  }

  /** part2 (day16.py:81-120): part1's score, then the search keeping every equally
      cheap parent, then the reverse search from the end; it counts the tiles on
      walks to the end tile facing north or east at part1's score that no walk
      reaches more cheaply, and fails exactly when the source raises a KeyError. */
  method Part2(walls: set<Pos>, start: Pos, end: Pos, ghost area: set<Pos>) returns (r: Option<int>)
    requires start in area && Enclosed(walls, area)
    ensures exists best :: Part1Result(walls, start, end, best) && Answer(walls, start, end, best, r)
  {
    var best := Part1(walls, start, end, area);
    var dist := BestParents(walls, start, best);
    var visited := ReverseSearch(dist, Seeds(dist, end, best));
    Answered(walls, start, end, best, dist, visited);
    r := Count(visited);
    assert Part1Result(walls, start, end, best);
  }
}
