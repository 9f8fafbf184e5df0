/**
 * Day 15: Warehouse Woes -- a robot pushing boxes around a warehouse.  The
 * boxes are kept twice, as a map from box id to the box's cells and as its
 * inverse box_lookup from cell to id; a move collects every box it pushes with
 * a worklist, then moves them one by one, and both maps must stay each
 * other's inverse.
 */
module Day15 {
  import opened Wrappers
  import opened PyText

  type Cell = (int, int)

  // ---------------------------------------------------------------------------
  // get_next_position
  // ---------------------------------------------------------------------------

  predicate Vertical(dir: char) {
    dir == '^' || dir == 'v'
  }

  predicate Horizontal(dir: char) {
    dir == '<' || dir == '>'
  }

  /** get_next_position: one step for ^ v < >, and no step for any other character. */
  function Next(p: Cell, dir: char): (q: Cell)
    ensures Vertical(dir) ==> q.1 == p.1 && q.0 == (if dir == '^' then p.0 - 1 else p.0 + 1)
    ensures Horizontal(dir) ==> q.0 == p.0 && q.1 == (if dir == '<' then p.1 - 1 else p.1 + 1)
    ensures !Vertical(dir) && !Horizontal(dir) ==> q == p
  {
    var i := if dir == '^' then p.0 - 1 else if dir == 'v' then p.0 + 1 else p.0;
    var j := if dir == '<' then p.1 - 1 else if dir == '>' then p.1 + 1 else p.1;
    (i, j)
  }

  /** The direction that undoes dir. */
  function Opposite(dir: char): char {
    match dir
    case '^' => 'v'
    case 'v' => '^'
    case '<' => '>'
    case '>' => '<'
    case _ => dir
  }

  /** A step one way and a step back return to the start. */
  lemma NextBack(p: Cell, dir: char)
    ensures Next(Next(p, dir), Opposite(dir)) == p
  {
  }

  /** Different cells have different next cells. */
  lemma NextInjective(a: Cell, b: Cell, dir: char)
    requires Next(a, dir) == Next(b, dir)
    ensures a == b
  {
    NextBack(a, dir);
    NextBack(b, dir);
  }

  /** How far along dir a cell lies; a step along dir adds one. */
  function Depth(p: Cell, dir: char): int {
    if dir == '^' then -p.0 else if dir == 'v' then p.0
    else if dir == '<' then -p.1 else if dir == '>' then p.1 else 0
  }

  lemma DepthNext(p: Cell, dir: char)
    requires Vertical(dir) || Horizontal(dir)
    ensures Depth(Next(p, dir), dir) == Depth(p, dir) + 1
  {
  }

  /** For a vertical move the depth is fixed by the row, for a horizontal one by the column. */
  lemma DepthRow(p: Cell, q: Cell, dir: char)
    ensures Vertical(dir) && p.0 == q.0 ==> Depth(p, dir) == Depth(q, dir)
    ensures Horizontal(dir) && p.0 == q.0 && Depth(p, dir) == Depth(q, dir) ==> p == q
  {
  }

  // ---------------------------------------------------------------------------
  // The two maps and their invariant
  // ---------------------------------------------------------------------------

  /** A box is one cell, or two cells side by side in a row (the double-width map). */
  predicate ShapedBox(s: seq<Cell>) {
    |s| == 1 || (|s| == 2 && s[1] == (s[0].0, s[0].1 + 1))
  }

  ghost predicate Shaped(boxes: map<nat, seq<Cell>>) {
    forall id :: id in boxes ==> ShapedBox(boxes[id])
  }

  /** box_lookup is the inverse of boxes: it maps exactly the cells of each box, each to its box's id. */
  ghost predicate Consistent(boxes: map<nat, seq<Cell>>, lookup: map<Cell, nat>) {
    (forall id, k :: id in boxes && 0 <= k < |boxes[id]| ==> boxes[id][k] in lookup && lookup[boxes[id][k]] == id) &&
    (forall c :: c in lookup ==> lookup[c] in boxes && c in boxes[lookup[c]])
  }

  /** The inverse of boxes is unique. */
  lemma ConsistentUnique(boxes: map<nat, seq<Cell>>, l1: map<Cell, nat>, l2: map<Cell, nat>)
    requires Consistent(boxes, l1) && Consistent(boxes, l2)
    ensures l1 == l2
  {
    forall c | c in l1
      ensures c in l2 && l2[c] == l1[c]
    {
      var id := l1[c];
      var k :| 0 <= k < |boxes[id]| && boxes[id][k] == c;
    }
    forall c | c in l2
      ensures c in l1
    {
      var id := l2[c];
      var k :| 0 <= k < |boxes[id]| && boxes[id][k] == c;
    }
  }

  /** The nearest depth of a box along dir. */
  function Low(s: seq<Cell>, dir: char): (d: int)
    requires ShapedBox(s)
    ensures d <= Depth(s[0], dir) && (|s| == 2 ==> d <= Depth(s[1], dir))
    ensures d == Depth(s[0], dir) || d == Depth(s[|s| - 1], dir)
  {
    if |s| == 1 || Depth(s[0], dir) <= Depth(s[1], dir) then Depth(s[0], dir) else Depth(s[1], dir)
  }

  /** A cell of box o, other than the box itself, that box id pushes into lies further along dir. */
  lemma Ahead(boxes: map<nat, seq<Cell>>, lookup: map<Cell, nat>, id: nat, k: nat, dir: char)
    requires Consistent(boxes, lookup) && Shaped(boxes)
    requires id in boxes && k < |boxes[id]|
    requires Next(boxes[id][k], dir) in lookup && lookup[Next(boxes[id][k], dir)] != id
    ensures Low(boxes[lookup[Next(boxes[id][k], dir)]], dir) > Low(boxes[id], dir)
  {
    var c := boxes[id][k];
    var n := Next(c, dir);
    var o := lookup[n];
    var t := boxes[o];
    assert ShapedBox(t) && n in t;
    var a :| 0 <= a < |t| && t[a] == n;
    if Vertical(dir) {
      assert Low(t, dir) == Depth(n, dir);
    }
  }

  // ---------------------------------------------------------------------------
  // move_robot, first half: the worklist search for the boxes a move pushes
  // ---------------------------------------------------------------------------

  /** The ids in box_queue: distinct ids of boxes. */
  ghost predicate Ids(boxes: map<nat, seq<Cell>>, pushed: seq<nat>) {
    Distinct(pushed) && forall k :: 0 <= k < |pushed| ==> pushed[k] in boxes
  }

  /**
   * Where a checked cell comes from: (-1, _) is the robot's own step, (j, i)
   * the step of cell i of the j-th queued box, for some j below bound.
   */
  ghost predicate ValidFrom(boxes: map<nat, seq<Cell>>, pushed: seq<nat>, f: (int, nat), bound: int) {
    f.0 < bound <= |pushed| && (0 <= f.0 ==> pushed[f.0] in boxes && f.1 < |boxes[pushed[f.0]]|)
  }

  ghost function Source(boxes: map<nat, seq<Cell>>, pushed: seq<nat>, robot: Cell, dir: char, f: (int, nat)): Cell
    requires ValidFrom(boxes, pushed, f, |pushed|)
  {
    if f.0 < 0 then Next(robot, dir) else Next(boxes[pushed[f.0]][f.1], dir)
  }

  /** Box k of the queue was met at the cell from[k] steps into: the robot's, or an earlier box's. */
  ghost predicate Reached(boxes: map<nat, seq<Cell>>, lookup: map<Cell, nat>, robot: Cell, dir: char,
                          pushed: seq<nat>, from: seq<(int, nat)>) {
    |from| == |pushed| &&
    forall k :: 0 <= k < |pushed| ==>
      ValidFrom(boxes, pushed, from[k], k) &&
      Source(boxes, pushed, robot, dir, from[k]) in lookup && lookup[Source(boxes, pushed, robot, dir, from[k])] == pushed[k]
  }

  /** A checked cell n: no wall, and free or held by a box queued at j or later. */
  ghost predicate Done(walls: set<Cell>, lookup: map<Cell, nat>, pushed: seq<nat>, n: Cell, j: int) {
    0 <= j <= |pushed| && n !in walls && (n in lookup ==> lookup[n] in pushed[j..])
  }

  /**
   * The queue is closed and ordered: every cell the robot or a queued box
   * steps into is wall-free, and is free or held by that box or a box queued
   * after it -- never by one queued before it.
   */
  ghost predicate Settled(walls: set<Cell>, boxes: map<nat, seq<Cell>>, lookup: map<Cell, nat>, robot: Cell, dir: char,
                          pushed: seq<nat>)
    requires Ids(boxes, pushed)
  {
    Done(walls, lookup, pushed, Next(robot, dir), 0) &&
    forall j, i :: 0 <= j < |pushed| && 0 <= i < |boxes[pushed[j]]| ==>
      Done(walls, lookup, pushed, Next(boxes[pushed[j]][i], dir), j)
  }

  /** A cell waiting in the check queue, or already checked. */
  ghost predicate Waiting(walls: set<Cell>, lookup: map<Cell, nat>, pushed: seq<nat>, queue: seq<Cell>, n: Cell, j: int) {
    n in queue || Done(walls, lookup, pushed, n, j)
  }

  ghost predicate Pending(walls: set<Cell>, boxes: map<nat, seq<Cell>>, lookup: map<Cell, nat>, robot: Cell, dir: char,
                          pushed: seq<nat>, queue: seq<Cell>)
    requires Ids(boxes, pushed)
  {
    Waiting(walls, lookup, pushed, queue, Next(robot, dir), 0) &&
    forall j, i :: 0 <= j < |pushed| && 0 <= i < |boxes[pushed[j]]| ==>
      Waiting(walls, lookup, pushed, queue, Next(boxes[pushed[j]][i], dir), j)
  }

  /** Each queued cell records where it comes from. */
  ghost predicate Queued(boxes: map<nat, seq<Cell>>, robot: Cell, dir: char, pushed: seq<nat>,
                         queue: seq<Cell>, qfrom: seq<(int, nat)>) {
    |qfrom| == |queue| &&
    forall a :: 0 <= a < |queue| ==>
      ValidFrom(boxes, pushed, qfrom[a], |pushed|) && Source(boxes, pushed, robot, dir, qfrom[a]) == queue[a]
  }

  /** Boxes enter the queue nearest first. */
  ghost predicate Monotone(boxes: map<nat, seq<Cell>>, pushed: seq<nat>, dir: char)
    requires Ids(boxes, pushed) && Shaped(boxes)
  {
    forall a, b :: 0 <= a < b < |pushed| ==> Low(boxes[pushed[a]], dir) <= Low(boxes[pushed[b]], dir)
  }

  /** A queued cell held by a box not yet queued. */
  ghost predicate Live(lookup: map<Cell, nat>, pushed: seq<nat>, x: Cell) {
    x in lookup && lookup[x] !in pushed
  }

  /** Every box still to be met lies no nearer than the last box queued. */
  ghost predicate Bounded(boxes: map<nat, seq<Cell>>, lookup: map<Cell, nat>, pushed: seq<nat>, queue: seq<Cell>, dir: char)
    requires Ids(boxes, pushed) && Shaped(boxes) && Consistent(boxes, lookup)
  {
    pushed != [] ==>
      forall a :: 0 <= a < |queue| && Live(lookup, pushed, queue[a]) ==>
        Low(boxes[lookup[queue[a]]], dir) >= Low(boxes[pushed[|pushed| - 1]], dir)
  }

  /**
   * The shape of the check queue: for a vertical move its cells are sorted by
   * depth and span at most two rows; otherwise at most one of them is live.
   */
  ghost predicate Layered(lookup: map<Cell, nat>, pushed: seq<nat>, queue: seq<Cell>, dir: char) {
    if Vertical(dir) then
      forall a, b :: 0 <= a <= b < |queue| ==> Depth(queue[a], dir) <= Depth(queue[b], dir) <= Depth(queue[a], dir) + 1
    else
      forall a, b :: 0 <= a < b < |queue| ==> !(Live(lookup, pushed, queue[a]) && Live(lookup, pushed, queue[b]))
  }

  ghost predicate Search(walls: set<Cell>, boxes: map<nat, seq<Cell>>, lookup: map<Cell, nat>, robot: Cell, dir: char,
                         pushed: seq<nat>, from: seq<(int, nat)>, queue: seq<Cell>, qfrom: seq<(int, nat)>) {
    Consistent(boxes, lookup) && Shaped(boxes) && Ids(boxes, pushed) &&
    Reached(boxes, lookup, robot, dir, pushed, from) && Queued(boxes, robot, dir, pushed, queue, qfrom) &&
    Pending(walls, boxes, lookup, robot, dir, pushed, queue) && Monotone(boxes, pushed, dir) &&
    Bounded(boxes, lookup, pushed, queue, dir) && Layered(lookup, pushed, queue, dir)
  }

  /** The robot's own step starts the search. */
  lemma SearchStart(walls: set<Cell>, boxes: map<nat, seq<Cell>>, lookup: map<Cell, nat>, robot: Cell, dir: char)
    requires Consistent(boxes, lookup) && Shaped(boxes)
    ensures Search(walls, boxes, lookup, robot, dir, [], [], [Next(robot, dir)], [(-1, 0)])
  {
  }

  /** A box met again through a cell stepped into by box j was queued at j or later. */
  lemma Order(boxes: map<nat, seq<Cell>>, lookup: map<Cell, nat>, pushed: seq<nat>, dir: char, j: nat, i: nat)
    requires Consistent(boxes, lookup) && Shaped(boxes) && Ids(boxes, pushed) && Monotone(boxes, pushed, dir)
    requires j < |pushed| && i < |boxes[pushed[j]]|
    requires Next(boxes[pushed[j]][i], dir) in lookup && lookup[Next(boxes[pushed[j]][i], dir)] in pushed
    ensures lookup[Next(boxes[pushed[j]][i], dir)] in pushed[j..]
  {
    var o := lookup[Next(boxes[pushed[j]][i], dir)];
    var ix :| 0 <= ix < |pushed| && pushed[ix] == o;
    if ix < j {
      Ahead(boxes, lookup, pushed[j], i, dir);
    } else {
      assert pushed[j..][ix - j] == o;
    }
  }

  // --- a checked cell that is free, or held by a box already queued ---

  lemma SkipPending(walls: set<Cell>, boxes: map<nat, seq<Cell>>, lookup: map<Cell, nat>, robot: Cell, dir: char,
                    pushed: seq<nat>, queue: seq<Cell>)
    requires Consistent(boxes, lookup) && Shaped(boxes) && Ids(boxes, pushed) && Monotone(boxes, pushed, dir)
    requires Pending(walls, boxes, lookup, robot, dir, pushed, queue)
    requires queue != [] && queue[0] !in walls && (queue[0] in lookup ==> lookup[queue[0]] in pushed)
    ensures Pending(walls, boxes, lookup, robot, dir, pushed, queue[1..])
  {
    var x := queue[0];
    assert forall n :: n in queue ==> n == x || n in queue[1..];
    forall j: nat, i: nat | j < |pushed| && i < |boxes[pushed[j]]| && Next(boxes[pushed[j]][i], dir) == x
      ensures Done(walls, lookup, pushed, x, j)
    {
      if x in lookup {
        Order(boxes, lookup, pushed, dir, j, i);
      }
    }
    assert Next(robot, dir) == x ==> Done(walls, lookup, pushed, x, 0) by {
      assert pushed[0..] == pushed;
    }
  }

  lemma SkipLayered(lookup: map<Cell, nat>, pushed: seq<nat>, queue: seq<Cell>, dir: char)
    requires Layered(lookup, pushed, queue, dir) && queue != []
    ensures Layered(lookup, pushed, queue[1..], dir)
  {
    if Vertical(dir) {
      forall a, b | 0 <= a <= b < |queue| - 1
        ensures Depth(queue[1..][a], dir) <= Depth(queue[1..][b], dir) <= Depth(queue[1..][a], dir) + 1
      {
        assert queue[1..][a] == queue[a + 1] && queue[1..][b] == queue[b + 1];
      }
    } else {
      forall a, b | 0 <= a < b < |queue| - 1
        ensures !(Live(lookup, pushed, queue[1..][a]) && Live(lookup, pushed, queue[1..][b]))
      {
        assert queue[1..][a] == queue[a + 1] && queue[1..][b] == queue[b + 1];
      }
    }
  }

  lemma SkipStep(walls: set<Cell>, boxes: map<nat, seq<Cell>>, lookup: map<Cell, nat>, robot: Cell, dir: char,
                 pushed: seq<nat>, from: seq<(int, nat)>, queue: seq<Cell>, qfrom: seq<(int, nat)>)
    requires Search(walls, boxes, lookup, robot, dir, pushed, from, queue, qfrom)
    requires queue != [] && queue[0] !in walls && (queue[0] in lookup ==> lookup[queue[0]] in pushed)
    ensures Search(walls, boxes, lookup, robot, dir, pushed, from, queue[1..], qfrom[1..])
  {
    SkipPending(walls, boxes, lookup, robot, dir, pushed, queue);
    SkipLayered(lookup, pushed, queue, dir);
    assert Queued(boxes, robot, dir, pushed, queue[1..], qfrom[1..]) by {
      forall a | 0 <= a < |queue| - 1
        ensures ValidFrom(boxes, pushed, qfrom[1..][a], |pushed|) && Source(boxes, pushed, robot, dir, qfrom[1..][a]) == queue[1..][a]
      {
        assert qfrom[1..][a] == qfrom[a + 1] && queue[1..][a] == queue[a + 1];
      }
    }
    assert Bounded(boxes, lookup, pushed, queue[1..], dir) by {
      forall a | 0 <= a < |queue| - 1
        ensures queue[1..][a] == queue[a + 1]
      {
      }
    }
  }

  // --- a checked cell held by a box not yet queued: the box joins the queue ---

  /** The cells a box steps into, last cell first, as the source appends them. */
  function Targets(cells: seq<Cell>, dir: char): (r: seq<Cell>)
    ensures |r| == |cells|
    ensures forall a :: 0 <= a < |r| ==> r[a] == Next(cells[|cells| - 1 - a], dir)
  {
    if cells == [] then [] else [Next(cells[|cells| - 1], dir)] + Targets(cells[..|cells| - 1], dir)
  }

  /** Where the cells of Targets come from: cell m-1-a of the j-th queued box. */
  ghost function Froms(j: int, m: nat): (r: seq<(int, nat)>)
    ensures |r| == m && forall a :: 0 <= a < m ==> r[a] == (j, m - 1 - a)
  {
    seq(m, a requires 0 <= a < m => (j, m - 1 - a))
  }

  lemma SourceGrow(boxes: map<nat, seq<Cell>>, pushed: seq<nat>, o: nat, robot: Cell, dir: char, f: (int, nat), bound: int)
    requires ValidFrom(boxes, pushed, f, bound)
    ensures ValidFrom(boxes, pushed + [o], f, bound)
    ensures Source(boxes, pushed + [o], robot, dir, f) == Source(boxes, pushed, robot, dir, f)
  {
  }

  lemma PushReached(boxes: map<nat, seq<Cell>>, lookup: map<Cell, nat>, robot: Cell, dir: char,
                    pushed: seq<nat>, from: seq<(int, nat)>, queue: seq<Cell>, qfrom: seq<(int, nat)>)
    requires Reached(boxes, lookup, robot, dir, pushed, from) && Queued(boxes, robot, dir, pushed, queue, qfrom)
    requires queue != [] && queue[0] in lookup
    ensures Reached(boxes, lookup, robot, dir, pushed + [lookup[queue[0]]], from + [qfrom[0]])
  {
    var o := lookup[queue[0]];
    forall k | 0 <= k < |pushed|
      ensures ValidFrom(boxes, pushed + [o], from[k], k)
      ensures Source(boxes, pushed + [o], robot, dir, from[k]) == Source(boxes, pushed, robot, dir, from[k])
    {
      SourceGrow(boxes, pushed, o, robot, dir, from[k], k);
    }
    SourceGrow(boxes, pushed, o, robot, dir, qfrom[0], |pushed|);
  }

  lemma PushQueued(boxes: map<nat, seq<Cell>>, lookup: map<Cell, nat>, robot: Cell, dir: char,
                   pushed: seq<nat>, queue: seq<Cell>, qfrom: seq<(int, nat)>)
    requires Consistent(boxes, lookup) && Queued(boxes, robot, dir, pushed, queue, qfrom)
    requires queue != [] && queue[0] in lookup
    ensures var o := lookup[queue[0]];
      Queued(boxes, robot, dir, pushed + [o], queue[1..] + Targets(boxes[o], dir), qfrom[1..] + Froms(|pushed|, |boxes[o]|))
  {
    var o := lookup[queue[0]];
    var p', q', f' := pushed + [o], queue[1..] + Targets(boxes[o], dir), qfrom[1..] + Froms(|pushed|, |boxes[o]|);
    forall a | 0 <= a < |q'|
      ensures ValidFrom(boxes, p', f'[a], |p'|) && Source(boxes, p', robot, dir, f'[a]) == q'[a]
    {
      if a < |queue| - 1 {
        assert f'[a] == qfrom[a + 1] && q'[a] == queue[a + 1];
        SourceGrow(boxes, pushed, o, robot, dir, qfrom[a + 1], |pushed|);
      } else {
        var b := a - (|queue| - 1);
        assert f'[a] == (|pushed|, |boxes[o]| - 1 - b) && q'[a] == Next(boxes[o][|boxes[o]| - 1 - b], dir);
      }
    }
  }

  lemma PushPending(walls: set<Cell>, boxes: map<nat, seq<Cell>>, lookup: map<Cell, nat>, robot: Cell, dir: char,
                    pushed: seq<nat>, queue: seq<Cell>)
    requires Consistent(boxes, lookup) && Ids(boxes, pushed) && Pending(walls, boxes, lookup, robot, dir, pushed, queue)
    requires queue != [] && queue[0] !in walls && queue[0] in lookup && lookup[queue[0]] !in pushed
    ensures var o := lookup[queue[0]];
      Ids(boxes, pushed + [o]) && Pending(walls, boxes, lookup, robot, dir, pushed + [o], queue[1..] + Targets(boxes[o], dir))
  {
    var x := queue[0];
    var o := lookup[x];
    var p', q' := pushed + [o], queue[1..] + Targets(boxes[o], dir);
    assert forall n :: n in queue ==> n == x || n in q';
    forall j | 0 <= j <= |pushed|
      ensures Done(walls, lookup, p', x, j)
    {
      assert p'[j..][|pushed| - j] == o;
    }
    forall n, j | Done(walls, lookup, pushed, n, j)
      ensures Done(walls, lookup, p', n, j)
    {
      if n in lookup {
        var ix :| 0 <= ix < |pushed[j..]| && pushed[j..][ix] == lookup[n];
        assert p'[j..][ix] == lookup[n];
      }
    }
    forall i | 0 <= i < |boxes[o]|
      ensures Next(boxes[o][i], dir) in q'
    {
      assert Targets(boxes[o], dir)[|boxes[o]| - 1 - i] == Next(boxes[o][i], dir);
      assert q'[|queue| - 1 + |boxes[o]| - 1 - i] == Next(boxes[o][i], dir);
    }
    assert forall j :: 0 <= j < |pushed| ==> p'[j] == pushed[j];
  }

  /** For a vertical move every cell of a box lies at the box's depth. */
  lemma FlatLow(s: seq<Cell>, dir: char, k: nat)
    requires ShapedBox(s) && Vertical(dir) && k < |s|
    ensures Depth(s[k], dir) == Low(s, dir)
  {
  }

  lemma PushMonotone(boxes: map<nat, seq<Cell>>, lookup: map<Cell, nat>, pushed: seq<nat>, queue: seq<Cell>, dir: char)
    requires Consistent(boxes, lookup) && Shaped(boxes) && Ids(boxes, pushed)
    requires Monotone(boxes, pushed, dir) && Bounded(boxes, lookup, pushed, queue, dir)
    requires queue != [] && Live(lookup, pushed, queue[0]) && Ids(boxes, pushed + [lookup[queue[0]]])
    ensures Monotone(boxes, pushed + [lookup[queue[0]]], dir)
  {
    var o := lookup[queue[0]];
    var p' := pushed + [o];
    forall a, b | 0 <= a < b < |p'|
      ensures Low(boxes[p'[a]], dir) <= Low(boxes[p'[b]], dir)
    {
      if b == |pushed| {
        assert p'[a] == pushed[a] && p'[b] == o;
        if a < |pushed| - 1 {
          assert Low(boxes[pushed[a]], dir) <= Low(boxes[pushed[|pushed| - 1]], dir);
        }
      } else {
        assert p'[a] == pushed[a] && p'[b] == pushed[b];
      }
    }
  }

  /** In a box of two cells a sideways step from one cell lands on the other. */
  lemma SideStep(s: seq<Cell>, dir: char)
    requires ShapedBox(s) && |s| == 2 && Horizontal(dir)
    ensures if dir == '>' then Next(s[0], dir) == s[1] else Next(s[1], dir) == s[0]
  {
  }

  lemma PushBounded(boxes: map<nat, seq<Cell>>, lookup: map<Cell, nat>, pushed: seq<nat>, queue: seq<Cell>, dir: char)
    requires Consistent(boxes, lookup) && Shaped(boxes) && Ids(boxes, pushed)
    requires Bounded(boxes, lookup, pushed, queue, dir) && Layered(lookup, pushed, queue, dir)
    requires queue != [] && Live(lookup, pushed, queue[0]) && Ids(boxes, pushed + [lookup[queue[0]]])
    ensures var o := lookup[queue[0]];
      Bounded(boxes, lookup, pushed + [o], queue[1..] + Targets(boxes[o], dir), dir)
  {
    var x := queue[0];
    var o := lookup[x];
    var p', q' := pushed + [o], queue[1..] + Targets(boxes[o], dir);
    var ko :| 0 <= ko < |boxes[o]| && boxes[o][ko] == x;
    forall a | 0 <= a < |q'| && Live(lookup, p', q'[a])
      ensures Low(boxes[lookup[q'[a]]], dir) >= Low(boxes[o], dir)
    {
      var y := q'[a];
      var t := boxes[lookup[y]];
      if a < |queue| - 1 {
        assert y == queue[a + 1];
        if Vertical(dir) {
          var ky :| 0 <= ky < |t| && t[ky] == y;
          FlatLow(t, dir, ky);
          FlatLow(boxes[o], dir, ko);
        }
      } else {
        var b := a - (|queue| - 1);
        var k := |boxes[o]| - 1 - b;
        assert y == Next(boxes[o][k], dir);
        Ahead(boxes, lookup, o, k, dir);
      }
    }
    assert p'[|p'| - 1] == o;
  }

  lemma PushLayered(boxes: map<nat, seq<Cell>>, lookup: map<Cell, nat>, pushed: seq<nat>, queue: seq<Cell>, dir: char)
    requires Consistent(boxes, lookup) && Shaped(boxes)
    requires Layered(lookup, pushed, queue, dir)
    requires queue != [] && Live(lookup, pushed, queue[0])
    ensures var o := lookup[queue[0]];
      Layered(lookup, pushed + [o], queue[1..] + Targets(boxes[o], dir), dir)
  {
    var x := queue[0];
    var o := lookup[x];
    var s := boxes[o];
    var p', ts := pushed + [o], Targets(s, dir);
    var q' := queue[1..] + ts;
    var ko :| 0 <= ko < |s| && s[ko] == x;
    if Vertical(dir) {
      forall a | 0 <= a < |ts|
        ensures Depth(ts[a], dir) == Depth(x, dir) + 1
      {
        FlatLow(s, dir, |s| - 1 - a);
        FlatLow(s, dir, ko);
        DepthNext(s[|s| - 1 - a], dir);
      }
      forall a, b | 0 <= a <= b < |q'|
        ensures Depth(q'[a], dir) <= Depth(q'[b], dir) <= Depth(q'[a], dir) + 1
      {
        if b < |queue| - 1 {
          assert q'[a] == queue[a + 1] && q'[b] == queue[b + 1];
        } else if a < |queue| - 1 {
          assert q'[a] == queue[a + 1] && q'[b] == ts[b - (|queue| - 1)];
          assert Depth(x, dir) <= Depth(queue[a + 1], dir) <= Depth(x, dir) + 1;
        } else {
          assert q'[a] == ts[a - (|queue| - 1)] && q'[b] == ts[b - (|queue| - 1)];
        }
      }
    } else {
      // at most one target is live: a sideways step of a two-cell box lands on its other cell
      if |s| == 2 {
        assert s[0] in lookup && s[1] in lookup && lookup[s[0]] == o && lookup[s[1]] == o;
        if Horizontal(dir) {
          SideStep(s, dir);
        }
        assert !(Live(lookup, p', ts[0]) && Live(lookup, p', ts[1]));
      }
      forall a, b | 0 <= a < b < |q'|
        ensures !(Live(lookup, p', q'[a]) && Live(lookup, p', q'[b]))
      {
        if a < |queue| - 1 {
          assert q'[a] == queue[a + 1];
          assert !Live(lookup, pushed, queue[a + 1]);
        } else {
          assert q'[a] == ts[a - (|queue| - 1)] && q'[b] == ts[b - (|queue| - 1)];
        }
      }
    }
  }

  lemma PushIds(boxes: map<nat, seq<Cell>>, pushed: seq<nat>, o: nat)
    requires Ids(boxes, pushed) && o in boxes && o !in pushed
    ensures Ids(boxes, pushed + [o])
  {
    assert forall k :: 0 <= k < |pushed| ==> (pushed + [o])[k] == pushed[k];
  }

  lemma PushStep(walls: set<Cell>, boxes: map<nat, seq<Cell>>, lookup: map<Cell, nat>, robot: Cell, dir: char,
                 pushed: seq<nat>, from: seq<(int, nat)>, queue: seq<Cell>, qfrom: seq<(int, nat)>)
    requires Search(walls, boxes, lookup, robot, dir, pushed, from, queue, qfrom)
    requires queue != [] && queue[0] !in walls && queue[0] in lookup && lookup[queue[0]] !in pushed
    ensures var o := lookup[queue[0]];
      o in boxes &&
      Search(walls, boxes, lookup, robot, dir, pushed + [o], from + [qfrom[0]],
             queue[1..] + Targets(boxes[o], dir), qfrom[1..] + Froms(|pushed|, |boxes[o]|))
  {
    var o := lookup[queue[0]];
    PushIds(boxes, pushed, o);
    PushReached(boxes, lookup, robot, dir, pushed, from, queue, qfrom);
    PushQueued(boxes, lookup, robot, dir, pushed, queue, qfrom);
    PushPending(walls, boxes, lookup, robot, dir, pushed, queue);
    PushMonotone(boxes, lookup, pushed, queue, dir);
    PushBounded(boxes, lookup, pushed, queue, dir);
    PushLayered(boxes, lookup, pushed, queue, dir);
  }

  /** With the check queue empty, every cell stepped into has been checked. */
  lemma SearchEnd(walls: set<Cell>, boxes: map<nat, seq<Cell>>, lookup: map<Cell, nat>, robot: Cell, dir: char,
                  pushed: seq<nat>, from: seq<(int, nat)>, qfrom: seq<(int, nat)>)
    requires Search(walls, boxes, lookup, robot, dir, pushed, from, [], qfrom)
    ensures Settled(walls, boxes, lookup, robot, dir, pushed)
  {
  }

  /** Appends the cells a box steps into, walking the box's cells backwards. */
  method Enqueue(queue: seq<Cell>, cells: seq<Cell>, dir: char) returns (r: seq<Cell>)
    ensures r == queue + Targets(cells, dir)
  {
    r := queue;
    var t := |cells|;
    while t > 0
      invariant 0 <= t <= |cells| && r == queue + Targets(cells, dir)[..|cells| - t]
    {
      t := t - 1;
      r := r + [Next(cells[t], dir)];
      assert Targets(cells, dir)[..|cells| - t] == Targets(cells, dir)[..|cells| - t - 1] + [Next(cells[t], dir)];
    }
  }

  /**
   * The first half of move_robot: the worklist search.  Either some cell the
   * robot or a queued box steps into is a wall (blocked), or the search closes
   * with box_queue holding, nearest first, every box the move pushes.
   */
  method Collect(walls: set<Cell>, boxes: map<nat, seq<Cell>>, lookup: map<Cell, nat>, robot: Cell, dir: char)
    returns (blocked: bool, pushed: seq<nat>, ghost from: seq<(int, nat)>, ghost stop: (int, nat))
    requires Consistent(boxes, lookup) && Shaped(boxes)
    ensures Ids(boxes, pushed) && Reached(boxes, lookup, robot, dir, pushed, from) && Monotone(boxes, pushed, dir)
    ensures blocked ==> ValidFrom(boxes, pushed, stop, |pushed|) && Source(boxes, pushed, robot, dir, stop) in walls
    ensures !blocked ==> Settled(walls, boxes, lookup, robot, dir, pushed)
  {
    var queue := [Next(robot, dir)];
    ghost var qfrom: seq<(int, nat)> := [(-1, 0)];
    pushed, from, stop := [], [], (-1, 0);
    ghost var unseen := boxes.Keys;
    SearchStart(walls, boxes, lookup, robot, dir);
    while queue != []
      invariant Search(walls, boxes, lookup, robot, dir, pushed, from, queue, qfrom)
      invariant forall x :: x in unseen <==> x in boxes && x !in pushed
      decreases unseen, |queue|
    {
      var check := queue[0];
      if check in walls {
        return true, pushed, from, qfrom[0];
      }
      if check in lookup {
        var id := lookup[check];
        if id in pushed {
          SkipStep(walls, boxes, lookup, robot, dir, pushed, from, queue, qfrom);
          queue, qfrom := queue[1..], qfrom[1..];
          continue;
        }
        PushStep(walls, boxes, lookup, robot, dir, pushed, from, queue, qfrom);
        qfrom, from := qfrom[1..] + Froms(|pushed|, |boxes[id]|), from + [qfrom[0]];
        var rest := queue[1..];
        pushed, queue, unseen := pushed + [id], rest, unseen - {id};
        queue := Enqueue(rest, boxes[id], dir);
      } else {
        SkipStep(walls, boxes, lookup, robot, dir, pushed, from, queue, qfrom);
        queue, qfrom := queue[1..], qfrom[1..];
      }
    }
    SearchEnd(walls, boxes, lookup, robot, dir, pushed, from, qfrom);
    blocked := false;
  }

  // ---------------------------------------------------------------------------
  // move_robot, second half: moving the boxes, and the two maps kept in step
  // ---------------------------------------------------------------------------

  /** A box's cells after one step along dir. */
  function Shift(s: seq<Cell>, dir: char): (r: seq<Cell>)
    ensures |r| == |s| && forall k :: 0 <= k < |s| ==> r[k] == Next(s[k], dir)
  {
    seq(|s|, k requires 0 <= k < |s| => Next(s[k], dir))
  }

  /** A step keeps a box's shape: both cells move by the same offset. */
  lemma ShiftShaped(s: seq<Cell>, dir: char)
    requires ShapedBox(s)
    ensures ShapedBox(Shift(s, dir))
  {
  }

  /** Every cell box id steps into is free or the box's own. */
  ghost predicate Vacant(boxes: map<nat, seq<Cell>>, lookup: map<Cell, nat>, id: nat, dir: char)
    requires id in boxes
  {
    forall k :: 0 <= k < |boxes[id]| && Next(boxes[id][k], dir) in lookup ==> lookup[Next(boxes[id][k], dir)] == id
  }

  /** The boxes, with those in ids moved one step along dir. */
  ghost function ShiftSome(boxes: map<nat, seq<Cell>>, ids: set<nat>, dir: char): (r: map<nat, seq<Cell>>)
    ensures r.Keys == boxes.Keys
    ensures forall id :: id in boxes && id in ids ==> r[id] == Shift(boxes[id], dir)
    ensures forall id :: id in boxes && id !in ids ==> r[id] == boxes[id]
  {
    map id | id in boxes :: if id in ids then Shift(boxes[id], dir) else boxes[id]
  }

  /** The two maps a move updates in place. */
  class Store {
    var boxes: map<nat, seq<Cell>>
    var lookup: map<Cell, nat>

    constructor (boxes: map<nat, seq<Cell>>, lookup: map<Cell, nat>)
      ensures this.boxes == boxes && this.lookup == lookup
    {
      this.boxes := boxes;
      this.lookup := lookup;
    }

    /**
     * Moves one box a step: all its cells leave box_lookup before any new
     * cell is written, so a cell the box moves into and out of at once keeps
     * its entry.
     */
    method MoveBox(id: nat, dir: char)
      requires Consistent(boxes, lookup) && Shaped(boxes) && id in boxes && Vacant(boxes, lookup, id, dir)
      modifies this
      ensures boxes == old(boxes)[id := Shift(old(boxes)[id], dir)]
      ensures Consistent(boxes, lookup) && Shaped(boxes)
    {
      var cells := boxes[id];
      var k := 0;
      while k < |cells|
        invariant 0 <= k <= |cells| && boxes == old(boxes)
        invariant Cleared(lookup, old(lookup), cells, k)
      {
        // del box_lookup[box_p]: the cell is there, and is deleted once
        ClearStep(lookup, old(lookup), old(boxes), id, k);
        lookup := lookup - {cells[k]};
        k := k + 1;
      }
      var moved: seq<Cell> := [];
      k := 0;
      while k < |cells|
        invariant 0 <= k <= |cells| && boxes == old(boxes) && |moved| == k
        invariant Written(lookup, old(lookup), cells, moved, id, dir)
      {
        var n := Next(cells[k], dir);
        WriteStep(lookup, old(lookup), cells, moved, id, dir);
        moved := moved + [n];
        lookup := lookup[n := id];
        k := k + 1;
      }
      WriteEnd(lookup, old(lookup), cells, moved, id, dir);
      boxes := boxes[id := moved];
      ShiftShaped(cells, dir);
      MoveBoxConsistent(old(boxes), old(lookup), id, dir, lookup);
    }
  }

  /** The first k cells of a box are gone from box_lookup, and nothing else is. */
  ghost predicate Cleared(lk: map<Cell, nat>, lookup: map<Cell, nat>, cells: seq<Cell>, k: nat)
    requires k <= |cells|
  {
    (forall c :: c in lk <==> c in lookup && c !in cells[..k]) &&
    (forall c :: c in lk ==> lk[c] == lookup[c])
  }

  lemma ClearStep(lk: map<Cell, nat>, lookup: map<Cell, nat>, boxes: map<nat, seq<Cell>>, id: nat, k: nat)
    requires Consistent(boxes, lookup) && Shaped(boxes) && id in boxes && k < |boxes[id]|
    requires Cleared(lk, lookup, boxes[id], k)
    ensures boxes[id][k] in lk && Cleared(lk - {boxes[id][k]}, lookup, boxes[id], k + 1)
  {
    var cells := boxes[id];
    assert ShapedBox(cells);
    assert cells[k] !in cells[..k];
    assert cells[..k + 1] == cells[..k] + [cells[k]];
  }

  /** The cells written so far are the first steps of the box's cells, each mapped to the box. */
  ghost predicate Written(lk: map<Cell, nat>, lookup: map<Cell, nat>, cells: seq<Cell>, moved: seq<Cell>, id: nat, dir: char) {
    |moved| <= |cells| &&
    (forall m :: 0 <= m < |moved| ==> moved[m] == Next(cells[m], dir)) &&
    (forall c :: c in lk <==> (c in lookup && c !in cells) || c in moved) &&
    (forall c :: c in lk ==> lk[c] == if c in moved then id else lookup[c])
  }

  lemma WriteStep(lk: map<Cell, nat>, lookup: map<Cell, nat>, cells: seq<Cell>, moved: seq<Cell>, id: nat, dir: char)
    requires Written(lk, lookup, cells, moved, id, dir) && |moved| < |cells|
    ensures var n := Next(cells[|moved|], dir); Written(lk[n := id], lookup, cells, moved + [n], id, dir)
  {
    var n := Next(cells[|moved|], dir);
    assert forall m :: 0 <= m < |moved| ==> (moved + [n])[m] == moved[m];
  }

  lemma WriteEnd(lk: map<Cell, nat>, lookup: map<Cell, nat>, cells: seq<Cell>, moved: seq<Cell>, id: nat, dir: char)
    requires Written(lk, lookup, cells, moved, id, dir) && |moved| == |cells|
    ensures moved == Shift(cells, dir)
    ensures forall c :: c in lk <==> (c in lookup && c !in cells) || c in Shift(cells, dir)
    ensures forall c :: c in lk ==> lk[c] == if c in Shift(cells, dir) then id else lookup[c]
  {
  }

  /** The maps MoveBox leaves behind are again each other's inverse. */
  lemma MoveBoxConsistent(boxes: map<nat, seq<Cell>>, lookup: map<Cell, nat>, id: nat, dir: char, lk: map<Cell, nat>)
    requires Consistent(boxes, lookup) && Shaped(boxes) && id in boxes && Vacant(boxes, lookup, id, dir)
    requires forall c :: c in lk <==> (c in lookup && c !in boxes[id]) || c in Shift(boxes[id], dir)
    requires forall c :: c in lk ==> lk[c] == if c in Shift(boxes[id], dir) then id else lookup[c]
    ensures Consistent(boxes[id := Shift(boxes[id], dir)], lk)
  {
    var s := Shift(boxes[id], dir);
    var b' := boxes[id := s];
    forall i, k | i in b' && 0 <= k < |b'[i]|
      ensures b'[i][k] in lk && lk[b'[i][k]] == i
    {
      if i != id {
        var c := boxes[i][k];
        assert c !in boxes[id];
      }
    }
    forall c | c in lk
      ensures lk[c] in b' && c in b'[lk[c]]
    {
      if c !in s {
        assert lookup[c] != id;
      }
    }
  }

  /** The ids of a box sequence, as a set. */
  ghost function IdSet(s: seq<nat>): set<nat> {
    set x | x in s
  }

  /**
   * Moving the queue back to front: when box pushed[t] moves, every box
   * queued after it has already moved, so every cell it steps into is free
   * or its own.
   */
  lemma Vacancy(walls: set<Cell>, boxes: map<nat, seq<Cell>>, lookup: map<Cell, nat>, robot: Cell, dir: char,
                pushed: seq<nat>, t: nat, cur: map<nat, seq<Cell>>, lk: map<Cell, nat>)
    requires Consistent(boxes, lookup) && Ids(boxes, pushed) && Settled(walls, boxes, lookup, robot, dir, pushed)
    requires t < |pushed| && cur == ShiftSome(boxes, IdSet(pushed[t + 1..]), dir) && Consistent(cur, lk)
    ensures pushed[t] in cur && Vacant(cur, lk, pushed[t], dir)
  {
    var id := pushed[t];
    assert id !in pushed[t + 1..];
    forall k | 0 <= k < |cur[id]| && Next(cur[id][k], dir) in lk
      ensures lk[Next(cur[id][k], dir)] == id
    {
      var c := boxes[id][k];
      var n := Next(c, dir);
      var o := lk[n];
      assert o in cur && n in cur[o];
      var m :| 0 <= m < |cur[o]| && cur[o][m] == n;
      if o in IdSet(pushed[t + 1..]) {
        NextInjective(c, boxes[o][m], dir);
      }
    }
  }

  /** Moving box pushed[t] after those queued behind it. */
  lemma ShiftOneMore(boxes: map<nat, seq<Cell>>, pushed: seq<nat>, t: nat, dir: char)
    requires Ids(boxes, pushed) && t < |pushed|
    ensures var cur := ShiftSome(boxes, IdSet(pushed[t + 1..]), dir);
      cur[pushed[t] := Shift(cur[pushed[t]], dir)] == ShiftSome(boxes, IdSet(pushed[t..]), dir)
  {
    var id := pushed[t];
    assert pushed[t..] == [id] + pushed[t + 1..];
    assert IdSet(pushed[t..]) == IdSet(pushed[t + 1..]) + {id};
    assert id !in pushed[t + 1..];
  }

  /**
   * What a move decides about boxes and box_lookup (the maps before the
   * move): pushed lists distinct boxes, each reached from the robot's step
   * or an earlier box's; blocked says some cell stepped into is a wall, and
   * otherwise every cell stepped into is free or held by a pushed box.
   */
  ghost predicate Outcome(walls: set<Cell>, boxes: map<nat, seq<Cell>>, lookup: map<Cell, nat>, robot: Cell, dir: char,
                          pushed: seq<nat>, blocked: bool) {
    Ids(boxes, pushed) &&
    (exists from :: Reached(boxes, lookup, robot, dir, pushed, from)) &&
    (blocked ==> exists stop :: ValidFrom(boxes, pushed, stop, |pushed|) && Source(boxes, pushed, robot, dir, stop) in walls) &&
    (!blocked ==> Settled(walls, boxes, lookup, robot, dir, pushed))
  }

  /**
   * The loop of move_robot over boxes_to_push, back to front: every queued
   * box steps, every other box stays.
   */
  method PushAll(walls: set<Cell>, store: Store, robot: Cell, dir: char, queue: seq<nat>)
    requires Consistent(store.boxes, store.lookup) && Shaped(store.boxes)
    requires Ids(store.boxes, queue) && Settled(walls, store.boxes, store.lookup, robot, dir, queue)
    modifies store
    ensures store.boxes == ShiftSome(old(store.boxes), IdSet(queue), dir)
    ensures Consistent(store.boxes, store.lookup) && Shaped(store.boxes)
  {
    ghost var boxes0, lookup0 := store.boxes, store.lookup;
    var t := |queue|;
    assert queue[t..] == [];
    while t > 0
      invariant 0 <= t <= |queue|
      invariant store.boxes == ShiftSome(boxes0, IdSet(queue[t..]), dir)
      invariant Consistent(store.boxes, store.lookup) && Shaped(store.boxes)
    {
      t := t - 1;
      Vacancy(walls, boxes0, lookup0, robot, dir, queue, t, store.boxes, store.lookup);
      store.MoveBox(queue[t], dir);
      ShiftOneMore(boxes0, queue, t, dir);
    }
  }

  /**
   * move_robot.  If the search hits a wall nothing changes and the robot
   * stays; otherwise the robot steps, every pushed box steps, every other box
   * stays, and box_lookup is again the inverse of boxes.
   */
  method MoveRobot(walls: set<Cell>, store: Store, robot: Cell, dir: char) returns (next: Cell, ghost pushed: seq<nat>, ghost blocked: bool)
    requires Consistent(store.boxes, store.lookup) && Shaped(store.boxes)
    modifies store
    ensures Outcome(walls, old(store.boxes), old(store.lookup), robot, dir, pushed, blocked)
    ensures blocked ==> next == robot && store.boxes == old(store.boxes) && store.lookup == old(store.lookup)
    ensures !blocked ==> next == Next(robot, dir) && store.boxes == ShiftSome(old(store.boxes), IdSet(pushed), dir)
    ensures Consistent(store.boxes, store.lookup) && Shaped(store.boxes)
    ensures store.boxes.Keys == old(store.boxes).Keys
    ensures forall id :: id in store.boxes ==> |store.boxes[id]| == |old(store.boxes)[id]|
  {
    var stuck: bool, queue: seq<nat>;
    ghost var from, stop;
    ghost var boxes0, lookup0 := store.boxes, store.lookup;
    stuck, queue, from, stop := Collect(walls, store.boxes, store.lookup, robot, dir);
    pushed, blocked := queue, stuck;
    assert Outcome(walls, boxes0, lookup0, robot, dir, pushed, blocked) by {
      assert Reached(boxes0, lookup0, robot, dir, pushed, from);
      if blocked {
        assert ValidFrom(boxes0, pushed, stop, |pushed|) && Source(boxes0, pushed, robot, dir, stop) in walls;
      }
    }
    if stuck {
      return robot, pushed, blocked;
    }
    PushAll(walls, store, robot, dir, queue);
    next := Next(robot, dir);
  }

  // ---------------------------------------------------------------------------
  // A move is determined by the warehouse
  // ---------------------------------------------------------------------------

  /** A member of a suffix is a member at some index from j on. */
  lemma InSuffix(s: seq<nat>, j: nat, x: nat)
    requires j <= |s| && x in s[j..]
    ensures x in s
  {
    var ix :| 0 <= ix < |s[j..]| && s[j..][ix] == x;
    assert s[j + ix] == x;
  }

  /** The cell box q[j] steps into through its cell i is owned, if at all, by a box of q. */
  lemma CoveredStep(walls: set<Cell>, boxes: map<nat, seq<Cell>>, lookup: map<Cell, nat>, robot: Cell, dir: char,
                    q: seq<nat>, j: nat, i: nat)
    requires Ids(boxes, q) && Settled(walls, boxes, lookup, robot, dir, q)
    requires j < |q| && i < |boxes[q[j]]| && Next(boxes[q[j]][i], dir) in lookup
    ensures lookup[Next(boxes[q[j]][i], dir)] in q
  {
    var n := Next(boxes[q[j]][i], dir);
    assert Done(walls, lookup, q, n, j);
    InSuffix(q, j, lookup[n]);
  }

  /** Every box reached from the robot lies in any closed set of boxes. */
  lemma {:induction false} Covered(walls: set<Cell>, boxes: map<nat, seq<Cell>>, lookup: map<Cell, nat>, robot: Cell, dir: char,
                                   p: seq<nat>, from: seq<(int, nat)>, q: seq<nat>, k: nat)
    requires Ids(boxes, p) && Ids(boxes, q) && Reached(boxes, lookup, robot, dir, p, from)
    requires Settled(walls, boxes, lookup, robot, dir, q) && k < |p|
    ensures p[k] in q
    decreases k
  {
    var f := from[k];
    if f.0 < 0 {
      assert Done(walls, lookup, q, Next(robot, dir), 0);
      InSuffix(q, 0, p[k]);
    } else {
      Covered(walls, boxes, lookup, robot, dir, p, from, q, f.0);
      var j :| 0 <= j < |q| && q[j] == p[f.0];
      CoveredStep(walls, boxes, lookup, robot, dir, q, j, f.1);
    }
  }

  /** A closed set of boxes leaves no wall in the way of any reached box. */
  lemma NoWall(walls: set<Cell>, boxes: map<nat, seq<Cell>>, lookup: map<Cell, nat>, robot: Cell, dir: char,
               p: seq<nat>, from: seq<(int, nat)>, q: seq<nat>, stop: (int, nat))
    requires Ids(boxes, p) && Ids(boxes, q) && Reached(boxes, lookup, robot, dir, p, from)
    requires Settled(walls, boxes, lookup, robot, dir, q) && ValidFrom(boxes, p, stop, |p|)
    ensures Source(boxes, p, robot, dir, stop) !in walls
  {
    if stop.0 < 0 {
      assert Done(walls, lookup, q, Next(robot, dir), 0);
    } else {
      Covered(walls, boxes, lookup, robot, dir, p, from, q, stop.0);
      var j :| 0 <= j < |q| && q[j] == p[stop.0];
      assert Done(walls, lookup, q, Next(boxes[q[j]][stop.1], dir), j);
    }
  }

  /**
   * Outcome pins a move down: whether it is blocked, and, if not, which
   * boxes it pushes, follow from the warehouse alone.
   */
  lemma OutcomeUnique(walls: set<Cell>, boxes: map<nat, seq<Cell>>, lookup: map<Cell, nat>, robot: Cell, dir: char,
                      p1: seq<nat>, b1: bool, p2: seq<nat>, b2: bool)
    requires Outcome(walls, boxes, lookup, robot, dir, p1, b1) && Outcome(walls, boxes, lookup, robot, dir, p2, b2)
    ensures b1 == b2 && (!b1 ==> IdSet(p1) == IdSet(p2))
  {
    var f1 :| Reached(boxes, lookup, robot, dir, p1, f1);
    var f2 :| Reached(boxes, lookup, robot, dir, p2, f2);
    if b1 && !b2 {
      var stop :| ValidFrom(boxes, p1, stop, |p1|) && Source(boxes, p1, robot, dir, stop) in walls;
      NoWall(walls, boxes, lookup, robot, dir, p1, f1, p2, stop);
    } else if b2 && !b1 {
      var stop :| ValidFrom(boxes, p2, stop, |p2|) && Source(boxes, p2, robot, dir, stop) in walls;
      NoWall(walls, boxes, lookup, robot, dir, p2, f2, p1, stop);
    } else if !b1 {
      forall x | x in p1
        ensures x in p2
      {
        var k :| 0 <= k < |p1| && p1[k] == x;
        Covered(walls, boxes, lookup, robot, dir, p1, f1, p2, k);
      }
      forall x | x in p2
        ensures x in p1
      {
        var k :| 0 <= k < |p2| && p2[k] == x;
        Covered(walls, boxes, lookup, robot, dir, p2, f2, p1, k);
      }
    }
  }

  // ---------------------------------------------------------------------------
  // A run of moves
  // ---------------------------------------------------------------------------

  datatype State = State(boxes: map<nat, seq<Cell>>, lookup: map<Cell, nat>, robot: Cell)

  /** One move as move_robot makes it: t is what s becomes when the robot is told dir. */
  ghost predicate Step(walls: set<Cell>, s: State, dir: char, t: State) {
    Consistent(t.boxes, t.lookup) &&
    exists pushed, blocked ::
      Outcome(walls, s.boxes, s.lookup, s.robot, dir, pushed, blocked) &&
      (if blocked then t == s else t.robot == Next(s.robot, dir) && t.boxes == ShiftSome(s.boxes, IdSet(pushed), dir))
  }

  /** A move made by move_robot is a Step. */
  lemma StepOf(walls: set<Cell>, s: State, dir: char, t: State, pushed: seq<nat>, blocked: bool)
    requires Consistent(t.boxes, t.lookup) && Outcome(walls, s.boxes, s.lookup, s.robot, dir, pushed, blocked)
    requires if blocked then t == s else t.robot == Next(s.robot, dir) && t.boxes == ShiftSome(s.boxes, IdSet(pushed), dir)
    ensures Step(walls, s, dir, t)
  {
  }

  /** A move has one result. */
  lemma StepDeterministic(walls: set<Cell>, s: State, dir: char, t1: State, t2: State)
    requires Step(walls, s, dir, t1) && Step(walls, s, dir, t2)
    ensures t1 == t2
  {
    var p1, b1 :| Outcome(walls, s.boxes, s.lookup, s.robot, dir, p1, b1) &&
      (if b1 then t1 == s else t1.robot == Next(s.robot, dir) && t1.boxes == ShiftSome(s.boxes, IdSet(p1), dir));
    var p2, b2 :| Outcome(walls, s.boxes, s.lookup, s.robot, dir, p2, b2) &&
      (if b2 then t2 == s else t2.robot == Next(s.robot, dir) && t2.boxes == ShiftSome(s.boxes, IdSet(p2), dir));
    OutcomeUnique(walls, s.boxes, s.lookup, s.robot, dir, p1, b1, p2, b2);
    ConsistentUnique(t1.boxes, t1.lookup, t2.lookup);
  }

  /** trace[k+1] is what trace[k] becomes under moves[k]. */
  ghost predicate Run(walls: set<Cell>, trace: seq<State>, moves: string) {
    |trace| == |moves| + 1 && forall k :: 0 <= k < |moves| ==> Step(walls, trace[k], moves[k], trace[k + 1])
  }

  /** The moves decide the whole run from its start. */
  lemma {:induction false} RunDeterministic(walls: set<Cell>, t1: seq<State>, t2: seq<State>, moves: string, k: nat)
    requires Run(walls, t1, moves) && Run(walls, t2, moves) && t1[0] == t2[0] && k <= |moves|
    ensures t1[k] == t2[k]
  {
    if k > 0 {
      RunDeterministic(walls, t1, t2, moves, k - 1);
      StepDeterministic(walls, t1[k - 1], moves[k - 1], t1[k], t2[k]);
    }
  }

  /** A run of i steps followed by one more step is a run of i + 1 steps. */
  lemma ExtendRun(walls: set<Cell>, trace: seq<State>, moves: string, i: nat, t: State)
    requires i < |moves| && |trace| == i + 1
    requires forall k :: 0 <= k < i ==> Step(walls, trace[k], moves[k], trace[k + 1])
    requires Step(walls, trace[i], moves[i], t)
    ensures forall k :: 0 <= k < i + 1 ==> Step(walls, (trace + [t])[k], moves[k], (trace + [t])[k + 1])
  {
    var tr := trace + [t];
    forall k | 0 <= k < i + 1
      ensures Step(walls, tr[k], moves[k], tr[k + 1])
    {
      if k < i {
        assert tr[k] == trace[k] && tr[k + 1] == trace[k + 1];
      } else {
        assert tr[k] == trace[i] && tr[k + 1] == t;
      }
    }
  }

  /** The loop `for move in moves: robot = move_robot(...)`. */
  method Simulate(walls: set<Cell>, store: Store, robot: Cell, moves: string) returns (final: Cell, ghost trace: seq<State>)
    requires Consistent(store.boxes, store.lookup) && Shaped(store.boxes)
    modifies store
    ensures Run(walls, trace, moves) && trace[0] == State(old(store.boxes), old(store.lookup), robot)
    ensures trace[|moves|] == State(store.boxes, store.lookup, final)
    ensures store.boxes.Keys == old(store.boxes).Keys
    ensures forall id :: id in store.boxes ==> |store.boxes[id]| == |old(store.boxes)[id]|
  {
    final := robot;
    trace := [State(store.boxes, store.lookup, robot)];
    for i := 0 to |moves|
      invariant |trace| == i + 1 && trace[0] == State(old(store.boxes), old(store.lookup), robot)
      invariant forall k :: 0 <= k < i ==> Step(walls, trace[k], moves[k], trace[k + 1])
      invariant trace[i] == State(store.boxes, store.lookup, final)
      invariant Consistent(store.boxes, store.lookup) && Shaped(store.boxes)
      invariant store.boxes.Keys == old(store.boxes).Keys
      invariant forall id :: id in store.boxes ==> |store.boxes[id]| == |old(store.boxes)[id]|
    {
      ghost var s := trace[i];
      ghost var pushed, blocked;
      final, pushed, blocked := MoveRobot(walls, store, final, moves[i]);
      ghost var t := State(store.boxes, store.lookup, final);
      StepOf(walls, s, moves[i], t, pushed, blocked);
      ExtendRun(walls, trace, moves, i, t);
      trace := trace + [t];
    }
  }

  // ---------------------------------------------------------------------------
  // part1 and part2
  // ---------------------------------------------------------------------------

  /** Box ids 0, 1, ..., as parse_warehouse numbers them. */
  ghost predicate Numbered(boxes: map<nat, seq<Cell>>) {
    forall k: nat :: k in boxes <==> k < |boxes|
  }

  /** No cell belongs to two boxes. */
  ghost predicate Disjoint(boxes: map<nat, seq<Cell>>) {
    forall a, b, i, j :: a in boxes && b in boxes && 0 <= i < |boxes[a]| && 0 <= j < |boxes[b]| && boxes[a][i] == boxes[b][j] ==> a == b
  }

  /** The boxes numbered below k. */
  ghost function Upto(boxes: map<nat, seq<Cell>>, k: nat): map<nat, seq<Cell>> {
    map id | id in boxes && id < k :: boxes[id]
  }

  /** Entering the cells of box k into box_lookup extends the inverse to the boxes below k + 1. */
  lemma AddBox(boxes: map<nat, seq<Cell>>, k: nat, lk: map<Cell, nat>, lk': map<Cell, nat>)
    requires Disjoint(boxes) && Shaped(boxes) && k in boxes && Consistent(Upto(boxes, k), lk)
    requires forall c :: c in lk' <==> c in lk || c in boxes[k]
    requires forall c :: c in lk' ==> lk'[c] == if c in boxes[k] then k else lk[c]
    ensures Consistent(Upto(boxes, k + 1), lk')
  {
    AddBoxOwners(boxes, k, lk, lk');
    AddBoxCells(boxes, k, lk, lk', Upto(boxes, k), Upto(boxes, k + 1));
  }

  /** Every entry of the new box_lookup names a box below k + 1 holding the cell. */
  lemma AddBoxOwners(boxes: map<nat, seq<Cell>>, k: nat, lk: map<Cell, nat>, lk': map<Cell, nat>)
    requires k in boxes && forall c :: c in lk ==> lk[c] in Upto(boxes, k) && c in Upto(boxes, k)[lk[c]]
    requires forall c :: c in lk' <==> c in lk || c in boxes[k]
    requires forall c :: c in lk' ==> lk'[c] == if c in boxes[k] then k else lk[c]
    ensures forall c :: c in lk' ==> lk'[c] in Upto(boxes, k + 1) && c in Upto(boxes, k + 1)[lk'[c]]
  {
    var u', u := Upto(boxes, k + 1), Upto(boxes, k);
    forall c | c in lk'
      ensures lk'[c] in u' && c in u'[lk'[c]]
    {
      if c !in boxes[k] {
        assert lk[c] in u && c in u[lk[c]];
      }
    }
  }

  /** Every cell of a box below k + 1 (u') is entered in the new box_lookup under its box. */
  lemma AddBoxCells(boxes: map<nat, seq<Cell>>, k: nat, lk: map<Cell, nat>, lk': map<Cell, nat>,
                    u: map<nat, seq<Cell>>, u': map<nat, seq<Cell>>)
    requires Disjoint(boxes) && k in boxes && u == Upto(boxes, k) && u' == Upto(boxes, k + 1)
    requires forall id, i :: id in u && 0 <= i < |u[id]| ==> u[id][i] in lk && lk[u[id][i]] == id
    requires forall c :: c in lk' <==> c in lk || c in boxes[k]
    requires forall c :: c in lk' ==> lk'[c] == if c in boxes[k] then k else lk[c]
    ensures forall id, i :: id in u' && 0 <= i < |u'[id]| ==> u'[id][i] in lk' && lk'[u'[id][i]] == id
  {
    forall id, i | id in u' && 0 <= i < |u'[id]|
      ensures u'[id][i] in lk' && lk'[u'[id][i]] == id
    {
      if id != k {
        assert u[id] == boxes[id];
      }
    }
  }

  lemma UptoAll(boxes: map<nat, seq<Cell>>)
    requires Numbered(boxes)
    ensures Upto(boxes, |boxes|) == boxes
  {
  }

  /** part1's `{v[0]: k for k, v in boxes.items()}`, for boxes of one cell each. */
  method NarrowLookup(boxes: map<nat, seq<Cell>>) returns (lookup: map<Cell, nat>)
    requires Numbered(boxes) && Disjoint(boxes) && forall k :: k in boxes ==> |boxes[k]| == 1
    ensures Consistent(boxes, lookup)
  {
    lookup := map[];
    for k := 0 to |boxes|
      invariant Consistent(Upto(boxes, k), lookup)
    {
      AddBox(boxes, k, lookup, lookup[boxes[k][0] := k]);
      lookup := lookup[boxes[k][0] := k];
    }
    UptoAll(boxes);
  }

  /** Entering both cells of a two-cell box. */
  lemma EnterPair(lk: map<Cell, nat>, s: seq<Cell>, k: nat)
    requires |s| == 2
    ensures var lk' := lk[s[0] := k][s[1] := k];
      (forall c :: c in lk' <==> c in lk || c in s) &&
      (forall c :: c in lk' ==> lk'[c] == if c in s then k else lk[c])
  {
    assert s == [s[0], s[1]];
  }

  lemma WideStep(boxes: map<nat, seq<Cell>>, k: nat, lk: map<Cell, nat>)
    requires Disjoint(boxes) && Shaped(boxes) && k in boxes && |boxes[k]| == 2 && Consistent(Upto(boxes, k), lk)
    ensures Consistent(Upto(boxes, k + 1), lk[boxes[k][0] := k][boxes[k][1] := k])
  {
    EnterPair(lk, boxes[k], k);
    AddBox(boxes, k, lk, lk[boxes[k][0] := k][boxes[k][1] := k]);
  }

  /** part2's loop entering both cells of each double-width box. */
  method WideLookup(boxes: map<nat, seq<Cell>>) returns (lookup: map<Cell, nat>)
    requires Numbered(boxes) && Disjoint(boxes) && Shaped(boxes) && forall k :: k in boxes ==> |boxes[k]| == 2
    ensures Consistent(boxes, lookup)
  {
    lookup := map[];
    for k := 0 to |boxes|
      invariant Consistent(Upto(boxes, k), lookup)
    {
      var p1, p2 := boxes[k][0], boxes[k][1];
      WideStep(boxes, k, lookup);
      lookup := lookup[p1 := k];
      lookup := lookup[p2 := k];
    }
    UptoAll(boxes);
  }

  /** The GPS coordinate of a cell. */
  function Coordinate(p: Cell): int {
    100 * p.0 + p.1
  }

  /** The sum of the coordinates of the first cells of boxes 0 .. n-1. */
  ghost function ScoreUpto(boxes: map<nat, seq<Cell>>, n: nat): int {
    if n == 0 then 0
    else ScoreUpto(boxes, n - 1) + (if n - 1 in boxes && boxes[n - 1] != [] then Coordinate(boxes[n - 1][0]) else 0)
  }

  ghost function Score(boxes: map<nat, seq<Cell>>): int {
    ScoreUpto(boxes, |boxes|)
  }

  /** `sum(100 * i + j for i, j in [p[0] for p in boxes.values()])`. */
  method SumCoordinates(boxes: map<nat, seq<Cell>>) returns (score: int)
    requires Numbered(boxes) && forall k :: k in boxes ==> boxes[k] != []
    ensures score == Score(boxes)
  {
    score := 0;
    for k := 0 to |boxes|
      invariant score == ScoreUpto(boxes, k)
    {
      score := score + Coordinate(boxes[k][0]);
    }
  }

  /** The final state of the run, and the score of its boxes. */
  ghost predicate Scored(walls: set<Cell>, boxes: map<nat, seq<Cell>>, robot: Cell, moves: string, trace: seq<State>, score: int) {
    Run(walls, trace, moves) && trace[0].boxes == boxes && trace[0].robot == robot &&
    Consistent(boxes, trace[0].lookup) && score == Score(trace[|moves|].boxes)
  }

  method Part1(walls: set<Cell>, boxes: map<nat, seq<Cell>>, robot: Cell, moves: string) returns (score: int, ghost trace: seq<State>)
    requires Numbered(boxes) && Disjoint(boxes) && forall k :: k in boxes ==> |boxes[k]| == 1
    ensures Scored(walls, boxes, robot, moves, trace, score)
  {
    var lookup := NarrowLookup(boxes);
    var store := new Store(boxes, lookup);
    var final;
    final, trace := Simulate(walls, store, robot, moves);
    score := SumCoordinates(store.boxes);
  }

  method Part2(walls: set<Cell>, boxes: map<nat, seq<Cell>>, robot: Cell, moves: string) returns (score: int, ghost trace: seq<State>)
    requires Numbered(boxes) && Disjoint(boxes) && Shaped(boxes) && forall k :: k in boxes ==> |boxes[k]| == 2
    ensures Scored(walls, boxes, robot, moves, trace, score)
  {
    var lookup := WideLookup(boxes);
    var store := new Store(boxes, lookup);
    var final;
    final, trace := Simulate(walls, store, robot, moves);
    score := SumCoordinates(store.boxes);
  }

  // ---------------------------------------------------------------------------
  // parse_warehouse
  // ---------------------------------------------------------------------------

  /** The columns of a row holding ch, left to right, as cells of row i. */
  function RowScan(row: string, i: int, ch: char): seq<Cell> {
    if row == [] then []
    else RowScan(row[..|row| - 1], i, ch) + (if row[|row| - 1] == ch then [(i, |row| - 1)] else [])
  }

  /** Cell a comes before cell b in the row-by-row scan. */
  predicate Before(a: Cell, b: Cell) {
    a.0 < b.0 || (a.0 == b.0 && a.1 < b.1)
  }

  /** The cells of the rows holding ch, in the order the scan meets them. */
  function Scan(rows: seq<string>, ch: char): seq<Cell> {
    if rows == [] then [] else Scan(rows[..|rows| - 1], ch) + RowScan(rows[|rows| - 1], |rows| - 1, ch)
  }

  /** RowScan lists columns of row i holding ch, in increasing order. */
  lemma {:induction false} RowScanSound(row: string, i: int, ch: char)
    ensures forall k :: 0 <= k < |RowScan(row, i, ch)| ==>
      RowScan(row, i, ch)[k].0 == i && 0 <= RowScan(row, i, ch)[k].1 < |row| && row[RowScan(row, i, ch)[k].1] == ch
    ensures forall a, b :: 0 <= a < b < |RowScan(row, i, ch)| ==> RowScan(row, i, ch)[a].1 < RowScan(row, i, ch)[b].1
    decreases |row|
  {
    if row != [] {
      var init := row[..|row| - 1];
      RowScanSound(init, i, ch);
      var r0, r := RowScan(init, i, ch), RowScan(row, i, ch);
      assert forall k :: 0 <= k < |r0| ==> r[k] == r0[k] && init[r0[k].1] == row[r0[k].1];
    }
  }

  /** RowScan misses no column holding ch. */
  lemma {:induction false} RowScanComplete(row: string, i: int, ch: char, j: int)
    requires 0 <= j < |row| && row[j] == ch
    ensures (i, j) in RowScan(row, i, ch)
    decreases |row|
  {
    var init := row[..|row| - 1];
    var r0, r := RowScan(init, i, ch), RowScan(row, i, ch);
    if j < |row| - 1 {
      assert init[j] == ch;
      RowScanComplete(init, i, ch, j);
      var k :| 0 <= k < |r0| && r0[k] == (i, j);
      assert r[k] == (i, j);
    } else {
      assert r[|r| - 1] == (i, j);
    }
  }

  /** Cell c of the map holds ch. */
  predicate InGrid(rows: seq<string>, c: Cell, ch: char) {
    0 <= c.0 < |rows| && 0 <= c.1 < |rows[c.0]| && rows[c.0][c.1] == ch
  }

  /** The scan of all rows is the scan of the rows before the last, then the last row's. */
  lemma ScanLast(rows: seq<string>, ch: char)
    requires rows != []
    ensures var n := |rows| - 1; var r0, t := Scan(rows[..n], ch), RowScan(rows[n], n, ch);
      Scan(rows, ch) == r0 + t &&
      (forall k :: 0 <= k < |r0| ==> Scan(rows, ch)[k] == r0[k]) &&
      (forall k :: 0 <= k < |t| ==> Scan(rows, ch)[|r0| + k] == t[k])
  {
  }

  /** Scan lists cells holding ch. */
  lemma {:induction false} ScanSound(rows: seq<string>, ch: char)
    ensures forall k :: 0 <= k < |Scan(rows, ch)| ==> InGrid(rows, Scan(rows, ch)[k], ch)
    decreases |rows|
  {
    if rows != [] {
      var n := |rows| - 1;
      var init := rows[..n];
      ScanSound(init, ch);
      RowScanSound(rows[n], n, ch);
      ScanLast(rows, ch);
      var r0, t, r := Scan(init, ch), RowScan(rows[n], n, ch), Scan(rows, ch);
      forall k | 0 <= k < |r|
        ensures InGrid(rows, r[k], ch)
      {
        if k < |r0| {
          assert r[k] == r0[k] && InGrid(init, r0[k], ch);
          assert init[r0[k].0] == rows[r0[k].0];
        } else {
          assert r[k] == t[k - |r0|];
        }
      }
    }
  }

  /** Scan lists cells in scan order. */
  lemma {:induction false} ScanSorted(rows: seq<string>, ch: char)
    ensures forall a, b :: 0 <= a < b < |Scan(rows, ch)| ==> Before(Scan(rows, ch)[a], Scan(rows, ch)[b])
    decreases |rows|
  {
    if rows != [] {
      var n := |rows| - 1;
      var init := rows[..n];
      ScanSorted(init, ch);
      ScanSound(init, ch);
      RowScanSound(rows[n], n, ch);
      var r0, t, r := Scan(init, ch), RowScan(rows[n], n, ch), Scan(rows, ch);
      assert r == r0 + t;
      forall a, b | 0 <= a < b < |r|
        ensures Before(r[a], r[b])
      {
        if b < |r0| {
          assert r[a] == r0[a] && r[b] == r0[b];
        } else if a < |r0| {
          assert r[a] == r0[a] && InGrid(init, r0[a], ch);
          assert r[b] == t[b - |r0|];
        } else {
          assert r[a] == t[a - |r0|] && r[b] == t[b - |r0|];
        }
      }
    }
  }

  /** Scan misses no cell holding ch. */
  lemma {:induction false} ScanComplete(rows: seq<string>, ch: char, i: int, j: int)
    requires InGrid(rows, (i, j), ch)
    ensures (i, j) in Scan(rows, ch)
    decreases |rows|
  {
    var n := |rows| - 1;
    var init := rows[..n];
    assert Scan(rows, ch) == Scan(init, ch) + RowScan(rows[n], n, ch);
    if i < n {
      assert init[i] == rows[i];
      ScanComplete(init, ch, i, j);
    } else {
      RowScanComplete(rows[n], n, ch, j);
    }
  }

  /** The cells a map cell covers: itself, or columns 2j and 2j+1 on the double-width map. */
  function Widen(c: Cell, wide: bool): seq<Cell> {
    if wide then [(c.0, 2 * c.1), (c.0, 2 * c.1 + 1)] else [c]
  }

  /** The cells of Widen, as a set. */
  function WidenSet(c: Cell, wide: bool): set<Cell> {
    if wide then {(c.0, 2 * c.1), (c.0, 2 * c.1 + 1)} else {c}
  }

  /** The walls: every cell covered by a '#'. */
  function WallSet(cells: seq<Cell>, wide: bool): set<Cell> {
    if cells == [] then {} else WallSet(cells[..|cells| - 1], wide) + WidenSet(cells[|cells| - 1], wide)
  }

  /** The boxes: the k-th 'O' met is box k. */
  function BoxMap(cells: seq<Cell>, wide: bool): (r: map<nat, seq<Cell>>)
    ensures forall k: nat :: k in r <==> k < |cells|
  {
    map k: nat | k < |cells| :: Widen(cells[k], wide)
  }

  /** The robot: the last '@' met, or none. */
  function LastRobot(cells: seq<Cell>, wide: bool): Option<Cell> {
    if cells == [] then None else Some(Widen(cells[|cells| - 1], wide)[0])
  }

  /** The cells holding ch met before column j of row i. */
  function Seen(rows: seq<string>, i: nat, j: nat, ch: char): seq<Cell>
    requires i < |rows| && j <= |rows[i]|
  {
    Scan(rows[..i], ch) + RowScan(rows[i][..j], i, ch)
  }

  lemma SeenStep(rows: seq<string>, i: nat, j: nat, ch: char)
    requires i < |rows| && j < |rows[i]|
    ensures Seen(rows, i, j + 1, ch) == Seen(rows, i, j, ch) + (if rows[i][j] == ch then [(i, j)] else [])
  {
    assert rows[i][..j + 1][..j] == rows[i][..j];
  }

  lemma SeenRow(rows: seq<string>, i: nat, ch: char)
    requires i < |rows|
    ensures Seen(rows, i, 0, ch) == Scan(rows[..i], ch)
    ensures Seen(rows, i, |rows[i]|, ch) == Scan(rows[..i + 1], ch)
  {
    assert rows[i][..0] == [];
    assert rows[..i + 1][..i] == rows[..i];
    assert rows[i][..|rows[i]|] == rows[i];
  }

  lemma WallSetStep(cells: seq<Cell>, c: Cell, wide: bool)
    ensures WallSet(cells + [c], wide) == WallSet(cells, wide) + WidenSet(c, wide)
  {
    assert (cells + [c])[..|cells|] == cells;
  }

  lemma BoxMapStep(cells: seq<Cell>, c: Cell, wide: bool)
    ensures BoxMap(cells + [c], wide) == BoxMap(cells, wide)[|cells| := Widen(c, wide)]
  {
  }

  /**
   * parse_warehouse: the walls, the numbered boxes and the robot of a map,
   * each cell stretched to two columns when wide.
   */
  method ParseWarehouse(text: string, wide: bool) returns (walls: set<Cell>, boxes: map<nat, seq<Cell>>, robot: Option<Cell>)
    ensures var rows := SplitOn(text, "\n");
      walls == WallSet(Scan(rows, '#'), wide) && boxes == BoxMap(Scan(rows, 'O'), wide) && robot == LastRobot(Scan(rows, '@'), wide)
  {
    var rows := SplitOn(text, "\n");
    walls, boxes, robot := {}, map[], None;
    var id := 0;
    // the cells met so far holding '#', 'O' and '@'
    ghost var sw: seq<Cell>, so: seq<Cell>, sr: seq<Cell> := [], [], [];
    for i := 0 to |rows|
      invariant sw == Scan(rows[..i], '#') && so == Scan(rows[..i], 'O') && sr == Scan(rows[..i], '@')
      invariant walls == WallSet(sw, wide) && boxes == BoxMap(so, wide) && id == |so| && robot == LastRobot(sr, wide)
    {
      var row := rows[i];
      SeenRow(rows, i, '#');
      SeenRow(rows, i, 'O');
      SeenRow(rows, i, '@');
      for j := 0 to |row|
        invariant sw == Seen(rows, i, j, '#') && so == Seen(rows, i, j, 'O') && sr == Seen(rows, i, j, '@')
        invariant walls == WallSet(sw, wide) && boxes == BoxMap(so, wide) && id == |so| && robot == LastRobot(sr, wide)
      {
        var cell := row[j];
        SeenStep(rows, i, j, '#');
        SeenStep(rows, i, j, 'O');
        SeenStep(rows, i, j, '@');
        if cell == '#' {
          WallSetStep(sw, (i, j), wide);
          walls := walls + if wide then {(i, 2 * j), (i, 2 * j + 1)} else {(i, j)};
          sw := sw + [(i, j)];
        } else if cell == 'O' {
          BoxMapStep(so, (i, j), wide);
          boxes := boxes[id := if wide then [(i, 2 * j), (i, 2 * j + 1)] else [(i, j)]];
          id := id + 1;
          so := so + [(i, j)];
        } else if cell == '@' {
          robot := Some(if wide then (i, 2 * j) else (i, j));
          sr := sr + [(i, j)];
        }
      }
    }
    assert rows[..|rows|] == rows;
  }

  /** The naturals below n. */
  ghost function Range(n: nat): set<nat> {
    if n == 0 then {} else Range(n - 1) + {n - 1}
  }

  lemma {:induction false} RangeCard(n: nat)
    ensures forall k: nat :: k in Range(n) <==> k < n
    ensures |Range(n)| == n
  {
    if n > 0 {
      var r0 := Range(n - 1);
      RangeCard(n - 1);
      assert Range(n) == r0 + {n - 1};
      forall k: nat
        ensures k in Range(n) <==> k < n
      {
        assert k in Range(n) <==> k in r0 || k == n - 1;
      }
    }
  }

  lemma BoxMapNumbered(cells: seq<Cell>, wide: bool)
    ensures Numbered(BoxMap(cells, wide))
  {
    RangeCard(|cells|);
    assert BoxMap(cells, wide).Keys == Range(|cells|);
  }

  /** Boxes made from distinct cells share no cell. */
  lemma BoxMapDisjoint(cells: seq<Cell>, wide: bool)
    requires forall a, b :: 0 <= a < b < |cells| ==> Before(cells[a], cells[b])
    ensures Disjoint(BoxMap(cells, wide))
  {
    var b := BoxMap(cells, wide);
    forall a, c, x, y | a in b && c in b && 0 <= x < |b[a]| && 0 <= y < |b[c]| && b[a][x] == b[c][y]
      ensures a == c
    {
      assert cells[a] == cells[c];
    }
  }

  /**
   * The boxes parse_warehouse returns are numbered 0, 1, ... in scan order,
   * disjoint, of one cell, or of two side by side at columns 2j and 2j+1 when
   * wide -- what part1 and part2 need.
   */
  lemma ParsedBoxes(rows: seq<string>, wide: bool)
    ensures var cells, b := Scan(rows, 'O'), BoxMap(Scan(rows, 'O'), wide);
      Numbered(b) && Disjoint(b) && Shaped(b) &&
      forall k :: k in b ==>
        |b[k]| == (if wide then 2 else 1) && InGrid(rows, cells[k], 'O') &&
        b[k][0] == (cells[k].0, if wide then 2 * cells[k].1 else cells[k].1)
  {
    var cells, b := Scan(rows, 'O'), BoxMap(Scan(rows, 'O'), wide);
    ScanSorted(rows, 'O');
    BoxMapNumbered(cells, wide);
    BoxMapDisjoint(cells, wide);
    BoxMapCells(rows, wide);
  }

  /** Each parsed box covers the cells of its 'O'. */
  lemma BoxMapCells(rows: seq<string>, wide: bool)
    ensures var cells, b := Scan(rows, 'O'), BoxMap(Scan(rows, 'O'), wide);
      forall k :: k in b ==>
        ShapedBox(b[k]) && |b[k]| == (if wide then 2 else 1) && InGrid(rows, cells[k], 'O') &&
        b[k][0] == (cells[k].0, if wide then 2 * cells[k].1 else cells[k].1)
  {
    var cells, b := Scan(rows, 'O'), BoxMap(Scan(rows, 'O'), wide);
    ScanSound(rows, 'O');
    forall k | k in b
      ensures ShapedBox(b[k]) && |b[k]| == (if wide then 2 else 1) && InGrid(rows, cells[k], 'O') &&
        b[k][0] == (cells[k].0, if wide then 2 * cells[k].1 else cells[k].1)
    {
      assert b[k] == Widen(cells[k], wide);
    }
  }

  /** A map cell c is a wall exactly when the character it comes from is '#'. */
  predicate IsWallAt(rows: seq<string>, c: Cell, wide: bool) {
    if wide then 0 <= c.1 && InGrid(rows, (c.0, c.1 / 2), '#') else InGrid(rows, c, '#')
  }

  lemma {:induction false} WallSetMember(cells: seq<Cell>, wide: bool, c: Cell)
    ensures c in WallSet(cells, wide) <==> exists k :: 0 <= k < |cells| && c in WidenSet(cells[k], wide)
    decreases |cells|
  {
    if cells != [] {
      var init := cells[..|cells| - 1];
      WallSetMember(init, wide, c);
      if c in WallSet(init, wide) {
        var k :| 0 <= k < |init| && c in WidenSet(init[k], wide);
        assert cells[k] == init[k];
      }
      if exists k :: 0 <= k < |cells| && c in WidenSet(cells[k], wide) {
        var k :| 0 <= k < |cells| && c in WidenSet(cells[k], wide);
        if k < |init| {
          assert init[k] == cells[k];
        }
      }
    }
  }

  /** parse_warehouse's walls: column j becomes 2j and 2j+1 when wide. */
  lemma ParsedWalls(rows: seq<string>, wide: bool, c: Cell)
    ensures c in WallSet(Scan(rows, '#'), wide) <==> IsWallAt(rows, c, wide)
  {
    var cells := Scan(rows, '#');
    WallSetMember(cells, wide, c);
    if IsWallAt(rows, c, wide) {
      var d := if wide then (c.0, c.1 / 2) else c;
      ScanComplete(rows, '#', d.0, d.1);
      var k :| 0 <= k < |cells| && cells[k] == d;
      assert c in WidenSet(cells[k], wide);
    }
    if c in WallSet(cells, wide) {
      ScanSound(rows, '#');
      var k :| 0 <= k < |cells| && c in WidenSet(cells[k], wide);
      assert InGrid(rows, cells[k], '#');
    }
  }

  /** No '@' is scanned only when the map has none. */
  lemma NoRobot(rows: seq<string>)
    requires Scan(rows, '@') == []
    ensures forall i, j :: !InGrid(rows, (i, j), '@')
  {
    forall i, j | InGrid(rows, (i, j), '@')
      ensures false
    {
      ScanComplete(rows, '@', i, j);
    }
  }

  /** The last '@' scanned is the latest in scan order. */
  lemma LatestRobot(rows: seq<string>, d: Cell)
    requires Scan(rows, '@') != [] && InGrid(rows, d, '@')
    ensures var cells := Scan(rows, '@'); d == cells[|cells| - 1] || Before(d, cells[|cells| - 1])
  {
    var cells := Scan(rows, '@');
    ScanComplete(rows, '@', d.0, d.1);
    var k :| 0 <= k < |cells| && cells[k] == (d.0, d.1);
    if k < |cells| - 1 {
      ScanSorted(rows, '@');
      assert Before(cells[k], cells[|cells| - 1]);
    }
  }

  /** parse_warehouse's robot: the last '@' of the scan, at column 2j when wide; none without one. */
  lemma ParsedRobot(rows: seq<string>, wide: bool)
    ensures LastRobot(Scan(rows, '@'), wide) == None <==> forall i, j :: !InGrid(rows, (i, j), '@')
    ensures LastRobot(Scan(rows, '@'), wide) != None ==>
      exists c :: InGrid(rows, c, '@') && LastRobot(Scan(rows, '@'), wide) == Some((c.0, if wide then 2 * c.1 else c.1)) &&
        forall d :: InGrid(rows, d, '@') ==> d == c || Before(d, c)
  {
    var cells := Scan(rows, '@');
    if cells != [] {
      ScanSound(rows, '@');
      var c := cells[|cells| - 1];
      assert InGrid(rows, c, '@');
      forall d | InGrid(rows, d, '@')
        ensures d == c || Before(d, c)
      {
        LatestRobot(rows, d);
      }
    } else {
      NoRobot(rows);
    }
  }
}
