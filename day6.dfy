/** Day 6: Guard Gallivant -- a guard walks a grid, turning clockwise at each '#',
    until it leaves the grid or repeats a state. Cells are addressed (x, y) = (column,
    row). The worked example gives 41 and 6. */
module Day6 {
  import opened Wrappers

  /** The four headings, written '^', '>', 'v', '<' in the grid. */
  datatype Dir = Up | Right | Down | Left

  datatype State = State(x: int, y: int, d: Dir)

  type Grid = seq<seq<char>>

  /** ROTATE (day6.py:11): a quarter turn clockwise. */
  function Rotate(d: Dir): Dir {
    match d
    case Up => Right
    case Right => Down
    case Down => Left
    case Left => Up
  }

  /** The column and row offsets of one step, as NEXT_X and NEXT_Y apply them. */
  function DX(d: Dir): int { match d case Left => -1 case Right => 1 case _ => 0 }
  function DY(d: Dir): int { match d case Up => -1 case Down => 1 case _ => 0 }

  /** A turn maps the step (dx, dy) to (-dy, dx), a clockwise quarter turn with rows
      growing downwards, and four turns are the identity. */
  lemma RotateIsClockwiseQuarterTurn(d: Dir)
    ensures DX(Rotate(d)) == -DY(d) && DY(Rotate(d)) == DX(d)
    ensures Rotate(d) != d
    ensures Rotate(Rotate(Rotate(Rotate(d)))) == d
  {
  }

  /** NEXT_XY (day6.py:13-15): one step to a 4-neighbour, keeping the heading; '^' and
      'v' move along the column, towards row 0 for '^', and '<' and '>' along the row,
      towards column 0 for '<'. */
  function Ahead(s: State): (r: State)
    ensures r.d == s.d
    ensures (r.x - s.x) * (r.x - s.x) + (r.y - s.y) * (r.y - s.y) == 1
    ensures r.x == s.x <==> s.d in {Up, Down}
    ensures (s.d == Up ==> r.y < s.y) && (s.d == Left ==> r.x < s.x)
  {
    State(s.x + DX(s.d), s.y + DY(s.d), s.d)
  }

  ghost predicate Rect(g: Grid) {
    |g| > 0 && forall r :: 0 <= r < |g| ==> |g[r]| == |g[0]|
  }

  /** The state's cell lies in the grid (the -1 < x < m and -1 < y < n tests). */
  predicate InB(g: Grid, s: State)
    requires |g| > 0
  {
    0 <= s.x < |g[0]| && 0 <= s.y < |g|
  }

  /** The character at (x, y), or '.' outside the grid. */
  function CellAt(g: Grid, x: int, y: int): char
    requires Rect(g)
  {
    if 0 <= y < |g| && 0 <= x < |g[0]| then g[y][x] else '.'
  }

  /** move_guard (day6.py:27-38): stepping out of the grid or onto a free cell moves
      ahead; facing a '#' turns on the spot. */
  function MoveGuard(g: Grid, s: State): (r: State)
    requires Rect(g)
    ensures r == Ahead(s) <==> !(InB(g, Ahead(s)) && CellAt(g, Ahead(s).x, Ahead(s).y) == '#')
    ensures r != Ahead(s) ==> r == State(s.x, s.y, Rotate(s.d))
  {
    var a := Ahead(s);
    if !InB(g, a) then a
    else if g[a.y][a.x] == '#' then State(s.x, s.y, Rotate(s.d))
    else a
  }

  /** The guard's state after k moves. */
  function Iter(g: Grid, s: State, k: nat): State
    requires Rect(g)
  {
    if k == 0 then s else MoveGuard(g, Iter(g, s, k - 1))
  }

  lemma {:induction false} IterAdds(g: Grid, s: State, a: nat, b: nat)
    requires Rect(g)
    ensures Iter(g, s, a + b) == Iter(g, Iter(g, s, a), b)
  {
    if b > 0 { IterAdds(g, s, a, b - 1); }
  }

  /** The guard never leaves the grid. */
  ghost predicate Trapped(g: Grid, s: State)
    requires Rect(g)
  {
    forall k: nat :: k >= 1 ==> InB(g, Iter(g, s, k))
  }

  /** The guard's first state outside the grid is the one after J moves. */
  ghost predicate Escapes(g: Grid, s: State, J: nat)
    requires Rect(g)
  {
    J >= 1 && !InB(g, Iter(g, s, J)) && forall i: nat :: 1 <= i < J ==> InB(g, Iter(g, s, i))
  }

  ghost predicate Leaves(g: Grid, s: State)
    requires Rect(g)
  {
    exists J: nat :: J >= 1 && !InB(g, Iter(g, s, J))
  }

  /** A state that repeats while the guard is inside the grid recurs forever. */
  lemma Periodic(g: Grid, s: State, i: nat, j: nat)
    requires Rect(g) && i < j && Iter(g, s, i) == Iter(g, s, j)
    requires InsideFor(g, s, j)
    ensures Trapped(g, s)
  {
    forall k: nat | k >= 1 ensures InB(g, Iter(g, s, k)) {
      InsideAt(g, s, i, j, k);
    }
  }

  lemma {:induction false} InsideAt(g: Grid, s: State, i: nat, j: nat, k: nat)
    requires Rect(g) && i < j && Iter(g, s, i) == Iter(g, s, j)
    requires InsideFor(g, s, j)
    requires k >= 1
    ensures InB(g, Iter(g, s, k))
    decreases k
  {
    if k > j {
      IterAdds(g, s, j, k - j);
      IterAdds(g, s, i, k - j);
      InsideAt(g, s, i, j, i + (k - j));
    } else {
      InsideForAll(g, s, j);
    }
  }

  /** A guard that leaves is not trapped, and the other way round. */
  lemma TrappedExcludesLeaving(g: Grid, s: State)
    requires Rect(g)
    ensures Trapped(g, s) <==> !Leaves(g, s)
  {
  }

  /** Every in-grid state. */
  ghost function AllStates(g: Grid): set<State>
    requires |g| > 0
  {
    set x: int, y: int, d: Dir | 0 <= x < |g[0]| && 0 <= y < |g| && d in {Up, Right, Down, Left} :: State(x, y, d)
  }

  /** The states of the first k + 1 steps from s. */
  ghost function Seen(g: Grid, s: State, k: nat): set<State>
    requires Rect(g)
  {
    if k == 0 then {s} else Seen(g, s, k - 1) + {Iter(g, s, k)}
  }

  /** The first k moves from s all stay inside the grid. */
  ghost predicate InsideFor(g: Grid, s: State, k: nat)
    requires Rect(g)
  {
    k == 0 || (InB(g, Iter(g, s, k)) && InsideFor(g, s, k - 1))
  }

  lemma {:induction false} InsideForAll(g: Grid, s: State, k: nat)
    requires Rect(g) && InsideFor(g, s, k)
    ensures forall t: nat :: 1 <= t <= k ==> InB(g, Iter(g, s, t))
  {
    if k > 0 { InsideForAll(g, s, k - 1); }
  }

  /** A fresh in-grid state leaves fewer unseen states. */
  lemma Fewer(g: Grid, seen: set<State>, s: State)
    requires Rect(g) && InB(g, s) && s !in seen
    ensures AllStates(g) - (seen + {s}) < AllStates(g) - seen
  {
    assert s in AllStates(g) by {
      assert s.d == Up || s.d == Right || s.d == Down || s.d == Left;
    }
  }

  lemma {:induction false} SeenHas(g: Grid, s: State, k: nat, q: State)
    requires Rect(g) && q in Seen(g, s, k)
    ensures exists i: nat :: i <= k && Iter(g, s, i) == q
  {
    if k == 0 {
      assert Iter(g, s, 0) == q;
    } else if q != Iter(g, s, k) {
      SeenHas(g, s, k - 1, q);
    }
  }

  /** Leaving the grid once rules out being trapped. */
  lemma Escaped(g: Grid, s: State, k: nat)
    requires Rect(g) && k >= 1 && !InB(g, Iter(g, s, k))
    ensures !Trapped(g, s)
  {
  }

  /** has_loop (day6.py:55-68): True iff the guard never leaves the grid. It stops
      because every pass adds an unseen in-grid state. */
  method HasLoop(g: Grid, start: State) returns (loop: bool)
    requires Rect(g)
    ensures loop <==> Trapped(g, start)
  {
    var path := {start};
    var s := start;
    ghost var k: nat := 0;
    while true
      invariant s == Iter(g, start, k)
      invariant path == Seen(g, start, k)
      invariant InsideFor(g, start, k)
      decreases AllStates(g) - path
    {
      s := MoveGuard(g, s);
      k := k + 1;
      assert s == Iter(g, start, k);
      if !InB(g, s) {
        Escaped(g, start, k);
        return false;
      }
      if s in path {
        SeenHas(g, start, k - 1, s);
        ghost var i: nat :| i <= k - 1 && Iter(g, start, i) == s;
        Periodic(g, start, i, k);
        return true;
      }
      Fewer(g, path, s);
      path := path + {s};
    }
  }

  /** path holds the states after 0 .. k moves, all of them inside the grid but the start. */
  ghost predicate Prefix(g: Grid, start: State, path: seq<State>, k: nat)
    requires Rect(g)
  {
    |path| == k + 1 && (forall i :: 0 <= i <= k ==> path[i] == Iter(g, start, i)) &&
    forall i: nat :: 1 <= i <= k ==> InB(g, Iter(g, start, i))
  }

  lemma PrefixStep(g: Grid, start: State, path: seq<State>, k: nat)
    requires Rect(g) && Prefix(g, start, path, k) && InB(g, Iter(g, start, k + 1))
    ensures Prefix(g, start, path + [Iter(g, start, k + 1)], k + 1)
  {
    var p := path + [Iter(g, start, k + 1)];
    assert forall i :: 0 <= i <= k ==> p[i] == path[i];
  }

  /** trace_path (day6.py:41-53): the states before the guard leaves, start first.
      The source loops forever on a trapped guard, so leaving is required. */
  method TracePath(g: Grid, start: State) returns (path: seq<State>)
    requires Rect(g) && Leaves(g, start)
    ensures Escapes(g, start, |path|)
    ensures forall k :: 0 <= k < |path| ==> path[k] == Iter(g, start, k)
  {
    ghost var J: nat :| J >= 1 && !InB(g, Iter(g, start, J));
    path := [start];
    var s := start;
    ghost var k: nat := 0;
    while true
      invariant k < J && s == Iter(g, start, k)
      invariant Prefix(g, start, path, k)
      decreases J - k
    {
      s := MoveGuard(g, s);
      assert s == Iter(g, start, k + 1);
      if !InB(g, s) { break; }
      PrefixStep(g, start, path, k);
      path := path + [s];
      k := k + 1;
    }
  }

  /** The first '^' in row-major order sits at column x of row y. */
  ghost predicate FirstCaret(g: Grid, x: int, y: int) {
    0 <= y < |g| && 0 <= x < |g[y]| && g[y][x] == '^' &&
    (forall r, c :: 0 <= r < y && 0 <= c < |g[r]| ==> g[r][c] != '^') &&
    (forall c :: 0 <= c < x ==> g[y][c] != '^')
  }

  ghost predicate NoCaret(g: Grid) {
    forall r, c :: 0 <= r < |g| && 0 <= c < |g[r]| ==> g[r][c] != '^'
  }

  /** locate_guard (day6.py:17-25): the first '^', or None where the source raises. */
  method LocateGuard(g: Grid) returns (r: Option<State>)
    ensures r.None? <==> NoCaret(g)
    ensures r.Some? ==> r.value.d == Up && FirstCaret(g, r.value.x, r.value.y)
  {
    var i := 0;
    while i < |g|
      invariant 0 <= i <= |g|
      invariant forall r, c :: 0 <= r < i && 0 <= c < |g[r]| ==> g[r][c] != '^'
    {
      var j := 0;
      while j < |g[i]|
        invariant 0 <= j <= |g[i]|
        invariant forall c :: 0 <= c < j ==> g[i][c] != '^'
      {
        if g[i][j] == '^' { return Some(State(j, i, Up)); }
        j := j + 1;
      }
      i := i + 1;
    }
    return None;
  }

  /** The distinct cells of the first J states. */
  ghost function Cells(g: Grid, s: State, J: nat): set<(int, int)>
    requires Rect(g)
  {
    set k: nat | k < J :: (Iter(g, s, k).x, Iter(g, s, k).y)
  }

  /** part1 (day6.py:71-77): the number of distinct cells the guard covers. */
  method Part1(g: Grid) returns (r: Option<nat>)
    requires Rect(g)
    requires forall x, y :: FirstCaret(g, x, y) ==> Leaves(g, State(x, y, Up))
    ensures r.None? <==> NoCaret(g)
    ensures r.Some? ==> exists x, y, J: nat :: FirstCaret(g, x, y) && Escapes(g, State(x, y, Up), J) &&
                          r.value == |Cells(g, State(x, y, Up), J)|
  {
    var guard := LocateGuard(g);
    if guard.None? { return None; }
    var path := TracePath(g, guard.value);
    var cells := set k | 0 <= k < |path| :: (path[k].x, path[k].y);
    assert cells == Cells(g, guard.value, |path|);
    return Some(|cells|);
  }

  /** A copy of the grid with a '#' written at (x, y), when that cell exists. */
  function Place(g: Grid, x: int, y: int): (r: Grid)
    requires Rect(g)
    ensures Rect(r) && |r| == |g| && |r[0]| == |g[0]|
    ensures forall y', x' :: CellAt(r, x', y') == if x' == x && y' == y && 0 <= y < |g| && 0 <= x < |g[0]| then '#' else CellAt(g, x', y')
  {
    if 0 <= y < |g| && 0 <= x < |g[0]| then g[y := g[y][x := '#']] else g
  }

  /** For every state but the last one inside, the cell ahead lies in the grid. */
  lemma AheadInside(g: Grid, s: State, k: nat)
    requires Rect(g) && InB(g, Iter(g, s, k + 1))
    ensures InB(g, Ahead(Iter(g, s, k)))
  {
  }

  /** The cell ahead of the guard after k moves. */
  function AheadCell(g: Grid, s: State, k: nat): (int, int)
    requires Rect(g)
  {
    (Ahead(Iter(g, s, k)).x, Ahead(Iter(g, s, k)).y)
  }

  /** That cell is free, and a '#' written there traps the guard. */
  ghost predicate Blocks(g: Grid, s: State, k: nat)
    requires Rect(g)
  {
    var c := AheadCell(g, s, k);
    CellAt(g, c.0, c.1) != '#' && Trapped(Place(g, c.0, c.1), s)
  }

  /** Cells ahead of the path (bar its last state) that are free and whose blocking
      traps the guard. */
  ghost function Obstacles(g: Grid, s: State, J: nat): set<(int, int)>
    requires Rect(g)
  {
    set k: nat | k + 1 < J && Blocks(g, s, k) :: AheadCell(g, s, k)
  }

  lemma ObstaclesGrow(g: Grid, s: State, k: nat)
    requires Rect(g)
    ensures Obstacles(g, s, k + 2) == Obstacles(g, s, k + 1) + (if Blocks(g, s, k) then {AheadCell(g, s, k)} else {})
  {
  }

  /** One pass of part2's loop: whether blocking the cell ahead of the k-th state
      traps the guard (day6.py:92-99). */
  method TryBlock(g: Grid, start: State, s: State, ghost k: nat) returns (add: bool)
    requires Rect(g) && s == Iter(g, start, k) && InB(g, Iter(g, start, k + 1))
    ensures add <==> Blocks(g, start, k)
  {
    var a := Ahead(s);
    AheadInside(g, start, k);
    if g[a.y][a.x] == '#' {
      return false;
    }
    var blocked := Place(g, a.x, a.y);
    add := HasLoop(blocked, start);
  }

  /** part2's loop over path[:-1] (day6.py:90-99). */
  method CountObstacles(g: Grid, start: State, path: seq<State>) returns (count: nat)
    requires Rect(g) && Escapes(g, start, |path|)
    requires forall k :: 0 <= k < |path| ==> path[k] == Iter(g, start, k)
    ensures count == |Obstacles(g, start, |path|)|
  {
    var candidates: set<(int, int)> := {};
    var k := 0;
    while k < |path| - 1
      invariant 0 <= k <= |path| - 1
      invariant candidates == Obstacles(g, start, k + 1)
    {
      var a := Ahead(path[k]);
      var add := TryBlock(g, start, path[k], k);
      ObstaclesGrow(g, start, k);
      if add { candidates := candidates + {(a.x, a.y)}; }
      k := k + 1;
    }
    return |candidates|;
  }

  /** part2 (day6.py:80-99): the number of distinct free cells on the guard's way whose
      blocking (in a copy of the grid) traps the guard. */
  method Part2(g: Grid) returns (r: Option<nat>)
    requires Rect(g)
    requires forall x, y :: FirstCaret(g, x, y) ==> Leaves(g, State(x, y, Up))
    ensures r.None? <==> NoCaret(g)
    ensures r.Some? ==> exists x, y, J: nat :: FirstCaret(g, x, y) && Escapes(g, State(x, y, Up), J) &&
                          r.value == |Obstacles(g, State(x, y, Up), J)|
  {
    var guard := LocateGuard(g);
    if guard.None? { return None; }
    var start := guard.value;
    var path := TracePath(g, start);
    var count := CountObstacles(g, start, path);
    assert start == State(start.x, start.y, Up);
    return Some(count);
  }
}
