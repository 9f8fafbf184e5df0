/** Day 14: Restroom Redoubt -- robots moving on a wrapping map, and the safety factor of its quadrants. */
module Day14 {
  import opened Wrappers
  import opened PyText

  /** A robot: its position (x, y), then its velocity (vx, vy). */
  type Robot = ((int, int), (int, int))

  // ---------------------------------------------------------------------------
  // parse_robot
  // ---------------------------------------------------------------------------

  /** A field without its two-character tag, as pos_str[2:] takes it: the tag itself is never checked. */
  function Untag(s: string): string {
    if |s| >= 2 then s[2..] else []
  }

  /** parse_robot; None where the source raises ValueError. */
  function ParseRobot(line: string): Option<Robot> {
    var fields := Words(line);
    if |fields| != 2 then None
    else match (ParsePair(Untag(fields[0])), ParsePair(Untag(fields[1])))
      case (Some(p), Some(v)) => Some((p, v))
      case _ => None
  }

  /** A tagged field "p=x,y" or "v=x,y". */
  function Field(tag: string, a: int, b: int): string {
    tag + Show(a) + "," + Show(b)
  }

  /** The line "p=x,y v=vx,vy" that describes robot r. */
  function Format(r: Robot): string {
    Field("p=", r.0.0, r.0.1) + " " + Field("v=", r.1.0, r.1.1)
  }

  /** Untag takes a two-character tag off "u,w" again. */
  lemma UntagPair(tag: string, u: string, w: string)
    requires |tag| == 2
    ensures Untag(tag + u + "," + w) == u + "," + w
  {
    assert tag + u + "," + w == tag + (u + "," + w);
  }

  /** A tagged field is one word. */
  lemma FieldWord(tag: string, a: int, b: int)
    requires |tag| == 2 && NoSpace(tag)
    ensures Field(tag, a, b) != [] && NoSpace(Field(tag, a, b))
  {
  }

  /** The pair of a tagged field reads back. */
  lemma FieldPair(tag: string, q: (int, int))
    requires |tag| == 2
    ensures ParsePair(Untag(Field(tag, q.0, q.1))) == Some(q)
  {
    UntagPair(tag, Show(q.0), Show(q.1));
    ParsePairShow(q.0, q.1);
  }

  /** Two words separated by a space, then trailing white space, split into the two. */
  lemma TwoWords(p: string, v: string, tail: string)
    requires p != [] && NoSpace(p) && v != [] && NoSpace(v) && AllSpace(tail)
    ensures Words(p + " " + v + tail) == [p, v]
  {
    assert p + " " + v + tail == p + " " + (v + tail);
    WordsOfJoin(p, " ", v + tail);
    if tail == [] {
      WordsOfJoin(v, [], []);
      assert v + [] + [] == v + tail;
    } else {
      WordsOfJoin(v, tail, []);
      assert v + tail + [] == v + tail;
    }
  }

  /** The line of a robot splits into its two fields. */
  lemma FormatWords(r: Robot, tail: string)
    requires AllSpace(tail)
    ensures Words(Format(r) + tail) == [Field("p=", r.0.0, r.0.1), Field("v=", r.1.0, r.1.1)]
  {
    FieldWord("p=", r.0.0, r.0.1);
    FieldWord("v=", r.1.0, r.1.1);
    TwoWords(Field("p=", r.0.0, r.0.1), Field("v=", r.1.0, r.1.1), tail);
  }

  /** Two words whose pairs parse make a robot. */
  lemma ParseFields(line: string, p: string, v: string, pos: (int, int), vel: (int, int))
    requires Words(line) == [p, v]
    requires ParsePair(Untag(p)) == Some(pos) && ParsePair(Untag(v)) == Some(vel)
    ensures ParseRobot(line) == Some((pos, vel))
  {
  }

  /** parse_robot reads back the line of a robot, whatever white space (its newline, say) ends it. */
  lemma ParseFormat(r: Robot, tail: string)
    requires AllSpace(tail)
    ensures ParseRobot(Format(r) + tail) == Some(r)
  {
    assert r == (r.0, r.1);
    FormatWords(r, tail);
    FieldPair("p=", r.0);
    FieldPair("v=", r.1);
    ParseFields(Format(r) + tail, Field("p=", r.0.0, r.0.1), Field("v=", r.1.0, r.1.1), r.0, r.1);
  }

  // ---------------------------------------------------------------------------
  // evolve_map
  // ---------------------------------------------------------------------------

  /** Python's a % b: the remainder takes the sign of b. */
  function PyMod(a: int, b: int): (r: int)
    requires b != 0
    ensures b > 0 ==> 0 <= r < b
    ensures b < 0 ==> b < r <= 0
  {
    if b > 0 then a % b else -((-a) % (-b))
  }

  lemma {:induction false} MulAtLeast(m: int, d: int)
    requires m > 0 && d >= 1
    ensures m * d >= m
    decreases d
  {
    if d > 1 {
      MulAtLeast(m, d - 1);
      assert m * d == m * (d - 1) + m;
    }
  }

  /** The quotient and remainder of Euclidean division are unique. */
  lemma Euclid(a: int, m: int, q: int, r: int)
    requires m > 0 && 0 <= r < m && a == m * q + r
    ensures a % m == r
  {
    var q', r' := a / m, a % m;
    assert a == m * q' + r';
    if q > q' {
      MulAtLeast(m, q - q');
    } else if q < q' {
      MulAtLeast(m, q' - q);
    }
  }

  /** Reducing before adding gives the same remainder. */
  lemma ModAdd(p: int, q: int, m: int)
    requires m > 0
    ensures (p % m + q) % m == (p + q) % m
  {
    var k := p / m;
    var x := p % m + q;
    var j := x / m;
    assert p == m * k + p % m;
    assert x == m * j + x % m;
    assert m * k + m * j == m * (k + j);
    Euclid(p + q, m, k + j, x % m);
  }

  lemma PyModAdd(p: int, q: int, m: int)
    requires m != 0
    ensures PyMod(PyMod(p, m) + q, m) == PyMod(p + q, m)
  {
    if m > 0 {
      ModAdd(p, q, m);
    } else {
      ModAdd(-p, -q, -m);
      assert -PyMod(p, m) - q == (-p) % (-m) + -q;
    }
  }

  /** One robot after iters steps on a map of the given size. */
  function Move(r: Robot, size: (int, int), iters: int): (r': Robot)
    requires size.0 != 0 && size.1 != 0
    ensures r'.1 == r.1
    ensures size.0 > 0 && size.1 > 0 ==> 0 <= r'.0.0 < size.0 && 0 <= r'.0.1 < size.1
  {
    var ((x, y), (vx, vy)) := r;
    ((PyMod(x + vx * iters, size.0), PyMod(y + vy * iters, size.1)), (vx, vy))
  }

  /** Moving a steps and then b steps is moving a + b steps. */
  lemma MoveTwice(r: Robot, size: (int, int), a: int, b: int)
    requires size.0 != 0 && size.1 != 0
    ensures Move(Move(r, size, a), size, b) == Move(r, size, a + b)
  {
    var ((x, y), (vx, vy)) := r;
    PyModAdd(x + vx * a, vx * b, size.0);
    PyModAdd(y + vy * a, vy * b, size.1);
    assert x + vx * a + vx * b == x + vx * (a + b);
    assert y + vy * a + vy * b == y + vy * (a + b);
  }

  /** Every robot after iters steps, in order. */
  function Evolved(robots: seq<Robot>, size: (int, int), iters: int): (r: seq<Robot>)
    requires size.0 != 0 && size.1 != 0
    ensures |r| == |robots|
    ensures forall k :: 0 <= k < |r| ==> r[k] == Move(robots[k], size, iters)
  {
    seq(|robots|, k requires 0 <= k < |robots| => Move(robots[k], size, iters))
  }

  /** evolve_map: the list the source builds robot by robot. */
  method EvolveMap(robots: seq<Robot>, size: (int, int), iters: int) returns (evolved: seq<Robot>)
    requires size.0 != 0 && size.1 != 0
    ensures evolved == Evolved(robots, size, iters)
  {
    evolved := [];
    for k := 0 to |robots|
      invariant evolved == Evolved(robots[..k], size, iters)
    {
      var ((x, y), (vx, vy)) := robots[k];
      var x' := PyMod(x + vx * iters, size.0);
      var y' := PyMod(y + vy * iters, size.1);
      evolved := evolved + [((x', y'), (vx, vy))];
    }
    assert robots[..|robots|] == robots;
  }

  /** Evolving by a and then by b is evolving by a + b. */
  lemma EvolvedTwice(robots: seq<Robot>, size: (int, int), a: int, b: int)
    requires size.0 != 0 && size.1 != 0
    ensures Evolved(Evolved(robots, size, a), size, b) == Evolved(robots, size, a + b)
  {
    forall k | 0 <= k < |robots|
      ensures Evolved(Evolved(robots, size, a), size, b)[k] == Evolved(robots, size, a + b)[k]
    {
      MoveTwice(robots[k], size, a, b);
    }
  }

  // ---------------------------------------------------------------------------
  // part1: the safety factor
  // ---------------------------------------------------------------------------

  datatype Quadrant = UL | UR | BL | BR

  /**
   * The quadrant a position lies in, None on the middle column or row.  The
   * source's size // 2 floors, as Dafny's division by a positive divisor does.
   */
  function QuadrantOf(p: (int, int), size: (int, int)): (q: Option<Quadrant>)
    ensures q.None? <==> p.0 == size.0 / 2 || p.1 == size.1 / 2
    ensures q == Some(UL) <==> p.0 < size.0 / 2 && p.1 < size.1 / 2
    ensures q == Some(UR) <==> p.0 > size.0 / 2 && p.1 < size.1 / 2
    ensures q == Some(BL) <==> p.0 < size.0 / 2 && p.1 > size.1 / 2
    ensures q == Some(BR) <==> p.0 > size.0 / 2 && p.1 > size.1 / 2
  {
    var mx, my := size.0 / 2, size.1 / 2;
    if p.0 < mx then
      if p.1 < my then Some(UL) else if p.1 > my then Some(BL) else None
    else if p.0 > mx then
      if p.1 < my then Some(UR) else if p.1 > my then Some(BR) else None
    else None
  }

  /** The number of the first n robots whose position lies in quadrant q (q == None: on the middle lines). */
  function Count(robots: seq<Robot>, n: nat, size: (int, int), q: Option<Quadrant>): nat
    requires n <= |robots|
  {
    if n == 0 then 0
    else Count(robots, n - 1, size, q) + (if QuadrantOf(robots[n - 1].0, size) == q then 1 else 0)
  }

  /** Every robot is counted once: in one quadrant, or on the middle lines. */
  lemma {:induction false} CountPartition(robots: seq<Robot>, n: nat, size: (int, int))
    requires n <= |robots|
    ensures Count(robots, n, size, Some(UL)) + Count(robots, n, size, Some(UR)) + Count(robots, n, size, Some(BL)) +
            Count(robots, n, size, Some(BR)) + Count(robots, n, size, None) == n
  {
    if n > 0 {
      CountPartition(robots, n - 1, size);
    }
  }

  /** The safety factor after 100 steps: the product of the four quadrant counts. */
  ghost function SafetyFactor(robots: seq<Robot>, size: (int, int)): int
    requires size.0 != 0 && size.1 != 0
  {
    var e := Evolved(robots, size, 100);
    Count(e, |e|, size, Some(UL)) * Count(e, |e|, size, Some(UR)) *
    Count(e, |e|, size, Some(BL)) * Count(e, |e|, size, Some(BR))
  }

  /** part1: robots on the middle column or row are in no quadrant and not counted. */
  method Part1(robots: seq<Robot>, size: (int, int)) returns (factor: int)
    requires size.0 != 0 && size.1 != 0
    ensures factor == SafetyFactor(robots, size)
  {
    var evolved := EvolveMap(robots, size, 100);
    var ul, ur, bl, br := 0, 0, 0, 0;
    for k := 0 to |evolved|
      invariant ul == Count(evolved, k, size, Some(UL)) && ur == Count(evolved, k, size, Some(UR))
      invariant bl == Count(evolved, k, size, Some(BL)) && br == Count(evolved, k, size, Some(BR))
    {
      var (x, y) := evolved[k].0;
      if x < size.0 / 2 {
        if y < size.1 / 2 {
          ul := ul + 1;
        } else if y > size.1 / 2 {
          bl := bl + 1;
        }
      } else if x > size.0 / 2 {
        if y < size.1 / 2 {
          ur := ur + 1;
        } else if y > size.1 / 2 {
          br := br + 1;
        }
      }
    }
    factor := ul * ur * bl * br;
  }

  /** The twelve-robot example of the puzzle statement, on its 11 by 7 map. */
  function Example(): seq<Robot> {
    [((0, 4), (3, -3)), ((6, 3), (-1, -3)), ((10, 3), (-1, 2)), ((2, 0), (2, -1)),
     ((0, 0), (1, 3)), ((3, 0), (-2, -2)), ((7, 6), (-1, -3)), ((3, 0), (-1, -2)),
     ((9, 3), (2, 3)), ((7, 3), (-1, 2)), ((2, 4), (2, -3)), ((9, 5), (-3, -3))]
  }

  /** The example robots after 100 steps. */
  function Example100(): seq<Robot> {
    [((3, 5), (3, -3)), ((5, 4), (-1, -3)), ((9, 0), (-1, 2)), ((4, 5), (2, -1)),
     ((1, 6), (1, 3)), ((1, 3), (-2, -2)), ((6, 0), (-1, -3)), ((2, 3), (-1, -2)),
     ((0, 2), (2, 3)), ((6, 0), (-1, 2)), ((4, 5), (2, -3)), ((6, 6), (-3, -3))]
  }

  lemma ExampleMoves()
    ensures Evolved(Example(), (11, 7), 100) == Example100()
  {
  }

  lemma ExampleCounts()
    ensures Count(Example100(), 12, (11, 7), Some(UL)) == 1 && Count(Example100(), 12, (11, 7), Some(UR)) == 3
    ensures Count(Example100(), 12, (11, 7), Some(BL)) == 4 && Count(Example100(), 12, (11, 7), Some(BR)) == 1
  {
    assert Count(Example100(), 6, (11, 7), Some(UL)) == 0;
    assert Count(Example100(), 6, (11, 7), Some(UR)) == 1;
    assert Count(Example100(), 6, (11, 7), Some(BL)) == 3;
    assert Count(Example100(), 6, (11, 7), Some(BR)) == 0;
  }

  /** The safety factor of the example is 12. */
  lemma ExampleFactor()
    ensures SafetyFactor(Example(), (11, 7)) == 12
  {
    ExampleMoves();
    ExampleCounts();
  }
}
