/** Day 4: Ceres Search -- counting XMAS in eight directions, and crossed MAS.
    The grid is a sequence of equal-length rows without line terminators.
    The worked example gives 18 and 9. */
module Day4 {

  /** The eight compass directions of cross_search (day4.py:11-12). */
  datatype Dir = U | UL | L | DL | D | DR | R | UR

  function DI(d: Dir): (r: int) ensures -1 <= r <= 1 {
    match d
    case U => -1 case UL => -1 case L => 0 case DL => 1
    case D => 1 case DR => 1 case R => 0 case UR => -1
  }

  function DJ(d: Dir): (r: int) ensures -1 <= r <= 1 {
    match d
    case U => 0 case UL => -1 case L => -1 case DL => -1
    case D => 0 case DR => 1 case R => 1 case UR => 1
  }

  /** The eight entries are distinct unit steps. */
  lemma DirectionsAreDistinctUnitSteps(d1: Dir, d2: Dir)
    ensures -1 <= DI(d1) <= 1 && -1 <= DJ(d1) <= 1 && (DI(d1), DJ(d1)) != (0, 0)
    ensures (DI(d1), DJ(d1)) == (DI(d2), DJ(d2)) ==> d1 == d2
  {
  }

  /** x moved k unit steps of sign s: x + k*s, written so that it stays linear. */
  function Off(x: int, s: int, k: int): int
  {
    if s > 0 then x + k else if s < 0 then x - k else x
  }

  ghost predicate Rect(p: seq<string>) {
    |p| > 0 && forall i :: 0 <= i < |p| ==> |p[i]| == |p[0]|
  }

  predicate InGrid(p: seq<string>, i: int, j: int) {
    0 <= i < |p| && 0 <= j < |p[i]|
  }

  /** The letter at (i, j), or a blank outside the grid. */
  function CharAt(p: seq<string>, i: int, j: int): char {
    if InGrid(p, i, j) then p[i][j] else ' '
  }

  /** Cells (i + k*di, j + k*dj) for k = 1..|t| spell t. */
  ghost predicate Spells(p: seq<string>, i: int, j: int, d: Dir, t: string) {
    forall k :: 1 <= k <= |t| ==> CharAt(p, Off(i, DI(d), k), Off(j, DJ(d), k)) == t[k - 1]
  }

  /** cross_search (day4.py:10-18): steps from (i, j) and compares letter by letter. */
  method CrossSearch(p: seq<string>, i: int, j: int, d: Dir, t: string) returns (found: bool)
    requires forall k :: 1 <= k <= |t| ==> InGrid(p, Off(i, DI(d), k), Off(j, DJ(d), k))
    ensures found <==> Spells(p, i, j, d, t)
  {
    var ii, jj := i, j;
    var k := 0;
    while k < |t|
      invariant 0 <= k <= |t|
      invariant ii == Off(i, DI(d), k) && jj == Off(j, DJ(d), k)
      invariant forall q :: 1 <= q <= k ==> CharAt(p, Off(i, DI(d), q), Off(j, DJ(d), q)) == t[q - 1]
    {
      assert Off(i, DI(d), k + 1) == ii + DI(d) && Off(j, DJ(d), k + 1) == jj + DJ(d);
      ii, jj := ii + DI(d), jj + DJ(d);
      k := k + 1;
      assert InGrid(p, ii, jj);
      if p[ii][jj] != t[k - 1] {
        assert CharAt(p, Off(i, DI(d), k), Off(j, DJ(d), k)) != t[k - 1];
        return false;
      }
    }
    return true;
  }

  /** The three steps after (i, j) in direction d stay inside the grid; exactly what
      part1's guards on i and j test. */
  predicate Fits(p: seq<string>, i: int, j: int, d: Dir)
    requires Rect(p) && InGrid(p, i, j)
  {
    0 <= i + 3 * DI(d) < |p| && 0 <= j + 3 * DJ(d) < |p[0]|
  }

  lemma FitsKeepsReadsInside(p: seq<string>, i: int, j: int, d: Dir)
    requires Rect(p) && InGrid(p, i, j) && Fits(p, i, j, d)
    ensures forall k :: 1 <= k <= 3 ==> InGrid(p, Off(i, DI(d), k), Off(j, DJ(d), k))
  {
    forall k | 1 <= k <= 3 ensures InGrid(p, Off(i, DI(d), k), Off(j, DJ(d), k)) {
      assert |p[Off(i, DI(d), k)]| == |p[0]|;
    }
  }

  ghost function DirMatch(p: seq<string>, i: int, j: int, d: Dir): nat
    requires Rect(p) && InGrid(p, i, j)
  {
    if Fits(p, i, j, d) && Spells(p, i, j, d, "MAS") then 1 else 0
  }

  /** XMAS occurrences starting from the cell (i, j): one per fitting direction. */
  ghost function CellMatches(p: seq<string>, i: int, j: int): (c: nat)
    requires Rect(p) && InGrid(p, i, j)
    ensures c <= 8
    ensures p[i][j] != 'X' ==> c == 0
  {
    if p[i][j] != 'X' then 0
    else
      (DirMatch(p, i, j, U) + DirMatch(p, i, j, UL) + DirMatch(p, i, j, L) + DirMatch(p, i, j, DL)
       + DirMatch(p, i, j, D) + DirMatch(p, i, j, DR) + DirMatch(p, i, j, R) + DirMatch(p, i, j, UR))
  }

  method CountDir(p: seq<string>, i: int, j: int, d: Dir) returns (c: nat)
    requires Rect(p) && InGrid(p, i, j) && Fits(p, i, j, d)
    ensures c == DirMatch(p, i, j, d)
  {
    FitsKeepsReadsInside(p, i, j, d);
    var found := CrossSearch(p, i, j, d, "MAS");
    c := if found then 1 else 0;
  }

  /** The body of part1's inner loop (day4.py:33-48), with the source's guards. */
  method CountCell(p: seq<string>, i: int, j: int) returns (c: nat)
    requires Rect(p) && InGrid(p, i, j)
    ensures c == CellMatches(p, i, j)
  {
    var n, m := |p|, |p[0]|;
    c := 0;
    if p[i][j] == 'X' {
      var x;
      if i >= 3 {
        x := CountDir(p, i, j, U); c := c + x;
        if j >= 3 { x := CountDir(p, i, j, UL); c := c + x; }
      }
      assert c == DirMatch(p, i, j, U) + DirMatch(p, i, j, UL);
      ghost var c1 := c;
      if j >= 3 {
        x := CountDir(p, i, j, L); c := c + x;
        if i <= n - 4 { x := CountDir(p, i, j, DL); c := c + x; }
      }
      assert c == c1 + DirMatch(p, i, j, L) + DirMatch(p, i, j, DL);
      ghost var c2 := c;
      if i <= n - 4 {
        x := CountDir(p, i, j, D); c := c + x;
        if j <= m - 4 { x := CountDir(p, i, j, DR); c := c + x; }
      }
      assert c == c2 + DirMatch(p, i, j, D) + DirMatch(p, i, j, DR);
      ghost var c3 := c;
      if j <= m - 4 {
        x := CountDir(p, i, j, R); c := c + x;
        if i >= 3 { x := CountDir(p, i, j, UR); c := c + x; }
      }
      assert c == c3 + DirMatch(p, i, j, R) + DirMatch(p, i, j, UR);
    }
  }

  /** Matches from the first j cells of row i. */
  ghost function RowMatches(p: seq<string>, i: int, j: nat): nat
    requires Rect(p) && 0 <= i < |p| && j <= |p[0]|
  {
    if j == 0 then 0 else RowMatches(p, i, j - 1) + CellMatches(p, i, j - 1)
  }

  /** Matches from the first i rows. */
  ghost function GridMatches(p: seq<string>, i: nat): nat
    requires Rect(p) && i <= |p|
  {
    if i == 0 then 0 else GridMatches(p, i - 1) + RowMatches(p, i - 1, |p[0]|)
  }

  /** part1: the number of XMAS strings in all eight directions. */
  method Part1(p: seq<string>) returns (matches: nat)
    requires Rect(p)
    ensures matches == GridMatches(p, |p|)
  {
    matches := 0;
    var i := 0;
    while i < |p|
      invariant 0 <= i <= |p|
      invariant matches == GridMatches(p, i)
    {
      var j := 0;
      while j < |p[i]|
        invariant 0 <= j <= |p[0]| && |p[i]| == |p[0]|
        invariant matches == GridMatches(p, i) + RowMatches(p, i, j)
      {
        var c := CountCell(p, i, j);
        matches := matches + c;
        j := j + 1;
      }
      i := i + 1;
    }
  }

  ghost function RowX(p: seq<string>, i: int, j: nat): nat
    requires 0 <= i < |p| && j <= |p[i]|
  {
    if j == 0 then 0 else RowX(p, i, j - 1) + if p[i][j - 1] == 'X' then 1 else 0
  }

  ghost function GridX(p: seq<string>, i: nat): nat
    requires Rect(p) && i <= |p|
  {
    if i == 0 then 0 else GridX(p, i - 1) + RowX(p, i - 1, |p[i - 1]|)
  }

  lemma {:induction false} RowBound(p: seq<string>, i: int, j: nat)
    requires Rect(p) && 0 <= i < |p| && j <= |p[0]|
    ensures RowMatches(p, i, j) <= 8 * RowX(p, i, j)
  {
    if j > 0 { RowBound(p, i, j - 1); }
  }

  /** part1 counts at most one match per X-cell and direction. */
  lemma {:induction false} MatchesAtMostEightPerX(p: seq<string>, i: nat)
    requires Rect(p) && i <= |p|
    ensures GridMatches(p, i) <= 8 * GridX(p, i)
  {
    if i > 0 {
      MatchesAtMostEightPerX(p, i - 1);
      assert |p[i - 1]| == |p[0]|;
      RowBound(p, i - 1, |p[0]|);
    }
  }

  predicate IsMasOrSam(a: char, b: char, c: char) {
    (a == 'M' && b == 'A' && c == 'S') || (a == 'S' && b == 'A' && c == 'M')
  }

  /** The 3x3 window with top-left (i, j) shows MAS or SAM on both diagonals. */
  predicate CrossAt(p: seq<string>, i: int, j: int)
    requires Rect(p) && 0 <= i && i + 2 < |p| && 0 <= j && j + 2 < |p[0]|
  {
    IsMasOrSam(p[i][j], p[i + 1][j + 1], p[i + 2][j + 2]) &&
    IsMasOrSam(p[i][j + 2], p[i + 1][j + 1], p[i + 2][j])
  }

  /** A two-letter target is spelled by the next two cells. */
  lemma SpellsTwo(p: seq<string>, i: int, j: int, d: Dir, t: string)
    requires |t| == 2
    ensures Spells(p, i, j, d, t) <==>
      CharAt(p, i + DI(d), j + DJ(d)) == t[0] && CharAt(p, i + 2 * DI(d), j + 2 * DJ(d)) == t[1]
  {
    assert Off(i, DI(d), 1) == i + DI(d) && Off(i, DI(d), 2) == i + 2 * DI(d);
    assert Off(j, DJ(d), 1) == j + DJ(d) && Off(j, DJ(d), 2) == j + 2 * DJ(d);
  }

  /** The body of part2's inner loop (day4.py:66-78). */
  method CountWindow(p: seq<string>, i: int, j: int) returns (c: nat)
    requires Rect(p) && 0 <= i && i + 2 < |p| && 0 <= j && j + 2 < |p[0]|
    ensures c == if CrossAt(p, i, j) then 1 else 0
  {
    assert |p[i]| == |p[i + 1]| == |p[i + 2]| == |p[0]|;
    var row := p[i];
    var letter := row[j];
    if letter != 'M' && letter != 'S' { return 0; }
    var t1 := if letter == 'M' then "AS" else "AM";
    SpellsTwo(p, i, j, DR, t1);
    var first := CrossSearch(p, i, j, DR, t1);
    if !first { return 0; }
    var second := false;
    if row[j + 2] == 'M' {
      SpellsTwo(p, i, j + 2, DL, "AS");
      second := CrossSearch(p, i, j + 2, DL, "AS");
    } else if row[j + 2] == 'S' {
      SpellsTwo(p, i, j + 2, DL, "AM");
      second := CrossSearch(p, i, j + 2, DL, "AM");
    }
    c := if second then 1 else 0;
  }

  ghost function RowWindows(p: seq<string>, i: int, j: nat): nat
    requires Rect(p) && 0 <= i && i + 2 < |p| && j + 2 <= |p[0]|
  {
    if j == 0 then 0 else RowWindows(p, i, j - 1) + if CrossAt(p, i, j - 1) then 1 else 0
  }

  ghost function GridWindows(p: seq<string>, i: nat): nat
    requires Rect(p) && i + 2 <= |p| && 2 <= |p[0]|
  {
    if i == 0 then 0 else GridWindows(p, i - 1) + RowWindows(p, i - 1, |p[0]| - 2)
  }

  /** part2: the number of 3x3 windows whose two diagonals read MAS or SAM. */
  method Part2(p: seq<string>) returns (matches: nat)
    requires Rect(p)
    ensures |p| >= 2 && |p[0]| >= 2 ==> matches == GridWindows(p, |p| - 2)
    ensures |p| < 2 || |p[0]| < 2 ==> matches == 0
  {
    matches := 0;
    var n, m := |p|, |p[0]|;
    if n < 2 || m < 2 { return; }
    var i := 0;
    while i < n - 2
      invariant 0 <= i <= n - 2
      invariant matches == GridWindows(p, i)
    {
      var j := 0;
      while j < m - 2
        invariant 0 <= j <= m - 2
        invariant matches == GridWindows(p, i) + RowWindows(p, i, j)
      {
        var c := CountWindow(p, i, j);
        matches := matches + c;
        j := j + 1;
      }
      i := i + 1;
    }
  }
}
