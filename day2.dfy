/** Day 2: Red-Nosed Reports -- a report is safe when its levels move strictly
    in one direction by 1 to 3 each step; the dampener may forgive one level.
    The worked example gives 2 safe reports, and 4 with the dampener. */
module Day2 {
  import opened Wrappers

  function Abs(x: int): int { if x < 0 then -x else x }

  /** The sign `copysign(1, d)` takes for an integer d: zero counts as positive. */
  function Sign(d: int): int { if d >= 0 then 1 else -1 }

  /** One adjacent difference is acceptable under the direction sgn. */
  predicate StepOk(d: int, sgn: int) { 1 <= Abs(d) <= 3 && d * sgn >= 0 }

  /** The change from level k-1 to level k. */
  function Step(r: seq<int>, k: nat): int requires 1 <= k < |r| { r[k] - r[k - 1] }

  /** The direction a report commits to: that of its first step. */
  function Direction(r: seq<int>): int requires |r| >= 2 { Sign(r[1] - r[0]) }

  /** Every adjacent difference has magnitude 1..3 and the sign of the first one. */
  ghost predicate AllSteps(r: seq<int>) {
    |r| < 2 || forall k :: 1 <= k < |r| ==> StepOk(Step(r, k), Direction(r))
  }

  /** The first index k >= i at which the step r[k-1] -> r[k] fails under sgn. */
  function FirstBad(r: seq<int>, sgn: int, i: nat): (b: Option<nat>)
    requires 1 <= i <= |r|
    ensures b.None? <==> forall k :: i <= k < |r| ==> StepOk(Step(r, k), sgn)
    ensures b.Some? ==> i <= b.value < |r| && !StepOk(Step(r, b.value), sgn)
    ensures b.Some? ==> forall k :: i <= k < b.value ==> StepOk(Step(r, k), sgn)
    decreases |r| - i
  {
    if i == |r| then None
    else if !StepOk(Step(r, i), sgn) then Some(i)
    else FirstBad(r, sgn, i + 1)
  }

  /** Python's `l[k]` for -|l| <= k < |l|: a negative index counts from the end. */
  function PyIndex(l: seq<int>, k: int): int
    requires -|l| <= k < |l|
  {
    if k >= 0 then l[k] else l[|l| + k]
  }

  /** is_safe as written (day2.py:13-23); the source indexes report[1], so it needs two levels. */
  function IsSafe(r: seq<int>, dampener: bool): bool
    requires |r| >= 2
    decreases if dampener then 1 else 0
  {
    match FirstBad(r, Direction(r), 1)
    case None => true
    case Some(i) =>
      if !dampener then false
      else if i == |r| - 1 then true
      else IsSafe([r[i - 1]] + r[i + 1..], false) || IsSafe([PyIndex(r, i - 2)] + r[i..], false)
  }

  /** Without the dampener, is_safe is exactly AllSteps. */
  lemma IsSafeUndampened(r: seq<int>)
    requires |r| >= 2
    ensures IsSafe(r, false) <==> AllSteps(r)
  {
  }

  /** A report safe on its own is also safe with the dampener. */
  lemma SafeImpliesDampenedSafe(r: seq<int>)
    requires |r| >= 2 && IsSafe(r, false)
    ensures IsSafe(r, true)
  {
  }

  /** A first failure at the last level is forgiven outright. */
  lemma LastFailureForgiven(r: seq<int>)
    requires |r| >= 2
    requires forall k :: 1 <= k < |r| - 1 ==> StepOk(Step(r, k), Direction(r))
    ensures IsSafe(r, true)
  {
  }

  /** With the dampener and a first failure at i before the last level, exactly two
      lists are retried: one from r[i-1] skipping r[i], and one from r[i-2] (the last
      level when i = 1) continuing at r[i]. */
  lemma DampenerRetries(r: seq<int>, i: nat)
    requires 1 <= i < |r| - 1
    requires forall k :: 1 <= k < i ==> StepOk(Step(r, k), Direction(r))
    requires !StepOk(Step(r, i), Direction(r))
    ensures IsSafe(r, true) <==>
      AllSteps([r[i - 1]] + r[i + 1..]) || AllSteps([PyIndex(r, i - 2)] + r[i..])
  {
    var a, b := [r[i - 1]] + r[i + 1..], [PyIndex(r, i - 2)] + r[i..];
    var fb := FirstBad(r, Direction(r), 1);
    assert fb == Some(i);
    IsSafeUndampened(a);
    IsSafeUndampened(b);
  }

  /** r with the level at index j dropped. */
  function Without(r: seq<int>, j: nat): (s: seq<int>)
    requires j < |r|
    ensures |s| == |r| - 1
    ensures forall k :: 0 <= k < j ==> s[k] == r[k]
    ensures forall k :: j <= k < |s| ==> s[k] == r[k + 1]
  {
    r[..j] + r[j + 1..]
  }

  /** What the dampener is documented to mean: the report is safe, or becomes safe
      once one level is dropped. */
  ghost predicate ToleratesOneBadLevel(r: seq<int>) {
    AllSteps(r) || exists j :: 0 <= j < |r| && AllSteps(Without(r, j))
  }

  /** Finding: the as-written dampener accepts [1,2,3,2,1], although no single
      removal makes it safe. */
  lemma DampenerAcceptsUnsafe(r: seq<int>)
    requires r == [1, 2, 3, 2, 1]
    ensures IsSafe(r, true)
    ensures !ToleratesOneBadLevel(r)
  {
    assert !StepOk(Step(r, 3), Direction(r));
    DampenerRetries(r, 3);
    assert [r[2]] + r[4..] == [3, 1];
    assert AllSteps([3, 1]);
    forall j | 0 <= j < |r| ensures !AllSteps(Without(r, j)) {
      NoSingleRemovalHelps(r, j);
    }
  }

  lemma NoSingleRemovalHelps(r: seq<int>, j: nat)
    requires r == [1, 2, 3, 2, 1] && j < |r|
    ensures !AllSteps(Without(r, j))
  {
    var s := Without(r, j);
    if j == 0 { assert s == [2, 3, 2, 1]; assert !StepOk(Step(s, 2), Direction(s)); }
    else if j == 1 { assert s == [1, 3, 2, 1]; assert !StepOk(Step(s, 2), Direction(s)); }
    else if j == 2 { assert s == [1, 2, 2, 1]; assert !StepOk(Step(s, 2), Direction(s)); }
    else if j == 3 { assert s == [1, 2, 3, 1]; assert !StepOk(Step(s, 3), Direction(s)); }
    else { assert s == [1, 2, 3, 2]; assert !StepOk(Step(s, 3), Direction(s)); }
  }

  /** Finding: the as-written dampener rejects [1,5,6,7], although dropping its first
      level leaves the safe report [5,6,7]. */
  lemma DampenerRejectsTolerable(r: seq<int>)
    requires r == [1, 5, 6, 7]
    ensures !IsSafe(r, true)
    ensures ToleratesOneBadLevel(r)
  {
    assert !StepOk(Step(r, 1), Direction(r));
    DampenerRetries(r, 1);
    var a, b := [r[0]] + r[2..], [PyIndex(r, -1)] + r[1..];
    assert a == [1, 6, 7] && !StepOk(Step(a, 1), Direction(a));
    assert b == [7, 5, 6, 7] && !StepOk(Step(b, 2), Direction(b));
    DroppingFirstHelps(r);
  }

  lemma DroppingFirstHelps(r: seq<int>)
    requires r == [1, 5, 6, 7]
    ensures AllSteps(Without(r, 0))
  {
    var s := Without(r, 0);
    assert s == [5, 6, 7];
    assert Direction(s) == 1;
    forall k | 1 <= k < |s| ensures StepOk(Step(s, k), 1) {
      assert Step(s, k) == 1;
    }
  }

  /** Corrected dampener: tries the report itself, then every single removal. */
  method SafeWithDampener(r: seq<int>) returns (safe: bool)
    ensures safe <==> ToleratesOneBadLevel(r)
  {
    safe := CheckSteps(r);
    var j := 0;
    while j < |r| && !safe
      invariant 0 <= j <= |r|
      invariant !safe ==> !AllSteps(r) && forall k :: 0 <= k < j ==> !AllSteps(Without(r, k))
      invariant safe ==> ToleratesOneBadLevel(r)
    {
      safe := CheckSteps(Without(r, j));
      j := j + 1;
    }
  }

  /** A loop that decides AllSteps. */
  method CheckSteps(r: seq<int>) returns (ok: bool)
    ensures ok <==> AllSteps(r)
  {
    if |r| < 2 { return true; }
    var sgn := Direction(r);
    var k := 1;
    while k < |r|
      invariant 1 <= k <= |r|
      invariant forall q :: 1 <= q < k ==> StepOk(Step(r, q), sgn)
    {
      if !StepOk(Step(r, k), sgn) { return false; }
      k := k + 1;
    }
    return true;
  }

  /** Number of reports satisfying AllSteps (part1, day2.py:26-32). */
  ghost function CountSafe(reports: seq<seq<int>>): (c: nat)
    ensures c <= |reports|
  {
    if reports == [] then 0
    else (if AllSteps(reports[0]) then 1 else 0) + CountSafe(reports[1..])
  }

  /** Number of reports the corrected dampener accepts (part2, day2.py:35-40). */
  ghost function CountTolerable(reports: seq<seq<int>>): (c: nat)
    ensures c <= |reports|
  {
    if reports == [] then 0
    else (if ToleratesOneBadLevel(reports[0]) then 1 else 0) + CountTolerable(reports[1..])
  }

  /** Every report has the two levels is_safe reads before its loop (day2.py:14). */
  ghost predicate AllMeasured(reports: seq<seq<int>>) {
    forall k :: 0 <= k < |reports| ==> |reports[k]| >= 2
  }

  /** Number of reports the as-written dampener accepts (part2, day2.py:36-41). */
  function CountDampened(reports: seq<seq<int>>): (c: nat)
    requires AllMeasured(reports)
    ensures c <= |reports|
  {
    if reports == [] then 0
    else (if IsSafe(reports[0], true) then 1 else 0) + CountDampened(reports[1..])
  }

  /** The as-written dampener, too, never lowers the count. */
  lemma {:induction false} AsWrittenDampenerNeverLowersCount(reports: seq<seq<int>>)
    requires AllMeasured(reports)
    ensures CountSafe(reports) <= CountDampened(reports)
  {
    if reports != [] {
      if AllSteps(reports[0]) {
        IsSafeUndampened(reports[0]);
        SafeImpliesDampenedSafe(reports[0]);
      }
      AsWrittenDampenerNeverLowersCount(reports[1..]);
    }
  }

  /** One report counts as its own verdict. */
  lemma CountOne(reports: seq<seq<int>>)
    requires |reports| == 1 && |reports[0]| >= 2
    ensures CountDampened(reports) == if IsSafe(reports[0], true) then 1 else 0
    ensures CountTolerable(reports) == if ToleratesOneBadLevel(reports[0]) then 1 else 0
  {
    assert reports[1..] == [];
  }

  /** Finding: part2 as written counts the report [1,2,3,2,1] that no single removal
      makes safe. */
  lemma AsWrittenCountsUnsafe(reports: seq<seq<int>>)
    requires reports == [[1, 2, 3, 2, 1]]
    ensures CountDampened(reports) == 1 && CountTolerable(reports) == 0
  {
    DampenerAcceptsUnsafe(reports[0]);
    CountOne(reports);
  }

  /** Finding: part2 as written does not count the report [1,5,6,7] that dropping its
      first level makes safe. */
  lemma AsWrittenMissesTolerable(reports: seq<seq<int>>)
    requires reports == [[1, 5, 6, 7]]
    ensures CountDampened(reports) == 0 && CountTolerable(reports) == 1
  {
    DampenerRejectsTolerable(reports[0]);
    CountOne(reports);
  }

  /** part2 never reports fewer safe reports than part1. */
  lemma {:induction false} DampenerNeverLowersCount(reports: seq<seq<int>>)
    ensures CountSafe(reports) <= CountTolerable(reports)
  {
    if reports != [] { DampenerNeverLowersCount(reports[1..]); }
  }

  /** part1 (day2.py:27-33). */
  method Part1(reports: seq<seq<int>>) returns (count: nat)
    requires AllMeasured(reports)
    ensures count == CountSafe(reports)
  {
    count := 0;
    var i := |reports|;
    while i > 0
      invariant 0 <= i <= |reports|
      invariant count == CountSafe(reports[i..])
    {
      i := i - 1;
      var ok := CheckSteps(reports[i]);
      assert reports[i..][1..] == reports[i + 1..];
      count := count + if ok then 1 else 0;
    }
  }

  /** part2 as written (day2.py:36-41), over is_safe with the dampener. */
  method Part2AsWritten(reports: seq<seq<int>>) returns (count: nat)
    requires AllMeasured(reports)
    ensures count == CountDampened(reports)
  {
    count := 0;
    var i := |reports|;
    while i > 0
      invariant 0 <= i <= |reports|
      invariant count == CountDampened(reports[i..])
    {
      i := i - 1;
      assert reports[i..][1..] == reports[i + 1..];
      count := count + if IsSafe(reports[i], true) then 1 else 0;
    }
  }

  /** part2 over the corrected dampener. */
  method Part2(reports: seq<seq<int>>) returns (count: nat)
    ensures count == CountTolerable(reports)
  {
    count := 0;
    var i := |reports|;
    while i > 0
      invariant 0 <= i <= |reports|
      invariant count == CountTolerable(reports[i..])
    {
      i := i - 1;
      var ok := SafeWithDampener(reports[i]);
      assert reports[i..][1..] == reports[i + 1..];
      count := count + if ok then 1 else 0;
    }
  }
}
