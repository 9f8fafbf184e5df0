/** Day 5: Print Queue -- page-ordering rules "a|b" (a must come before b), checking
    updates against them and reordering the ones that break them.
    A rule string "a|b" is modelled as Rule(a, b). The worked example gives 143 and 123. */
module Day5 {
  import opened Wrappers

  datatype Rule = Rule(before: int, after: int)

  /** list_idx (day5.py:7-14): the first index holding o, or None. */
  method ListIdx(l: seq<int>, o: int) returns (r: Option<nat>)
    ensures r.None? <==> o !in l
    ensures r.Some? ==> r.value < |l| && l[r.value] == o && forall k :: 0 <= k < r.value ==> l[k] != o
  {
    var i := 0;
    while i < |l|
      invariant 0 <= i <= |l|
      invariant forall k :: 0 <= k < i ==> l[k] != o
    {
      if l[i] == o { return Some(i); }
      i := i + 1;
    }
    return None;
  }

  /** Some adjacent pair holds its two pages in the reverse of a rule. */
  ghost predicate AdjacentViolation(rules: seq<Rule>, pages: seq<int>) {
    exists i :: 1 <= i < |pages| && Rule(pages[i], pages[i - 1]) in rules
  }

  /** Some pair, adjacent or not, holds its two pages in the reverse of a rule. */
  ghost predicate AnyViolation(rules: seq<Rule>, pages: seq<int>) {
    exists i, j :: 0 <= i < j < |pages| && Rule(pages[j], pages[i]) in rules
  }

  /** correctly_ordered as written (day5.py:16-23): only adjacent pairs are checked. */
  method CorrectlyOrdered(rules: seq<Rule>, pages: seq<int>) returns (ok: bool)
    ensures ok <==> !AdjacentViolation(rules, pages)
  {
    var i := 1;
    while i < |pages|
      invariant 1 <= i <= |pages| || (|pages| == 0 && i == 1)
      invariant forall k :: 1 <= k < i && k < |pages| ==> Rule(pages[k], pages[k - 1]) !in rules
    {
      if Rule(pages[i], pages[i - 1]) in rules { return false; }
      i := i + 1;
    }
    return true;
  }

  /** Finding: the adjacent check passes [1,2,3] under the rule 3|1. */
  lemma AdjacentCheckMissesDistantViolation(rules: seq<Rule>, pages: seq<int>)
    requires rules == [Rule(3, 1)] && pages == [1, 2, 3]
    ensures !AdjacentViolation(rules, pages)
    ensures AnyViolation(rules, pages)
  {
    assert Rule(pages[2], pages[0]) in rules;
  }

  /** Corrected check: every pair of positions is compared against the rules. */
  method ConformsToAll(rules: seq<Rule>, pages: seq<int>) returns (ok: bool)
    ensures ok <==> !AnyViolation(rules, pages)
  {
    var j := 0;
    while j < |pages|
      invariant 0 <= j <= |pages|
      invariant forall i, k :: 0 <= i < k < j ==> Rule(pages[k], pages[i]) !in rules
    {
      var i := 0;
      while i < j
        invariant 0 <= i <= j
        invariant forall q :: 0 <= q < i ==> Rule(pages[j], pages[q]) !in rules
      {
        if Rule(pages[j], pages[i]) in rules { return false; }
        i := i + 1;
      }
      j := j + 1;
    }
    return true;
  }

  /** A check that finds no violation at all also finds no adjacent one. */
  lemma AllPairsCoversAdjacent(rules: seq<Rule>, pages: seq<int>)
    requires AdjacentViolation(rules, pages)
    ensures AnyViolation(rules, pages)
  {
    var i :| 1 <= i < |pages| && Rule(pages[i], pages[i - 1]) in rules;
    assert 0 <= i - 1 < i < |pages|;
  }

  /** The rules, in their original order, whose two pages both occur in pages. */
  function Relevant(rules: seq<Rule>, pages: seq<int>): (r: seq<Rule>)
    ensures |r| <= |rules|
  {
    if rules == [] then []
    else
      var rest := Relevant(rules[..|rules| - 1], pages);
      var x := rules[|rules| - 1];
      if x.before in pages && x.after in pages then rest + [x] else rest
  }

  /** Relevant keeps exactly the rules with both pages present. */
  lemma {:induction false} RelevantMembers(rules: seq<Rule>, pages: seq<int>, x: Rule)
    ensures x in Relevant(rules, pages) <==> x in rules && x.before in pages && x.after in pages
  {
    if rules != [] {
      RelevantMembers(rules[..|rules| - 1], pages, x);
      assert rules == rules[..|rules| - 1] + [rules[|rules| - 1]];
    }
  }

  /** relevant_constraints (day5.py:25-35). */
  method RelevantConstraints(rules: seq<Rule>, pages: seq<int>) returns (relevant: seq<Rule>)
    ensures relevant == Relevant(rules, pages)
  {
    relevant := [];
    var i := 0;
    while i < |rules|
      invariant 0 <= i <= |rules|
      invariant relevant == Relevant(rules[..i], pages)
    {
      assert rules[..i + 1][..i] == rules[..i];
      if rules[i].before in pages && rules[i].after in pages {
        relevant := relevant + [rules[i]];
      }
      i := i + 1;
    }
    assert rules[..i] == rules;
  }

  function Middle(pages: seq<int>): int requires |pages| > 0 { pages[|pages| / 2] }

  /** The update counts as misordered: under the check as written (adjacent pairs
      only) when asWritten holds, under the corrected check otherwise. */
  ghost predicate Breaks(rules: seq<Rule>, pages: seq<int>, asWritten: bool) {
    if asWritten then AdjacentViolation(rules, pages) else AnyViolation(rules, pages)
  }

  /** The check part1 and part2 filter with. */
  method Misordered(rules: seq<Rule>, pages: seq<int>, asWritten: bool) returns (bad: bool)
    ensures bad <==> Breaks(rules, pages, asWritten)
  {
    var ok;
    if asWritten { ok := CorrectlyOrdered(rules, pages); } else { ok := ConformsToAll(rules, pages); }
    bad := !ok;
  }

  /** Sum of the middle pages of the updates that do not count as misordered. */
  ghost function OrderedMidSum(rules: seq<Rule>, updates: seq<seq<int>>, asWritten: bool): int
    requires forall k :: 0 <= k < |updates| ==> |updates[k]| > 0
  {
    if updates == [] then 0
    else
      var u := updates[|updates| - 1];
      OrderedMidSum(rules, updates[..|updates| - 1], asWritten) + (if Breaks(rules, u, asWritten) then 0 else Middle(u))
  }

  /** part1's loop (day5.py:43-47) over either check. */
  method MidSum(rules: seq<Rule>, updates: seq<seq<int>>, asWritten: bool) returns (sum: int)
    requires forall k :: 0 <= k < |updates| ==> |updates[k]| > 0
    ensures sum == OrderedMidSum(rules, updates, asWritten)
  {
    sum := 0;
    var i := 0;
    while i < |updates|
      invariant 0 <= i <= |updates|
      invariant sum == OrderedMidSum(rules, updates[..i], asWritten)
    {
      assert updates[..i + 1][..i] == updates[..i];
      var bad := Misordered(rules, updates[i], asWritten);
      if !bad { sum := sum + Middle(updates[i]); }
      i := i + 1;
    }
    assert updates[..i] == updates;
  }

  /** part1 as written (day5.py:38-47), over correctly_ordered. */
  method Part1AsWritten(rules: seq<Rule>, updates: seq<seq<int>>) returns (sum: int)
    requires forall k :: 0 <= k < |updates| ==> |updates[k]| > 0
    ensures sum == OrderedMidSum(rules, updates, true)
  {
    sum := MidSum(rules, updates, true);
  }

  /** part1 over the corrected check. */
  method Part1(rules: seq<Rule>, updates: seq<seq<int>>) returns (sum: int)
    requires forall k :: 0 <= k < |updates| ==> |updates[k]| > 0
    ensures sum == OrderedMidSum(rules, updates, false)
  {
    sum := MidSum(rules, updates, false);
  }

  /** The corrected check only ever drops updates the one as written keeps: with
      no violation anywhere there is none between neighbours. */
  lemma BreaksAsWrittenImpliesBreaks(rules: seq<Rule>, pages: seq<int>)
    ensures Breaks(rules, pages, true) ==> Breaks(rules, pages, false)
  {
    if AdjacentViolation(rules, pages) { AllPairsCoversAdjacent(rules, pages); }
  }

  /** pages.insert(ib, pages.pop(ia)) for ib < ia; other arguments leave the list
      as it is (they do not arise). */
  function MoveBefore(pages: seq<int>, ia: nat, ib: nat): (r: seq<int>)
    ensures |r| == |pages|
  {
    if ib < ia < |pages| then pages[..ib] + [pages[ia]] + pages[ib..ia] + pages[ia + 1..] else pages
  }

  /** The moved page lands at ib, immediately before the page that was there; pages
      outside [ib, ia] keep their places and those in between shift one to the right. */
  lemma MoveBeforeEffect(pages: seq<int>, ia: nat, ib: nat)
    requires ib < ia < |pages|
    ensures MoveBefore(pages, ia, ib)[ib] == pages[ia]
    ensures MoveBefore(pages, ia, ib)[ib + 1] == pages[ib]
    ensures forall k :: 0 <= k < ib || ia < k < |pages| ==> MoveBefore(pages, ia, ib)[k] == pages[k]
    ensures forall k :: ib < k <= ia ==> MoveBefore(pages, ia, ib)[k] == pages[k - 1]
  {
    var r := MoveBefore(pages, ia, ib);
    forall k | 0 <= k < |pages| ensures r[k] == if k < ib || ia < k then pages[k] else if k == ib then pages[ia] else pages[k - 1] {
      if k < ib {
        assert r[k] == pages[..ib][k];
      } else if k == ib {
      } else if k <= ia {
        assert r[k] == pages[ib..ia][k - ib - 1];
      } else {
        assert r[k] == pages[ia + 1..][k - ia - 1];
      }
    }
  }

  /** Nothing is lost or duplicated by a move. */
  lemma MoveBeforePermutes(pages: seq<int>, ia: nat, ib: nat)
    ensures multiset(MoveBefore(pages, ia, ib)) == multiset(pages)
  {
    if ib < ia < |pages| {
      var a, b, c, d := pages[..ib], pages[ib..ia], [pages[ia]], pages[ia + 1..];
      assert pages == a + b + c + d;
      assert MoveBefore(pages, ia, ib) == a + c + b + d;
    }
  }

  /** The working state of part2's inner loop: the pages, the queue of rules still to
      check, and the rules already checked, keyed by their first page (csp). */
  datatype Reorder = Reorder(pages: seq<int>, queue: seq<Rule>, csp: map<int, seq<Rule>>)

  function Checked(csp: map<int, seq<Rule>>, a: int): seq<Rule> {
    if a in csp then csp[a] else []
  }

  /** Every queued or checked rule names two pages of the update. */
  ghost predicate Tracked(st: Reorder) {
    TrackedIn(st.queue, st.csp, multiset(st.pages))
  }

  /** The first index of o in l, or |l| when o is absent. */
  function IndexOf(l: seq<int>, o: int): (i: nat)
    ensures i <= |l| && (o in l <==> i < |l|)
  {
    if l == [] then 0
    else if l[0] == o then 0
    else
      assert l == [l[0]] + l[1..];
      1 + IndexOf(l[1..], o)
  }

  /** IndexOf finds the first occurrence, as list_idx does. */
  lemma {:induction false} IndexOfIsFirst(l: seq<int>, o: int, j: nat)
    requires o in l && j < |l| && l[j] == o && forall k :: 0 <= k < j ==> l[k] != o
    ensures IndexOf(l, o) == j
  {
    if l[0] != o {
      assert l == [l[0]] + l[1..];
      IndexOfIsFirst(l[1..], o, j - 1);
    }
  }

  /** Every tracked rule names two pages of the multiset m. */
  ghost predicate TrackedIn(queue: seq<Rule>, csp: map<int, seq<Rule>>, m: multiset<int>) {
    AllIn(queue, m) && forall a :: a in csp ==> AllIn(csp[a], m)
  }

  ghost predicate AllIn(rules: seq<Rule>, m: multiset<int>) {
    forall x :: x in rules ==> x.before in m && x.after in m
  }

  /** Moving the first queued rule into csp, and re-queueing csp rules, keeps them tracked. */
  lemma RequeueTracked(queue: seq<Rule>, csp: map<int, seq<Rule>>, m: multiset<int>, moved: bool)
    requires TrackedIn(queue, csp, m) && queue != []
    ensures TrackedIn(if moved then Checked(csp, queue[0].before) + queue[1..] else queue[1..],
                      csp[queue[0].before := Checked(csp, queue[0].before) + [queue[0]]], m)
  {
    var x := queue[0];
    var c := Checked(csp, x.before);
    assert AllIn(c, m);
    var q := if moved then c + queue[1..] else queue[1..];
    assert forall y :: y in q ==> y in c || y in queue;
    assert AllIn(c + [x], m);
  }

  /** One pass of the loop body (day5.py:65-74). */
  function Step(st: Reorder): Reorder
    requires st.queue != []
  {
    var x := st.queue[0];
    var ia, ib := IndexOf(st.pages, x.before), IndexOf(st.pages, x.after);
    var csp := st.csp[x.before := Checked(st.csp, x.before) + [x]];
    if ia > ib then Reorder(MoveBefore(st.pages, ia, ib), Checked(st.csp, x.before) + st.queue[1..], csp)
    else Reorder(st.pages, st.queue[1..], csp)
  }

  /** A pass keeps the pages a permutation and every rule tracked. */
  lemma StepTracked(st: Reorder)
    requires Tracked(st) && st.queue != []
    ensures Tracked(Step(st))
  {
    var x := st.queue[0];
    var ia, ib := IndexOf(st.pages, x.before), IndexOf(st.pages, x.after);
    RequeueTracked(st.queue, st.csp, multiset(st.pages), ia > ib);
    MoveBeforePermutes(st.pages, ia, ib);
  }

  lemma StepPermutes(st: Reorder)
    requires st.queue != []
    ensures multiset(Step(st).pages) == multiset(st.pages)
  {
    var x := st.queue[0];
    MoveBeforePermutes(st.pages, IndexOf(st.pages, x.before), IndexOf(st.pages, x.after));
  }

  /** At most fuel passes of the loop; the result says whether the queue emptied. */
  function Run(st: Reorder, fuel: nat): (Reorder, bool)
    decreases fuel
  {
    if st.queue == [] then (st, true)
    else if fuel == 0 then (st, false)
    else Run(Step(st), fuel - 1)
  }

  /** Run reports done exactly when it leaves the queue empty. */
  lemma {:induction false} RunDone(st: Reorder, fuel: nat)
    ensures Run(st, fuel).1 <==> Run(st, fuel).0.queue == []
    decreases fuel
  {
    if st.queue != [] && fuel > 0 {
      RunDone(Step(st), fuel - 1);
    }
  }

  lemma {:induction false} RunPermutes(st: Reorder, fuel: nat)
    ensures multiset(Run(st, fuel).0.pages) == multiset(st.pages)
    decreases fuel
  {
    if st.queue != [] && fuel > 0 {
      StepPermutes(st);
      RunPermutes(Step(st), fuel - 1);
    }
  }

  /** The initial state for one update. */
  function Start(rules: seq<Rule>, pages: seq<int>): Reorder {
    Reorder(pages, Relevant(rules, pages), map[])
  }

  lemma StartTracked(rules: seq<Rule>, pages: seq<int>)
    ensures Tracked(Start(rules, pages))
  {
    forall x | x in Relevant(rules, pages) ensures x.before in multiset(pages) && x.after in multiset(pages) {
      RelevantMembers(rules, pages, x);
    }
  }

  lemma StepKeepsRun(st: Reorder, fuel: nat, target: (Reorder, bool), next: Reorder)
    requires st.queue != [] && fuel > 0
    requires Run(st, fuel).0 == target.0 && Run(st, fuel).1 == target.1 && next == Step(st)
    ensures Run(next, fuel - 1).0 == target.0 && Run(next, fuel - 1).1 == target.1
  {
  }

  /** The body of part2's inner loop (day5.py:65-74). Both pages of a queued rule are
      always present (StartTracked, StepTracked), so the |pages| fallback for a missing
      one, where the source would fail comparing None, is never taken. */
  method ReorderStep(st: Reorder) returns (next: Reorder)
    requires st.queue != []
    ensures next == Step(st)
  {
    var x := st.queue[0];
    var a := ListIdx(st.pages, x.before);
    var b := ListIdx(st.pages, x.after);
    var ia := if a.Some? then a.value else |st.pages|;
    var ib := if b.Some? then b.value else |st.pages|;
    if a.Some? { IndexOfIsFirst(st.pages, x.before, ia); }
    if b.Some? { IndexOfIsFirst(st.pages, x.after, ib); }
    var prior := if x.before in st.csp then st.csp[x.before] else [];
    var pages, queue := st.pages, st.queue[1..];
    if ia > ib {
      pages := MoveBefore(pages, ia, ib);
      queue := prior + queue;
    }
    next := Reorder(pages, queue, st.csp[x.before := prior + [x]]);
  }

  /** With the queue empty or the fuel spent, Run stops where it is. */
  lemma RunStops(st: Reorder, fuel: nat)
    requires st.queue == [] || fuel == 0
    ensures Run(st, fuel) == (st, st.queue == [])
  {
  }

  /** part2's inner while loop (day5.py:63-74), bounded by fuel passes. */
  method RunLoop(start: Reorder, fuel: nat) returns (st: Reorder, done: bool)
    ensures st == Run(start, fuel).0 && done == Run(start, fuel).1
  {
    st := start;
    var left := fuel;
    ghost var target := Run(start, fuel);
    while st.queue != [] && left > 0
      invariant Run(st, left).0 == target.0 && Run(st, left).1 == target.1
      decreases left
    {
      ghost var prev := st;
      st := ReorderStep(st);
      StepKeepsRun(prev, left, target, st);
      left := left - 1;
    }
    RunStops(st, left);
    done := st.queue == [];
  }

  /** part2's reordering of one update (day5.py:59-74). */
  method ReorderUpdate(rules: seq<Rule>, pages: seq<int>, fuel: nat) returns (result: seq<int>, done: bool)
    ensures (result, done) == (Run(Start(rules, pages), fuel).0.pages, Run(Start(rules, pages), fuel).1)
  {
    var queue := RelevantConstraints(rules, pages);
    var st;
    st, done := RunLoop(Reorder(pages, queue, map[]), fuel);
    result := st.pages;
  }

  /** Whatever the fuel, the reordered update is a permutation of the original. */
  lemma ReorderIsPermutation(rules: seq<Rule>, pages: seq<int>, fuel: nat)
    ensures multiset(Run(Start(rules, pages), fuel).0.pages) == multiset(pages)
    ensures |Run(Start(rules, pages), fuel).0.pages| == |pages|
  {
    RunPermutes(Start(rules, pages), fuel);
    var r := Run(Start(rules, pages), fuel).0.pages;
    assert |r| == |multiset(r)| == |multiset(pages)| == |pages|;
  }

  /** Sum of the middle pages of the reordered updates that count as misordered. */
  ghost function ReorderedMidSum(rules: seq<Rule>, updates: seq<seq<int>>, fuel: nat, asWritten: bool): int
    requires forall k :: 0 <= k < |updates| ==> |updates[k]| > 0
  {
    if updates == [] then 0
    else
      var u := updates[|updates| - 1];
      ReorderIsPermutation(rules, u, fuel);
      ReorderedMidSum(rules, updates[..|updates| - 1], fuel, asWritten) +
        (if Breaks(rules, u, asWritten) then Middle(Run(Start(rules, u), fuel).0.pages) else 0)
  }

  /** part2's filter and loop (day5.py:57-79) over either check; each update gets
      fuel passes. */
  method ReorderedSum(rules: seq<Rule>, updates: seq<seq<int>>, fuel: nat, asWritten: bool) returns (sum: int)
    requires forall k :: 0 <= k < |updates| ==> |updates[k]| > 0
    ensures sum == ReorderedMidSum(rules, updates, fuel, asWritten)
  {
    sum := 0;
    var i := 0;
    while i < |updates|
      invariant 0 <= i <= |updates|
      invariant sum == ReorderedMidSum(rules, updates[..i], fuel, asWritten)
    {
      assert updates[..i + 1][..i] == updates[..i];
      var bad := Misordered(rules, updates[i], asWritten);
      if bad {
        var result, _ := ReorderUpdate(rules, updates[i], fuel);
        ReorderIsPermutation(rules, updates[i], fuel);
        sum := sum + Middle(result);
      }
      i := i + 1;
    }
    assert updates[..i] == updates;
  }

  /** part2 as written (day5.py:50-79), filtering with correctly_ordered. */
  method Part2AsWritten(rules: seq<Rule>, updates: seq<seq<int>>, fuel: nat) returns (sum: int)
    requires forall k :: 0 <= k < |updates| ==> |updates[k]| > 0
    ensures sum == ReorderedMidSum(rules, updates, fuel, true)
  {
    sum := ReorderedSum(rules, updates, fuel, true);
  }

  /** part2 filtering with the corrected check. */
  method Part2(rules: seq<Rule>, updates: seq<seq<int>>, fuel: nat) returns (sum: int)
    requires forall k :: 0 <= k < |updates| ==> |updates[k]| > 0
    ensures sum == ReorderedMidSum(rules, updates, fuel, false)
  {
    sum := ReorderedSum(rules, updates, fuel, false);
  }

  /** Updates that do not count as misordered contribute nothing to part2. */
  lemma {:induction false} OrderedUpdatesSkipped(rules: seq<Rule>, updates: seq<seq<int>>, fuel: nat, asWritten: bool)
    requires forall k :: 0 <= k < |updates| ==> |updates[k]| > 0
    requires forall k :: 0 <= k < |updates| ==> !Breaks(rules, updates[k], asWritten)
    ensures ReorderedMidSum(rules, updates, fuel, asWritten) == 0
  {
    if updates != [] {
      OrderedUpdatesSkipped(rules, updates[..|updates| - 1], fuel, asWritten);
    }
  }

  /** Finding: on [1,2,3] under 3|1, part1 as written counts the update (2) where the
      corrected part1 does not (0), and part2 as written drops it. */
  lemma AsWrittenSumsDiffer(rules: seq<Rule>, updates: seq<seq<int>>, fuel: nat)
    requires rules == [Rule(3, 1)] && updates == [[1, 2, 3]]
    ensures OrderedMidSum(rules, updates, true) == 2
    ensures OrderedMidSum(rules, updates, false) == 0
    ensures ReorderedMidSum(rules, updates, fuel, true) == 0
  {
    AdjacentCheckMissesDistantViolation(rules, updates[0]);
    assert updates[..0] == [];
    OrderedUpdatesSkipped(rules, updates, fuel, true);
  }

  /** The corrected part2 reorders the same update to [3,1,2] and counts its middle page. */
  lemma CorrectedReordersExample(rules: seq<Rule>, updates: seq<seq<int>>, fuel: nat)
    requires rules == [Rule(3, 1)] && updates == [[1, 2, 3]] && fuel >= 1
    ensures ReorderedMidSum(rules, updates, fuel, false) == 1
  {
    var u := updates[0];
    AdjacentCheckMissesDistantViolation(rules, u);
    ExampleStart(rules, u);
    var st := Start(rules, u);
    ExampleStep(st);
    assert Run(st, fuel) == Run(Step(st), fuel - 1);
    assert updates[..0] == [];
  }

  lemma ExampleStart(rules: seq<Rule>, u: seq<int>)
    requires rules == [Rule(3, 1)] && u == [1, 2, 3]
    ensures Start(rules, u) == Reorder([1, 2, 3], [Rule(3, 1)], map[])
  {
    assert rules[..0] == [];
    assert Relevant(rules, u) == Relevant([], u) + [Rule(3, 1)];
  }

  lemma ExampleStep(st: Reorder)
    requires st == Reorder([1, 2, 3], [Rule(3, 1)], map[])
    ensures Step(st).pages == [3, 1, 2] && Step(st).queue == []
  {
    var u := st.pages;
    IndexOfIsFirst(u, 3, 2);
    assert IndexOf(u, 1) == 0;
    assert MoveBefore(u, 2, 0) == [3, 1, 2];
  }
}
