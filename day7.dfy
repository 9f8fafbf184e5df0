/** Day 7: Bridge Repair -- can the inputs, combined strictly left to right with +, *
    (and decimal concatenation ||), reach the target? The worked example gives 3749
    and 11387. */
module Day7 {

  import opened Decimal

  /** int(str(a) + str(b)) (day7.py:20). */
  function Concat(a: nat, b: nat): nat {
    a * Pow10(Digits(b)) + b
  }

  /** Concat is the value of the two decimal strings written one after the other. */
  lemma ConcatIsDecimalJoin(a: nat, b: nat)
    ensures Value(Dec(a) + Dec(b)) == Concat(a, b)
  {
    ValueOfAppend(Dec(a), Dec(b));
    ValueOfDec(a);
    ValueOfDec(b);
  }

  ghost predicate Positive(s: seq<int>) {
    forall k :: 0 <= k < |s| ==> s[k] >= 1
  }

  /** is_possible_equation (day7.py:8-26), with its prune on the first value. */
  function Possible(target: int, inputs: seq<nat>, concat: bool): bool
    requires |inputs| >= 1
    decreases |inputs|
  {
    if |inputs| == 1 then inputs[0] == target
    else if inputs[0] > target then false
    else
      var a, b, rest := inputs[0], inputs[1], inputs[2..];
      Possible(target, [a + b] + rest, concat) || Possible(target, [a * b] + rest, concat) ||
      (concat && Possible(target, [Concat(a, b)] + rest, concat))
  }

  datatype Op = Add | Mul | Cat

  function Apply(op: Op, a: nat, b: nat): nat {
    match op
    case Add => a + b
    case Mul => a * b
    case Cat => Concat(a, b)
  }

  predicate Allowed(ops: seq<Op>, concat: bool) {
    forall k :: 0 <= k < |ops| ==> ops[k] != Cat || concat
  }

  /** Reference semantics: acc followed by rest, combined strictly left to right with
      the operators ops. */
  function EvalLR(acc: nat, rest: seq<nat>, ops: seq<Op>): nat
    requires |ops| == |rest|
    decreases |rest|
  {
    if rest == [] then acc else EvalLR(Apply(ops[0], acc, rest[0]), rest[1..], ops[1..])
  }

  /** Some choice of allowed operators takes the inputs to the target. */
  ghost predicate Reaches(target: int, s: seq<nat>, concat: bool)
    requires |s| >= 1
  {
    exists ops: seq<Op> :: |ops| == |s| - 1 && Allowed(ops, concat) && EvalLR(s[0], s[1..], ops) == target
  }

  /** With a positive right operand no operator lowers its left operand. */
  lemma ApplyAtLeast(op: Op, u: nat, x: nat)
    requires x >= 1
    ensures Apply(op, u, x) >= u
  {
    match op
    case Add =>
    case Mul => assert u * x >= u * 1;
    case Cat => assert u * Pow10(Digits(x)) >= u * 1;
  }

  /** With positive inputs the value never drops below the first one. */
  lemma {:induction false} EvalAtLeast(acc: nat, rest: seq<nat>, ops: seq<Op>)
    requires |ops| == |rest| && Positive(rest)
    ensures EvalLR(acc, rest, ops) >= acc
    decreases |rest|
  {
    if rest != [] {
      ApplyAtLeast(ops[0], acc, rest[0]);
      EvalAtLeast(Apply(ops[0], acc, rest[0]), rest[1..], ops[1..]);
    }
  }

  lemma PositiveFront(s: seq<nat>, w: nat)
    requires |s| >= 2 && Positive(s) && w >= 1
    ensures Positive([w] + s[2..])
  {
  }

  /** Taking the first operator first: combining a, b by op and then the rest by ops. */
  lemma EvalFront(s: seq<nat>, op: Op, ops: seq<Op>)
    requires |s| >= 2 && |ops| == |s| - 2
    ensures EvalLR(s[0], s[1..], [op] + ops) == EvalLR(Apply(op, s[0], s[1]), ([Apply(op, s[0], s[1])] + s[2..])[1..], ops)
  {
    assert s[1..][1..] == s[2..] == ([Apply(op, s[0], s[1])] + s[2..])[1..];
    assert ([op] + ops)[1..] == ops;
  }

  lemma {:induction false} PossibleImpliesReaches(target: int, s: seq<nat>, concat: bool)
    requires |s| >= 1 && Positive(s) && Possible(target, s, concat)
    ensures Reaches(target, s, concat)
    decreases |s|
  {
    if |s| == 1 {
      assert Allowed([], concat) && EvalLR(s[0], s[1..], []) == target;
    } else {
      var a, b, rest := s[0], s[1], s[2..];
      var op := if Possible(target, [a + b] + rest, concat) then Add
                else if Possible(target, [a * b] + rest, concat) then Mul else Cat;
      var w := Apply(op, a, b);
      ApplyAtLeast(op, a, b);
      PositiveFront(s, w);
      PossibleImpliesReaches(target, [w] + rest, concat);
      var f := [w] + rest;
      var ops :| |ops| == |f| - 1 && Allowed(ops, concat) && EvalLR(f[0], f[1..], ops) == target;
      EvalFront(s, op, ops);
      assert Allowed([op] + ops, concat);
    }
  }

  lemma {:induction false} ReachesImpliesPossible(target: int, s: seq<nat>, concat: bool)
    requires |s| >= 1 && Positive(s) && Reaches(target, s, concat)
    ensures Possible(target, s, concat)
    decreases |s|
  {
    var ops :| |ops| == |s| - 1 && Allowed(ops, concat) && EvalLR(s[0], s[1..], ops) == target;
    if |s| > 1 {
      var a, b, rest := s[0], s[1], s[2..];
      EvalAtLeast(a, s[1..], ops);
      var op := ops[0];
      var w := Apply(op, a, b);
      assert ops == [op] + ops[1..];
      EvalFront(s, op, ops[1..]);
      ApplyAtLeast(op, a, b);
      PositiveFront(s, w);
      assert Allowed(ops[1..], concat);
      ReachesImpliesPossible(target, [w] + rest, concat);
    }
  }

  /** is_possible_equation is True iff some left-to-right choice of operators evaluates
      to the target, so the prune never changes the answer for positive inputs. */
  lemma PossibleIffReaches(target: int, s: seq<nat>, concat: bool)
    requires |s| >= 1 && Positive(s)
    ensures Possible(target, s, concat) <==> Reaches(target, s, concat)
  {
    if Possible(target, s, concat) { PossibleImpliesReaches(target, s, concat); }
    if Reaches(target, s, concat) { ReachesImpliesPossible(target, s, concat); }
  }

  /** One input is possible iff it is the target. */
  lemma SingleInput(target: int, a: nat, concat: bool)
    ensures Possible(target, [a], concat) <==> a == target
  {
  }

  /** An equation possible with + and * alone stays possible once || is allowed. */
  lemma ConcatOnlyAdds(target: int, s: seq<nat>)
    requires |s| >= 1 && Positive(s)
    ensures Possible(target, s, false) ==> Possible(target, s, true)
  {
    PossibleIffReaches(target, s, false);
    PossibleIffReaches(target, s, true);
    if Reaches(target, s, false) {
      var ops :| |ops| == |s| - 1 && Allowed(ops, false) && EvalLR(s[0], s[1..], ops) == target;
      assert Allowed(ops, true);
    }
  }

  datatype Equation = Equation(target: nat, inputs: seq<nat>)

  ghost predicate WellFormed(eqs: seq<Equation>) {
    forall k :: 0 <= k < |eqs| ==> |eqs[k].inputs| >= 1 && Positive(eqs[k].inputs)
  }

  /** The sum of the targets some choice of operators reaches. */
  ghost function TargetSum(eqs: seq<Equation>, concat: bool): nat
    requires WellFormed(eqs)
  {
    if eqs == [] then 0
    else
      var e := eqs[|eqs| - 1];
      TargetSum(eqs[..|eqs| - 1], concat) + (if Reaches(e.target, e.inputs, concat) then e.target else 0)
  }

  /** part1 (concat = false, day7.py:29-41) and part2 (concat = true, day7.py:44-59). */
  method SumPossible(eqs: seq<Equation>, concat: bool) returns (sum: nat)
    requires WellFormed(eqs)
    ensures sum == TargetSum(eqs, concat)
  {
    sum := 0;
    var i := 0;
    while i < |eqs|
      invariant 0 <= i <= |eqs|
      invariant sum == TargetSum(eqs[..i], concat)
    {
      SumStep(eqs, i, concat);
      if Possible(eqs[i].target, eqs[i].inputs, concat) {
        sum := sum + eqs[i].target;
      }
      i := i + 1;
    }
    assert eqs[..i] == eqs;
  }

  /** One more equation adds its target exactly when the checker finds it possible. */
  lemma SumStep(eqs: seq<Equation>, i: nat, concat: bool)
    requires WellFormed(eqs) && i < |eqs|
    ensures WellFormed(eqs[..i]) && WellFormed(eqs[..i + 1])
    ensures TargetSum(eqs[..i + 1], concat) ==
      TargetSum(eqs[..i], concat) + (if Possible(eqs[i].target, eqs[i].inputs, concat) then eqs[i].target else 0)
  {
    assert eqs[..i + 1][..i] == eqs[..i];
    PossibleIffReaches(eqs[i].target, eqs[i].inputs, concat);
  }

  /** Allowing || never lowers the sum. */
  lemma {:induction false} ConcatSumAtLeast(eqs: seq<Equation>)
    requires WellFormed(eqs)
    ensures TargetSum(eqs, false) <= TargetSum(eqs, true)
  {
    if eqs != [] {
      ConcatSumAtLeast(eqs[..|eqs| - 1]);
      var e := eqs[|eqs| - 1];
      PossibleIffReaches(e.target, e.inputs, false);
      PossibleIffReaches(e.target, e.inputs, true);
      ConcatOnlyAdds(e.target, e.inputs);
    }
  }
}
