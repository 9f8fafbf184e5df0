/** Day 1: Historian Hysteria -- distance and similarity of two lists of location ids.
    The puzzle's worked example gives 11 for the distance and 31 for the similarity. */
module Day1 {

  ghost predicate Sorted(s: seq<int>) {
    forall i, j :: 0 <= i < j < |s| ==> s[i] <= s[j]
  }

  /** Inserts x before the first element that is not smaller than it. */
  function Insert(x: int, s: seq<int>): (r: seq<int>)
    requires Sorted(s)
    ensures |r| == |s| + 1
    ensures r[0] == if s == [] || x <= s[0] then x else s[0]
    ensures Sorted(r)
    ensures multiset(r) == multiset(s) + multiset{x}
  {
    if s == [] then [x]
    else if x <= s[0] then [x] + s
    else
      assert s == [s[0]] + s[1..];
      var t := Insert(x, s[1..]);
      assert s[0] <= t[0];
      [s[0]] + t
  }

  /** The ascending rearrangement of s, standing for Python's `sorted`. */
  function Sort(s: seq<int>): (r: seq<int>)
    ensures Sorted(r)
    ensures multiset(r) == multiset(s)
    ensures |r| == |s|
  {
    if s == [] then []
    else
      assert s == [s[0]] + s[1..];
      Insert(s[0], Sort(s[1..]))
  }

  lemma SortedTail(a: seq<int>)
    requires Sorted(a) && a != []
    ensures Sorted(a[1..])
    ensures multiset(a[1..]) == multiset(a) - multiset{a[0]}
  {
    assert a == [a[0]] + a[1..];
  }

  lemma SortedHeadIsLeast(a: seq<int>, y: int)
    requires Sorted(a) && y in multiset(a)
    ensures a[0] <= y
  {
    var i :| 0 <= i < |a| && a[i] == y;
  }

  /** Two sorted sequences holding the same multiset are equal. */
  lemma {:induction false} SortedUnique(a: seq<int>, b: seq<int>)
    requires Sorted(a) && Sorted(b)
    requires multiset(a) == multiset(b)
    ensures a == b
  {
    if a == [] || b == [] {
      assert |a| == |multiset(a)| && |b| == |multiset(b)|;
    } else {
      assert a[0] == b[0] by {
        SortedHeadIsLeast(a, b[0]);
        SortedHeadIsLeast(b, a[0]);
      }
      assert a[1..] == b[1..] by {
        SortedTail(a);
        SortedTail(b);
        SortedUnique(a[1..], b[1..]);
      }
      assert a == [a[0]] + a[1..];
      assert b == [b[0]] + b[1..];
    }
  }

  /** Sorting depends only on the multiset of the input. */
  lemma SortPermutationInvariant(s: seq<int>, t: seq<int>)
    requires multiset(s) == multiset(t)
    ensures Sort(s) == Sort(t)
  {
    SortedUnique(Sort(s), Sort(t));
  }

  function Abs(x: int): int { if x < 0 then -x else x }

  /** Sum of |a[k] - b[k]| over positions present in both, the way `zip` truncates. */
  function ZipDistance(a: seq<int>, b: seq<int>): int
  {
    if a == [] || b == [] then 0 else Abs(a[0] - b[0]) + ZipDistance(a[1..], b[1..])
  }

  /** day1.py part1: total distance between the two sorted lists. */
  function TotalDistance(l1: seq<int>, l2: seq<int>): (r: int)
    ensures r >= 0
  {
    DistanceNonNegative(Sort(l1), Sort(l2));
    ZipDistance(Sort(l1), Sort(l2))
  }

  lemma {:induction false} DistanceNonNegative(a: seq<int>, b: seq<int>)
    ensures ZipDistance(a, b) >= 0
  {
    if a != [] && b != [] { DistanceNonNegative(a[1..], b[1..]); }
  }

  lemma {:induction false} ZipDistanceSymmetric(a: seq<int>, b: seq<int>)
    ensures ZipDistance(a, b) == ZipDistance(b, a)
  {
    if a != [] && b != [] { ZipDistanceSymmetric(a[1..], b[1..]); }
  }

  lemma {:induction false} ZipDistanceSelf(a: seq<int>)
    ensures ZipDistance(a, a) == 0
  {
    if a != [] { ZipDistanceSelf(a[1..]); }
  }

  /** Reordering either list does not change the total distance. */
  lemma TotalDistanceReorder(l1: seq<int>, l1': seq<int>, l2: seq<int>, l2': seq<int>)
    requires multiset(l1) == multiset(l1') && multiset(l2) == multiset(l2')
    ensures TotalDistance(l1, l2) == TotalDistance(l1', l2')
  {
    SortPermutationInvariant(l1, l1');
    SortPermutationInvariant(l2, l2');
  }

  /** Swapping the two lists does not change the total distance. */
  lemma TotalDistanceSymmetric(l1: seq<int>, l2: seq<int>)
    ensures TotalDistance(l1, l2) == TotalDistance(l2, l1)
  {
    ZipDistanceSymmetric(Sort(l1), Sort(l2));
  }

  /** Lists that are permutations of each other are at distance 0. */
  lemma TotalDistanceOfPermutation(l1: seq<int>, l2: seq<int>)
    requires multiset(l1) == multiset(l2)
    ensures TotalDistance(l1, l2) == 0
  {
    SortPermutationInvariant(l1, l2);
    ZipDistanceSelf(Sort(l1));
  }

  /** Number of occurrences of n in s (Python's Counter lookup). */
  function Occurrences(s: seq<int>, n: int): (c: nat)
    ensures c == multiset(s)[n]
  {
    if s == [] then 0
    else
      assert s == [s[0]] + s[1..];
      (if s[0] == n then 1 else 0) + Occurrences(s[1..], n)
  }

  /** day1.py part2: sum over n in l1 of n times its occurrences in l2. */
  function Similarity(l1: seq<int>, l2: seq<int>): int
  {
    if l1 == [] then 0 else l1[0] * Occurrences(l2, l1[0]) + Similarity(l1[1..], l2)
  }

  /** Reordering l2 does not change the similarity score. */
  lemma {:induction false} SimilarityReorder(l1: seq<int>, l2: seq<int>, l2': seq<int>)
    requires multiset(l2) == multiset(l2')
    ensures Similarity(l1, l2) == Similarity(l1, l2')
  {
    if l1 != [] { SimilarityReorder(l1[1..], l2, l2'); }
  }
}
