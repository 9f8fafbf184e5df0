/** The Option datatype, and sequence facts, shared by the puzzle models. */
module Wrappers {
  datatype Option<+T> = None | Some(value: T)

  /** A non-empty sequence is its head followed by its tail. */
  lemma FirstRest<T>(s: seq<T>)
    requires s != []
    ensures [s[0]] + s[1..] == s
  {
  }

  /** No element occurs twice. */
  predicate Distinct<T(==)>(s: seq<T>) {
    forall i, j :: 0 <= i < j < |s| ==> s[i] != s[j]
  }

  /** Two duplicate-free sequences with no element in common join without duplicates. */
  lemma DistinctAppend<T>(a: seq<T>, b: seq<T>)
    requires Distinct(a) && Distinct(b) && forall x :: x in a ==> x !in b
    ensures Distinct(a + b)
  {
    forall i, j | 0 <= i < j < |a + b|
      ensures (a + b)[i] != (a + b)[j]
    {
      if i < |a| && j >= |a| {
        assert (a + b)[i] in a && (a + b)[j] in b;
      }
    }
  }

  /** A sequence that extends t is t followed by what was added. */
  lemma ExtendsBy<T>(s: seq<T>, t: seq<T>)
    requires |t| <= |s| && s[..|t|] == t
    ensures s == t + s[|t|..]
  {
  }

  lemma AppendAssoc<T>(a: seq<T>, b: seq<T>, c: seq<T>)
    ensures (a + b) + c == a + (b + c)
  {
  }

  /** Moving x from the part still to do to the part done. */
  lemma MoveOne<T>(all: set<T>, todo: set<T>, x: T)
    requires x in todo && todo <= all
    ensures all - (todo - {x}) == (all - todo) + {x} && x !in all - todo
  {
  }

  /** The members of a sequence. */
  function Elems<T>(s: seq<T>): set<T> {
    set x | x in s
  }

  lemma ElemsSplit<T>(s: seq<T>, t: seq<T>)
    requires s != []
    ensures Elems(s) == {s[0]} + Elems(s[1..])
    ensures Elems(s[1..] + t) == Elems(s[1..]) + Elems(t)
  {
    assert s == [s[0]] + s[1..];
  }

  /** A prefix one longer has one more member. */
  lemma ElemsSnoc<T>(s: seq<T>, i: nat)
    requires i < |s|
    ensures Elems(s[..i + 1]) == Elems(s[..i]) + {s[i]}
  {
    assert s[..i + 1] == s[..i] + [s[i]];
  }
}
