/** Small facts about sequences shared by the scoring and selection modules. */
module Sequences {

  /** Position of the first occurrence of x in s. */
  function FirstIndex<T(==)>(s: seq<T>, x: T): (i: nat)
    requires x in s
    ensures i < |s| && s[i] == x
    ensures forall k :: 0 <= k < i ==> s[k] != x
  {
    if s[0] == x then 0 else 1 + FirstIndex(s[1..], x)
  }

  /** Appending an element does not move the first occurrence of an element already present. */
  lemma FirstIndexAppend<T>(s: seq<T>, y: T, x: T)
    requires x in s
    ensures x in s + [y] && FirstIndex(s + [y], x) == FirstIndex(s, x)
  {
    var i := FirstIndex(s, x);
    var t := s + [y];
    assert t[i] == x;
    var j := FirstIndex(t, x);
    assert forall k :: 0 <= k < i ==> t[k] == s[k];
  }

  /** Putting an element in front shifts the first occurrence of every other element by one. */
  lemma FirstIndexCons<T>(h: T, t: seq<T>, x: T)
    requires x in t && x != h
    ensures x in [h] + t && FirstIndex([h] + t, x) == 1 + FirstIndex(t, x)
  {
    assert ([h] + t)[1..] == t;
  }

  /** The last element of a sequence adds one to its own count and nothing to any other. */
  lemma CountWithLast<T>(s: seq<T>, x: T)
    requires s != []
    ensures multiset(s)[x] == multiset(s[..|s| - 1])[x] + (if x == s[|s| - 1] then 1 else 0)
  {
    assert s == s[..|s| - 1] + [s[|s| - 1]];
  }

  /** No element occurs twice. */
  predicate Distinct<T(==)>(s: seq<T>) {
    forall i, j :: 0 <= i < j < |s| ==> s[i] != s[j]
  }

  /** A sequence without repeats has as many elements as its set of elements. */
  lemma {:induction false} DistinctCardinality<T>(s: seq<T>)
    requires Distinct(s)
    ensures |set x | x in s| == |s|
  {
    if s != [] {
      var n := |s| - 1;
      DistinctCardinality(s[..n]);
      assert (set x | x in s) == (set x | x in s[..n]) + {s[n]};
      assert s[n] !in s[..n];
    }
  }
}
