/** `Array.prototype.filter`, which the widget uses both to delete a spell
    and to search the spells, and the order-preserving subsequence relation
    that describes its result. */
module Seqs {

  /** `r` is `s` with some elements left out and the others kept in order. */
  ghost predicate IsSubsequence<T>(r: seq<T>, s: seq<T>)
    decreases |s|
  {
    r == [] || (s != [] && ((r[0] == s[0] && IsSubsequence(r[1..], s[1..])) || IsSubsequence(r, s[1..])))
  }

  /** `s.filter(keep)`: the elements of `s` that satisfy `keep`, in their
      original order, each as many times as it occurs in `s`. */
  function Filter<T(!new)>(s: seq<T>, keep: T -> bool): (r: seq<T>)
    ensures |r| <= |s|
    ensures IsSubsequence(r, s)
    ensures forall i :: 0 <= i < |r| ==> r[i] in s && keep(r[i])
    ensures forall i :: 0 <= i < |s| && keep(s[i]) ==> s[i] in r
    ensures forall x :: multiset(r)[x] == if keep(x) then multiset(s)[x] else 0
    decreases |s|
  {
    if s == [] then []
    else
      var rest := Filter(s[1..], keep);
      FilterCountsStep(s, rest, keep);
      if keep(s[0]) then [s[0]] + rest else rest
  }

  /** The multiplicities of a filter follow from those of the filtered
      tail. */
  lemma FilterCountsStep<T(!new)>(s: seq<T>, rest: seq<T>, keep: T -> bool)
    requires s != []
    requires forall x :: multiset(rest)[x] == if keep(x) then multiset(s[1..])[x] else 0
    ensures forall x :: multiset(if keep(s[0]) then [s[0]] + rest else rest)[x] == if keep(x) then multiset(s)[x] else 0
  {
    assert s == [s[0]] + s[1..];
    assert multiset(s) == multiset{s[0]} + multiset(s[1..]);
    assert multiset([s[0]] + rest) == multiset{s[0]} + multiset(rest);
  }

  /** When every element is kept, filtering changes nothing. */
  lemma {:induction false} FilterKeepsAll<T(!new)>(s: seq<T>, keep: T -> bool)
    requires forall i :: 0 <= i < |s| ==> keep(s[i])
    ensures Filter(s, keep) == s
    decreases |s|
  {
    if s != [] {
      FilterKeepsAll(s[1..], keep);
      assert [s[0]] + s[1..] == s;
    }
  }

  /** Two tests that agree on every element of `s` select the same elements. */
  lemma {:induction false} FilterCongruent<T(!new)>(s: seq<T>, keep1: T -> bool, keep2: T -> bool)
    requires forall i :: 0 <= i < |s| ==> keep1(s[i]) == keep2(s[i])
    ensures Filter(s, keep1) == Filter(s, keep2)
    decreases |s|
  {
    if s != [] {
      FilterCongruent(s[1..], keep1, keep2);
    }
  }
}
