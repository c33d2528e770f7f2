/** Order predicates on id sequences. */
module Sequences {

  predicate StrictlyAscending(s: seq<int>) {
    forall i, j :: 0 <= i < j < |s| ==> s[i] < s[j]
  }

  /** Putting a smaller element in front keeps a sequence ascending. */
  lemma AscendingCons(x: int, s: seq<int>)
    requires StrictlyAscending(s)
    requires forall k :: 0 <= k < |s| ==> x < s[k]
    ensures StrictlyAscending([x] + s)
  {
    var s' := [x] + s;
    forall i, j | 0 <= i < j < |s'|
      ensures s'[i] < s'[j]
    {
      assert s'[j] == s[j - 1];
      if i > 0 {
        assert s'[i] == s[i - 1];
      }
    }
  }

  /** `xs` is `ys` with some elements dropped, the rest in the same order. */
  predicate IsSubsequence<T(==)>(xs: seq<T>, ys: seq<T>)
    decreases |ys|
  {
    if xs == [] then true
    else if ys == [] then false
    else if xs[0] == ys[0] then IsSubsequence(xs[1..], ys[1..])
    else IsSubsequence(xs, ys[1..])
  }

  /** A subsequence is never longer than the sequence it is drawn from. */
  lemma {:induction false} SubsequenceLength<T>(xs: seq<T>, ys: seq<T>)
    requires IsSubsequence(xs, ys)
    ensures |xs| <= |ys|
    decreases |ys|
  {
    if xs != [] {
      if xs[0] == ys[0] {
        SubsequenceLength(xs[1..], ys[1..]);
      } else {
        SubsequenceLength(xs, ys[1..]);
      }
    }
  }
}
