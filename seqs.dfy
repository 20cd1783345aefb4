/** Sequence helpers for the nested enumeration loops. */
module Seqs {

  /** Concatenation of `f(x)` over `xs`, in order. */
  function FlatMap<T, U>(xs: seq<T>, f: T -> seq<U>): seq<U>
  {
    if |xs| == 0 then [] else FlatMap(xs[..|xs| - 1], f) + f(xs[|xs| - 1])
  }

  predicate Distinct<T(==)>(s: seq<T>)
  {
    forall i, j :: 0 <= i < j < |s| ==> s[i] != s[j]
  }

  /** One more outer iteration appends one more block. */
  lemma FlatMapSnoc<T, U>(xs: seq<T>, f: T -> seq<U>, i: nat)
    requires i < |xs|
    ensures FlatMap(xs[..i + 1], f) == FlatMap(xs[..i], f) + f(xs[i])
  {
    assert xs[..i + 1][..i] == xs[..i];
  }

  /** One more outer iteration, seen after a prefix `pushed` already run. */
  lemma FlatMapStepAfter<T, U>(pushed: seq<U>, xs: seq<T>, f: T -> seq<U>, i: nat)
    requires i < |xs|
    ensures pushed + FlatMap(xs[..i + 1], f) == (pushed + FlatMap(xs[..i], f)) + f(xs[i])
  {
    FlatMapSnoc(xs, f, i);
    assert pushed + (FlatMap(xs[..i], f) + f(xs[i])) == (pushed + FlatMap(xs[..i], f)) + f(xs[i]);
  }

  /** Blocks of the same length `k` give `|xs| * k` elements. */
  lemma {:induction false} FlatMapLength<T, U>(xs: seq<T>, f: T -> seq<U>, k: nat)
    requires forall i :: 0 <= i < |xs| ==> |f(xs[i])| == k
    ensures |FlatMap(xs, f)| == |xs| * k
  {
    if |xs| > 0 {
      FlatMapLength(xs[..|xs| - 1], f, k);
    }
  }

  /** Every element of the concatenation comes from the block of some `x` in `xs`. */
  lemma {:induction false} FlatMapMember<T, U>(xs: seq<T>, f: T -> seq<U>, u: U)
    requires u in FlatMap(xs, f)
    ensures exists i :: 0 <= i < |xs| && u in f(xs[i])
  {
    var n := |xs|;
    if u in f(xs[n - 1]) {
    } else {
      FlatMapMember(xs[..n - 1], f, u);
      var i :| 0 <= i < n - 1 && u in f(xs[..n - 1][i]);
      assert xs[..n - 1][i] == xs[i];
    }
  }

  lemma DistinctAppend<T>(a: seq<T>, b: seq<T>)
    requires Distinct(a) && Distinct(b)
    requires forall u :: u in a ==> u !in b
    ensures Distinct(a + b)
  {
    forall i, j | 0 <= i < j < |a + b|
      ensures (a + b)[i] != (a + b)[j]
    {
      if j < |a| {
      } else if i >= |a| {
        assert (a + b)[i] == b[i - |a|] && (a + b)[j] == b[j - |a|];
      } else {
        assert (a + b)[i] in a && (a + b)[j] in b;
      }
    }
  }

  /**
   * Distinct outer elements whose blocks are distinct and pairwise disjoint
   * give a concatenation without repeats.
   */
  lemma {:induction false} FlatMapDistinct<T, U>(xs: seq<T>, f: T -> seq<U>)
    requires Distinct(xs)
    requires forall i :: 0 <= i < |xs| ==> Distinct(f(xs[i]))
    requires forall i, j, u :: 0 <= i < |xs| && 0 <= j < |xs| && i != j && u in f(xs[i]) ==> u !in f(xs[j])
    ensures Distinct(FlatMap(xs, f))
  {
    var n := |xs|;
    if n > 0 {
      var init := xs[..n - 1];
      FlatMapDistinct(init, f);
      forall u | u in FlatMap(init, f)
        ensures u !in f(xs[n - 1])
      {
        FlatMapMember(init, f, u);
        var i :| 0 <= i < |init| && u in f(init[i]);
        assert init[i] == xs[i];
      }
      DistinctAppend(FlatMap(init, f), f(xs[n - 1]));
    }
  }

  /** Every element of every block is in the concatenation. */
  lemma {:induction false} FlatMapContains<T, U>(xs: seq<T>, f: T -> seq<U>, i: int, u: U)
    requires 0 <= i < |xs| && u in f(xs[i])
    ensures u in FlatMap(xs, f)
  {
    var n := |xs|;
    if i < n - 1 {
      FlatMapContains(xs[..n - 1], f, i, u);
    }
  }
}
