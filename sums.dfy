/** Sums of weights over sequences, used to count coverage hits. */
module Sums {

  function SumBy<T>(s: seq<T>, w: T -> int): int
    decreases |s|
  {
    if s == [] then 0 else SumBy(s[..|s| - 1], w) + w(s[|s| - 1])
  }

  lemma {:induction false} SumByConcat<T>(a: seq<T>, b: seq<T>, w: T -> int)
    ensures SumBy(a + b, w) == SumBy(a, w) + SumBy(b, w)
    decreases |b|
  {
    if b != [] {
      assert (a + b)[..|a + b| - 1] == a + b[..|b| - 1];
      SumByConcat(a, b[..|b| - 1], w);
    } else {
      assert a + b == a;
    }
  }

  /** A sum does not depend on the order of the summands. */
  lemma {:induction false} SumByPermutation<T>(a: seq<T>, b: seq<T>, w: T -> int)
    requires multiset(a) == multiset(b)
    ensures SumBy(a, w) == SumBy(b, w)
    decreases |a|
  {
    if a == [] {
      assert |b| == |multiset(b)| == 0;
    } else {
      var x := a[|a| - 1];
      var init := a[..|a| - 1];
      assert a == init + [x];
      assert x in multiset(b);
      var k :| 0 <= k < |b| && b[k] == x;
      var rest := b[..k] + b[k + 1..];
      RemovePermutation(a, b, k);
      SumByPermutation(init, rest, w);
      SumByRemove(b, k, w);
    }
  }

  /** Taking the last element of `a` and an equal element of `b` leaves a permutation. */
  lemma RemovePermutation<T>(a: seq<T>, b: seq<T>, k: nat)
    requires multiset(a) == multiset(b) && a != [] && k < |b| && b[k] == a[|a| - 1]
    ensures multiset(b[..k] + b[k + 1..]) == multiset(a[..|a| - 1])
  {
    var x := b[k];
    var rest := b[..k] + b[k + 1..];
    var init := a[..|a| - 1];
    assert a == init + [x];
    assert b == b[..k] + [x] + b[k + 1..];
    calc {
      multiset(b);
      multiset(b[..k] + [x] + b[k + 1..]);
      multiset(b[..k]) + multiset{x} + multiset(b[k + 1..]);
      multiset(rest) + multiset{x};
    }
    assert multiset(a) == multiset(init) + multiset{x};
    forall y ensures multiset(rest)[y] == multiset(init)[y] {
      assert (multiset(rest) + multiset{x})[y] == (multiset(init) + multiset{x})[y];
    }
  }

  /** The sum is the weight of one element plus the sum of the others. */
  lemma SumByRemove<T>(b: seq<T>, k: nat, w: T -> int)
    requires k < |b|
    ensures SumBy(b, w) == SumBy(b[..k] + b[k + 1..], w) + w(b[k])
  {
    var x, pre, post := b[k], b[..k], b[k + 1..];
    SplitAround(b, k);
    SumByConcat(pre + [x], post, w);
    SumByConcat(pre, [x], w);
    SumByConcat(pre, post, w);
    SumBySingle(x, w);
  }

  lemma SplitAround<T>(b: seq<T>, k: nat)
    requires k < |b|
    ensures b == (b[..k] + [b[k]]) + b[k + 1..]
  {
  }

  lemma SumBySingle<T>(x: T, w: T -> int)
    ensures SumBy([x], w) == w(x)
  {
    assert [x][..0] == [];
  }

  /** Weights that agree on every element give the same sum. */
  lemma {:induction false} SumByCongruent<T>(s: seq<T>, w1: T -> int, w2: T -> int)
    requires forall i :: 0 <= i < |s| ==> w1(s[i]) == w2(s[i])
    ensures SumBy(s, w1) == SumBy(s, w2)
    decreases |s|
  {
    if s != [] {
      SumByCongruent(s[..|s| - 1], w1, w2);
    }
  }
}
