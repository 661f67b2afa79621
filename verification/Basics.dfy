/** What several parts of the model share. */
module Basics {

  datatype Option<+T> = None | Some(value: T)

  const USIZE_MAX: nat := 0xFFFF_FFFF_FFFF_FFFF

  function Min(a: nat, b: nat): (m: nat)
    ensures m <= a && m <= b && (m == a || m == b)
  {
    if a <= b then a else b
  }

  function Max(a: int, b: int): (m: int)
    ensures m >= a && m >= b && (m == a || m == b)
  {
    if a <= b then b else a
  }

  /** The events of a log. */
  function TotalLength<T>(log: seq<seq<T>>): nat {
    if log == [] then 0 else TotalLength(log[..|log| - 1]) + |log[|log| - 1]|
  }

  // ---------- sums ----------

  function SeqSum(xs: seq<int>): int {
    if xs == [] then 0 else SeqSum(xs[..|xs| - 1]) + xs[|xs| - 1]
  }

  /** The sum of one number is the number, and sums of parts add up: this leaves no other sum. */
  lemma {:induction false} SeqSumIsAdditive(xs: seq<int>, ys: seq<int>, x: int)
    ensures SeqSum([x]) == x
    ensures SeqSum(xs + ys) == SeqSum(xs) + SeqSum(ys)
    decreases |ys|
  {
    if ys == [] {
      assert xs + ys == xs;
    } else {
      SeqSumIsAdditive(xs, ys[..|ys| - 1], x);
      assert (xs + ys)[..|xs + ys| - 1] == xs + ys[..|ys| - 1];
    }
  }

  lemma {:induction false} SeqSumPlus(xs: seq<int>, ys: seq<int>, zs: seq<int>)
    requires |xs| == |ys| == |zs| && forall i | 0 <= i < |xs| :: zs[i] == xs[i] + ys[i]
    ensures SeqSum(zs) == SeqSum(xs) + SeqSum(ys)
  {
    if xs != [] {
      SeqSumPlus(xs[..|xs| - 1], ys[..|ys| - 1], zs[..|zs| - 1]);
    }
  }

  lemma {:induction false} SeqSumOfNothing(xs: seq<int>)
    requires forall i | 0 <= i < |xs| :: xs[i] >= 0
    ensures SeqSum(xs) >= 0
    ensures SeqSum(xs) == 0 <==> forall i | 0 <= i < |xs| :: xs[i] == 0
  {
    if xs != [] {
      SeqSumOfNothing(xs[..|xs| - 1]);
    }
  }

  // ---------- sets ----------

  lemma SubsetIsSmaller<T>(a: set<T>, b: set<T>)
    requires a <= b
    ensures |a| <= |b|
  {
    assert b == a + (b - a);
  }

  lemma SubsetOfSameSize<T>(a: set<T>, b: set<T>)
    requires a <= b && |b| <= |a|
    ensures a == b
  {
    assert b == a + (b - a);
  }
}
