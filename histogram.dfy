/** Channel histograms: a sequence of counts indexed by channel. */
module Histogram {

  /** Every value of the batch is a channel below `n`. */
  predicate InRange(batch: seq<int>, n: int) {
    forall k :: 0 <= k < |batch| ==> 0 <= batch[k] < n
  }

  /** `Array(n).fill(0)`. */
  function Zeros(n: nat): (r: seq<int>)
    ensures |r| == n && forall k :: 0 <= k < n ==> r[k] == 0
  {
    seq(n, _ => 0)
  }

  /** The histogram after every value of the batch, in order, bumped its channel. */
  function Merge(h: seq<int>, batch: seq<int>): (r: seq<int>)
    requires InRange(batch, |h|)
    ensures |r| == |h|
    decreases |batch|
  {
    if |batch| == 0 then h else Merge(h[batch[0] := h[batch[0]] + 1], batch[1..])
  }

  /** Merging a batch that starts with `k` bumps cell `k` first. */
  lemma MergeCons(h: seq<int>, k: int, rest: seq<int>)
    requires 0 <= k < |h| && InRange(rest, |h|)
    ensures InRange([k] + rest, |h|)
    ensures Merge(h, [k] + rest) == Merge(h[k := h[k] + 1], rest)
  {
    var batch := [k] + rest;
    assert batch[0] == k && batch[1..] == rest;
  }

  /** The sum of all counts. */
  function Total(h: seq<int>): int
  {
    if |h| == 0 then 0 else Total(h[..|h| - 1]) + h[|h| - 1]
  }

  lemma {:induction false} MergeCounts(h: seq<int>, batch: seq<int>)
    requires InRange(batch, |h|)
    ensures forall k :: 0 <= k < |h| ==> Merge(h, batch)[k] == h[k] + multiset(batch)[k]
    decreases |batch|
  {
    if |batch| > 0 {
      var h1 := h[batch[0] := h[batch[0]] + 1];
      MergeCounts(h1, batch[1..]);
      assert batch == [batch[0]] + batch[1..];
      assert multiset(batch) == multiset{batch[0]} + multiset(batch[1..]);
    }
  }

  lemma {:induction false} TotalBump(h: seq<int>, i: int)
    requires 0 <= i < |h|
    ensures Total(h[i := h[i] + 1]) == Total(h) + 1
    decreases |h|
  {
    var h1 := h[i := h[i] + 1];
    assert h1[..|h1| - 1] == if i < |h| - 1 then h[..|h| - 1][i := h[i] + 1] else h[..|h| - 1];
    if i < |h| - 1 {
      TotalBump(h[..|h| - 1], i);
    }
  }

  /** The histogram's total rises by the batch length. */
  lemma {:induction false} MergeTotal(h: seq<int>, batch: seq<int>)
    requires InRange(batch, |h|)
    ensures Total(Merge(h, batch)) == Total(h) + |batch|
    decreases |batch|
  {
    if |batch| > 0 {
      TotalBump(h, batch[0]);
      MergeTotal(h[batch[0] := h[batch[0]] + 1], batch[1..]);
    }
  }

  lemma {:induction false} TotalZeros(n: nat)
    ensures Total(Zeros(n)) == 0
  {
    if n > 0 {
      assert Zeros(n)[..n - 1] == Zeros(n - 1);
      TotalZeros(n - 1);
    }
  }

  /** updateData on an empty histogram: `adcChannels` entries, entry k the
      number of k's in the batch, total the batch length. */
  lemma MergeIntoEmpty(n: nat, batch: seq<int>)
    requires InRange(batch, n)
    ensures |Merge(Zeros(n), batch)| == n
    ensures forall k :: 0 <= k < n ==> Merge(Zeros(n), batch)[k] == multiset(batch)[k]
    ensures Total(Merge(Zeros(n), batch)) == |batch|
  {
    MergeCounts(Zeros(n), batch);
    MergeTotal(Zeros(n), batch);
    TotalZeros(n);
  }
}
