/**
 The benchmark's percentile, the evaluation's own 95th percentile and the scorer's median, over exact
 numbers and before any rounding. Absent measurements are left out of the sample.
 */
module Percentile {
  import opened Common
  import opened Sorting

  predicate Below(a: real, b: real) { a <= b }

  function Present(values: seq<Option<real>>): seq<real> {
    if values == [] then []
    else Present(values[..|values| - 1]) +
         (if values[|values| - 1].Some? then [values[|values| - 1].value] else [])
  }

  function Ceil(x: real): int {
    -((-x).Floor)
  }

  /** The share of `n` samples that a percentile asks for. */
  function Share(n: nat, fraction: real): real {
    n as real * fraction
  }

  function NearestRank(sorted: seq<real>, fraction: real): real
    requires sorted != [] && fraction <= 1.0
  {
    var rank := Ceil(Share(|sorted|, fraction)) - 1;
    RankInRange(|sorted|, fraction);
    sorted[if rank < 0 then 0 else rank]
  }

  lemma RankInRange(n: nat, fraction: real)
    requires fraction <= 1.0
    ensures Ceil(Share(n, fraction)) <= n
    ensures n > 0 && fraction > 0.0 ==> Share(n, fraction) > 0.0
  {
    assert Share(n, fraction) <= n as real;
  }

  function PercentileOfSorted(sorted: seq<real>, fraction: real): Option<real>
    requires fraction <= 1.0
  {
    if sorted == [] then None
    else if fraction == 0.5 && |sorted| % 2 == 0 then
      Some((sorted[|sorted| / 2 - 1] + sorted[|sorted| / 2]) / 2.0)
    else Some(NearestRank(sorted, fraction))
  }

  /** `percentile` of the benchmark. */
  function Percentile(values: seq<Option<real>>, fraction: real): Option<real>
    requires fraction <= 1.0
  {
    PercentileOfSorted(Sorted(Present(values), Below), fraction)
  }

  /** `p95` of the evaluation's aggregate. */
  function AggregateP95(values: seq<Option<real>>): Option<real> {
    var sorted := Sorted(Present(values), Below);
    if sorted == [] then None else Some(NearestRank(sorted, 0.95))
  }

  /** `median` of the scorer, before rounding. */
  function Median(values: seq<Option<real>>): Option<real> {
    var sorted := Sorted(Present(values), Below);
    if sorted == [] then None
    else
      var middle := |sorted| / 2;
      if |sorted| % 2 == 1 then Some(sorted[middle])
      else Some((sorted[middle - 1] + sorted[middle]) / 2.0)
  }

  lemma BelowIsOrder()
    ensures TotalPreorder(Below)
  {
  }

  /** How many samples are at most `bound`. */
  ghost function CountAtMost(sample: seq<real>, bound: real): nat {
    if sample == [] then 0 else (if sample[0] <= bound then 1 else 0) + CountAtMost(sample[1..], bound)
  }

  lemma {:induction false} CountWithout(sample: seq<real>, k: nat, bound: real)
    requires k < |sample|
    ensures CountAtMost(sample, bound) == (if sample[k] <= bound then 1 else 0) + CountAtMost(Without(sample, k), bound)
  {
    if k == 0 {
      assert Without(sample, 0) == sample[1..];
    } else {
      CountWithout(sample[1..], k - 1, bound);
      assert Without(sample, k)[1..] == Without(sample[1..], k - 1);
    }
  }

  lemma {:induction false} CountForgetsOrder(a: seq<real>, b: seq<real>, bound: real)
    requires multiset(a) == multiset(b)
    ensures CountAtMost(a, bound) == CountAtMost(b, bound)
    decreases b
  {
    if b == [] {
      assert |multiset(a)| == 0;
    } else {
      var k := FindAndRemove(a, b);
      CountWithout(a, k, bound);
      CountForgetsOrder(Without(a, k), b[1..], bound);
    }
  }

  /** In an ordered sample whose first `k` elements are the ones at most `bound`, that count is `k`. */
  lemma {:induction false} CountOfPrefix(sorted: seq<real>, k: nat, bound: real)
    requires k <= |sorted|
    requires forall i | 0 <= i < |sorted| :: sorted[i] <= bound <==> i < k
    ensures CountAtMost(sorted, bound) == k
  {
    if sorted != [] {
      assert forall i | 0 <= i < |sorted| - 1 :: sorted[1..][i] == sorted[i + 1];
      CountOfPrefix(sorted[1..], if k == 0 then 0 else k - 1, bound);
    }
  }

  /** In an ordered sample at least `k + 1` elements are at most element `k`, and at most `k` are below it. */
  lemma {:induction false} CountAround(sorted: seq<real>, k: nat, bound: real)
    requires Ordered(sorted, Below) && k < |sorted|
    ensures sorted[k] <= bound ==> CountAtMost(sorted, bound) >= k + 1
    ensures bound < sorted[k] ==> CountAtMost(sorted, bound) <= k
  {
    var cut := Cut(sorted, bound);
    CountOfPrefix(sorted, cut, bound);
    assert forall i | 0 <= i < k :: Below(sorted[i], sorted[k]);
    assert forall i | k < i < |sorted| :: Below(sorted[k], sorted[i]);
  }

  ghost function Cut(sorted: seq<real>, bound: real): (k: nat)
    requires Ordered(sorted, Below)
    ensures k <= |sorted| && forall i | 0 <= i < |sorted| :: sorted[i] <= bound <==> i < k
  {
    if sorted == [] then 0
    else if sorted[|sorted| - 1] <= bound then
      assert forall i | 0 <= i < |sorted| - 1 :: Below(sorted[i], sorted[|sorted| - 1]);
      |sorted|
    else Cut(sorted[..|sorted| - 1], bound)
  }

  /** The least sample with at least `share` samples at or below it. */
  ghost predicate IsNearestRank(sample: seq<real>, share: real, value: real) {
    && value in sample
    && CountAtMost(sample, value) as real >= share
    && forall other | other in sample && other < value :: (CountAtMost(sample, other) as real) < share
  }

  /** Except for the median of an even sample, a percentile is the least sample with at least the asked
      share of the sample at or below it; a share of nothing asks for the least of all. */
  lemma NearestRankIs(values: seq<Option<real>>, fraction: real)
    requires fraction <= 1.0 && Present(values) != []
    requires !(fraction == 0.5 && |Present(values)| % 2 == 0)
    ensures Percentile(values, fraction).Some?
    ensures IsNearestRank(Present(values), |Present(values)| as real * fraction, Percentile(values, fraction).value)
  {
    RankOfSample(values, fraction);
  }

  lemma RankOfSample(values: seq<Option<real>>, fraction: real)
    requires fraction <= 1.0 && Present(values) != []
    requires !(fraction == 0.5 && |Present(values)| % 2 == 0)
    ensures Percentile(values, fraction).Some?
    ensures IsNearestRank(Present(values), Share(|Present(values)|, fraction), Percentile(values, fraction).value)
  {
    var sample := Present(values);
    BelowIsOrder();
    SortedKeeps(sample, Below);
    var sorted := Sorted(sample, Below);
    hide Share, PercentileOfSorted, IsNearestRank;
    RankOfSorted(sorted, fraction);
    RankForgetsOrder(sorted, sample, Share(|sorted|, fraction), PercentileOfSorted(sorted, fraction).value);
  }

  lemma RankOfSorted(sorted: seq<real>, fraction: real)
    requires fraction <= 1.0 && sorted != [] && Ordered(sorted, Below)
    requires !(fraction == 0.5 && |sorted| % 2 == 0)
    ensures PercentileOfSorted(sorted, fraction).Some?
    ensures IsNearestRank(sorted, Share(|sorted|, fraction), PercentileOfSorted(sorted, fraction).value)
  {
    var share := Share(|sorted|, fraction);
    RankInRange(|sorted|, fraction);
    NearestRankOfSorted(sorted, share, if Ceil(share) - 1 < 0 then 0 else Ceil(share) - 1);
  }

  /** The median of an even sample lies halfway between two samples: the least with half of the sample
      at or below it, and the least with one more. */
  lemma EvenMedianIs(values: seq<Option<real>>) returns (low: real, high: real)
    requires |Present(values)| > 0 && |Present(values)| % 2 == 0
    ensures Percentile(values, 0.5) == Some((low + high) / 2.0)
    ensures var n := |Present(values)|;
            && IsNearestRank(Present(values), (n / 2) as real, low)
            && IsNearestRank(Present(values), (n / 2 + 1) as real, high)
  {
    var sample := Present(values);
    BelowIsOrder();
    SortedKeeps(sample, Below);
    var sorted := Sorted(sample, Below);
    var half := |sorted| / 2;
    low, high := sorted[half - 1], sorted[half];
    hide IsNearestRank, Ordered;
    WholeShare(sorted, half - 1);
    WholeShare(sorted, half);
    RankForgetsOrder(sorted, sample, half as real, low);
    RankForgetsOrder(sorted, sample, (half + 1) as real, high);
  }

  lemma WholeShare(sorted: seq<real>, rank: nat)
    requires Ordered(sorted, Below) && rank < |sorted|
    ensures IsNearestRank(sorted, (rank + 1) as real, sorted[rank])
  {
    NearestRankOfSorted(sorted, (rank + 1) as real, rank);
  }

  lemma RankForgetsOrder(a: seq<real>, b: seq<real>, share: real, value: real)
    requires multiset(a) == multiset(b) && IsNearestRank(a, share, value)
    ensures IsNearestRank(b, share, value)
  {
    forall x: real ensures x in a <==> x in b {
      assert x in multiset(a) <==> x in multiset(b);
    }
    CountForgetsOrder(a, b, value);
    forall other | other in b && other < value ensures (CountAtMost(b, other) as real) < share {
      CountForgetsOrder(a, b, other);
    }
  }

  lemma NearestRankOfSorted(sorted: seq<real>, share: real, rank: nat)
    requires Ordered(sorted, Below) && rank < |sorted|
    requires rank == if Ceil(share) - 1 < 0 then 0 else Ceil(share) - 1
    ensures IsNearestRank(sorted, share, sorted[rank])
  {
    assert share <= (rank + 1) as real && (rank > 0 ==> rank as real < share);
    CountAround(sorted, rank, sorted[rank]);
    assert forall i | 0 < i < |sorted| :: Below(sorted[0], sorted[i]);
    forall other | other in sorted && other < sorted[rank]
      ensures (CountAtMost(sorted, other) as real) < share
    {
      if rank > 0 { CountAround(sorted, rank, other); }
    }
  }

  /** The benchmark's p95 and the evaluation's are the same number. */
  lemma P95Agrees(values: seq<Option<real>>)
    ensures Percentile(values, 0.95) == AggregateP95(values)
  {
  }

  /** The benchmark's p50 is the unrounded median, whatever the size of the sample. */
  lemma P50IsMedian(values: seq<Option<real>>)
    ensures Percentile(values, 0.5) == Median(values)
  {
    var n := |Sorted(Present(values), Below)|;
    if n % 2 == 1 {
      assert Share(n, 0.5) == (n / 2) as real + 0.5;
      assert Ceil(Share(n, 0.5)) == n / 2 + 1;
    }
  }

  /** p95 is never below p50. */
  lemma P95IsAboveP50(values: seq<Option<real>>)
    ensures Percentile(values, 0.5).Some? <==> Percentile(values, 0.95).Some?
    ensures Percentile(values, 0.5).Some? ==> Percentile(values, 0.5).value <= Percentile(values, 0.95).value
  {
    BelowIsOrder();
    SortedKeeps(Present(values), Below);
    var sorted := Sorted(Present(values), Below);
    if sorted != [] {
      var n := |sorted|;
      RankInRange(n, 0.95);
      var rank := Ceil(Share(n, 0.95)) - 1;
      HighRank(n);
      P50IsMedian(values);
      if n / 2 < rank { assert Below(sorted[n / 2], sorted[rank]); }
      if n % 2 == 0 { assert Below(sorted[n / 2 - 1], sorted[n / 2]); }
    }
  }

  lemma HighRank(n: nat)
    requires n > 0
    ensures Ceil(Share(n, 0.95)) - 1 >= n / 2
  {
    assert Share(n, 0.95) <= Ceil(Share(n, 0.95)) as real;
    if n == 1 { assert Ceil(0.95) == 1; }
  }

  lemma {:induction false} PresentIsSample(values: seq<Option<real>>, x: real)
    ensures multiset(Present(values))[x] == multiset(values)[Some(x)]
  {
    if values != [] {
      WithoutLast(values);
      PresentIsSample(values[..|values| - 1], x);
    }
  }

  /** No percentile depends on the order of the runs. */
  lemma PercentileForgetsOrder(a: seq<Option<real>>, b: seq<Option<real>>, fraction: real)
    requires multiset(a) == multiset(b) && fraction <= 1.0
    ensures Percentile(a, fraction) == Percentile(b, fraction)
  {
    PresentForgetsOrder(a, b);
    BelowIsOrder();
    SortedForgetsOrder(Present(a), Present(b), Below);
  }

  lemma PresentForgetsOrder(a: seq<Option<real>>, b: seq<Option<real>>)
    requires multiset(a) == multiset(b)
    ensures multiset(Present(a)) == multiset(Present(b))
  {
    forall x: real ensures multiset(Present(a))[x] == multiset(Present(b))[x] {
      PresentIsSample(a, x);
      PresentIsSample(b, x);
    }
  }
}
