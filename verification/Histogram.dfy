/** The class Histogram of core/src/histogram.cc; every method is one step under its mutex. */
module Histograms {
  import opened Wrappers
  import opened Instruments
  import HM = HistogramModel

  class Histogram {
    const bucketBoundaries: seq<real>
    const bucketCounts: seq<Counter>
    const sum: Gauge

    ghost predicate Valid()
      reads this, bucketCounts
    {
      && |bucketCounts| == |bucketBoundaries| + 1
      && (forall i, j | 0 <= i < j < |bucketCounts| :: bucketCounts[i] != bucketCounts[j])
      && (forall i | 0 <= i < |bucketCounts| :: bucketCounts[i].value >= 0.0)
      && HM.StrictlyIncreasing(bucketBoundaries)
    }

    ghost function Values(): (r: seq<real>)
      reads bucketCounts
      ensures |r| == |bucketCounts|
    {
      seq(|bucketCounts|, i requires 0 <= i < |bucketCounts| reads bucketCounts => bucketCounts[i].value)
    }

    ghost function State(): HM.Hist
      reads bucketCounts, sum
    {
      HM.Hist(bucketBoundaries, Values(), sum.value)
    }

    constructor (buckets: seq<real>)
      requires HM.IsStrictSorted(buckets)
      ensures Valid() && fresh(bucketCounts) && fresh(sum)
      ensures State() == HM.Empty(buckets)
    {
      var cs: seq<Counter> := [];
      for n := 0 to |buckets| + 1
        invariant |cs| == n
        invariant forall i | 0 <= i < n :: fresh(cs[i]) && cs[i].value == 0.0
        invariant forall i, j | 0 <= i < j < n :: cs[i] != cs[j]
      {
        var c := new Counter();
        cs := cs + [c];
      }
      var g := new Gauge(0.0);
      bucketBoundaries := buckets;
      bucketCounts := cs;
      sum := g;
      new;
      HM.StrictSortedExactly(buckets);
      assert Values() == HM.Zeros(|buckets| + 1);
    }

    /** The public constructor: null stands for the invalid_argument it throws. */
    static method Create(buckets: seq<real>) returns (h: Histogram?)
      ensures h != null <==> HM.StrictlyIncreasing(buckets)
      ensures h != null ==> fresh(h) && h.Valid() && h.State() == HM.Empty(buckets)
    {
      HM.StrictSortedExactly(buckets);
      if !HM.IsStrictSorted(buckets) {
        return null;
      }
      h := new Histogram(buckets);
    }

    method Observe(value: real)
      requires Valid()
      modifies bucketCounts, sum
      ensures Valid()
      ensures State() == HM.Observe(old(State()), value)
    {
      var bucketIndex := HM.LowerBound(bucketBoundaries, value);
      hide HM.LowerBound;
      sum.Increment(value);
      bucketCounts[bucketIndex].Increment(1.0);
      assert Values() == old(Values())[bucketIndex := old(Values())[bucketIndex] + 1.0];
    }

    /** Returns false for the length_error. */
    method ObserveMultiple(bucketIncrements: seq<real>, sumOfValues: real) returns (ok: bool)
      requires Valid()
      modifies bucketCounts, sum
      ensures Valid()
      ensures ok <==> |bucketIncrements| == |bucketCounts|
      ensures HM.ObserveMultiple(old(State()), bucketIncrements, sumOfValues) == if ok then Some(State()) else None
      ensures !ok ==> State() == old(State())
    {
      if |bucketIncrements| != |bucketCounts| {
        return false;
      }
      sum.Increment(sumOfValues);

      ghost var before := Values();
      for i := 0 to |bucketCounts|
        invariant Valid() && sum.value == old(sum.value) + sumOfValues
        invariant forall j | 0 <= j < i :: bucketCounts[j].value == HM.Increased(before[j], bucketIncrements[j])
        invariant forall j | i <= j < |bucketCounts| :: bucketCounts[j].value == before[j]
      {
        bucketCounts[i].Increment(bucketIncrements[i]);
      }
      assert Values() == HM.ObserveMultiple(old(State()), bucketIncrements, sumOfValues).value.counts;
      return true;
    }

    method Reset()
      requires Valid()
      modifies bucketCounts, sum
      ensures Valid()
      ensures State() == HM.Reset(old(State()))
    {
      for i := 0 to |bucketCounts|
        invariant Valid()
        invariant forall j | 0 <= j < i :: bucketCounts[j].value == 0.0
      {
        bucketCounts[i].Reset();
      }
      sum.Set(0.0);
      assert Values() == HM.Zeros(|bucketCounts|);
    }

    method Collect() returns (report: HM.HistReport)
      requires Valid()
      ensures HM.Valid(State()) && report == HM.Collect(State())
    {
      var cumulativeCount: nat := 0;
      var buckets: seq<HM.BucketReport> := [];
      for i := 0 to |bucketCounts|
        invariant cumulativeCount == HM.Cumulative(Values(), i)
        invariant |buckets| == i
        invariant forall j | 0 <= j < i ::
            buckets[j] == HM.BucketReport(HM.Cumulative(Values(), j + 1), HM.UpperOf(bucketBoundaries, j))
      {
        cumulativeCount := (cumulativeCount as real + bucketCounts[i].value).Floor;
        var upper := if i == |bucketBoundaries| then None else Some(bucketBoundaries[i]);
        buckets := buckets + [HM.BucketReport(cumulativeCount, upper)];
      }
      report := HM.HistReport(buckets, cumulativeCount, sum.value);
    }
  }
}
