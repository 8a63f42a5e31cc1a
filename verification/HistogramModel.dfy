/**
 The histogram of core/src/histogram.cc as a value: what each operation does to the bucket
 counters and the sum, and what Collect reports about everything observed.
 */
module HistogramModel {
  import opened Wrappers
  import opened Sequences

  // ----- bucket boundaries ---------------------------------------------------

  /** std::adjacent_find with greater_equal: the first index not followed by something larger, or the length. */
  function AdjacentFind(b: seq<real>, i: nat): nat
    requires i <= |b|
    decreases |b| - i
  {
    if i + 1 >= |b| then |b| else if b[i] >= b[i + 1] then i else AdjacentFind(b, i + 1)
  }

  predicate IsStrictSorted(b: seq<real>) {
    AdjacentFind(b, 0) == |b|
  }

  ghost predicate StrictlyIncreasing(b: seq<real>) {
    forall i, j | 0 <= i < j < |b| :: b[i] < b[j]
  }

  lemma {:induction false} AdjacentFindStops(b: seq<real>, i: nat)
    requires i <= |b|
    ensures AdjacentFind(b, i) == |b| <==> forall j, k | i <= j && k == j + 1 && k < |b| :: b[j] < b[k]
    decreases |b| - i
  {
    if i + 1 >= |b| || b[i] >= b[i + 1] {
    } else {
      AdjacentFindStops(b, i + 1);
    }
  }

  lemma {:induction false} AdjacentIncreasing(b: seq<real>, i: nat, j: nat)
    requires i < j < |b| && forall m, n | 0 <= m && n == m + 1 && n < |b| :: b[m] < b[n]
    ensures b[i] < b[j]
  {
    if i + 1 == j {
    } else {
      AdjacentIncreasing(b, i, j - 1);
    }
  }

  /** The constructor's check of neighbours accepts exactly the strictly increasing boundaries. */
  lemma {:induction false} StrictSortedExactly(b: seq<real>)
    ensures IsStrictSorted(b) <==> StrictlyIncreasing(b)
  {
    AdjacentFindStops(b, 0);
    if IsStrictSorted(b) {
      forall i, j | 0 <= i < j < |b| ensures b[i] < b[j] {
        AdjacentIncreasing(b, i, j);
      }
    }
  }

  /** std::lower_bound: the first boundary that is not below v. */
  function LowerBound(b: seq<real>, v: real): (i: nat)
    ensures i <= |b|
    ensures forall j | 0 <= j < i :: b[j] < v
    ensures i < |b| ==> v <= b[i]
  {
    if b == [] || v <= b[0] then 0 else 1 + LowerBound(b[1..], v)
  }

  /** The bucket the documentation of Observe describes, whose interval includes its lower end. */
  ghost function UpperBound(b: seq<real>, v: real): (i: nat)
    ensures i <= |b|
    ensures forall j | 0 <= j < i :: b[j] <= v
    ensures i < |b| ==> v < b[i]
  {
    if b == [] || v < b[0] then 0 else 1 + UpperBound(b[1..], v)
  }

  /** Documentation and code differ exactly on observations that hit a boundary, and then by one bucket. */
  lemma {:induction false} DocumentedBucketExactly(b: seq<real>, v: real)
    requires StrictlyIncreasing(b)
    ensures LowerBound(b, v) == UpperBound(b, v) <==> v !in b
    ensures v in b ==> UpperBound(b, v) == LowerBound(b, v) + 1
  {
    var i, j := LowerBound(b, v), UpperBound(b, v);
    if v in b {
      var k :| 0 <= k < |b| && b[k] == v;
      assert i == k < j;
      assert forall m | k < m < |b| :: v < b[m];
      assert !(k + 1 < j) by {
        assert k + 1 < |b| ==> v < b[k + 1];
      }
    }
  }

  /** With the one boundary 1, an observation of 1 is counted in the first bucket; the documentation says the second. */
  lemma {:induction false} BoundaryObserved()
    ensures UpperBound([1.0], 1.0) == 1 && Observe(Empty([1.0]), 1.0).counts == [1.0, 0.0]
  {
    assert LowerBound([1.0], 1.0) == 0;
  }

  // ----- operations ----------------------------------------------------------

  /** counts holds the values of the bucket counters, which are counters of doubles. */
  datatype Hist = Hist(bounds: seq<real>, counts: seq<real>, sum: real)

  ghost predicate Valid(h: Hist) {
    StrictlyIncreasing(h.bounds) && |h.counts| == |h.bounds| + 1 && forall i | 0 <= i < |h.counts| :: h.counts[i] >= 0.0
  }

  function Zeros(n: nat): (s: seq<real>)
    ensures |s| == n && forall i | 0 <= i < n :: s[i] == 0.0
  {
    seq(n, _ => 0.0)
  }

  function Empty(bounds: seq<real>): Hist {
    Hist(bounds, Zeros(|bounds| + 1), 0.0)
  }

  function Observe(h: Hist, v: real): Hist
    requires |h.counts| == |h.bounds| + 1
  {
    var i := LowerBound(h.bounds, v);
    h.(counts := h.counts[i := h.counts[i] + 1.0], sum := h.sum + v)
  }

  /** A counter ignores a negative increment. */
  function Increased(count: real, increment: real): real {
    if increment < 0.0 then count else count + increment
  }

  /** None is the length_error, thrown before anything changes. */
  function ObserveMultiple(h: Hist, increments: seq<real>, sum: real): Option<Hist> {
    if |increments| != |h.counts| then None
    else Some(h.(counts := seq(|h.counts|, i requires 0 <= i < |h.counts| => Increased(h.counts[i], increments[i])),
                 sum := h.sum + sum))
  }

  function Reset(h: Hist): Hist {
    h.(counts := Zeros(|h.counts|), sum := 0.0)
  }

  /** None is the infinite upper bound of the last bucket. */
  datatype BucketReport = BucketReport(cumulative: nat, upper: Option<real>)

  datatype HistReport = HistReport(buckets: seq<BucketReport>, count: nat, sum: real)

  /** The running total is an integer, so adding a counter's value to it drops the fraction. */
  function Cumulative(counts: seq<real>, n: nat): (total: nat)
    requires n <= |counts| && forall i | 0 <= i < |counts| :: counts[i] >= 0.0
  {
    if n == 0 then 0 else (Cumulative(counts, n - 1) as real + counts[n - 1]).Floor
  }

  function UpperOf(bounds: seq<real>, i: nat): Option<real> {
    if i < |bounds| then Some(bounds[i]) else None
  }

  ghost function Collect(h: Hist): HistReport
    requires Valid(h)
  {
    HistReport(seq(|h.counts|, i requires 0 <= i < |h.counts| && Valid(h) =>
                     BucketReport(Cumulative(h.counts, i + 1), UpperOf(h.bounds, i))),
               Cumulative(h.counts, |h.counts|), h.sum)
  }

  // ----- truncation ----------------------------------------------------------

  ghost function SumFloors(counts: seq<real>, n: nat): int
    requires n <= |counts|
  {
    if n == 0 then 0 else SumFloors(counts, n - 1) + counts[n - 1].Floor
  }

  ghost function SumFractions(counts: seq<real>, n: nat): real
    requires n <= |counts|
  {
    if n == 0 then 0.0 else SumFractions(counts, n - 1) + (counts[n - 1] - counts[n - 1].Floor as real)
  }

  lemma {:induction false} FloorShift(n: int, x: real)
    ensures (n as real + x).Floor == n + x.Floor
  {
  }

  /** Collect's truncating accumulation adds up the floors of the bucket values. */
  lemma {:induction false} CumulativeFloors(counts: seq<real>, n: nat)
    requires n <= |counts| && forall i | 0 <= i < |counts| :: counts[i] >= 0.0
    ensures Cumulative(counts, n) == SumFloors(counts, n)
  {
    if n == 0 {
    } else {
      CumulativeFloors(counts, n - 1);
      FloorShift(Cumulative(counts, n - 1), counts[n - 1]);
    }
  }

  lemma {:induction false} FloorsAndFractions(counts: seq<real>, n: nat)
    requires n <= |counts|
    ensures Sum(counts[..n]) == SumFloors(counts, n) as real + SumFractions(counts, n)
  {
    if n == 0 {
    } else {
      FloorsAndFractions(counts, n - 1);
      assert counts[..n][..n - 1] == counts[..n - 1];
    }
  }

  lemma {:induction false} FractionsNonNegative(counts: seq<real>, n: nat)
    requires n <= |counts|
    ensures SumFractions(counts, n) >= 0.0
  {
    if n == 0 {
    } else {
      FractionsNonNegative(counts, n - 1);
    }
  }

  /**
   The reported count is the whole weight of the buckets, rounded down, exactly when their
   fractions sum to less than one.
   */
  lemma {:induction false} CountIsFloorExactly(counts: seq<real>)
    requires forall i | 0 <= i < |counts| :: counts[i] >= 0.0
    ensures Cumulative(counts, |counts|) == Sum(counts).Floor <==> SumFractions(counts, |counts|) < 1.0
  {
    CumulativeFloors(counts, |counts|);
    FloorsAndFractions(counts, |counts|);
    FractionsNonNegative(counts, |counts|);
    assert counts[..|counts|] == counts;
    FloorShift(SumFloors(counts, |counts|), SumFractions(counts, |counts|));
  }

  /** Two buckets of weight one half, from a batch of fractional increments, are reported as no observation at all. */
  lemma {:induction false} HalvesUncounted()
    ensures var h := ObserveMultiple(Empty([1.0]), [0.5, 0.5], 1.0).value;
      h.counts == [0.5, 0.5] && Sum(h.counts).Floor == 1 && Cumulative(h.counts, 2) == 0
  {
    var h := ObserveMultiple(Empty([1.0]), [0.5, 0.5], 1.0).value;
    assert h.counts == [0.5, 0.5];
    assert [0.5, 0.5][..1] == [0.5] && [0.5][..0] == [];
    assert Sum([0.5]) == Sum([]) + 0.5;
    assert Cumulative(h.counts, 1) == 0;
  }

  // ----- refinement ----------------------------------------------------------

  /** h is the histogram of exactly the observations in log. */
  ghost predicate Counts(h: Hist, log: seq<real>) {
    && Valid(h)
    && (forall i | 0 <= i < |h.counts| :: h.counts[i] == h.counts[i].Floor as real)
    && (forall i | 0 <= i < |h.bounds| :: SumFloors(h.counts, i + 1) == CountLe(log, h.bounds[i]))
    && SumFloors(h.counts, |h.counts|) == |log|
    && h.sum == Sum(log)
  }

  lemma {:induction false} SumFloorsUpdate(counts: seq<real>, i: nat, n: nat)
    requires i < |counts| && n <= |counts|
    ensures SumFloors(counts[i := counts[i] + 1.0], n) == SumFloors(counts, n) + if i < n then 1 else 0
  {
    if n == 0 {
    } else {
      SumFloorsUpdate(counts, i, n - 1);
      FloorShift(1, counts[i]);
      assert counts[i] + 1.0 == 1 as real + counts[i];
    }
  }

  lemma {:induction false} ObserveCounts(h: Hist, log: seq<real>, v: real)
    requires Counts(h, log)
    ensures Counts(Observe(h, v), log + [v])
  {
    var i, h', log' := LowerBound(h.bounds, v), Observe(h, v), log + [v];
    assert log'[..|log'| - 1] == log;
    FloorShift(1, h.counts[i]);
    assert h.counts[i] + 1.0 == 1 as real + h.counts[i];
    forall k | 0 <= k < |h.bounds| ensures SumFloors(h'.counts, k + 1) == CountLe(log', h.bounds[k]) {
      SumFloorsUpdate(h.counts, i, k + 1);
      assert i <= k <==> v <= h.bounds[k];
    }
    SumFloorsUpdate(h.counts, i, |h.counts|);
  }

  lemma {:induction false} ZeroFloors(counts: seq<real>, n: nat)
    requires n <= |counts| && forall i | 0 <= i < |counts| :: counts[i] == 0.0
    ensures SumFloors(counts, n) == 0
  {
    if n == 0 {
    } else {
      ZeroFloors(counts, n - 1);
    }
  }

  lemma {:induction false} EmptyCounts(h: Hist)
    requires StrictlyIncreasing(h.bounds) && h.counts == Zeros(|h.bounds| + 1) && h.sum == 0.0
    ensures Counts(h, [])
  {
    forall n: nat | n <= |h.counts| ensures SumFloors(h.counts, n) == 0 {
      ZeroFloors(h.counts, n);
    }
  }

  // ----- batches -------------------------------------------------------------

  /** Per-bucket counts of a list of values, as a caller of ObserveMultiple computes them. */
  ghost function Tally(bounds: seq<real>, vs: seq<real>): (t: seq<real>)
    ensures |t| == |bounds| + 1 && forall i | 0 <= i < |t| :: t[i] >= 0.0
  {
    if vs == [] then Zeros(|bounds| + 1)
    else
      var t := Tally(bounds, vs[..|vs| - 1]);
      var i := LowerBound(bounds, vs[|vs| - 1]);
      t[i := t[i] + 1.0]
  }

  function ObserveAll(h: Hist, vs: seq<real>): (r: Hist)
    requires |h.counts| == |h.bounds| + 1
    ensures |r.counts| == |h.counts| && r.bounds == h.bounds
  {
    if vs == [] then h else Observe(ObserveAll(h, vs[..|vs| - 1]), vs[|vs| - 1])
  }

  /** Observing a batch through its tally and its sum is observing its values one by one. */
  lemma {:induction false} BatchEquivalence(h: Hist, vs: seq<real>)
    requires |h.counts| == |h.bounds| + 1
    ensures ObserveMultiple(h, Tally(h.bounds, vs), Sum(vs)) == Some(ObserveAll(h, vs))
  {
    var batch := ObserveMultiple(h, Tally(h.bounds, vs), Sum(vs)).value;
    if vs == [] {
      assert batch.counts == h.counts;
    } else {
      var init, last := vs[..|vs| - 1], vs[|vs| - 1];
      BatchEquivalence(h, init);
      var before := ObserveMultiple(h, Tally(h.bounds, init), Sum(init)).value;
      assert batch.counts == Observe(before, last).counts;
    }
  }

  /** Negative increments are dropped from the counts, never from the sum. */
  lemma {:induction false} NegativesDropped(h: Hist, increments: seq<real>, sum: real)
    requires |increments| == |h.counts|
    ensures var clamped := seq(|increments|, i requires 0 <= i < |increments| =>
                                 if increments[i] < 0.0 then 0.0 else increments[i]);
      ObserveMultiple(h, increments, sum) == ObserveMultiple(h, clamped, sum)
    ensures var r := ObserveMultiple(h, increments, sum);
      r.Some? && r.value.sum == h.sum + sum && r.value.bounds == h.bounds && |r.value.counts| == |h.counts|
      && forall i | 0 <= i < |increments| ::
           r.value.counts[i] == h.counts[i] + if increments[i] < 0.0 then 0.0 else increments[i]
  {
    var clamped := seq(|increments|, i requires 0 <= i < |increments| =>
                         if increments[i] < 0.0 then 0.0 else increments[i]);
    assert ObserveMultiple(h, increments, sum).value.counts == ObserveMultiple(h, clamped, sum).value.counts;
  }

  // ----- every run -----------------------------------------------------------

  datatype Op = Single(value: real) | Batch(values: seq<real>) | Clear

  ghost function Step(h: Hist, op: Op): (r: Hist)
    requires |h.counts| == |h.bounds| + 1
    ensures |r.counts| == |h.counts| && r.bounds == h.bounds
  {
    match op
    case Single(v) => Observe(h, v)
    case Batch(vs) => ObserveMultiple(h, Tally(h.bounds, vs), Sum(vs)).value
    case Clear => Reset(h)
  }

  ghost function Run(bounds: seq<real>, ops: seq<Op>): (h: Hist)
    ensures |h.counts| == |h.bounds| + 1 && h.bounds == bounds
  {
    if ops == [] then Empty(bounds) else Step(Run(bounds, ops[..|ops| - 1]), ops[|ops| - 1])
  }

  /** The values observed since the last reset. */
  ghost function Observed(ops: seq<Op>): seq<real> {
    if ops == [] then []
    else
      var before := Observed(ops[..|ops| - 1]);
      match ops[|ops| - 1]
      case Single(v) => before + [v]
      case Batch(vs) => before + vs
      case Clear => []
  }

  lemma {:induction false} ObserveAllCounts(h: Hist, log: seq<real>, vs: seq<real>)
    requires Counts(h, log)
    ensures Counts(ObserveAll(h, vs), log + vs)
  {
    if vs == [] {
      assert log + vs == log;
    } else {
      var init, last := vs[..|vs| - 1], vs[|vs| - 1];
      ObserveAllCounts(h, log, init);
      ObserveCounts(ObserveAll(h, init), log + init, last);
      assert log + vs == log + init + [last];
    }
  }

  lemma {:induction false} RunCounts(bounds: seq<real>, ops: seq<Op>)
    requires StrictlyIncreasing(bounds)
    ensures Counts(Run(bounds, ops), Observed(ops))
  {
    if ops == [] {
      EmptyCounts(Empty(bounds));
    } else {
      var init := ops[..|ops| - 1];
      RunCounts(bounds, init);
      match ops[|ops| - 1] {
        case Single(v) => ObserveCounts(Run(bounds, init), Observed(init), v);
        case Batch(vs) =>
          BatchEquivalence(Run(bounds, init), vs);
          ObserveAllCounts(Run(bounds, init), Observed(init), vs);
        case Clear => EmptyCounts(Run(bounds, ops));
      }
    }
  }

  /** The report of a histogram that counts exactly the observations in log. */
  ghost predicate Reports(r: HistReport, bounds: seq<real>, log: seq<real>) {
    && |r.buckets| == |bounds| + 1
    && (forall i | 0 <= i < |bounds| :: r.buckets[i] == BucketReport(CountLe(log, bounds[i]), Some(bounds[i])))
    && r.buckets[|bounds|] == BucketReport(|log|, None)
    && r.count == |log| && r.sum == Sum(log)
  }

  lemma {:induction false} CountsReport(h: Hist, log: seq<real>)
    requires Counts(h, log)
    ensures Reports(Collect(h), h.bounds, log)
  {
    var r := Collect(h);
    forall i | 0 <= i < |h.bounds| ensures r.buckets[i] == BucketReport(CountLe(log, h.bounds[i]), Some(h.bounds[i])) {
      CumulativeFloors(h.counts, i + 1);
    }
    CumulativeFloors(h.counts, |h.counts|);
  }

  lemma {:induction false} BucketsMonotone(h: Hist, i: nat, j: nat)
    requires Valid(h) && i <= j < |h.counts|
    ensures Collect(h).buckets[i].cumulative <= Collect(h).buckets[j].cumulative
  {
    CumulativeFloors(h.counts, i + 1);
    CumulativeFloors(h.counts, j + 1);
    SumFloorsMonotone(h.counts, i + 1, j + 1);
  }

  /** Every report of every run: bucket i counts the observations up to bound i, the last bucket counts them all. */
  lemma {:induction false} CollectRefines(bounds: seq<real>, ops: seq<Op>)
    requires StrictlyIncreasing(bounds)
    ensures Valid(Run(bounds, ops)) && Reports(Collect(Run(bounds, ops)), bounds, Observed(ops))
  {
    RunCounts(bounds, ops);
    CountsReport(Run(bounds, ops), Observed(ops));
  }

  lemma {:induction false} SumFloorsMonotone(counts: seq<real>, m: nat, n: nat)
    requires m <= n <= |counts| && forall i | 0 <= i < |counts| :: counts[i] >= 0.0
    ensures SumFloors(counts, m) <= SumFloors(counts, n)
  {
    if m == n {
    } else {
      SumFloorsMonotone(counts, m, n - 1);
    }
  }
}
