/**
 The order of the values in one report of a summary. Collect queries the current bucket once
 per target, and every query compresses it: with a tight target the values are in the order of
 their quantiles, while a report of steady targets can be out of order.
 */
module ReportOrder {
  import opened Wrappers
  import Sequences
  import CkmsSketch
  import opened CkmsProofs
  import opened CkmsQueries
  import opened CkmsGrowth
  import opened CkmsSuccessive
  import opened WindowModel
  import opened SummaryModel

  // ----- every bucket is a sketch run ----------------------------------------

  ghost predicate IsRun(ts: seq<CkmsSketch.Target>, k: CkmsSketch.Sketch) {
    exists ops :: k == CkmsSketch.Run(ts, ops)
  }

  ghost predicate AllRuns(c: Settings, w: Window) {
    forall i | 0 <= i < |w.buckets| :: IsRun(c.targets, w.buckets[i])
  }

  lemma {:induction false} StepIsRun(ts: seq<CkmsSketch.Target>, k: CkmsSketch.Sketch, op: CkmsSketch.Op)
    requires IsRun(ts, k)
    ensures IsRun(ts, CkmsSketch.Step(ts, k, op))
  {
    var ops :| k == CkmsSketch.Run(ts, ops);
    assert (ops + [op])[..|ops|] == ops;
    assert CkmsSketch.Step(ts, k, op) == CkmsSketch.Run(ts, ops + [op]);
  }

  lemma {:induction false} EmptyIsRun(ts: seq<CkmsSketch.Target>)
    ensures IsRun(ts, CkmsSketch.EMPTY)
  {
    assert CkmsSketch.EMPTY == CkmsSketch.Run(ts, []);
  }

  lemma {:induction false} RotateRuns(c: Settings, w: Window, delta: int)
    requires Fits(c, w) && (c.interval > 0 || delta <= c.interval) && AllRuns(c, w)
    ensures AllRuns(c, Rotate(c, w, delta))
    decreases if c.interval > 0 && delta > 0 then delta else 0
  {
    if delta <= c.interval {
    } else {
      EmptyIsRun(c.targets);
      hide IsRun;
      RotateRuns(c, Turn(c, w), delta - c.interval);
    }
  }

  lemma {:induction false} InsertRuns(c: Settings, w: Window, v: real, now: int)
    requires Fits(c, w) && Ends(c, w, now) && AllRuns(c, w)
    ensures AllRuns(c, Insert(c, w, v, now))
  {
    var w' := RotateTo(c, w, now);
    RotateRuns(c, w, now - w.lastRotation);
    hide IsRun;
    forall i | 0 <= i < c.size ensures IsRun(c.targets, CkmsSketch.Insert(c.targets, w'.buckets[i], v)) {
      StepIsRun(c.targets, w'.buckets[i], CkmsSketch.InsertOp(v));
    }
  }

  lemma {:induction false} GetRuns(c: Settings, w: Window, q: real, now: int)
    requires Fits(c, w) && Ends(c, w, now) && AllRuns(c, w)
    ensures AllRuns(c, Get(c, w, q, now).0)
  {
    var w' := RotateTo(c, w, now);
    RotateRuns(c, w, now - w.lastRotation);
    hide IsRun, CkmsSketch.Get;
    StepIsRun(c.targets, w'.buckets[w'.current], CkmsSketch.GetOp(q));
  }

  lemma {:induction false} QueriedRuns(c: Settings, w: Window, times: seq<int>, n: nat)
    requires Fits(c, w) && n <= |times| == |c.targets| && AllEnd(c, w, times) && AllRuns(c, w)
    ensures AllRuns(c, SummaryModel.Queried(c, w, times, n))
  {
    hide AllRuns, Get;
    if n == 0 {
    } else {
      var w' := SummaryModel.Queried(c, w, times, n - 1);
      QueriedRuns(c, w, times, n - 1);
      GetRuns(c, w', c.targets[n - 1].quantile, times[n - 1]);
      assert SummaryModel.Queried(c, w, times, n) == Get(c, w', c.targets[n - 1].quantile, times[n - 1]).0;
    }
  }

  lemma {:induction false} CallRuns(c: Config, start: int, calls: seq<Call>)
    requires WellFormed(c, calls)
    ensures AllRuns(c, RunCalls(c, start, calls).window)
  {
    if calls == [] {
      EmptyIsRun(c.targets);
    } else {
      var s := RunCalls(c, start, calls[..|calls| - 1]);
      CallRuns(c, start, calls[..|calls| - 1]);
      hide AllRuns, Insert, SummaryModel.Queried;
      match calls[|calls| - 1] {
        case Observe(v, at) => InsertRuns(c, s.window, v, at);
        case Collect(times) => QueriedRuns(c, s.window, times, |times|);
      }
    }
  }

  // ----- reports of a tight target -------------------------------------------

  /** No rotation is due between the first query of a report and the others. */
  ghost predicate OneEpoch(c: Config, w: Window, times: seq<int>)
    requires Fits(c, w)
  {
    forall j | 0 <= j < |times| :: times[j] - RotateTo(c, w, times[0]).lastRotation <= c.interval
  }

  /** The window after the first query of a report: the current bucket is settled. */
  ghost function SettledWindow(c: Config, w: Window, now: int): (r: Window)
    requires Fits(c, w)
    ensures Fits(c, r)
  {
    var w' := RotateTo(c, w, now);
    w'.(buckets := w'.buckets[w'.current := CkmsSketch.Settle(c.targets, w'.buckets[w'.current])])
  }

  lemma {:induction false} FirstSettles(c: Config, w: Window, q: real, now: int)
    requires Fits(c, w)
    ensures var r := SettledWindow(c, w, now);
      Get(c, w, q, now) == (r, CkmsSketch.Answer(c.targets, r.buckets[r.current], q))
  {
  }

  /** A query that finds the current bucket settled, and no rotation due, only answers. */
  lemma {:induction false} LaterAnswers(c: Config, w: Window, q: real, now: int)
    requires Fits(c, w) && now - w.lastRotation <= c.interval
    requires CkmsSketch.Settle(c.targets, w.buckets[w.current]) == w.buckets[w.current]
    ensures Get(c, w, q, now) == (w, CkmsSketch.Answer(c.targets, w.buckets[w.current], q))
  {
    assert w.buckets[w.current := w.buckets[w.current]] == w.buckets;
  }

  /** The window before the j-th query of a report: as it was, or as the first query left it. */
  ghost predicate AtQuery(c: Config, w: Window, times: seq<int>, j: nat)
    requires Fits(c, w) && j <= |times| == |c.targets| && times != []
  {
    SummaryModel.Queried(c, w, times, j) == if j == 0 then w else SettledWindow(c, w, times[0])
  }

  lemma {:induction false} QueryOfSettled(c: Config, w: Window, times: seq<int>, j: nat)
    requires Fits(c, w) && j < |times| == |c.targets| && OneEpoch(c, w, times)
    requires AtQuery(c, w, times, j)
    requires var r := SettledWindow(c, w, times[0]);
      CkmsSketch.Settle(c.targets, r.buckets[r.current]) == r.buckets[r.current]
    ensures var r := SettledWindow(c, w, times[0]);
      Get(c, SummaryModel.Queried(c, w, times, j), c.targets[j].quantile, times[j])
      == (r, CkmsSketch.Answer(c.targets, r.buckets[r.current], c.targets[j].quantile))
  {
    var r, q := SettledWindow(c, w, times[0]), c.targets[j].quantile;
    assert r.lastRotation == RotateTo(c, w, times[0]).lastRotation;
    hide Get, SettledWindow, CkmsSketch.Answer, CkmsSketch.Settle, RotateTo, SummaryModel.Queried;
    if j == 0 {
      FirstSettles(c, w, q, times[0]);
    } else {
      LaterAnswers(c, r, q, times[j]);
    }
  }

  lemma {:induction false} ValueOfSettled(c: Config, w: Window, times: seq<int>, j: nat)
    requires Fits(c, w) && j < |times| == |c.targets| && OneEpoch(c, w, times)
    requires var r := SettledWindow(c, w, times[0]);
      CkmsSketch.Settle(c.targets, r.buckets[r.current]) == r.buckets[r.current]
    ensures var r := SettledWindow(c, w, times[0]);
      ValueAt(c, w, times, j) == CkmsSketch.Answer(c.targets, r.buckets[r.current], c.targets[j].quantile)
    ensures AtQuery(c, w, times, j + 1)
  {
    hide Get, SettledWindow, CkmsSketch.Answer, CkmsSketch.Settle, OneEpoch;
    if j == 0 {
    } else {
      ValueOfSettled(c, w, times, j - 1);
    }
    QueryOfSettled(c, w, times, j);
  }

  /** With a tight target the values of a report within one epoch are in the order of their quantiles. */
  lemma {:induction false} ReportInOrder(c: Config, start: int, calls: seq<Call>, times: seq<int>, i: nat, j: nat)
    requires WellFormed(c, calls) && |times| == |c.targets| && HasTight(c.targets)
    requires OneEpoch(c, RunCalls(c, start, calls).window, times)
    requires i < |times| && j < |times| && c.targets[i].quantile <= c.targets[j].quantile
    ensures var values := Reported(c, RunCalls(c, start, calls), times).values;
      values[i].Some? && values[j].Some? ==> values[i].value <= values[j].value
  {
    var w := RunCalls(c, start, calls).window;
    CallRuns(c, start, calls);
    var w' := RotateTo(c, w, times[0]);
    RotateRuns(c, w, times[0] - w.lastRotation);
    var ops :| w'.buckets[w'.current] == CkmsSketch.Run(c.targets, ops);
    var k := CkmsSketch.Settle(c.targets, CkmsSketch.Run(c.targets, ops));
    var r := SettledWindow(c, w, times[0]);
    assert r.buckets[r.current] == k;
    hide *;
    TightStays(c.targets, ops);
    ValuesOfSettled(c, RunCalls(c, start, calls), times, i);
    ValuesOfSettled(c, RunCalls(c, start, calls), times, j);
    SettledInOrderFor(c.targets, ops, c.targets[i].quantile, c.targets[j].quantile);
  }

  lemma {:induction false} ValuesOfSettled(c: Config, s: State, times: seq<int>, j: nat)
    requires Fits(c, s.window) && j < |times| == |c.targets| && OneEpoch(c, s.window, times)
    requires var r := SettledWindow(c, s.window, times[0]);
      CkmsSketch.Settle(c.targets, r.buckets[r.current]) == r.buckets[r.current]
    ensures var r := SettledWindow(c, s.window, times[0]);
      && AllEnd(c, s.window, times)
      && Reported(c, s, times).values[j] == CkmsSketch.Answer(c.targets, r.buckets[r.current], c.targets[j].quantile)
  {
    ValueOfSettled(c, s.window, times, j);
    ValuesAt(c, s.window, times, |times|, j);
  }

  lemma {:induction false} SettledInOrderFor(ts: seq<CkmsSketch.Target>, ops: seq<CkmsSketch.Op>, q: real, q': real)
    requires HasTight(ts) && 0.0 <= q <= q'
    ensures var k := CkmsSketch.Settle(ts, CkmsSketch.Run(ts, ops));
      var (a, a') := (CkmsSketch.Answer(ts, k, q), CkmsSketch.Answer(ts, k, q'));
      a.Some? && a'.Some? ==> a.value <= a'.value
  {
    var k := CkmsSketch.Settle(ts, CkmsSketch.Run(ts, ops));
    SettledRun(ts, ops);
    if k.sample != [] {
      TightOrdered(ts, k, q, q');
    }
  }

  // ----- a report of steady targets that is out of order ---------------------

  const WIDE: CkmsSketch.Target := CkmsSketch.NewTarget(0.65, 1.0)
  const HIGH: CkmsSketch.Target := CkmsSketch.NewTarget(0.75, 0.55)
  const BOTH := [WIDE, HIGH]
  const ONE_BUCKET: Config := Settings(BOTH, 1000, 1)
  const LAST := [CkmsSketch.Item(5.0, 1, 0)]
  const ALL_FIVE := [
    CkmsSketch.Item(1.0, 1, 0), CkmsSketch.Item(2.0, 1, 0), CkmsSketch.Item(3.0, 1, 0),
    CkmsSketch.Item(4.0, 1, 0), CkmsSketch.Item(5.0, 1, 0)]
  const THREE := [CkmsSketch.Item(2.0, 2, 0), CkmsSketch.Item(4.0, 2, 0), CkmsSketch.Item(5.0, 1, 0)]
  const TWO := [CkmsSketch.Item(4.0, 4, 0), CkmsSketch.Item(5.0, 1, 0)]

  lemma {:induction false} BothCapped(n: nat, r: nat)
    requires 1 <= r && (n, r) in [(5, 1), (4, 2), (3, 1), (3, 3), (2, 3)]
    ensures CkmsSketch.AllowableError(BOTH, n, r) == (n + 1) as real
  {
    assert BOTH[..1] == [WIDE] && [WIDE][..0] == [];
    WideContribution(n, r);
    HighContribution(n, r);
    SingleTarget(WIDE, n, r);
    assert CkmsSketch.AllowableError(BOTH, n, r)
        == CkmsSketch.Lower(CkmsSketch.Contribution(HIGH, n, r), CkmsSketch.AllowableError([WIDE], n, r));
  }

  lemma {:induction false} WideContribution(n: nat, r: nat)
    requires (n, r) in [(5, 1), (4, 2), (3, 1), (3, 3), (2, 3)]
    ensures Capped(WIDE, n, r) == (n + 1) as real
  {
    assert WIDE.u * 0.35 == 2.0 && WIDE.v * 0.65 == 2.0;
    assert 5.0 < WIDE.u && 3.0 < WIDE.v;
  }

  lemma {:induction false} HighContribution(n: nat, r: nat)
    requires (n, r) in [(5, 1), (4, 2), (3, 1), (3, 3), (2, 3)]
    ensures Capped(HIGH, n, r) == (n + 1) as real
  {
    assert HIGH.u * 0.25 == 1.1 && HIGH.v * 0.75 == 1.1;
    assert 4.0 < HIGH.u && 1.4 < HIGH.v;
  }

  /** The state of the summary while nothing rotates. */
  ghost function At(count: nat, sum: real, k: CkmsSketch.Sketch): State {
    State(count, sum, Window([k], 0, 0))
  }

  lemma {:induction false} ObserveAt(count: nat, sum: real, k: CkmsSketch.Sketch, v: real)
    requires |k.pending| < 10
    ensures SummaryModel.Step(ONE_BUCKET, At(count, sum, k), Observe(v, 0))
      == At(count + 1, sum + v, k.(pending := k.pending + [v]))
  {
    hide CkmsSketch.Settle;
    assert Insert(ONE_BUCKET, Window([k], 0, 0), v, 0).buckets == [k.(pending := k.pending + [v])];
  }

  lemma {:induction false} GetAt(k: CkmsSketch.Sketch, q: real)
    ensures var k' := CkmsSketch.Settle(BOTH, k);
      Get(ONE_BUCKET, Window([k], 0, 0), q, 0) == (Window([k'], 0, 0), CkmsSketch.Answer(BOTH, k', q))
  {
    hide CkmsSketch.Settle, CkmsSketch.Answer;
    assert [k][0 := CkmsSketch.Settle(BOTH, k)] == [CkmsSketch.Settle(BOTH, k)];
  }

  lemma {:induction false} CollectAt(count: nat, sum: real, k: CkmsSketch.Sketch)
    ensures var k' := CkmsSketch.Settle(BOTH, k); var k'' := CkmsSketch.Settle(BOTH, k');
      && Fits(ONE_BUCKET, At(count, sum, k).window) && AllEnd(ONE_BUCKET, At(count, sum, k).window, [0, 0])
      && SummaryModel.Queried(ONE_BUCKET, At(count, sum, k).window, [0, 0], 2) == Window([k''], 0, 0)
      && Reported(ONE_BUCKET, At(count, sum, k), [0, 0]).values
         == [CkmsSketch.Answer(BOTH, k', 0.65), CkmsSketch.Answer(BOTH, k'', 0.75)]
  {
    var w := Window([k], 0, 0);
    var k' := CkmsSketch.Settle(BOTH, k);
    hide CkmsSketch.Settle, CkmsSketch.Answer, Get;
    GetAt(k, 0.65);
    GetAt(k', 0.75);
    assert SummaryModel.Queried(ONE_BUCKET, w, [0, 0], 0) == w;
    assert SummaryModel.Queried(ONE_BUCKET, w, [0, 0], 1) == Window([k'], 0, 0);
    assert SummaryModel.Values(ONE_BUCKET, w, [0, 0], 0) == [];
    assert SummaryModel.Values(ONE_BUCKET, w, [0, 0], 1) == [CkmsSketch.Answer(BOTH, k', 0.65)];
  }

  /** The state after the calls, when they are well formed. */
  ghost predicate Reaches(calls: seq<Call>, s: State) {
    WellFormed(ONE_BUCKET, calls) && RunCalls(ONE_BUCKET, 0, calls) == s
  }

  lemma {:induction false} OneMoreCall(calls: seq<Call>, s: State, call: Call)
    requires Reaches(calls, s) && WellFormed(ONE_BUCKET, [call])
    ensures Fits(ONE_BUCKET, s.window) && Reaches(calls + [call], SummaryModel.Step(ONE_BUCKET, s, call))
  {
    assert forall i | 0 <= i < |calls| :: (calls + [call])[i] == calls[i];
    assert (calls + [call])[|calls|] == [call][0];
    assert (calls + [call])[..|calls|] == calls;
    hide SummaryModel.Step;
  }

  ghost function Observes(vs: seq<real>): seq<Call> {
    seq(|vs|, i requires 0 <= i < |vs| => Observe(vs[i], 0))
  }

  lemma {:induction false} BufferOne(calls: seq<Call>, k: CkmsSketch.Sketch, count: nat, sum: real, v: real)
    requires Reaches(calls, At(count, sum, k)) && |k.pending| < 10
    ensures Reaches(calls + [Observe(v, 0)], At(count + 1, sum + v, k.(pending := k.pending + [v])))
  {
    assert WellFormed(ONE_BUCKET, [Observe(v, 0)]);
    hide *;
    OneMoreCall(calls, At(count, sum, k), Observe(v, 0));
    ObserveAt(count, sum, k, v);
  }

  /** Up to ten values are only buffered. */
  lemma {:induction false} Buffered(calls: seq<Call>, k: CkmsSketch.Sketch, count: nat, sum: real, vs: seq<real>)
    requires Reaches(calls, At(count, sum, k)) && k.pending == [] && |vs| <= 10
    ensures Reaches(calls + Observes(vs), At(count + |vs|, sum + Sequences.Sum(vs), k.(pending := vs)))
  {
    hide Reaches, At;
    if vs == [] {
      assert calls + Observes([]) == calls;
    } else {
      var init, v := vs[..|vs| - 1], vs[|vs| - 1];
      assert vs == init + [v];
      Buffered(calls, k, count, sum, init);
      assert calls + Observes(init) + [Observe(v, 0)] == calls + Observes(vs);
      BufferOne(calls + Observes(init), k.(pending := init), count + |init|, sum + Sequences.Sum(init), v);
      assert sum + Sequences.Sum(init) + v == sum + Sequences.Sum(vs);
    }
  }

  lemma {:induction false} StartReaches()
    ensures Reaches([], At(0, 0.0, CkmsSketch.EMPTY))
  {
    assert Fresh(ONE_BUCKET, 0).buckets == [CkmsSketch.EMPTY];
  }

  lemma {:induction false} FirstReport()
    ensures Reaches([Observe(5.0, 0), Collect([0, 0])], At(1, 5.0, CkmsSketch.Sketch(1, LAST, [])))
  {
    assert WellFormed(ONE_BUCKET, [Collect([0, 0])]);
    assert [] + [Observe(5.0, 0)] == [Observe(5.0, 0)];
    assert [Observe(5.0, 0)] + [Collect([0, 0])] == [Observe(5.0, 0), Collect([0, 0])];
    assert CkmsSketch.EMPTY.(pending := CkmsSketch.EMPTY.pending + [5.0]) == CkmsSketch.Sketch(0, [], [5.0]);
    FirstSettled();
    StartReaches();
    hide *;
    BufferOne([], CkmsSketch.EMPTY, 0, 0.0, 5.0);
    CollectStep(1, 5.0, CkmsSketch.Sketch(0, [], [5.0]), CkmsSketch.Sketch(1, LAST, []));
    OneMoreCall([Observe(5.0, 0)], At(1, 5.0, CkmsSketch.Sketch(0, [], [5.0])), Collect([0, 0]));
  }

  lemma {:induction false} CollectStep(count: nat, sum: real, k: CkmsSketch.Sketch, k': CkmsSketch.Sketch)
    requires CkmsSketch.Settle(BOTH, k) == k' && CkmsSketch.Settle(BOTH, k') == k'
    ensures SummaryModel.Step(ONE_BUCKET, At(count, sum, k), Collect([0, 0])) == At(count, sum, k')
  {
    hide CkmsSketch.Settle, SummaryModel.Queried;
    CollectAt(count, sum, k);
  }

  lemma {:induction false} FirstSettled()
    ensures CkmsSketch.Settle(BOTH, CkmsSketch.Sketch(0, [], [5.0])) == CkmsSketch.Sketch(1, LAST, [])
    ensures CkmsSketch.Settle(BOTH, CkmsSketch.Sketch(1, LAST, [])) == CkmsSketch.Sketch(1, LAST, [])
  {
    FlushOne(BOTH, 0, [], 5.0);
    SettleAgain(BOTH, 1, LAST);
    hide CkmsSketch.Flush;
  }

  const ONE_TO_FOUR := [1.0, 2.0, 3.0, 4.0]

  lemma {:induction false} FourBelow()
    ensures Below([], ONE_TO_FOUR, LAST[0].value) && [] + [LAST[0]] == LAST
  {
  }

  lemma {:induction false} FourUnits()
    ensures [] + (Units(ONE_TO_FOUR) + [LAST[0]]) == ALL_FIVE
  {
  }

  lemma {:induction false} FiveFlushed()
    ensures CkmsSketch.Flush(BOTH, CkmsSketch.Sketch(1, LAST, ONE_TO_FOUR)) == CkmsSketch.Sketch(5, ALL_FIVE, [])
  {
    FourBelow();
    FourUnits();
    assert ONE_TO_FOUR != [] && 1 + |ONE_TO_FOUR| == 5;
    hide *;
    FlushBelow(BOTH, 1, [], LAST[0], ONE_TO_FOUR);
  }

  lemma {:induction false} FiveCompressed()
    ensures CkmsSketch.Compress(BOTH, ALL_FIVE) == THREE && CkmsSketch.Compress(BOTH, THREE) == TWO
  {
    var four := [CkmsSketch.Item(2.0, 2, 0)] + ALL_FIVE[2..];
    hide CkmsSketch.AllowableError;
    BothCapped(5, 1);
    BothCapped(4, 2);
    BothCapped(3, 1);
    assert CkmsSketch.MergeAt(ALL_FIVE, 0) == four && CkmsSketch.MergeAt(four, 1) == THREE;
    assert CkmsSketch.MergeAt(THREE, 0) == TWO;
    assert CkmsSketch.CompressFrom(BOTH, ALL_FIVE, 0) == CkmsSketch.CompressFrom(BOTH, four, 1)
        == CkmsSketch.CompressFrom(BOTH, THREE, 2);
    assert CkmsSketch.CompressFrom(BOTH, THREE, 0) == CkmsSketch.CompressFrom(BOTH, TWO, 1);
  }

  lemma {:induction false} FiveAnswers()
    ensures CkmsSketch.Answer(BOTH, CkmsSketch.Sketch(5, THREE, []), 0.65) == Some(5.0)
    ensures CkmsSketch.Answer(BOTH, CkmsSketch.Sketch(5, TWO, []), 0.75) == Some(4.0)
  {
    hide CkmsSketch.AllowableError;
    BothCapped(3, 3);
    BothCapped(2, 3);
    assert CkmsSketch.Desired(0.65, 5) == 3 && CkmsSketch.Desired(0.75, 5) == 3;
    assert CkmsSketch.Scan(THREE, 0, 0, 5.0) == 2 && CkmsSketch.Scan(TWO, 0, 0, 4.5) == 0;
  }

  /** The state of the summary after the first report and four more values. */
  ghost function FourMore(): State {
    At(5, 5.0 + Sequences.Sum(ONE_TO_FOUR), CkmsSketch.Sketch(1, LAST, ONE_TO_FOUR))
  }

  lemma {:induction false} FourMoreReached()
    ensures Reaches([Observe(5.0, 0), Collect([0, 0])] + Observes(ONE_TO_FOUR), FourMore())
  {
    FirstReport();
    assert |ONE_TO_FOUR| == 4;
    assert CkmsSketch.Sketch(1, LAST, []).(pending := ONE_TO_FOUR) == CkmsSketch.Sketch(1, LAST, ONE_TO_FOUR);
    hide Reaches, Observes, At, Sequences.Sum;
    Buffered([Observe(5.0, 0), Collect([0, 0])], CkmsSketch.Sketch(1, LAST, []), 1, 5.0, ONE_TO_FOUR);
  }

  /**
   With the steady targets (0.65, 1) and (0.75, 0.55): observe 5, collect, observe 1 to 4, and
   collect. The report says 5 for 0.65 and 4 for 0.75.
   */
  lemma {:induction false} SteadyReportFalls()
    ensures Steady(WIDE) && Steady(HIGH)
    ensures Reaches([Observe(5.0, 0), Collect([0, 0])] + Observes(ONE_TO_FOUR), FourMore())
    ensures Fits(ONE_BUCKET, FourMore().window) && AllEnd(ONE_BUCKET, FourMore().window, [0, 0])
    ensures Reported(ONE_BUCKET, FourMore(), [0, 0]).values == [Some(5.0), Some(4.0)]
  {
    FourMoreReached();
    FiveSettled();
    FiveAnswers();
    hide Reaches, Reported, AllEnd, Fits, At, Observes, CkmsSketch.Settle, CkmsSketch.Answer, Sequences.Sum, Steady;
    CollectAt(5, 5.0 + Sequences.Sum(ONE_TO_FOUR), CkmsSketch.Sketch(1, LAST, ONE_TO_FOUR));
  }

  lemma {:induction false} FiveSettled()
    ensures Steady(WIDE) && Steady(HIGH)
    ensures CkmsSketch.Settle(BOTH, CkmsSketch.Sketch(1, LAST, ONE_TO_FOUR)) == CkmsSketch.Sketch(5, THREE, [])
    ensures CkmsSketch.Settle(BOTH, CkmsSketch.Sketch(5, THREE, [])) == CkmsSketch.Sketch(5, TWO, [])
  {
    FiveFlushed();
    FiveCompressed();
    SettleAgain(BOTH, 5, THREE);
    hide CkmsSketch.Flush, CkmsSketch.Compress;
  }
}
