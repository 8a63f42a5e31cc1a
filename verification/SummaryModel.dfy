/**
 The summary metric of core/src/summary.cc as a value, and the end-to-end guarantee of
 every value it reports. Collect reads the clock once per configured quantile, so it is
 given one time per quantile.
 */
module SummaryModel {
  import opened Wrappers
  import opened Sequences
  import CkmsSketch
  import opened CkmsQueries
  import opened WindowModel
  import opened WindowProofs

  datatype State = State(count: nat, sum: real, window: Window)

  /** What Collect reports: a value per quantile (None for NaN), sample_count and sample_sum. */
  datatype Report = Report(values: seq<Option<real>>, count: nat, sum: real)

  datatype Call = Observe(value: real, at: int) | Collect(times: seq<int>)

  predicate WellFormed(c: Settings, calls: seq<Call>) {
    forall i | 0 <= i < |calls| :: calls[i].Collect? ==> |calls[i].times| == |c.targets|
  }

  /** Every rotation at one of the times ends; so it is whenever the interval is positive. */
  predicate AllEnd(c: Settings, w: Window, times: seq<int>) {
    forall j | 0 <= j < |times| :: Ends(c, w, times[j])
  }

  /** The window after Collect's first n queries. */
  function Queried(c: Settings, w: Window, times: seq<int>, n: nat): (r: Window)
    requires Fits(c, w) && n <= |times| == |c.targets| && AllEnd(c, w, times)
    ensures Fits(c, r) && (c.interval <= 0 ==> r.lastRotation == w.lastRotation)
  {
    if n == 0 then w
    else Get(c, Queried(c, w, times, n - 1), c.targets[n - 1].quantile, times[n - 1]).0
  }

  /** The answer to Collect's j-th query. */
  function ValueAt(c: Settings, w: Window, times: seq<int>, j: nat): Option<real>
    requires Fits(c, w) && j < |times| == |c.targets| && AllEnd(c, w, times)
  {
    Get(c, Queried(c, w, times, j), c.targets[j].quantile, times[j]).1
  }

  function Values(c: Settings, w: Window, times: seq<int>, n: nat): (r: seq<Option<real>>)
    requires Fits(c, w) && n <= |times| == |c.targets| && AllEnd(c, w, times)
    ensures |r| == n
  {
    if n == 0 then [] else Values(c, w, times, n - 1) + [ValueAt(c, w, times, n - 1)]
  }

  function Reported(c: Settings, s: State, times: seq<int>): Report
    requires Fits(c, s.window) && |times| == |c.targets| && AllEnd(c, s.window, times)
  {
    Report(Values(c, s.window, times, |times|), s.count, s.sum)
  }

  /** The times at which a call rotates the window. */
  function TimesOf(call: Call): seq<int> {
    match call
    case Observe(_, at) => [at]
    case Collect(times) => times
  }

  function Step(c: Settings, s: State, call: Call): (r: State)
    requires Fits(c, s.window) && WellFormed(c, [call]) && AllEnd(c, s.window, TimesOf(call))
    ensures Fits(c, r.window)
  {
    match call
    case Observe(v, at) =>
      assert Ends(c, s.window, TimesOf(call)[0]);
      State(s.count + 1, s.sum + v, Insert(c, s.window, v, at))
    case Collect(times) =>
      assert call == [call][0];
      s.(window := Queried(c, s.window, times, |times|))
  }

  function RunCalls(c: Config, start: int, calls: seq<Call>): (r: State)
    requires WellFormed(c, calls)
    ensures Fits(c, r.window)
  {
    if calls == [] then State(0, 0.0, Fresh(c, start))
    else Step(c, RunCalls(c, start, calls[..|calls| - 1]), calls[|calls| - 1])
  }

  // ----- the calls as window events ------------------------------------------

  ghost function Queries(c: Config, times: seq<int>, n: nat): (es: seq<Event>)
    requires n <= |times| == |c.targets|
    ensures |es| == n
  {
    seq(n, i requires 0 <= i < n => WindowModel.Queried(c.targets[i].quantile, times[i]))
  }

  ghost function CallEvents(c: Config, call: Call): seq<Event>
    requires WellFormed(c, [call])
  {
    match call
    case Observe(v, at) => [Inserted(v, at)]
    case Collect(times) =>
      assert call == [call][0];
      Queries(c, times, |times|)
  }

  ghost function Events(c: Config, calls: seq<Call>): seq<Event>
    requires WellFormed(c, calls)
  {
    if calls == [] then [] else Events(c, calls[..|calls| - 1]) + CallEvents(c, calls[|calls| - 1])
  }

  /** Everything ever observed, whatever its age. */
  ghost function Observations(calls: seq<Call>): seq<real> {
    if calls == [] then []
    else
      var before := Observations(calls[..|calls| - 1]);
      match calls[|calls| - 1]
      case Observe(v, _) => before + [v]
      case Collect(_) => before
  }

  lemma {:induction false} QueriesSplit(c: Config, es: seq<Event>, times: seq<int>, n: nat)
    requires 0 < n <= |times| == |c.targets|
    ensures es + Queries(c, times, n)
      == es + Queries(c, times, n - 1) + [WindowModel.Queried(c.targets[n - 1].quantile, times[n - 1])]
  {
  }

  lemma {:induction false} RunAppend(c: Config, start: int, es: seq<Event>, e: Event)
    ensures Run(c, start, es + [e]) == WindowModel.Step(c, Run(c, start, es), e)
  {
    assert (es + [e])[..|es + [e]| - 1] == es;
  }

  lemma {:induction false} QueriesRun(c: Config, start: int, es: seq<Event>, times: seq<int>, n: nat)
    requires n <= |times| == |c.targets|
    ensures Run(c, start, es + Queries(c, times, n)) == Queried(c, Run(c, start, es), times, n)
  {
    if n == 0 {
      assert es + Queries(c, times, 0) == es;
    } else {
      var last := WindowModel.Queried(c.targets[n - 1].quantile, times[n - 1]);
      QueriesRun(c, start, es, times, n - 1);
      RunAppend(c, start, es + Queries(c, times, n - 1), last);
      QueriesSplit(c, es, times, n);
    }
  }

  lemma {:induction false} RunCallsIsRun(c: Config, start: int, calls: seq<Call>)
    requires WellFormed(c, calls)
    ensures RunCalls(c, start, calls).window == Run(c, start, Events(c, calls))
  {
    if calls == [] {
    } else {
      var before, last := calls[..|calls| - 1], calls[|calls| - 1];
      RunCallsIsRun(c, start, before);
      match last {
        case Observe(v, at) =>
          assert Events(c, calls)[..|Events(c, calls)| - 1] == Events(c, before);
        case Collect(times) =>
          QueriesRun(c, start, Events(c, before), times, |times|);
      }
    }
  }

  /** The insertions among the events are exactly the observations among the calls. */
  lemma {:induction false} EventsAreCalls(c: Config, calls: seq<Call>, v: real, at: int)
    requires WellFormed(c, calls)
    ensures Inserted(v, at) in Events(c, calls) <==> Observe(v, at) in calls
  {
    if calls == [] {
    } else {
      var before, last := calls[..|calls| - 1], calls[|calls| - 1];
      EventsAreCalls(c, before, v, at);
      assert calls == before + [last];
    }
  }

  // ----- the guarantee -------------------------------------------------------

  /** sample_count and sample_sum cover all observations ever made, regardless of rotation. */
  lemma {:induction false} Lifetime(c: Config, start: int, calls: seq<Call>)
    requires WellFormed(c, calls)
    ensures var s := RunCalls(c, start, calls);
      s.count == |Observations(calls)| && s.sum == Sum(Observations(calls))
  {
    if calls == [] {
    } else {
      var before := calls[..|calls| - 1];
      Lifetime(c, start, before);
      var all := Observations(calls);
      if calls[|calls| - 1].Observe? {
        assert all[..|all| - 1] == Observations(before);
      }
    }
  }

  /** The clock never goes back, over the calls made and then the queries of one more Collect. */
  ghost predicate InOrder(c: Config, start: int, calls: seq<Call>, times: seq<int>)
    requires WellFormed(c, calls) && |times| == |c.targets|
  {
    Timely(start, Events(c, calls) + Queries(c, times, |times|))
  }

  /** What the j-th value of a report says about the observations made so far. */
  ghost predicate ValueGuarantee(c: Config, calls: seq<Call>, now: int, value: Option<real>, maxAge: int) {
    match value
    case Some(x) => exists at :: Observe(x, at) in calls && 0 <= now - at <= maxAge
    case None => forall v, at | Observe(v, at) in calls :: now - at > (c.size - 1) * c.interval
  }

  lemma {:induction false} InWindowAges(c: Config, start: int, es: seq<Event>, now: int, x: real)
    requires Timely(start, es) && forall i | 0 <= i < |es| :: es[i].at <= now
    ensures x in InWindow(c, start, es, now) ==>
      exists at :: Inserted(x, at) in es && 0 <= now - at <= c.size * c.interval
    ensures InWindow(c, start, es, now) == [] ==>
      forall v, at | Inserted(v, at) in es :: now - at > (c.size - 1) * c.interval
  {
    var from := Epoch(c, start, now) - c.size + 1;
    if x in InWindow(c, start, es, now) {
      KeptExactly(c, start, es, from, x);
      var i :| 0 <= i < |es| && es[i].Inserted? && es[i].value == x && Epoch(c, start, es[i].at) >= from;
      WindowAges(c, start, es[i].at, now);
      assert Inserted(x, es[i].at) in es;
    }
    if InWindow(c, start, es, now) == [] {
      forall v, at | Inserted(v, at) in es ensures now - at > (c.size - 1) * c.interval {
        KeptExactly(c, start, es, from, v);
        var i :| 0 <= i < |es| && es[i] == Inserted(v, at);
        WindowAges(c, start, at, now);
      }
    }
  }

  lemma {:induction false} TimelyPrefix(start: int, es: seq<Event>, es': seq<Event>)
    requires Timely(start, es') && es <= es'
    ensures Timely(start, es)
  {
  }

  /** The events before the j-th query of a report, and the query itself. */
  lemma {:induction false} BeforeQuery(c: Config, start: int, calls: seq<Call>, times: seq<int>, j: nat)
    requires WellFormed(c, calls) && j < |times| == |c.targets| && InOrder(c, start, calls, times)
    ensures var es := EventsBefore(c, calls, times, j);
      && Timely(start, es + [WindowModel.Queried(c.targets[j].quantile, times[j])])
      && Timely(start, es) && forall i | 0 <= i < |es| :: es[i].at <= times[j]
  {
    var es := Events(c, calls) + Queries(c, times, j);
    var more := es + [WindowModel.Queried(c.targets[j].quantile, times[j])];
    assert more <= Events(c, calls) + Queries(c, times, |times|);
    TimelyPrefix(start, more, Events(c, calls) + Queries(c, times, |times|));
    assert es <= more && more[|es|].at == times[j];
    TimelyPrefix(start, es, more);
    assert forall i | 0 <= i < |es| :: es[i] == more[i];
  }

  lemma {:induction false} QueriesKeepNothing(c: Config, start: int, es: seq<Event>, times: seq<int>, n: nat, from: int)
    requires n <= |times| == |c.targets|
    ensures Kept(c, start, es + Queries(c, times, n), from) == Kept(c, start, es, from)
  {
    if n == 0 {
      assert es + Queries(c, times, 0) == es;
    } else {
      var last := WindowModel.Queried(c.targets[n - 1].quantile, times[n - 1]);
      QueriesKeepNothing(c, start, es, times, n - 1, from);
      KeptAppend(c, start, es + Queries(c, times, n - 1), last, from);
      QueriesSplit(c, es, times, n);
    }
  }

  /** value is what a settled sketch of exactly the observations in the window answers, with its rank guarantee. */
  ghost predicate Ranked(c: Config, log: seq<real>, q: real, value: Option<real>) {
    exists settled :: RankGuarantee(c.targets, settled, log, q) && value == CkmsSketch.Answer(c.targets, settled, q)
  }

  lemma {:induction false} QueryRanks(c: Config, start: int, es: seq<Event>, q: real, now: int)
    requires Timely(start, es + [WindowModel.Queried(q, now)])
    ensures Ranked(c, InWindow(c, start, es, now), q, Get(c, Run(c, start, es), q, now).1)
  {
    WindowGuarantee(c, start, es, q, now);
  }

  /** The events the window has seen when Collect makes its j-th query. */
  ghost function EventsBefore(c: Config, calls: seq<Call>, times: seq<int>, j: nat): seq<Event>
    requires WellFormed(c, calls) && j <= |times| == |c.targets|
  {
    Events(c, calls) + Queries(c, times, j)
  }

  lemma {:induction false} ReportedIsQuery(c: Config, start: int, calls: seq<Call>, times: seq<int>, j: nat)
    requires WellFormed(c, calls) && j < |times| == |c.targets|
    ensures ValueAt(c, RunCalls(c, start, calls).window, times, j)
      == Get(c, Run(c, start, EventsBefore(c, calls, times, j)), c.targets[j].quantile, times[j]).1
  {
    RunCallsIsRun(c, start, calls);
    QueriesRun(c, start, Events(c, calls), times, j);
  }

  lemma {:induction false} ValuesAt(c: Config, w: Window, times: seq<int>, n: nat, j: nat)
    requires Fits(c, w) && j < n <= |times| == |c.targets|
    ensures Values(c, w, times, n)[j] == ValueAt(c, w, times, j)
  {
    hide ValueAt;
    if j == n - 1 {
    } else {
      ValuesAt(c, w, times, n - 1, j);
    }
  }

  lemma {:induction false} RankedSame(c: Config, log: seq<real>, log': seq<real>, q: real,
        value: Option<real>, value': Option<real>)
    requires Ranked(c, log, q, value) && log == log' && value == value'
    ensures Ranked(c, log', q, value')
  {
  }

  /** Every reported value has the rank guarantee for the observations in the window at its query. */
  lemma {:induction false} ReportRanks(c: Config, start: int, calls: seq<Call>, times: seq<int>, j: nat)
    requires WellFormed(c, calls) && j < |times| == |c.targets| && InOrder(c, start, calls, times)
    ensures Ranked(c, InWindow(c, start, Events(c, calls), times[j]), c.targets[j].quantile,
                   Reported(c, RunCalls(c, start, calls), times).values[j])
  {
    hide ValueAt, WindowModel.Get, WindowModel.Run, RunCalls;
    var es, q, now := EventsBefore(c, calls, times, j), c.targets[j].quantile, times[j];
    var s := RunCalls(c, start, calls);
    BeforeQuery(c, start, calls, times, j);
    ReportedIsQuery(c, start, calls, times, j);
    QueryRanks(c, start, es, q, now);
    QueriesKeepNothing(c, start, Events(c, calls), times, j, Epoch(c, start, now) - c.size + 1);
    ValuesAt(c, s.window, times, |times|, j);
    RankedSame(c, InWindow(c, start, es, now), InWindow(c, start, Events(c, calls), now), q,
               Get(c, Run(c, start, es), q, now).1, Reported(c, s, times).values[j]);
  }

  /** End to end: every reported value is an observation at most max_age old, and NaN only when there is none recent. */
  lemma {:induction false} ReportGuarantee(c: Config, start: int, calls: seq<Call>, times: seq<int>, maxAge: int)
    requires WellFormed(c, calls) && |times| == |c.targets| && InOrder(c, start, calls, times)
    requires c == Built(c.targets, maxAge, c.size)
    ensures var r := Reported(c, RunCalls(c, start, calls), times);
      && r.count == |Observations(calls)| && r.sum == Sum(Observations(calls))
      && forall j | 0 <= j < |times| :: ValueGuarantee(c, calls, times[j], r.values[j], maxAge)
  {
    Lifetime(c, start, calls);
    var r := Reported(c, RunCalls(c, start, calls), times);
    forall j | 0 <= j < |times| ensures ValueGuarantee(c, calls, times[j], r.values[j], maxAge) {
      ReportRanks(c, start, calls, times, j);
      EventsInOrder(c, start, calls, times, j);
      ValueAges(c, start, calls, times[j], c.targets[j].quantile, r.values[j], maxAge);
    }
  }

  lemma {:induction false} EventsInOrder(c: Config, start: int, calls: seq<Call>, times: seq<int>, j: nat)
    requires WellFormed(c, calls) && j < |times| == |c.targets| && InOrder(c, start, calls, times)
    ensures Timely(start, Events(c, calls))
    ensures forall i | 0 <= i < |Events(c, calls)| :: Events(c, calls)[i].at <= times[j]
  {
    var es := Events(c, calls) + Queries(c, times, j);
    BeforeQuery(c, start, calls, times, j);
    TimelyPrefix(start, Events(c, calls), es);
    assert forall i | 0 <= i < |Events(c, calls)| :: Events(c, calls)[i] == es[i];
  }

  lemma {:induction false} RankedValue(c: Config, log: seq<real>, q: real, value: Option<real>)
    requires Ranked(c, log, q, value)
    ensures match value case Some(x) => x in log case None => log == []
  {
  }

  /** The intervals of a window never add up to more than max_age. */
  lemma {:induction false} WholeIntervals(c: Config, maxAge: int)
    requires c == Built(c.targets, maxAge, c.size)
    ensures c.size * c.interval <= maxAge
  {
    IntervalExactly(maxAge, c.size, c.interval);
  }

  lemma {:induction false} ValueAges(c: Config, start: int, calls: seq<Call>, now: int, q: real,
        value: Option<real>, maxAge: int)
    requires WellFormed(c, calls) && c == Built(c.targets, maxAge, c.size)
    requires Timely(start, Events(c, calls)) && forall i | 0 <= i < |Events(c, calls)| :: Events(c, calls)[i].at <= now
    requires Ranked(c, InWindow(c, start, Events(c, calls), now), q, value)
    ensures ValueGuarantee(c, calls, now, value, maxAge)
  {
    var es := Events(c, calls);
    RankedValue(c, InWindow(c, start, es, now), q, value);
    hide RotationInterval, Ranked, InWindow, Epoch;
    InWindowAges(c, start, es, now, if value.Some? then value.value else 0.0);
    if value.Some? {
      var at :| Inserted(value.value, at) in es && 0 <= now - at <= c.size * c.interval;
      EventsAreCalls(c, calls, value.value, at);
      WholeIntervals(c, maxAge);
    } else {
      forall v, at | Observe(v, at) in calls ensures now - at > (c.size - 1) * c.interval {
        EventsAreCalls(c, calls, v, at);
      }
    }
  }
}
