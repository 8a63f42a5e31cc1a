/** The class Summary of core/src/summary.cc; every method is one step under its mutex. */
module Summaries {
  import CkmsSketch
  import opened WindowModel
  import opened TimeWindow
  import SummaryModel

  class Summary {
    const quantiles: seq<CkmsSketch.Target>
    var count: nat
    var sum: real
    const window: TimeWindowQuantiles

    ghost predicate Valid()
      reads this, window, window.Parts()
    {
      this !in window.Parts() && window.Valid() && window.config.targets == quantiles
    }

    ghost function State(): SummaryModel.State
      requires Valid()
      reads this, window, window.Parts()
    {
      SummaryModel.State(count, sum, window.State())
    }

    constructor (targets: seq<CkmsSketch.Target>, maxAge: int, ageBuckets: nat, now: int)
      requires ageBuckets > 0
      ensures Valid() && fresh(window) && fresh(window.Parts())
      ensures window.config == Built(targets, maxAge, ageBuckets)
      ensures IsShare(maxAge, ageBuckets, window.config.interval)
      ensures State() == SummaryModel.State(0, 0.0, Fresh(window.config, now))
      ensures window.config.interval > 0 ==> State() == SummaryModel.RunCalls(window.config, now, [])
    {
      quantiles := targets;
      count := 0;
      sum := 0.0;
      window := new TimeWindowQuantiles(targets, maxAge, ageBuckets, now);
    }

    method Observe(value: real, now: int)
      requires Valid() && Ends(window.config, State().window, now)
      modifies this, window, window.Parts()
      ensures Valid()
      ensures State() == SummaryModel.Step(window.config, old(State()), SummaryModel.Observe(value, now))
    {
      count := count + 1;
      sum := sum + value;
      window.Insert(value, now);
    }

    /** times holds what the clock shows at each query; the source calls rotate, and so reads it, once per quantile. */
    method Collect(times: seq<int>) returns (report: SummaryModel.Report)
      requires Valid() && |times| == |quantiles| && SummaryModel.AllEnd(window.config, State().window, times)
      modifies window, window.Parts()
      ensures Valid()
      ensures State() == SummaryModel.Step(window.config, old(State()), SummaryModel.Collect(times))
      ensures report == SummaryModel.Reported(window.config, old(State()), times)
    {
      ghost var before := window.State();
      var values := [];
      for j := 0 to |quantiles|
        invariant Valid() && values == SummaryModel.Values(window.config, before, times, j)
        invariant count == old(count) && sum == old(sum)
        invariant window.State() == SummaryModel.Queried(window.config, before, times, j)
      {
        var answer := window.Get(quantiles[j].quantile, times[j]);
        values := values + [answer];
      }
      report := SummaryModel.Report(values, count, sum);
    }
  }
}
