/**
 From observations to printed lines: what the text of a collected histogram or summary says
 about everything observed. How the stream spells a finite double is a parameter.
 */
module Exposition {
  import opened Wrappers
  import opened Sequences
  import opened Metrics
  import opened TextFormat
  import opened TextLayout
  import HM = HistogramModel
  import SM = SummaryModel
  import WindowModel

  // ----- histograms ----------------------------------------------------------

  /** The data Histogram::Collect puts into the collected metric. */
  function HistogramDataOf(r: HM.HistReport, show: real -> Digits): HistogramData {
    HistogramData(r.count, Finite(show(r.sum)),
                  seq(|r.buckets|, i requires 0 <= i < |r.buckets| => BucketOf(r.buckets[i], show)))
  }

  function BucketOf(b: HM.BucketReport, show: real -> Digits): Bucket {
    Bucket(b.cumulative, match b.upper case None => PosInf case Some(x) => Finite(show(x)))
  }

  lemma {:induction false} BucketEntryAt(name: string, m: ClientMetric, bs: seq<Bucket>, i: nat)
    requires i < |bs|
    ensures |BucketEntries(name, m, bs)| == |bs|
    ensures BucketEntries(name, m, bs)[i]
      == SampleOf(name, m, "_bucket", [Label("le", DoubleText(bs[i].upperBound))], NatText(bs[i].cumulativeCount))
  {
    hide SampleOf, DoubleText, NatText;
    var last := |bs| - 1;
    if last == 0 {
      assert bs[..0] == [];
    } else if i == last {
      BucketEntryAt(name, m, bs[..last], 0);
    } else {
      BucketEntryAt(name, m, bs[..last], i);
    }
  }

  /** The lines of a histogram that has observed log: count, sum, and for every bound how many were at most that. */
  ghost predicate HistogramLines(es: seq<Entry>, name: string, m: ClientMetric, bounds: seq<real>, log: seq<real>,
                                 show: real -> Digits)
  {
    && |es| == |bounds| + 3
    && es[0] == Sample(name + "_count", m.labels, NatText(|log|), m.timestampMs)
    && es[1] == Sample(name + "_sum", m.labels, show(Sum(log)), m.timestampMs)
    && (forall i | 0 <= i < |bounds| ::
          es[i + 2] == BucketLine(name, m, show(bounds[i]), CountLe(log, bounds[i])))
    && es[|bounds| + 2] == BucketLine(name, m, "+Inf", |log|)
  }

  ghost function BucketLine(name: string, m: ClientMetric, le: string, count: nat): Entry {
    Sample(name + "_bucket", m.labels + [Label("le", le)], NatText(count), m.timestampMs)
  }

  lemma {:induction false} ReportedLines(name: string, m: ClientMetric, r: HM.HistReport, bounds: seq<real>,
        log: seq<real>, show: real -> Digits)
    requires HM.Reports(r, bounds, log) && m.histogram == HistogramDataOf(r, show)
    ensures HistogramLines(MetricEntries(name, Histogram, m), name, m, bounds, log, show)
  {
    assert m.labels + [] == m.labels;
    ReportedLine(name, m, r, bounds, log, show, |bounds|);
    forall i | 0 <= i < |bounds|
      ensures MetricEntries(name, Histogram, m)[i + 2] == BucketLine(name, m, show(bounds[i]), CountLe(log, bounds[i]))
    {
      ReportedLine(name, m, r, bounds, log, show, i);
    }
    hide NatText, BucketEntries, InfEntries;
  }

  lemma {:induction false} ReportedLine(name: string, m: ClientMetric, r: HM.HistReport, bounds: seq<real>,
        log: seq<real>, show: real -> Digits, i: nat)
    requires HM.Reports(r, bounds, log) && m.histogram == HistogramDataOf(r, show) && i <= |bounds|
    ensures var es := MetricEntries(name, Histogram, m);
      && |es| == |bounds| + 3
      && es[i + 2] == BucketLine(name, m, if i < |bounds| then show(bounds[i]) else "+Inf",
                                 if i < |bounds| then CountLe(log, bounds[i]) else |log|)
  {
    var bs := m.histogram.bucket;
    assert bs[i] == BucketOf(r.buckets[i], show);
    BucketEntryAt(name, m, bs, i);
    assert bs[|bounds|] == BucketOf(r.buckets[|bounds|], show);
    hide NatText, BucketEntries;
  }

  /** The data collected after a run. */
  ghost function Collected(bounds: seq<real>, ops: seq<HM.Op>, show: real -> Digits): HistogramData
    requires HM.StrictlyIncreasing(bounds)
  {
    HM.CollectRefines(bounds, ops);
    HistogramDataOf(HM.Collect(HM.Run(bounds, ops)), show)
  }

  /**
   Whatever a histogram has observed: its printed lines say, for every bound, how many of the
   observations since the last reset were at most that; count line and last line agree.
   */
  lemma {:induction false} HistogramText(name: string, m: ClientMetric, bounds: seq<real>, ops: seq<HM.Op>,
        show: real -> Digits)
    requires HM.StrictlyIncreasing(bounds) && m.histogram == Collected(bounds, ops, show)
    ensures HistogramLines(MetricEntries(name, Histogram, m), name, m, bounds, HM.Observed(ops), show)
  {
    HM.CollectRefines(bounds, ops);
    hide HM.Reports, HistogramLines, HistogramDataOf;
    ReportedLines(name, m, HM.Collect(HM.Run(bounds, ops)), bounds, HM.Observed(ops), show);
  }

  // ----- summaries -----------------------------------------------------------

  function ValueOf(value: Option<real>, show: real -> Digits): Double {
    match value
    case None => NaN
    case Some(x) => Finite(show(x))
  }

  /** The data Summary::Collect puts into the collected metric. */
  function SummaryDataOf(c: WindowModel.Settings, r: SM.Report, show: real -> Digits): SummaryData
    requires |r.values| == |c.targets|
  {
    SummaryData(r.count, Finite(show(r.sum)),
                seq(|r.values|, j requires 0 <= j < |r.values| =>
                      QuantileValue(Finite(show(c.targets[j].quantile)), ValueOf(r.values[j], show))))
  }

  lemma {:induction false} QuantileEntryAt(name: string, m: ClientMetric, qs: seq<QuantileValue>, i: nat)
    requires i < |qs|
    ensures |QuantileEntries(name, m, qs)| == |qs|
    ensures QuantileEntries(name, m, qs)[i]
      == SampleOf(name, m, "", [Label("quantile", DoubleText(qs[i].quantile))], DoubleText(qs[i].value))
  {
    hide SampleOf, DoubleText;
    var last := |qs| - 1;
    if last == 0 {
      assert qs[..0] == [];
    } else if i == last {
      QuantileEntryAt(name, m, qs[..last], 0);
    } else {
      QuantileEntryAt(name, m, qs[..last], i);
    }
  }

  /** What a printed line says of a target: a value observed at most max_age ago, or Nan if nothing recent was. */
  ghost predicate TargetLine(e: Entry, name: string, m: ClientMetric, c: WindowModel.Config, calls: seq<SM.Call>,
                             j: nat, now: int, maxAge: int, show: real -> Digits)
    requires j < |c.targets|
  {
    exists value :: SM.ValueGuarantee(c, calls, now, value, maxAge)
      && e == Sample(name, m.labels + [Label("quantile", show(c.targets[j].quantile))],
                     DoubleText(ValueOf(value, show)), m.timestampMs)
  }

  /** The lines of a summary that was called: count and sum of all observations ever made, and one per target. */
  ghost predicate SummaryLines(es: seq<Entry>, name: string, m: ClientMetric, c: WindowModel.Config,
                               calls: seq<SM.Call>, times: seq<int>, maxAge: int, show: real -> Digits)
    requires |times| == |c.targets|
  {
    && |es| == |c.targets| + 2
    && es[0] == Sample(name + "_count", m.labels, NatText(|SM.Observations(calls)|), m.timestampMs)
    && es[1] == Sample(name + "_sum", m.labels, show(Sum(SM.Observations(calls))), m.timestampMs)
    && forall j | 0 <= j < |times| :: TargetLine(es[j + 2], name, m, c, calls, j, times[j], maxAge, show)
  }

  /** The lines printed for a report, in the report's own terms. */
  lemma {:induction false} ReportLines(name: string, m: ClientMetric, c: WindowModel.Settings, r: SM.Report,
        show: real -> Digits)
    requires |r.values| == |c.targets| && m.summary == SummaryDataOf(c, r, show)
    ensures |MetricEntries(name, Summary, m)| == |c.targets| + 2
    ensures MetricEntries(name, Summary, m)[0] == Sample(name + "_count", m.labels, NatText(r.count), m.timestampMs)
    ensures MetricEntries(name, Summary, m)[1] == Sample(name + "_sum", m.labels, show(r.sum), m.timestampMs)
  {
    assert m.labels + [] == m.labels;
    if m.summary.quantile != [] {
      QuantileEntryAt(name, m, m.summary.quantile, 0);
    }
    hide NatText;
  }

  lemma {:induction false} ReportLine(name: string, m: ClientMetric, c: WindowModel.Settings, r: SM.Report,
        show: real -> Digits, j: nat)
    requires j < |r.values| == |c.targets| && m.summary == SummaryDataOf(c, r, show)
    ensures |MetricEntries(name, Summary, m)| == |c.targets| + 2
    ensures MetricEntries(name, Summary, m)[j + 2]
      == Sample(name, m.labels + [Label("quantile", show(c.targets[j].quantile))],
                DoubleText(ValueOf(r.values[j], show)), m.timestampMs)
  {
    QuantileEntryAt(name, m, m.summary.quantile, j);
    assert name + "" == name;
    hide QuantileEntries, NatText, ValueOf;
  }

  /** Whatever a summary has observed, and whenever it was collected: what its printed lines say. */
  lemma {:induction false} SummaryText(name: string, m: ClientMetric, c: WindowModel.Config, start: int,
        calls: seq<SM.Call>, times: seq<int>, maxAge: int, show: real -> Digits)
    requires SM.WellFormed(c, calls) && |times| == |c.targets| && SM.InOrder(c, start, calls, times)
    requires c == WindowModel.Built(c.targets, maxAge, c.size)
    requires m.summary == SummaryDataOf(c, SM.Reported(c, SM.RunCalls(c, start, calls), times), show)
    ensures SummaryLines(MetricEntries(name, Summary, m), name, m, c, calls, times, maxAge, show)
  {
    var r := SM.Reported(c, SM.RunCalls(c, start, calls), times);
    hide SM.Reported, SM.RunCalls, SM.ValueGuarantee, SM.InOrder, SM.WellFormed, SummaryDataOf, MetricEntries, NatText,
      ValueOf, DoubleText, WindowModel.Built, SM.Observations, Sum;
    SM.ReportGuarantee(c, start, calls, times, maxAge);
    ReportLines(name, m, c, r, show);
    forall j | 0 <= j < |times|
      ensures TargetLine(MetricEntries(name, Summary, m)[j + 2], name, m, c, calls, j, times[j], maxAge, show)
    {
      ReportLine(name, m, c, r, show, j);
      assert SM.ValueGuarantee(c, calls, times[j], r.values[j], maxAge);
    }
  }

  // ----- in a scrape ---------------------------------------------------------

  /** The lines of a histogram somewhere among those of the families fs. */
  lemma {:induction false} HistogramPrinted(fs: seq<MetricFamily>, i: nat, j: nat, bounds: seq<real>, ops: seq<HM.Op>,
        show: real -> Digits)
    returns (es: seq<Entry>, o: nat)
    requires i < |fs| && j < |fs[i].metric| && fs[i].kind == Histogram
    requires HM.StrictlyIncreasing(bounds) && fs[i].metric[j].histogram == Collected(bounds, ops, show)
    ensures Occurs(es, Entries(fs), o)
    ensures HistogramLines(es, fs[i].name, fs[i].metric[j], bounds, HM.Observed(ops), show)
  {
    hide *;
    es := MetricEntries(fs[i].name, fs[i].kind, fs[i].metric[j]);
    HistogramText(fs[i].name, fs[i].metric[j], bounds, ops, show);
    o := MetricOccurs(fs, i, j);
  }

  /** The lines of a summary somewhere among those of the families fs. */
  lemma {:induction false} SummaryPrinted(fs: seq<MetricFamily>, i: nat, j: nat, c: WindowModel.Config, start: int,
        calls: seq<SM.Call>, times: seq<int>, maxAge: int, show: real -> Digits)
    returns (es: seq<Entry>, o: nat)
    requires i < |fs| && j < |fs[i].metric| && fs[i].kind == Summary
    requires SM.WellFormed(c, calls) && |times| == |c.targets| && SM.InOrder(c, start, calls, times)
    requires c == WindowModel.Built(c.targets, maxAge, c.size)
    requires fs[i].metric[j].summary == SummaryDataOf(c, SM.Reported(c, SM.RunCalls(c, start, calls), times), show)
    ensures Occurs(es, Entries(fs), o)
    ensures SummaryLines(es, fs[i].name, fs[i].metric[j], c, calls, times, maxAge, show)
  {
    hide *;
    es := MetricEntries(fs[i].name, fs[i].kind, fs[i].metric[j]);
    SummaryText(fs[i].name, fs[i].metric[j], c, start, calls, times, maxAge, show);
    o := MetricOccurs(fs, i, j);
  }
}
