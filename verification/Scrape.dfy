/** A scrape from end to end: collecting a registry and serializing what it reports into a string. */
module Scrapes {
  import opened Metrics
  import opened TextFormat
  import opened TextParser
  import opened TextProofs
  import opened TextSerializer
  import opened TextLayout
  import opened Exposition
  import HM = HistogramModel
  import SM = SummaryModel
  import WindowModel
  import opened Families
  import opened Registries

  /** What is printed of a report reads back exactly when the help texts of the families reported fit their lines. */
  lemma {:induction false} ReportReads(results: seq<MetricFamily>, fs: seq<Family>)
    requires Reports(results, fs)
    ensures Parse(Text(Entries(results))) == Document(Entries(results))
      <==> forall i | 0 <= i < |fs| :: FitsLine(fs[i].help)
  {
    hide FitsLine, Parse, Text, Entries, PrintableFamily, DistinctFamily;
    forall i | 0 <= i < |fs|
      ensures PrintableFamily(results[i]) && DistinctFamily(results[i]) && results[i].help == fs[i].help
    {
      assert ReportsOne(results[i], fs[i]);
    }
    ScrapeRoundTrip(results);
  }

  // ----- what a scrape says of a metric --------------------------------------

  /** The data a family reports for the metric of a label set. */
  ghost function Labelled(f: Family, ls: Labels): ClientMetric
    requires ls in f.metrics
    reads f, f.metrics.Values
  {
    f.metrics[ls].data.(labels := f.constantLabels + ls)
  }

  /** Every metric of every reported family is in the report. */
  lemma {:induction false} MetricReported(results: seq<MetricFamily>, fs: seq<Family>, i: nat, ls: Labels)
    returns (j: nat)
    requires Reports(results, fs) && i < |fs| && ls in fs[i].metrics
    ensures |results| == |fs| && results[i].name == fs[i].name && IsTypeOf(results[i].kind, fs[i].kind)
    ensures j < |results[i].metric| && results[i].metric[j] == Labelled(fs[i], ls)
  {
    var f := fs[i];
    hide PrintableFamily, DistinctFamily, IsTypeOf;
    assert ReportsOne(results[i], f);
    var order :| f.Walks(order, results[i].metric);
    assert ls in order;
    j :| 0 <= j < |order| && order[j] == ls;
  }

  /** The lines of every metric of every reported family are in the scrape, under its type. */
  lemma {:induction false} MetricScraped(results: seq<MetricFamily>, fs: seq<Family>, i: nat, ls: Labels)
    returns (o: nat)
    requires Reports(results, fs) && i < |fs| && ls in fs[i].metrics
    ensures |results| == |fs| && IsTypeOf(results[i].kind, fs[i].kind)
    ensures Occurs(MetricEntries(fs[i].name, results[i].kind, Labelled(fs[i], ls)), Entries(results), o)
  {
    hide Entries, MetricEntries, Occurs, ReportsOne, IsTypeOf, Labelled;
    var j := MetricReported(results, fs, i, ls);
    o := MetricOccurs(results, i, j);
  }

  /** The type line says what the family was instantiated with; an info family is printed as a gauge. */
  lemma {:induction false} TypeScraped(results: seq<MetricFamily>, fs: seq<Family>, i: nat) returns (o: nat)
    requires Reports(results, fs) && i < |fs|
    ensures o < |Entries(results)| && Entries(results)[o].TypeLine? && Entries(results)[o].name == fs[i].name
    ensures Entries(results)[o].word
      == match fs[i].kind
         case CounterDouble => "counter" case CounterInt => "counter"
         case GaugeDouble => "gauge" case GaugeInt => "gauge" case InfoKind => "gauge"
         case HistogramKind => "histogram"
         case SummaryKind => "summary"
  {
    hide Entries, PrintableFamily, DistinctFamily;
    assert ReportsOne(results[i], fs[i]);
    o := TypeOccurs(results, i);
  }

  lemma {:induction false} TypeFixed(t: MetricType, kind: Kind)
    requires IsTypeOf(t, kind)
    ensures (kind == HistogramKind ==> t == Histogram) && (kind == SummaryKind ==> t == Summary)
  {
  }

  /** A histogram in a scrape: its lines say what it has observed. */
  lemma {:induction false} HistogramScraped(results: seq<MetricFamily>, fs: seq<Family>, i: nat, ls: Labels,
        bounds: seq<real>, ops: seq<HM.Op>, show: real -> Digits)
    returns (es: seq<Entry>, o: nat)
    requires Reports(results, fs) && i < |fs| && ls in fs[i].metrics && fs[i].kind == HistogramKind
    requires HM.StrictlyIncreasing(bounds)
    requires Labelled(fs[i], ls).histogram == Collected(bounds, ops, show)
    ensures Occurs(es, Entries(results), o)
    ensures HistogramLines(es, fs[i].name, Labelled(fs[i], ls), bounds, HM.Observed(ops), show)
  {
    hide *;
    var j := MetricReported(results, fs, i, ls);
    TypeFixed(results[i].kind, fs[i].kind);
    es, o := HistogramPrinted(results, i, j, bounds, ops, show);
  }

  /** A summary in a scrape: its lines say what it has observed, and when. */
  lemma {:induction false} SummaryScraped(results: seq<MetricFamily>, fs: seq<Family>, i: nat, ls: Labels,
        c: WindowModel.Config, start: int, calls: seq<SM.Call>, times: seq<int>, maxAge: int, show: real -> Digits)
    returns (es: seq<Entry>, o: nat)
    requires Reports(results, fs) && i < |fs| && ls in fs[i].metrics && fs[i].kind == SummaryKind
    requires SM.WellFormed(c, calls) && |times| == |c.targets| && SM.InOrder(c, start, calls, times)
    requires c == WindowModel.Built(c.targets, maxAge, c.size)
    requires Labelled(fs[i], ls).summary == SummaryDataOf(c, SM.Reported(c, SM.RunCalls(c, start, calls), times), show)
    ensures Occurs(es, Entries(results), o)
    ensures SummaryLines(es, fs[i].name, Labelled(fs[i], ls), c, calls, times, maxAge, show)
  {
    hide *;
    var j := MetricReported(results, fs, i, ls);
    TypeFixed(results[i].kind, fs[i].kind);
    es, o := SummaryPrinted(results, i, j, c, start, calls, times, maxAge, show);
  }

  /**
   The text of a scrape of any registry: the entries of every family with metrics, in type
   order, each with the current data of all its metrics. It reads back as just these entries
   exactly when the help texts fit their lines.
   */
  method Scrape(registry: Registry)
    returns (text: string, results: seq<MetricFamily>, ghost reported: seq<Family>)
    requires registry.Valid() && registry.FamiliesValid()
    ensures reported == Populated(registry.lists.All()) && Reports(results, reported)
    ensures text == Text(Entries(results)) && exists at :: HasFamilies(Entries(results), results, at)
    ensures Parse(text) == Document(Entries(results)) <==> forall i | 0 <= i < |reported| :: FitsLine(reported[i].help)
  {
    hide Parse, Text, Entries, FitsLine, ReportsOne, Registry.Valid, Family.Valid;
    results, reported := registry.Collect();
    ReportReads(results, reported);
    var _ := ScrapeLayout(results);
    text := SerializeToText(results);
  }

  /** Serializer::Serialize(metrics), which serializes into a string stream of its own. */
  method SerializeToText(metrics: seq<MetricFamily>) returns (text: string)
    ensures text == Text(Entries(metrics))
  {
    var stream := new OutStream();
    hide *;
    stream.Serialize(metrics);
    text := stream.out;
    assert "" + Text(Entries(metrics)) == Text(Entries(metrics));
  }
}
