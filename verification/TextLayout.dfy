/**
 The layout of a printed scrape, told by the reader: which lines a family has, where the lines
 of each metric are, and what every line of a metric shows.
 */
module TextLayout {
  import opened Wrappers
  import opened Metrics
  import opened TextFormat
  import opened TextParser
  import opened TextProofs

  // ----- the lines of a metric -----------------------------------------------

  ghost predicate ShowsInt(value: string, i: int) {
    ParseInt(value) == AnInt(i)
  }

  ghost predicate ShowsDouble(value: string, d: Double) {
    ParseDouble(value) == Some(d)
  }

  ghost predicate ShowsNumber(value: string, n: Number) {
    match n
    case Int(i) => ShowsInt(value, i)
    case Dbl(d) => ShowsDouble(value, d)
  }

  /** A line with the labels of the metric and no other. */
  ghost predicate IsLine(e: Entry, name: string, m: ClientMetric) {
    e.Sample? && e.name == name && e.labels == m.labels && e.timestamp == m.timestampMs
  }

  /** A line with one more label, which shows x. */
  ghost predicate IsExtraLine(e: Entry, name: string, m: ClientMetric, added: string, x: Double) {
    && e.Sample? && e.name == name && e.timestamp == m.timestampMs
    && exists text :: ShowsDouble(text, x) && e.labels == m.labels + [Label(added, text)]
  }

  ghost predicate IsQuantileLine(e: Entry, name: string, m: ClientMetric, q: QuantileValue) {
    IsExtraLine(e, name, m, "quantile", q.quantile) && ShowsDouble(e.value, q.value)
  }

  ghost predicate IsBucketLine(e: Entry, name: string, m: ClientMetric, upper: Double, count: nat) {
    IsExtraLine(e, name + "_bucket", m, "le", upper) && ShowsInt(e.value, count)
  }

  ghost predicate ShowsSummary(es: seq<Entry>, name: string, m: ClientMetric) {
    && |es| == 2 + |m.summary.quantile|
    && IsLine(es[0], name + "_count", m) && ShowsInt(es[0].value, m.summary.sampleCount)
    && IsLine(es[1], name + "_sum", m) && ShowsDouble(es[1].value, m.summary.sampleSum)
    && forall i | 0 <= i < |m.summary.quantile| :: IsQuantileLine(es[i + 2], name, m, m.summary.quantile[i])
  }

  /** An infinite bucket comes last, added where the histogram has none. */
  ghost predicate ShowsHistogram(es: seq<Entry>, name: string, m: ClientMetric) {
    var bs := m.histogram.bucket;
    var ended := bs != [] && bs[|bs| - 1].upperBound == PosInf;
    && |es| == 2 + |bs| + (if ended then 0 else 1)
    && IsLine(es[0], name + "_count", m) && ShowsInt(es[0].value, m.histogram.sampleCount)
    && IsLine(es[1], name + "_sum", m) && ShowsDouble(es[1].value, m.histogram.sampleSum)
    && (forall i | 0 <= i < |bs| :: IsBucketLine(es[i + 2], name, m, bs[i].upperBound, bs[i].cumulativeCount))
    && (!ended ==> IsBucketLine(es[|bs| + 2], name, m, PosInf, m.histogram.sampleCount))
  }

  ghost predicate ShowsOne(es: seq<Entry>, name: string, m: ClientMetric, n: Number) {
    |es| == 1 && IsLine(es[0], name, m) && ShowsNumber(es[0].value, n)
  }

  /** The lines es show the data of the metric that its type says counts. */
  ghost predicate ShowsMetric(es: seq<Entry>, name: string, kind: MetricType, m: ClientMetric) {
    match kind
    case Counter => ShowsOne(es, name, m, m.counter)
    case Gauge => ShowsOne(es, name, m, m.gauge)
    case Info => ShowsOne(es, name + "_info", m, Dbl(m.info))
    case Untyped => ShowsOne(es, name, m, Dbl(m.untyped))
    case Summary => ShowsSummary(es, name, m)
    case Histogram => ShowsHistogram(es, name, m)
  }

  lemma {:induction false} NumberShown(n: Number)
    ensures ShowsNumber(NumberText(n), n)
  {
    match n {
      case Int(i) => IntRoundTrip(i);
      case Dbl(d) => DoubleRoundTrip(d);
    }
  }

  lemma {:induction false} NatShown(n: nat)
    ensures ShowsInt(NatText(n), n)
  {
    NumberShown(Int(n));
  }

  lemma {:induction false} LineOf(name: string, m: ClientMetric, suffix: string, value: string)
    ensures var e := SampleOf(name, m, suffix, [], value);
      IsLine(e, name + suffix, m) && e.Sample? && e.value == value
  {
    assert m.labels + [] == m.labels;
  }

  lemma {:induction false} ExtraLineOf(name: string, m: ClientMetric, suffix: string, added: string, x: Double,
        value: string)
    ensures var e := SampleOf(name, m, suffix, [Label(added, DoubleText(x))], value);
      IsExtraLine(e, name + suffix, m, added, x) && e.Sample? && e.value == value
  {
    DoubleRoundTrip(x);
    hide DoubleText, ParseDouble;
  }

  lemma {:induction false} QuantileLineOf(name: string, m: ClientMetric, q: QuantileValue)
    ensures IsQuantileLine(SampleOf(name, m, "", [Label("quantile", DoubleText(q.quantile))], DoubleText(q.value)),
                           name, m, q)
  {
    DoubleRoundTrip(q.value);
    hide DoubleText, ParseDouble, SampleOf, IsExtraLine;
    ExtraLineOf(name, m, "", "quantile", q.quantile, DoubleText(q.value));
    assert name + "" == name;
  }

  lemma {:induction false} BucketLineOf(name: string, m: ClientMetric, upper: Double, count: nat)
    ensures IsBucketLine(SampleOf(name, m, "_bucket", [Label("le", DoubleText(upper))], NatText(count)),
                         name, m, upper, count)
  {
    NatShown(count);
    hide DoubleText, NatText, ParseInt, SampleOf, IsExtraLine;
    ExtraLineOf(name, m, "_bucket", "le", upper, NatText(count));
  }

  lemma {:induction false} QuantilesShown(name: string, m: ClientMetric, qs: seq<QuantileValue>)
    ensures |QuantileEntries(name, m, qs)| == |qs|
    ensures forall i | 0 <= i < |qs| :: IsQuantileLine(QuantileEntries(name, m, qs)[i], name, m, qs[i])
  {
    hide IsQuantileLine, SampleOf, DoubleText;
    if qs == [] {
    } else {
      QuantilesShown(name, m, qs[..|qs| - 1]);
      QuantileLineOf(name, m, qs[|qs| - 1]);
    }
  }

  lemma {:induction false} BucketsShown(name: string, m: ClientMetric, bs: seq<Bucket>)
    ensures |BucketEntries(name, m, bs)| == |bs|
    ensures forall i | 0 <= i < |bs| ::
        IsBucketLine(BucketEntries(name, m, bs)[i], name, m, bs[i].upperBound, bs[i].cumulativeCount)
  {
    hide IsBucketLine, SampleOf, DoubleText, NatText;
    if bs == [] {
    } else {
      BucketsShown(name, m, bs[..|bs| - 1]);
      BucketLineOf(name, m, bs[|bs| - 1].upperBound, bs[|bs| - 1].cumulativeCount);
    }
  }

  lemma {:induction false} OneShown(name: string, m: ClientMetric, suffix: string, n: Number)
    ensures ShowsOne([SampleOf(name, m, suffix, [], NumberText(n))], name + suffix, m, n)
  {
    hide NumberText, ShowsNumber, SampleOf;
    LineOf(name, m, suffix, NumberText(n));
    NumberShown(n);
  }

  lemma {:induction false} SummaryShown(name: string, m: ClientMetric)
    ensures ShowsSummary(MetricEntries(name, Summary, m), name, m)
  {
    LineOf(name, m, "_count", NatText(m.summary.sampleCount));
    LineOf(name, m, "_sum", DoubleText(m.summary.sampleSum));
    NatShown(m.summary.sampleCount);
    DoubleRoundTrip(m.summary.sampleSum);
    QuantilesShown(name, m, m.summary.quantile);
    hide NatText, DoubleText, ParseInt, ParseDouble, SampleOf, IsLine, IsQuantileLine, QuantileEntries;
  }

  lemma {:induction false} InfShown(name: string, m: ClientMetric)
    ensures var bs := m.histogram.bucket;
      var ended := bs != [] && bs[|bs| - 1].upperBound == PosInf;
      |InfEntries(name, m)| == (if ended then 0 else 1)
      && (!ended ==> IsBucketLine(InfEntries(name, m)[0], name, m, PosInf, m.histogram.sampleCount))
  {
    BucketLineOf(name, m, PosInf, m.histogram.sampleCount);
    assert DoubleText(PosInf) == "+Inf";
    hide NatText, IsBucketLine, SampleOf, DoubleText;
  }

  lemma {:induction false} ThreeParts<T>(a: seq<T>, b: seq<T>, c: seq<T>)
    ensures forall i | 0 <= i < |a| :: (a + b + c)[i] == a[i]
    ensures forall i | 0 <= i < |b| :: (a + b + c)[i + |a|] == b[i]
    ensures forall i | 0 <= i < |c| :: (a + b + c)[i + |a + b|] == c[i]
  {
  }

  lemma {:induction false} HistogramParts(name: string, m: ClientMetric, top: seq<Entry>, buckets: seq<Entry>,
        last: seq<Entry>)
    requires |top| == 2 && |buckets| == |m.histogram.bucket|
    requires IsLine(top[0], name + "_count", m) && ShowsInt(top[0].value, m.histogram.sampleCount)
    requires IsLine(top[1], name + "_sum", m) && ShowsDouble(top[1].value, m.histogram.sampleSum)
    requires var bs := m.histogram.bucket;
      forall i | 0 <= i < |bs| :: IsBucketLine(buckets[i], name, m, bs[i].upperBound, bs[i].cumulativeCount)
    requires var bs := m.histogram.bucket;
      if bs != [] && bs[|bs| - 1].upperBound == PosInf then last == []
      else |last| == 1 && IsBucketLine(last[0], name, m, PosInf, m.histogram.sampleCount)
    ensures ShowsHistogram(top + buckets + last, name, m)
  {
    hide IsBucketLine, ShowsInt, ShowsDouble;
    ThreeParts(top, buckets, last);
    assert last != [] ==> (top + buckets + last)[|m.histogram.bucket| + 2] == last[0];
  }

  lemma {:induction false} HistogramShown(name: string, m: ClientMetric)
    ensures ShowsHistogram(MetricEntries(name, Histogram, m), name, m)
  {
    LineOf(name, m, "_count", NatText(m.histogram.sampleCount));
    LineOf(name, m, "_sum", DoubleText(m.histogram.sampleSum));
    NatShown(m.histogram.sampleCount);
    DoubleRoundTrip(m.histogram.sampleSum);
    BucketsShown(name, m, m.histogram.bucket);
    InfShown(name, m);
    hide NatText, DoubleText, ParseInt, ParseDouble, SampleOf, IsBucketLine, BucketEntries, InfEntries, ShowsHistogram;
    var top := [SampleOf(name, m, "_count", [], NatText(m.histogram.sampleCount)),
                SampleOf(name, m, "_sum", [], DoubleText(m.histogram.sampleSum))];
    HistogramParts(name, m, top, BucketEntries(name, m, m.histogram.bucket), InfEntries(name, m));
  }

  /** The lines of a metric of every type. */
  lemma {:induction false} MetricShown(name: string, kind: MetricType, m: ClientMetric)
    ensures ShowsMetric(MetricEntries(name, kind, m), name, kind, m)
  {
    hide SampleOf, NumberText, ShowsOne, ShowsSummary, ShowsHistogram;
    assert name + "" == name;
    match kind {
      case Counter => OneShown(name, m, "", m.counter);
      case Gauge => OneShown(name, m, "", m.gauge);
      case Info =>
        OneShown(name, m, "_info", Dbl(m.info));
        assert NumberText(Dbl(m.info)) == DoubleText(m.info) by { DoubleNumber(m.info); }
      case Untyped =>
        OneShown(name, m, "", Dbl(m.untyped));
        assert NumberText(Dbl(m.untyped)) == DoubleText(m.untyped) by { DoubleNumber(m.untyped); }
      case Summary => SummaryShown(name, m);
      case Histogram => HistogramShown(name, m);
    }
  }

  lemma {:induction false} DoubleNumber(d: Double)
    ensures NumberText(Dbl(d)) == DoubleText(d)
  {
  }

  // ----- the lines of a family -----------------------------------------------

  /** The words of the TYPE line; an info metric is printed as a gauge. */
  ghost predicate IsTypeWord(kind: MetricType, word: string) {
    && (kind == Counter <==> word == "counter")
    && (kind == Gauge || kind == Info <==> word == "gauge")
    && (kind == Summary <==> word == "summary")
    && (kind == Untyped <==> word == "untyped")
    && (kind == Histogram <==> word == "histogram")
  }

  lemma {:induction false} TypeWordExactly(kind: MetricType, word: string)
    ensures IsTypeWord(kind, word) <==> word == TypeWord(kind)
  {
  }

  /** at divides the positions from low to high into n consecutive parts. */
  ghost predicate Divides(at: seq<nat>, n: nat, low: nat, high: nat) {
    && |at| == n + 1 && at[0] == low && at[n] == high
    && forall i, j | 0 <= i <= j <= n :: at[i] <= at[j]
  }

  /** The i-th of the parts at divides es into. */
  ghost function Part<T>(es: seq<T>, at: seq<nat>, i: nat): seq<T>
    requires i + 1 < |at| && at[i] <= at[i + 1] <= |es|
  {
    es[at[i]..at[i + 1]]
  }

  /**
   es is the help line, if there is a help text, the type line, and then the lines of one
   metric after the other.
   */
  ghost predicate HasFamily(es: seq<Entry>, f: MetricFamily, at: seq<nat>) {
    var top := if f.help != "" then 2 else 1;
    && Divides(at, |f.metric|, top, |es|)
    && (f.help != "" ==> es[0] == HelpLine(f.name, f.help))
    && es[top - 1].TypeLine? && es[top - 1].name == f.name && IsTypeWord(f.kind, es[top - 1].word)
    && forall i | 0 <= i < |f.metric| ::
         Part(es, at, i) == MetricEntries(f.name, f.kind, f.metric[i])
  }

  /** A slice before the end is the same in what is continued. */
  lemma {:induction false} SliceKept<T>(a: seq<T>, b: seq<T>, i: nat, j: nat)
    requires i <= j <= |a|
    ensures (a + b)[i..j] == a[i..j]
  {
  }

  lemma {:induction false} DividesMore(at: seq<nat>, n: nat, low: nat, high: nat, more: nat)
    requires Divides(at, n, low, high) && high <= more
    ensures Divides(at + [more], n + 1, low, more)
  {
    forall i, j | 0 <= i <= j <= n + 1 ensures (at + [more])[i] <= (at + [more])[j] {
      assert i <= n ==> at[i] <= at[n];
    }
  }

  ghost predicate HasMetrics(top: seq<Entry>, es: seq<Entry>, name: string, kind: MetricType, ms: seq<ClientMetric>,
                             at: seq<nat>)
  {
    && Divides(at, |ms|, |top|, |es|) && top <= es
    && forall i | 0 <= i < |ms| :: Part(es, at, i) == MetricEntries(name, kind, ms[i])
  }

  /** What divides a sequence divides its continuation in the same parts. */
  lemma {:induction false} SlicesKept<T>(es: seq<T>, last: seq<T>, at: seq<nat>, n: nat, low: nat)
    requires Divides(at, n, low, |es|)
    ensures Divides(at + [|es + last|], n + 1, low, |es + last|)
    ensures forall i | 0 <= i < n :: Part(es + last, at + [|es + last|], i) == Part(es, at, i)
    ensures Part(es + last, at + [|es + last|], n) == last
  {
    DividesMore(at, n, low, |es|, |es + last|);
    forall i | 0 <= i < n ensures Part(es + last, at + [|es + last|], i) == Part(es, at, i) {
      assert at[i] <= at[i + 1] && at[i + 1] <= at[n];
      SliceKept(es, last, at[i], at[i + 1]);
    }
  }

  lemma {:induction false} MetricsMore(top: seq<Entry>, es: seq<Entry>, name: string, kind: MetricType,
        ms: seq<ClientMetric>, at: seq<nat>, m: ClientMetric)
    requires HasMetrics(top, es, name, kind, ms, at)
    ensures var es' := es + MetricEntries(name, kind, m);
      HasMetrics(top, es', name, kind, ms + [m], at + [|es'|])
  {
    var last := MetricEntries(name, kind, m);
    SlicesKept(es, last, at, |ms|, |top|);
    hide MetricEntries, Divides;
    var at' := at + [|es + last|];
    forall i | 0 <= i < |ms + [m]| ensures Part(es + last, at', i) == MetricEntries(name, kind, (ms + [m])[i]) {
      if i < |ms| {
        assert Part(es + last, at', i) == Part(es, at, i);
      }
    }
  }

  lemma {:induction false} NoMetrics(top: seq<Entry>, name: string, kind: MetricType)
    ensures HasMetrics(top, top + MetricsEntries(name, kind, []), name, kind, [], [|top|])
  {
    assert top + [] == top;
  }

  lemma {:induction false} EntriesMore(top: seq<Entry>, name: string, kind: MetricType, ms: seq<ClientMetric>)
    requires ms != []
    ensures top + MetricsEntries(name, kind, ms)
      == top + MetricsEntries(name, kind, ms[..|ms| - 1]) + MetricEntries(name, kind, ms[|ms| - 1])
  {
    hide MetricEntries;
  }

  lemma {:induction false} MetricsDivided(top: seq<Entry>, name: string, kind: MetricType, ms: seq<ClientMetric>)
    returns (at: seq<nat>)
    ensures HasMetrics(top, top + MetricsEntries(name, kind, ms), name, kind, ms, at)
  {
    hide *;
    if ms == [] {
      at := [|top|];
      NoMetrics(top, name, kind);
    } else {
      var init, m := ms[..|ms| - 1], ms[|ms| - 1];
      var es := top + MetricsEntries(name, kind, init);
      at := MetricsDivided(top, name, kind, init);
      MetricsMore(top, es, name, kind, init, at, m);
      EntriesMore(top, name, kind, ms);
      at := at + [|es + MetricEntries(name, kind, m)|];
      assert init + [m] == ms;
    }
  }

  /** Nothing is missing in the printed lines of a family, and nothing added. */
  lemma {:induction false} FamilyLayout(f: MetricFamily) returns (at: seq<nat>)
    ensures HasFamily(FamilyEntries(f), f, at)
  {
    TypeWordExactly(f.kind, TypeWord(f.kind));
    hide MetricEntries, MetricsEntries, TypeWord, IsTypeWord;
    var top := TopEntries(f);
    at := MetricsDivided(top, f.name, f.kind, f.metric);
    assert FamilyEntries(f) == top + MetricsEntries(f.name, f.kind, f.metric);
  }

  // ----- the lines of a scrape -----------------------------------------------

  ghost predicate IsFamily(es: seq<Entry>, f: MetricFamily) {
    exists at :: HasFamily(es, f, at)
  }

  /** es is the lines of one family after the other. */
  ghost predicate HasFamilies(es: seq<Entry>, fs: seq<MetricFamily>, at: seq<nat>) {
    && Divides(at, |fs|, 0, |es|)
    && forall i | 0 <= i < |fs| :: IsFamily(Part(es, at, i), fs[i])
  }

  lemma {:induction false} FamiliesMore(es: seq<Entry>, fs: seq<MetricFamily>, at: seq<nat>, f: MetricFamily,
        last: seq<Entry>)
    requires HasFamilies(es, fs, at) && IsFamily(last, f)
    ensures HasFamilies(es + last, fs + [f], at + [|es + last|])
  {
    SlicesKept(es, last, at, |fs|, 0);
    hide IsFamily, Divides;
    var at' := at + [|es + last|];
    forall i | 0 <= i < |fs + [f]| ensures IsFamily(Part(es + last, at', i), (fs + [f])[i]) {
      if i < |fs| {
        assert Part(es + last, at', i) == Part(es, at, i);
      }
    }
  }

  /** Nothing is missing in a printed scrape, and nothing added. */
  lemma {:induction false} ScrapeLayout(fs: seq<MetricFamily>) returns (at: seq<nat>)
    ensures HasFamilies(Entries(fs), fs, at)
  {
    hide FamilyEntries, IsFamily;
    if fs == [] {
      at := [0];
    } else {
      var init, f := fs[..|fs| - 1], fs[|fs| - 1];
      at := ScrapeLayout(init);
      hide HasFamilies;
      FamilyIs(f);
      FamiliesMore(Entries(init), init, at, f, FamilyEntries(f));
      at := at + [|Entries(init) + FamilyEntries(f)|];
      assert init + [f] == fs;
    }
  }

  lemma {:induction false} FamilyIs(f: MetricFamily)
    ensures IsFamily(FamilyEntries(f), f)
  {
    var at := FamilyLayout(f);
  }

  /** part is in es, from position o on. */
  ghost predicate Occurs(part: seq<Entry>, es: seq<Entry>, o: nat) {
    o + |part| <= |es| && es[o..o + |part|] == part
  }

  lemma {:induction false} OccursInside(part: seq<Entry>, es: seq<Entry>, i: nat, j: nat, o: nat)
    requires i <= j <= |es| && Occurs(part, es[i..j], o)
    ensures Occurs(part, es, i + o)
  {
    var found := es[i + o..i + o + |part|];
    forall k | 0 <= k < |part| ensures found[k] == part[k] {
      assert es[i..j][o..o + |part|][k] == part[k] && es[i..j][o + k] == es[i + o + k];
    }
  }

  lemma {:induction false} MetricInFamily(es: seq<Entry>, f: MetricFamily, j: nat) returns (o: nat)
    requires IsFamily(es, f) && j < |f.metric|
    ensures Occurs(MetricEntries(f.name, f.kind, f.metric[j]), es, o)
  {
    hide MetricEntries, IsTypeWord;
    var at :| HasFamily(es, f, at);
    assert at[j] <= at[j + 1] && at[j + 1] <= at[|f.metric|];
    assert Part(es, at, j) == MetricEntries(f.name, f.kind, f.metric[j]);
    o := at[j];
  }

  /** Where the lines of every metric are in a printed scrape. */
  lemma {:induction false} MetricOccurs(fs: seq<MetricFamily>, i: nat, j: nat) returns (o: nat)
    requires i < |fs| && j < |fs[i].metric|
    ensures Occurs(MetricEntries(fs[i].name, fs[i].kind, fs[i].metric[j]), Entries(fs), o)
  {
    var es := Entries(fs);
    hide Entries, MetricEntries, IsFamily, Occurs;
    var at := ScrapeLayout(fs);
    assert at[i] <= at[i + 1] && at[i + 1] <= at[|fs|];
    var o' := MetricInFamily(Part(es, at, i), fs[i], j);
    OccursInside(MetricEntries(fs[i].name, fs[i].kind, fs[i].metric[j]), es, at[i], at[i + 1], o');
    o := at[i] + o';
  }

  /** The type line of every family is among the lines of the scrape. */
  lemma {:induction false} TypeOccurs(fs: seq<MetricFamily>, i: nat) returns (o: nat)
    requires i < |fs|
    ensures o < |Entries(fs)| && Entries(fs)[o].TypeLine? && Entries(fs)[o].name == fs[i].name
    ensures IsTypeWord(fs[i].kind, Entries(fs)[o].word)
  {
    hide Entries, MetricEntries, IsTypeWord;
    var es := Entries(fs);
    var at := ScrapeLayout(fs);
    assert at[i] <= at[i + 1] && at[i + 1] <= at[|fs|];
    var part, f := Part(es, at, i), fs[i];
    assert IsFamily(part, f);
    var inner :| HasFamily(part, f, inner);
    assert inner[0] <= inner[|f.metric|];
    var top := if f.help != "" then 2 else 1;
    o := at[i] + top - 1;
    assert es[o] == part[top - 1];
  }

  // ----- sample lines as text ------------------------------------------------

  /** Braces are printed only around labels, and a timestamp only if it is not zero. */
  lemma {:induction false} SampleText(name: string, labels: seq<Label>, value: string, timestamp: int)
    returns (inside: string, digits: string)
    ensures ShowsInt(digits, timestamp)
    ensures EntryText(Sample(name, labels, value, timestamp))
      == name + (if labels == [] then "" else "{" + inside + "}") + " " + value
         + (if timestamp == 0 then "" else " " + digits) + "\n"
  {
    inside, digits := LabelsText(labels), IntText(timestamp);
    IntRoundTrip(timestamp);
    hide LabelsText, IntText, ParseInt;
  }
}
