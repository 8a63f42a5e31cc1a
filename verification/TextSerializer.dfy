/**
 The printer of core/src/text_serializer.cc. Every function appends to the stream; each is
 proved to append exactly the characters TextFormat gives for what it prints.
 */
module TextSerializer {
  import opened Metrics
  import opened Sequences
  import opened TextFormat
  import opened TextProofs

  /** WriteHead is a template over the type of the extra label's value. */
  datatype Extra = TextValue(s: string) | DoubleValue(d: Double)

  function ExtraLabel(name: string, value: Extra): seq<Label> {
    if name == "" then []
    else [Label(name, match value case TextValue(s) => s case DoubleValue(d) => DoubleText(d))]
  }

  /** The labels before position i, each followed by the comma that its successor needs. */
  ghost function Separated(ls: seq<Label>, i: nat): string
    requires i <= |ls|
  {
    if i == 0 then "" else Separated(ls, i - 1) + (if i == 1 then "" else ",") + LabelText(ls[i - 1])
  }

  lemma {:induction false} SeparatedTail(ls: seq<Label>, i: nat)
    requires |ls| > 1 && 0 < i < |ls|
    ensures Separated(ls, i + 1) == LabelText(ls[0]) + "," + Separated(ls[1..], i)
  {
    hide LabelText;
    if i == 1 {
      assert Separated(ls, 1) == LabelText(ls[0]);
      assert Separated(ls[1..], 1) == LabelText(ls[1]);
    } else {
      SeparatedTail(ls, i - 1);
      Regroup(LabelText(ls[0]) + ",", Separated(ls[1..], i - 1), ",", LabelText(ls[i]));
    }
  }

  lemma {:induction false} Regroup(a: string, b: string, c: string, d: string)
    ensures a + b + c + d == a + (b + c + d)
  {
  }

  lemma {:induction false} SeparatedAll(ls: seq<Label>)
    ensures Separated(ls, |ls|) == LabelsText(ls)
    decreases |ls|
  {
    hide LabelText;
    if |ls| == 1 {
      assert Separated(ls, 0) == "";
    } else if |ls| > 1 {
      SeparatedTail(ls, |ls| - 1);
      SeparatedAll(ls[1..]);
    }
  }

  lemma {:induction false} Extend(start: string, sofar: string, prefix: string, text: string)
    ensures start + sofar + (prefix + text) == start + (sofar + prefix + text)
  {
  }

  lemma {:induction false} PlainHead(start: string, name: string, suffix: string)
    ensures start + name + suffix + " " == start + HeadText(name + suffix, [])
  {
    assert HeadText(name + suffix, []) == name + suffix + " ";
  }

  lemma {:induction false} BracedHead(start: string, name: string, suffix: string, labels: seq<Label>)
    requires labels != []
    ensures start + name + suffix + "{" + LabelsText(labels) + "}" + " " == start + HeadText(name + suffix, labels)
  {
    hide LabelsText;
  }

  /** Head, value and tail written one after the other make a sample line. */
  lemma {:induction false} SampleWritten(start: string, name: string, m: ClientMetric, suffix: string,
        extra: seq<Label>, value: string)
    ensures start + HeadText(name + suffix, m.labels + extra) + value + TailText(m.timestampMs)
      == start + Text([SampleOf(name, m, suffix, extra, value)])
  {
    hide HeadText, TailText;
    var e := SampleOf(name, m, suffix, extra, value);
    TextOne(e);
  }

  lemma {:induction false} TextOne(e: Entry)
    ensures Text([e]) == EntryText(e)
  {
    hide EntryText;
    assert [e][..0] == [];
    assert "" + EntryText(e) == EntryText(e);
  }

  lemma {:induction false} NoText(start: string)
    ensures start + Text([]) == start
  {
  }

  lemma {:induction false} TextJoined(start: string, a: seq<Entry>, b: seq<Entry>)
    ensures start + Text(a) + Text(b) == start + Text(a + b)
  {
    hide EntryText;
    TextConcat(a, b);
    Associate(start, Text(a), Text(b));
  }

  class OutStream {
    var out: string

    constructor ()
      ensures out == ""
    {
      out := "";
    }

    method Put(s: string)
      modifies this
      ensures out == old(out) + s
    {
      out := out + s;
    }

    method WriteDouble(value: Double)
      modifies this
      ensures out == old(out) + DoubleText(value)
    {
      if value.NaN? {
        Put("Nan");
      } else if value.PosInf? || value.NegInf? {
        Put(if value.NegInf? then "-Inf" else "+Inf");
      } else {
        Put(value.digits);
      }
    }

    method WriteInt(value: int)
      modifies this
      ensures out == old(out) + IntText(value)
    {
      Put(IntText(value));
    }

    method WriteText(value: string)
      modifies this
      ensures out == old(out) + Escape(value)
    {
      var i := 0;
      while i < |value|
        invariant 0 <= i <= |value|
        invariant out + Escape(value[i..]) == old(out) + Escape(value)
      {
        ghost var before := out;
        var c := value[i];
        match c {
          case '\n' => Put("\\"); Put("n");
          case '\\' => Put("\\"); Put([c]);
          case '"' => Put("\\"); Put([c]);
          case _ => Put([c]);
        }
        assert value[i..][1..] == value[i + 1..];
        assert out == before + EscapeChar(c);
        hide EscapeChar;
        Associate(before, EscapeChar(c), Escape(value[i + 1..]));
        i := i + 1;
      }
      assert out + Escape("") == out;
    }

    method WriteExtra(value: Extra)
      modifies this
      ensures out == old(out) + Escape(match value case TextValue(s) => s case DoubleValue(d) => DoubleText(d))
    {
      match value {
        case TextValue(s) => WriteText(s);
        case DoubleValue(d) =>
          DoubleIsToken(d);
          WriteDouble(d);
      }
    }

    method WriteHead(family: MetricFamily, metric: ClientMetric, suffix: string, extraName: string, extra: Extra)
      modifies this
      ensures out == old(out) + HeadText(family.name + suffix, metric.labels + ExtraLabel(extraName, extra))
    {
      Put(family.name);
      Put(suffix);
      if metric.labels != [] || extraName != "" {
        Put("{");
        WriteLabels(metric.labels, extraName, extra);
        Put("}");
      }
      Put(" ");
      hide HeadText, LabelsText;
      ghost var labels := metric.labels + ExtraLabel(extraName, extra);
      if labels == [] {
        PlainHead(old(out), family.name, suffix);
      } else {
        BracedHead(old(out), family.name, suffix, labels);
      }
    }

    /** The part of WriteHead between the braces. */
    method WriteLabels(labels: seq<Label>, extraName: string, extra: Extra)
      modifies this
      ensures out == old(out) + LabelsText(labels + ExtraLabel(extraName, extra))
    {
      ghost var all := labels + ExtraLabel(extraName, extra);
      var prefix := "";
      for i := 0 to |labels|
        invariant prefix == if i == 0 then "" else ","
        invariant out == old(out) + Separated(all, i)
      {
        ghost var before := out;
        WriteLabel(prefix, labels[i].name, TextValue(labels[i].value));
        assert out == before + (prefix + LabelText(all[i]));
        Extend(old(out), Separated(all, i), prefix, LabelText(all[i]));
        prefix := ",";
      }
      if extraName != "" {
        ghost var before := out;
        WriteLabel(prefix, extraName, extra);
        assert out == before + (prefix + LabelText(all[|labels|]));
        Extend(old(out), Separated(all, |labels|), prefix, LabelText(all[|labels|]));
      }
      SeparatedAll(all);
    }

    method WriteLabel(prefix: string, name: string, value: Extra)
      modifies this
      ensures out == old(out)
        + (prefix + LabelText(Label(name, match value case TextValue(s) => s case DoubleValue(d) => DoubleText(d))))
    {
      hide Escape, DoubleText;
      Put(prefix);
      Put(name);
      Put("=\"");
      WriteExtra(value);
      Put("\"");
    }

    method WriteTail(metric: ClientMetric)
      modifies this
      ensures out == old(out) + TailText(metric.timestampMs)
    {
      if metric.timestampMs != 0 {
        Put(" ");
        WriteInt(metric.timestampMs);
      }
      Put("\n");
    }

    method SerializeCounter(family: MetricFamily, metric: ClientMetric)
      modifies this
      ensures out == old(out) + Text(MetricEntries(family.name, Counter, metric))
    {
      hide HeadText, TailText, Text, SampleOf;
      SampleWritten(out, family.name, metric, "", [], NumberText(metric.counter));
      WriteHead(family, metric, "", "", TextValue(""));
      if metric.counter.Dbl? {
        WriteDouble(metric.counter.d);
      } else {
        WriteInt(metric.counter.i);
      }
      WriteTail(metric);
    }

    method SerializeGauge(family: MetricFamily, metric: ClientMetric)
      modifies this
      ensures out == old(out) + Text(MetricEntries(family.name, Gauge, metric))
    {
      hide HeadText, TailText, Text, SampleOf;
      SampleWritten(out, family.name, metric, "", [], NumberText(metric.gauge));
      WriteHead(family, metric, "", "", TextValue(""));
      if metric.gauge.Dbl? {
        WriteDouble(metric.gauge.d);
      } else {
        WriteInt(metric.gauge.i);
      }
      WriteTail(metric);
    }

    method SerializeInfo(family: MetricFamily, metric: ClientMetric)
      modifies this
      ensures out == old(out) + Text(MetricEntries(family.name, Info, metric))
    {
      hide HeadText, TailText, Text, SampleOf;
      SampleWritten(out, family.name, metric, "_info", [], DoubleText(metric.info));
      WriteHead(family, metric, "_info", "", TextValue(""));
      WriteDouble(metric.info);
      WriteTail(metric);
    }

    method SerializeUntyped(family: MetricFamily, metric: ClientMetric)
      modifies this
      ensures out == old(out) + Text(MetricEntries(family.name, Untyped, metric))
    {
      hide HeadText, TailText, Text, SampleOf;
      SampleWritten(out, family.name, metric, "", [], DoubleText(metric.untyped));
      WriteHead(family, metric, "", "", TextValue(""));
      WriteDouble(metric.untyped);
      WriteTail(metric);
    }

    method SerializeCount(family: MetricFamily, metric: ClientMetric, count: nat)
      modifies this
      ensures out == old(out) + Text([SampleOf(family.name, metric, "_count", [], NatText(count))])
    {
      hide HeadText, TailText, Text, SampleOf;
      SampleWritten(out, family.name, metric, "_count", [], NatText(count));
      WriteHead(family, metric, "_count", "", TextValue(""));
      Put(NatText(count));
      WriteTail(metric);
    }

    method SerializeSum(family: MetricFamily, metric: ClientMetric, sum: Double)
      modifies this
      ensures out == old(out) + Text([SampleOf(family.name, metric, "_sum", [], DoubleText(sum))])
    {
      hide HeadText, TailText, Text, SampleOf;
      SampleWritten(out, family.name, metric, "_sum", [], DoubleText(sum));
      WriteHead(family, metric, "_sum", "", TextValue(""));
      WriteDouble(sum);
      WriteTail(metric);
    }

    method SerializeQuantile(family: MetricFamily, metric: ClientMetric, q: QuantileValue)
      modifies this
      ensures var extra := [Label("quantile", DoubleText(q.quantile))];
        out == old(out) + Text([SampleOf(family.name, metric, "", extra, DoubleText(q.value))])
    {
      hide HeadText, TailText, Text, SampleOf;
      SampleWritten(out, family.name, metric, "", ExtraLabel("quantile", DoubleValue(q.quantile)), DoubleText(q.value));
      WriteHead(family, metric, "", "quantile", DoubleValue(q.quantile));
      WriteDouble(q.value);
      WriteTail(metric);
    }

    method SerializeBucket(family: MetricFamily, metric: ClientMetric, le: Extra, count: nat)
      modifies this
      ensures out == old(out) + Text([SampleOf(family.name, metric, "_bucket", ExtraLabel("le", le), NatText(count))])
    {
      hide HeadText, TailText, Text, SampleOf;
      SampleWritten(out, family.name, metric, "_bucket", ExtraLabel("le", le), NatText(count));
      WriteHead(family, metric, "_bucket", "le", le);
      Put(NatText(count));
      WriteTail(metric);
    }

    method SerializeSummary(family: MetricFamily, metric: ClientMetric)
      modifies this
      ensures out == old(out) + Text(MetricEntries(family.name, Summary, metric))
    {
      hide Text, SampleOf;
      var sum := metric.summary;
      ghost var first := [SampleOf(family.name, metric, "_count", [], NatText(sum.sampleCount))];
      ghost var second := [SampleOf(family.name, metric, "_sum", [], DoubleText(sum.sampleSum))];
      SerializeCount(family, metric, sum.sampleCount);
      SerializeSum(family, metric, sum.sampleSum);
      TextJoined(old(out), first, second);
      SerializeQuantiles(family, metric);
      TextJoined(old(out), first + second, QuantileEntries(family.name, metric, sum.quantile));
      assert MetricEntries(family.name, Summary, metric)
          == first + second + QuantileEntries(family.name, metric, sum.quantile);
    }

    /** The loop of SerializeSummary. */
    method SerializeQuantiles(family: MetricFamily, metric: ClientMetric)
      modifies this
      ensures out == old(out) + Text(QuantileEntries(family.name, metric, metric.summary.quantile))
    {
      hide Text, SampleOf;
      var qs := metric.summary.quantile;
      NoText(out);
      for i := 0 to |qs|
        invariant out == old(out) + Text(QuantileEntries(family.name, metric, qs[..i]))
      {
        assert qs[..i + 1][..i] == qs[..i];
        ghost var before := QuantileEntries(family.name, metric, qs[..i]);
        SerializeQuantile(family, metric, qs[i]);
        ghost var extra := [Label("quantile", DoubleText(qs[i].quantile))];
        TextJoined(old(out), before, [SampleOf(family.name, metric, "", extra, DoubleText(qs[i].value))]);
      }
      assert qs[..|qs|] == qs;
    }

    method SerializeHistogram(family: MetricFamily, metric: ClientMetric)
      modifies this
      ensures out == old(out) + Text(MetricEntries(family.name, Histogram, metric))
    {
      hide Text, SampleOf;
      var hist := metric.histogram;
      ghost var first := [SampleOf(family.name, metric, "_count", [], NatText(hist.sampleCount))];
      ghost var second := [SampleOf(family.name, metric, "_sum", [], DoubleText(hist.sampleSum))];
      ghost var third := BucketEntries(family.name, metric, hist.bucket);
      SerializeCount(family, metric, hist.sampleCount);
      SerializeSum(family, metric, hist.sampleSum);
      TextJoined(old(out), first, second);
      SerializeBuckets(family, metric);
      TextJoined(old(out), first + second, third + InfEntries(family.name, metric));
      Associate(first + second, third, InfEntries(family.name, metric));
      assert MetricEntries(family.name, Histogram, metric) == first + second + third + InfEntries(family.name, metric);
    }

    /** The loop of SerializeHistogram and the infinite bucket after it. */
    method SerializeBuckets(family: MetricFamily, metric: ClientMetric)
      modifies this
      ensures var bs := metric.histogram.bucket;
        out == old(out) + Text(BucketEntries(family.name, metric, bs) + InfEntries(family.name, metric))
    {
      hide Text, SampleOf;
      var bs := metric.histogram.bucket;
      NoText(out);
      var last := NegInf;
      for i := 0 to |bs|
        invariant last == if i == 0 then NegInf else bs[i - 1].upperBound
        invariant out == old(out) + Text(BucketEntries(family.name, metric, bs[..i]))
      {
        assert bs[..i + 1][..i] == bs[..i];
        ghost var before := BucketEntries(family.name, metric, bs[..i]);
        SerializeBucket(family, metric, DoubleValue(bs[i].upperBound), bs[i].cumulativeCount);
        last := bs[i].upperBound;
        ghost var extra := [Label("le", DoubleText(bs[i].upperBound))];
        TextJoined(old(out), before, [SampleOf(family.name, metric, "_bucket", extra, NatText(bs[i].cumulativeCount))]);
      }
      assert bs[..|bs|] == bs;

      if last != PosInf {
        SerializeBucket(family, metric, TextValue("+Inf"), metric.histogram.sampleCount);
      } else {
        NoText(out);
      }
      TextJoined(old(out), BucketEntries(family.name, metric, bs), InfEntries(family.name, metric));
    }

    method SerializeMetric(family: MetricFamily, metric: ClientMetric)
      modifies this
      ensures out == old(out) + Text(MetricEntries(family.name, family.kind, metric))
    {
      match family.kind {
        case Counter => SerializeCounter(family, metric);
        case Gauge => SerializeGauge(family, metric);
        case Info => SerializeInfo(family, metric);
        case Summary => SerializeSummary(family, metric);
        case Untyped => SerializeUntyped(family, metric);
        case Histogram => SerializeHistogram(family, metric);
      }
    }

    method SerializeFamily(family: MetricFamily)
      modifies this
      ensures out == old(out) + Text(FamilyEntries(family))
    {
      SerializeTop(family);
      SerializeMetrics(family);
      hide Text, MetricsEntries;
      TextJoined(old(out), TopEntries(family), MetricsEntries(family.name, family.kind, family.metric));
    }

    /** The HELP and TYPE lines; the cases of the source's switch differ in the word they print. */
    method SerializeTop(family: MetricFamily)
      modifies this
      ensures out == old(out) + Text(TopEntries(family))
    {
      TopWritten(out, family);
      hide Text, TypeWord;
      if family.help != "" {
        Put("# HELP ");
        Put(family.name);
        Put(" ");
        Put(family.help);
        Put("\n");
      }
      Put("# TYPE ");
      Put(family.name);
      Put(" " + TypeWord(family.kind) + "\n");
    }

    method SerializeMetrics(family: MetricFamily)
      modifies this
      ensures out == old(out) + Text(MetricsEntries(family.name, family.kind, family.metric))
    {
      hide Text, MetricEntries;
      var ms := family.metric;
      NoText(out);
      for i := 0 to |ms|
        invariant out == old(out) + Text(MetricsEntries(family.name, family.kind, ms[..i]))
      {
        assert ms[..i + 1][..i] == ms[..i];
        SerializeMetric(family, ms[i]);
        ghost var before := MetricsEntries(family.name, family.kind, ms[..i]);
        TextJoined(old(out), before, MetricEntries(family.name, family.kind, ms[i]));
      }
      assert ms[..|ms|] == ms;
    }

    /** TextSerializer::Serialize; the stream's locale and precision are not modelled. */
    method Serialize(metrics: seq<MetricFamily>)
      modifies this
      ensures out == old(out) + Text(Entries(metrics))
    {
      hide Text, FamilyEntries;
      NoText(out);
      assert Entries(metrics[..0]) == [];
      for i := 0 to |metrics|
        invariant out == old(out) + Text(Entries(metrics[..i]))
      {
        assert metrics[..i + 1][..i] == metrics[..i];
        SerializeFamily(metrics[i]);
        TextJoined(old(out), Entries(metrics[..i]), FamilyEntries(metrics[i]));
      }
      assert metrics[..|metrics|] == metrics;
    }
  }

  lemma {:induction false} HelpWritten(start: string, name: string, text: string)
    ensures start + "# HELP " + name + " " + text + "\n" == start + Text([HelpLine(name, text)])
  {
    TextOne(HelpLine(name, text));
  }

  lemma {:induction false} TypeWritten(start: string, name: string, word: string)
    ensures start + "# TYPE " + name + (" " + word + "\n") == start + Text([TypeLine(name, word)])
  {
    TextOne(TypeLine(name, word));
    assert "# TYPE " + name + (" " + word + "\n") == EntryText(TypeLine(name, word));
  }

  lemma {:induction false} TopWritten(start: string, f: MetricFamily)
    ensures (if f.help != "" then start + "# HELP " + f.name + " " + f.help + "\n" else start)
      + "# TYPE " + f.name + (" " + TypeWord(f.kind) + "\n") == start + Text(TopEntries(f))
  {
    hide TypeWord, Text;
    var help := if f.help != "" then [HelpLine(f.name, f.help)] else [];
    NoText(start);
    HelpWritten(start, f.name, f.help);
    TypeWritten(start + Text(help), f.name, TypeWord(f.kind));
    TextJoined(start, help, [TypeLine(f.name, TypeWord(f.kind))]);
  }
}
