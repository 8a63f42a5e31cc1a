/**
 The text exposition format: the entries a family is printed as, and the characters each
 entry is printed as. The serializer in TextSerializer.dfy is proved to write these
 characters; TextParser.dfy reads them back.
 */
module TextFormat {
  import opened Metrics

  datatype Entry =
    | HelpLine(name: string, text: string)
    | TypeLine(name: string, word: string)
    | Sample(name: string, labels: seq<Label>, value: string, timestamp: int)

  // ----- values --------------------------------------------------------------

  function DoubleText(d: Double): string {
    match d
    case NaN => "Nan"
    case NegInf => "-Inf"
    case PosInf => "+Inf"
    case Finite(digits) => digits
  }

  function DigitChar(d: nat): char
    requires d < 10
  {
    '0' + d as char
  }

  function NatText(n: nat): (s: string)
    ensures s != ""
  {
    if n < 10 then [DigitChar(n)] else NatText(n / 10) + [DigitChar(n % 10)]
  }

  function IntText(i: int): string {
    if i < 0 then "-" + NatText(-i) else NatText(i)
  }

  function NumberText(n: Number): string {
    match n
    case Int(i) => IntText(i)
    case Dbl(d) => DoubleText(d)
  }

  function EscapeChar(c: char): string {
    if c == '\n' then "\\n" else if c == '\\' then "\\\\" else if c == '"' then "\\\"" else [c]
  }

  function Escape(s: string): string {
    if s == "" then "" else EscapeChar(s[0]) + Escape(s[1..])
  }

  // ----- entries as text -----------------------------------------------------

  function LabelText(l: Label): string {
    l.name + "=\"" + Escape(l.value) + "\""
  }

  function LabelsText(ls: seq<Label>): string {
    if ls == [] then ""
    else if |ls| == 1 then LabelText(ls[0])
    else LabelText(ls[0]) + "," + LabelsText(ls[1..])
  }

  function HeadText(name: string, labels: seq<Label>): string {
    name + (if labels == [] then "" else "{" + LabelsText(labels) + "}") + " "
  }

  function TailText(timestamp: int): string {
    (if timestamp != 0 then " " + IntText(timestamp) else "") + "\n"
  }

  function EntryText(e: Entry): string {
    match e
    case HelpLine(name, text) => "# HELP " + name + " " + text + "\n"
    case TypeLine(name, word) => "# TYPE " + name + " " + word + "\n"
    case Sample(name, labels, value, timestamp) => HeadText(name, labels) + value + TailText(timestamp)
  }

  function Text(es: seq<Entry>): string {
    if es == [] then "" else Text(es[..|es| - 1]) + EntryText(es[|es| - 1])
  }

  // ----- families as entries -------------------------------------------------

  function TypeWord(kind: MetricType): string {
    match kind
    case Counter => "counter"
    case Gauge => "gauge"
    case Info => "gauge"
    case Summary => "summary"
    case Untyped => "untyped"
    case Histogram => "histogram"
  }

  function SampleOf(name: string, m: ClientMetric, suffix: string, extra: seq<Label>, value: string): Entry {
    Sample(name + suffix, m.labels + extra, value, m.timestampMs)
  }

  function QuantileEntries(name: string, m: ClientMetric, qs: seq<QuantileValue>): seq<Entry> {
    if qs == [] then []
    else
      var q := qs[|qs| - 1];
      QuantileEntries(name, m, qs[..|qs| - 1])
      + [SampleOf(name, m, "", [Label("quantile", DoubleText(q.quantile))], DoubleText(q.value))]
  }

  function BucketEntries(name: string, m: ClientMetric, bs: seq<Bucket>): seq<Entry> {
    if bs == [] then []
    else
      var b := bs[|bs| - 1];
      BucketEntries(name, m, bs[..|bs| - 1])
      + [SampleOf(name, m, "_bucket", [Label("le", DoubleText(b.upperBound))], NatText(b.cumulativeCount))]
  }

  /** The bucket printed last when the histogram itself does not end with an infinite one. */
  function InfEntries(name: string, m: ClientMetric): seq<Entry> {
    var bs := m.histogram.bucket;
    if bs != [] && bs[|bs| - 1].upperBound == PosInf then []
    else [SampleOf(name, m, "_bucket", [Label("le", "+Inf")], NatText(m.histogram.sampleCount))]
  }

  function MetricEntries(name: string, kind: MetricType, m: ClientMetric): seq<Entry> {
    match kind
    case Counter => [SampleOf(name, m, "", [], NumberText(m.counter))]
    case Gauge => [SampleOf(name, m, "", [], NumberText(m.gauge))]
    case Info => [SampleOf(name, m, "_info", [], DoubleText(m.info))]
    case Untyped => [SampleOf(name, m, "", [], DoubleText(m.untyped))]
    case Summary =>
      [SampleOf(name, m, "_count", [], NatText(m.summary.sampleCount)),
       SampleOf(name, m, "_sum", [], DoubleText(m.summary.sampleSum))]
      + QuantileEntries(name, m, m.summary.quantile)
    case Histogram =>
      [SampleOf(name, m, "_count", [], NatText(m.histogram.sampleCount)),
       SampleOf(name, m, "_sum", [], DoubleText(m.histogram.sampleSum))]
      + BucketEntries(name, m, m.histogram.bucket) + InfEntries(name, m)
  }

  function MetricsEntries(name: string, kind: MetricType, ms: seq<ClientMetric>): seq<Entry> {
    if ms == [] then []
    else MetricsEntries(name, kind, ms[..|ms| - 1]) + MetricEntries(name, kind, ms[|ms| - 1])
  }

  function FamilyEntries(f: MetricFamily): seq<Entry> {
    (if f.help != "" then [HelpLine(f.name, f.help)] else [])
    + [TypeLine(f.name, TypeWord(f.kind))]
    + MetricsEntries(f.name, f.kind, f.metric)
  }

  function Entries(fs: seq<MetricFamily>): seq<Entry> {
    if fs == [] then [] else Entries(fs[..|fs| - 1]) + FamilyEntries(fs[|fs| - 1])
  }
}
