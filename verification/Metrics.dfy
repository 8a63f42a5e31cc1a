/** What a scrape hands to the serializer: client_metric.h, metric_family.h and metric_type.h. */
module Metrics {

  datatype MetricType = Counter | Gauge | Summary | Untyped | Histogram | Info

  predicate IsNumberChar(c: char) {
    '0' <= c <= '9' || c == '+' || c == '-' || c == '.' || c == 'e'
  }

  /** The characters the output stream writes for a finite double; how it chooses them is not modelled. */
  type Digits = s: string | s != "" && forall i | 0 <= i < |s| :: IsNumberChar(s[i])
    witness "0"

  datatype Double = NaN | NegInf | PosInf | Finite(digits: Digits)

  datatype Number = Int(i: int) | Dbl(d: Double)

  datatype Label = Label(name: string, value: string)

  datatype QuantileValue = QuantileValue(quantile: Double, value: Double)

  datatype SummaryData = SummaryData(sampleCount: nat, sampleSum: Double, quantile: seq<QuantileValue>)

  datatype Bucket = Bucket(cumulativeCount: nat, upperBound: Double)

  datatype HistogramData = HistogramData(sampleCount: nat, sampleSum: Double, bucket: seq<Bucket>)

  /** As in the source one record holds the data of every metric type; the family's type says which one counts. */
  datatype ClientMetric = ClientMetric(
    labels: seq<Label>,
    counter: Number,
    gauge: Number,
    info: Double,
    summary: SummaryData,
    histogram: HistogramData,
    untyped: Double,
    timestampMs: int)

  datatype MetricFamily = MetricFamily(name: string, help: string, kind: MetricType, metric: seq<ClientMetric>)

  ghost predicate DistinctNames(labels: seq<Label>) {
    forall i, j | 0 <= i < j < |labels| :: labels[i].name != labels[j].name
  }
}
