/** Label sets, and the class Family of core/src/family.cc. */
module Families {
  import opened Wrappers
  import opened Metrics
  import opened CheckNames
  import opened TextProofs

  // ----- label sets ----------------------------------------------------------

  predicate Less(a: string, b: string) {
    b != "" && (a == "" || a[0] < b[0] || (a[0] == b[0] && Less(a[1..], b[1..])))
  }

  ghost predicate KeysIncreasing(ls: seq<Label>) {
    forall i, j | 0 <= i < j < |ls| :: Less(ls[i].name, ls[j].name)
  }

  /** A std::map from names to values: its pairs, in the order of the names. */
  type Labels = ls: seq<Label> | KeysIncreasing(ls) witness []

  lemma {:induction false} LessIrreflexive(a: string)
    ensures !Less(a, a)
  {
    if a == "" {
    } else {
      LessIrreflexive(a[1..]);
    }
  }

  /** a and b are equal before position k, and there a ends or has the smaller character. */
  ghost predicate SmallerAt(a: string, b: string, k: nat) {
    k <= |a| && k < |b| && a[..k] == b[..k] && (k == |a| || a[k] < b[k])
  }

  /** Less is the order of std::string. */
  lemma {:induction false} LessExactly(a: string, b: string)
    ensures Less(a, b) <==> exists k: nat :: SmallerAt(a, b, k)
  {
    if a != "" && b != "" && a[0] == b[0] {
      LessExactly(a[1..], b[1..]);
      if Less(a[1..], b[1..]) {
        var k: nat :| SmallerAt(a[1..], b[1..], k);
        assert a[..k + 1] == [a[0]] + a[1..][..k] && b[..k + 1] == [b[0]] + b[1..][..k];
        assert SmallerAt(a, b, k + 1);
      }
      forall k: nat | SmallerAt(a, b, k) ensures Less(a, b) {
        assert k > 0 && a[1..][..k - 1] == a[..k][1..] && b[1..][..k - 1] == b[..k][1..];
        assert SmallerAt(a[1..], b[1..], k - 1);
      }
    } else if Less(a, b) {
      assert SmallerAt(a, b, 0);
    } else {
      forall k: nat ensures !SmallerAt(a, b, k) {
        assert k > 0 && k <= |a| && k < |b| ==> a[..k][0] == a[0] && b[..k][0] == b[0];
      }
    }
  }

  lemma {:induction false} KeysDistinct(ls: Labels)
    ensures DistinctNames(ls)
  {
    forall i, j | 0 <= i < j < |ls| ensures ls[i].name != ls[j].name {
      LessIrreflexive(ls[i].name);
    }
  }

  /** order holds every member of keys, once. */
  ghost predicate Enumerates(order: seq<Labels>, keys: set<Labels>) {
    |order| == |keys| && forall ls :: ls in order <==> ls in keys
  }

  predicate HasName(ls: seq<Label>, name: string) {
    exists i | 0 <= i < |ls| :: ls[i].name == name
  }

  // ----- kinds and errors ----------------------------------------------------

  /** The types a family is instantiated with. */
  datatype Kind = CounterDouble | CounterInt | GaugeDouble | GaugeInt | HistogramKind | InfoKind | SummaryKind

  function TypeOf(kind: Kind): MetricType {
    match kind
    case CounterDouble => Counter
    case CounterInt => Counter
    case GaugeDouble => Gauge
    case GaugeInt => Gauge
    case HistogramKind => Histogram
    case InfoKind => Info
    case SummaryKind => Summary
  }

  /** The type under which a family is collected. */
  ghost predicate IsTypeOf(t: MetricType, kind: Kind) {
    && (t == Counter <==> kind == CounterDouble || kind == CounterInt)
    && (t == Gauge <==> kind == GaugeDouble || kind == GaugeInt)
    && (t == Histogram <==> kind == HistogramKind)
    && (t == Info <==> kind == InfoKind)
    && (t == Summary <==> kind == SummaryKind)
  }

  lemma {:induction false} TypeOfExactly(t: MetricType, kind: Kind)
    ensures IsTypeOf(t, kind) <==> t == TypeOf(kind)
  {
  }

  /** What the exceptions say. */
  datatype Error =
    | InvalidMetricName | InvalidLabelName | DuplicateLabelName
    | NameHasOtherType | NameHasOtherLabels | NameExists

  // ----- what the checks mean ------------------------------------------------

  ghost predicate NamesChecked(ls: seq<Label>, kind: Kind) {
    forall i | 0 <= i < |ls| :: CheckLabelName(ls[i].name, TypeOf(kind))
  }

  /** The label the printer adds to the lines of a histogram or a summary. */
  predicate Reserved(kind: Kind, name: string) {
    (kind == HistogramKind && name == "le") || (kind == SummaryKind && name == "quantile")
  }

  ghost predicate Accepted(kind: Kind, name: string) {
    IsLabelName(name) && !("__" <= name) && !Reserved(kind, name)
  }

  /** The labels a family accepts, by its kind. */
  lemma {:induction false} AcceptedExactly(kind: Kind, name: string)
    ensures CheckLabelName(name, TypeOf(kind)) <==> Accepted(kind, name)
  {
    LabelNameExactly(name, TypeOf(kind));
    TypeOfExactly(TypeOf(kind), kind);
    hide CheckLabelName, IsLabelName, TypeOf;
  }

  lemma {:induction false} NamesCheckedExactly(ls: seq<Label>, kind: Kind)
    ensures NamesChecked(ls, kind) <==> forall i | 0 <= i < |ls| :: Accepted(kind, ls[i].name)
  {
    hide Accepted, CheckLabelName, TypeOf;
    forall i | 0 <= i < |ls| ensures CheckLabelName(ls[i].name, TypeOf(kind)) <==> Accepted(kind, ls[i].name) {
      AcceptedExactly(kind, ls[i].name);
    }
  }

  ghost predicate NamesDisjoint(ls: seq<Label>, others: seq<Label>) {
    forall i | 0 <= i < |ls| :: !HasName(others, ls[i].name)
  }

  /** The verdict of Add's loop over the labels from position i on: the first offence in label order. */
  function FirstOffence(constant: seq<Label>, ls: seq<Label>, kind: Kind, i: nat): Option<Error>
    requires i <= |ls|
    decreases |ls| - i
  {
    if i == |ls| then None
    else if !CheckLabelName(ls[i].name, TypeOf(kind)) then Some(InvalidLabelName)
    else if HasName(constant, ls[i].name) then Some(DuplicateLabelName)
    else FirstOffence(constant, ls, kind, i + 1)
  }

  lemma {:induction false} NoOffenceExactly(constant: seq<Label>, ls: seq<Label>, kind: Kind, i: nat)
    requires i <= |ls|
    ensures FirstOffence(constant, ls, kind, i).None?
      <==> forall k | i <= k < |ls| :: CheckLabelName(ls[k].name, TypeOf(kind)) && !HasName(constant, ls[k].name)
    decreases |ls| - i
  {
    if i == |ls| {
    } else {
      NoOffenceExactly(constant, ls, kind, i + 1);
    }
  }

  /** Label k is the first that is not accepted or is a constant label; error says which, not accepted coming first. */
  ghost predicate OffendsAt(constant: seq<Label>, ls: seq<Label>, kind: Kind, k: nat, error: Error) {
    && k < |ls|
    && (forall j | 0 <= j < k :: Accepted(kind, ls[j].name) && !HasName(constant, ls[j].name))
    && (error == InvalidLabelName <==> !Accepted(kind, ls[k].name))
    && (error == DuplicateLabelName <==> Accepted(kind, ls[k].name) && HasName(constant, ls[k].name))
    && error in {InvalidLabelName, DuplicateLabelName}
  }

  lemma {:induction false} OffenceFound(constant: seq<Label>, ls: seq<Label>, kind: Kind, i: nat) returns (k: nat)
    requires i <= |ls| && forall j | 0 <= j < i :: Accepted(kind, ls[j].name) && !HasName(constant, ls[j].name)
    ensures match FirstOffence(constant, ls, kind, i)
      case None => forall j | 0 <= j < |ls| :: Accepted(kind, ls[j].name) && !HasName(constant, ls[j].name)
      case Some(e) => OffendsAt(constant, ls, kind, k, e)
    decreases |ls| - i
  {
    hide Accepted, HasName, CheckLabelName, TypeOf;
    k := i;
    if i < |ls| {
      AcceptedExactly(kind, ls[i].name);
      if Accepted(kind, ls[i].name) && !HasName(constant, ls[i].name) {
        k := OffenceFound(constant, ls, kind, i + 1);
      }
    }
  }

  /** Which offence Add reports: that of the first offending label. */
  lemma {:induction false} FirstOffenceExactly(constant: seq<Label>, ls: seq<Label>, kind: Kind, error: Error)
    ensures FirstOffence(constant, ls, kind, 0) == Some(error) <==> exists k :: OffendsAt(constant, ls, kind, k, error)
  {
    var k := OffenceFound(constant, ls, kind, 0);
    hide Accepted, HasName, FirstOffence;
  }

  /** The names the checks accept make a printed line whose label names are valid and pairwise distinct. */
  lemma {:induction false} LineLabels(constant: Labels, ls: Labels, kind: Kind)
    requires NamesChecked(constant, kind) && NamesChecked(ls, kind) && NamesDisjoint(ls, constant)
    ensures ValidLabels(constant + ls) && RoomForExtra(TypeOf(kind), constant + ls)
  {
    var all := constant + ls;
    KeysDistinct(constant);
    KeysDistinct(ls);
    forall k | 0 <= k < |all|
      ensures IsLabelName(all[k].name) && CheckLabelName(all[k].name, TypeOf(kind))
    {
      LabelNameExactly(all[k].name, TypeOf(kind));
    }
    forall i, j | 0 <= i < j < |all| ensures all[i].name != all[j].name {
      if i < |constant| <= j {
        assert !HasName(constant, ls[j - |constant|].name);
      }
    }
    forall k | 0 <= k < |all|
      ensures TypeOf(kind) == Histogram ==> all[k].name != "le"
      ensures TypeOf(kind) == Summary ==> all[k].name != "quantile"
    {
      LabelNameExactly(all[k].name, TypeOf(kind));
    }
  }

  // ----- classes -------------------------------------------------------------

  /** A metric object of any type; Collect reports its current data, without labels. */
  class Metric {
    var data: ClientMetric

    constructor (initial: ClientMetric)
      ensures data == initial
    {
      data := initial;
    }

    function Collect(): ClientMetric
      reads this
    {
      data.(labels := [])
    }
  }

  class Family {
    const kind: Kind
    const name: string
    const help: string
    const constantLabels: Labels
    var metrics: map<Labels, Metric>

    /** What the constructor establishes about the parts that never change. */
    ghost predicate WellNamed() {
      CheckMetricName(name) && NamesChecked(constantLabels, kind)
    }

    ghost predicate Valid()
      reads this
    {
      && WellNamed()
      && (forall ls | ls in metrics :: NamesChecked(ls, kind) && NamesDisjoint(ls, constantLabels))
      && (forall a, b | a in metrics && b in metrics && a != b :: metrics[a] != metrics[b])
    }

    constructor (name: string, help: string, labels: Labels, kind: Kind)
      requires CheckMetricName(name) && NamesChecked(labels, kind)
      ensures Valid() && metrics == map[]
      ensures this.name == name && this.help == help && constantLabels == labels && this.kind == kind
    {
      this.name := name;
      this.help := help;
      this.constantLabels := labels;
      this.kind := kind;
      metrics := map[];
    }

    /** The public constructor, with the exceptions it throws. */
    static method Create(name: string, help: string, labels: Labels, kind: Kind) returns (r: Result<Family, Error>)
      ensures r.Ok? <==> CheckMetricName(name) && NamesChecked(labels, kind)
      ensures r.Err? ==> r.error == if CheckMetricName(name) then InvalidLabelName else InvalidMetricName
      ensures r.Ok? ==>
        var f := r.value;
        && fresh(f) && f.Valid() && f.metrics == map[]
        && f.name == name && f.help == help && f.constantLabels == labels && f.kind == kind
      ensures r.Ok? ==> forall i | 0 <= i < |labels| :: Accepted(kind, labels[i].name)
    {
      NamesCheckedExactly(labels, kind);
      hide Accepted;
      if !CheckMetricName(name) {
        return Err(InvalidMetricName);
      }
      for i := 0 to |labels|
        invariant forall k | 0 <= k < i :: CheckLabelName(labels[k].name, TypeOf(kind))
      {
        if !CheckLabelName(labels[i].name, TypeOf(kind)) {
          return Err(InvalidLabelName);
        }
      }
      var f := new Family(name, help, labels, kind);
      return Ok(f);
    }

    /** made is the metric object constructed for this call; the family takes it over or drops it. */
    method Add(labels: Labels, made: Metric) returns (r: Result<Metric, Error>)
      requires Valid() && forall ls | ls in metrics :: metrics[ls] != made
      modifies this
      ensures Valid()
      ensures labels in old(metrics) ==> r == Ok(old(metrics)[labels]) && metrics == old(metrics)
      ensures labels !in old(metrics) ==>
        match FirstOffence(constantLabels, labels, kind, 0)
        case None => r == Ok(made) && metrics == old(metrics)[labels := made]
        case Some(e) => r == Err(e) && metrics == old(metrics)
      ensures r.Ok? && labels !in old(metrics) ==> forall i | 0 <= i < |labels| :: Accepted(kind, labels[i].name)
    {
      NamesCheckedExactly(labels, kind);
      hide Accepted;
      var inserted := labels !in metrics;
      if inserted {
        metrics := metrics[labels := made];
        // the checks come after the insertion, which is taken back if one fails
        for i := 0 to |labels|
          invariant metrics == old(metrics)[labels := made]
          invariant FirstOffence(constantLabels, labels, kind, i) == FirstOffence(constantLabels, labels, kind, 0)
        {
          if !CheckLabelName(labels[i].name, TypeOf(kind)) {
            metrics := metrics - {labels};
            assert metrics == old(metrics);
            return Err(InvalidLabelName);
          }
          if HasName(constantLabels, labels[i].name) {
            metrics := metrics - {labels};
            assert metrics == old(metrics);
            return Err(DuplicateLabelName);
          }
        }
        NoOffenceExactly(constantLabels, labels, kind, 0);
      }
      return Ok(metrics[labels]);
    }

    /** The loop of Remove: a walk of the map up to the given metric. */
    method Find(metric: Metric?) returns (found: Option<Labels>)
      ensures match found
        case None => forall ls | ls in metrics :: metrics[ls] != metric
        case Some(ls) => ls in metrics && metrics[ls] == metric
    {
      var rest := metrics.Keys;
      while rest != {}
        invariant rest <= metrics.Keys
        invariant forall ls | ls in metrics && ls !in rest :: metrics[ls] != metric
        decreases |rest|
      {
        var ls :| ls in rest;
        if metrics[ls] == metric {
          return Some(ls);
        }
        rest := rest - {ls};
      }
      return None;
    }

    /** Forgets the given metric; an unknown one, or null, is ignored. */
    method Remove(metric: Metric?)
      requires Valid()
      modifies this
      ensures Valid()
      ensures metrics == map ls | ls in old(metrics) && old(metrics)[ls] != metric :: old(metrics)[ls]
    {
      var found := Find(metric);
      if found.Some? {
        metrics := metrics - {found.value};
      }
    }

    /** collected holds the labelled data of the metrics under the label sets in order, each of them once. */
    ghost predicate Walks(order: seq<Labels>, collected: seq<ClientMetric>)
      reads this, metrics.Values
    {
      && Enumerates(order, metrics.Keys) && |collected| == |order|
      && forall i | 0 <= i < |order| ::
           order[i] in metrics && collected[i] == metrics[order[i]].data.(labels := constantLabels + order[i])
    }

    /** The collected data of one metric, labelled with the constant labels and then its own. */
    method CollectMetric(labels: Labels, metric: Metric) returns (collected: ClientMetric)
      ensures collected == metric.data.(labels := constantLabels + labels)
    {
      collected := metric.Collect();
      for i := 0 to |constantLabels|
        invariant collected == metric.data.(labels := constantLabels[..i])
      {
        collected := collected.(labels := collected.labels + [Label(constantLabels[i].name, constantLabels[i].value)]);
      }
      assert constantLabels[..|constantLabels|] == constantLabels;
      for i := 0 to |labels|
        invariant collected == metric.data.(labels := constantLabels + labels[..i])
      {
        collected := collected.(labels := collected.labels + [Label(labels[i].name, labels[i].value)]);
        assert constantLabels + labels[..i] + [labels[i]] == constantLabels + labels[..i + 1];
      }
      assert labels[..|labels|] == labels;
    }

    /** The loop of Collect; order lists the label sets as the unordered map happened to be walked. */
    method CollectMetrics() returns (collected: seq<ClientMetric>, ghost order: seq<Labels>)
      ensures Walks(order, collected)
    {
      collected, order := [], [];
      var rest := metrics.Keys;
      while rest != {}
        invariant rest <= metrics.Keys && |order| == |metrics.Keys| - |rest| && |collected| == |order|
        invariant forall ls :: ls in order <==> ls in metrics.Keys && ls !in rest
        invariant forall i | 0 <= i < |order| ::
            order[i] in metrics && collected[i] == metrics[order[i]].data.(labels := constantLabels + order[i])
        decreases |rest|
      {
        var ls :| ls in rest;
        var m := CollectMetric(ls, metrics[ls]);
        collected := collected + [m];
        order := order + [ls];
        rest := rest - {ls};
      }
    }

    method Collect() returns (results: seq<MetricFamily>, ghost order: seq<Labels>)
      requires Valid()
      ensures |results| == if metrics == map[] then 0 else 1
      ensures metrics != map[] ==>
        var f := results[0];
        && f.name == name && f.help == help && f.kind == TypeOf(kind) && Walks(order, f.metric)
        && IsTypeOf(f.kind, kind)
        && PrintableFamily(f) && DistinctFamily(f)
    {
      if metrics == map[] {
        return [], [];
      }
      var collected;
      collected, order := CollectMetrics();
      MetricNameExactly(name);
      forall i | 0 <= i < |collected|
        ensures ValidLabels(collected[i].labels) && RoomForExtra(TypeOf(kind), collected[i].labels)
      {
        LineLabels(constantLabels, order[i], kind);
      }
      TypeOfExactly(TypeOf(kind), kind);
      results := [MetricFamily(name, help, TypeOf(kind), collected)];
    }
  }
}
