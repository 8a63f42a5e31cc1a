/** The class Registry of core/src/registry.cc; every method is one step under its mutex. */
module Registries {
  import opened Wrappers
  import opened Metrics
  import opened CheckNames
  import opened TextProofs
  import opened Families

  datatype InsertBehavior = Merge | Throw

  ghost predicate HasFamily(fs: seq<Family>, name: string) {
    exists i | 0 <= i < |fs| :: fs[i].name == name
  }

  /** std::find_if over one list of families. */
  function FindFamily(fs: seq<Family>, name: string): (i: nat)
    ensures i <= |fs|
    ensures forall j | 0 <= j < i :: fs[j].name != name
    ensures i < |fs| ==> fs[i].name == name
  {
    if fs == [] || fs[0].name == name then 0 else 1 + FindFamily(fs[1..], name)
  }

  /** The variadic search through several lists. */
  predicate FamilyNameExists(name: string, lists: seq<seq<Family>>) {
    if lists == [] then false
    else
      var exists_ := FindFamily(lists[0], name) != |lists[0]|;
      exists_ || FamilyNameExists(name, lists[1..])
  }

  lemma {:induction false} FamilyNameExistsExactly(name: string, lists: seq<seq<Family>>)
    ensures FamilyNameExists(name, lists) <==> exists i | 0 <= i < |lists| :: HasFamily(lists[i], name)
  {
    if lists == [] {
    } else {
      FamilyNameExistsExactly(name, lists[1..]);
      assert forall i | 0 < i < |lists| :: lists[i] == lists[1..][i - 1];
    }
  }

  /** The seven lists, one for each type a family can be instantiated with. */
  datatype Lists = Lists(
    countersDouble: seq<Family>,
    countersInt: seq<Family>,
    gaugesDouble: seq<Family>,
    gaugesInt: seq<Family>,
    histograms: seq<Family>,
    infos: seq<Family>,
    summaries: seq<Family>)
  {
    /** GetFamilies<T>. */
    function Of(kind: Kind): seq<Family> {
      match kind
      case CounterDouble => countersDouble
      case CounterInt => countersInt
      case GaugeDouble => gaugesDouble
      case GaugeInt => gaugesInt
      case HistogramKind => histograms
      case InfoKind => infos
      case SummaryKind => summaries
    }

    function With(kind: Kind, fs: seq<Family>): Lists {
      match kind
      case CounterDouble => this.(countersDouble := fs)
      case CounterInt => this.(countersInt := fs)
      case GaugeDouble => this.(gaugesDouble := fs)
      case GaugeInt => this.(gaugesInt := fs)
      case HistogramKind => this.(histograms := fs)
      case InfoKind => this.(infos := fs)
      case SummaryKind => this.(summaries := fs)
    }

    /** All families, in the order Collect visits them. */
    function All(): seq<Family> {
      countersDouble + countersInt + gaugesDouble + gaugesInt + histograms + infos + summaries
    }

    /** The lists each of the seven specialisations of NameExistsInOtherType names. */
    function Others(kind: Kind): seq<seq<Family>> {
      match kind
      case CounterDouble => [countersInt, gaugesDouble, gaugesInt, histograms, infos, summaries]
      case CounterInt => [countersDouble, gaugesDouble, gaugesInt, histograms, infos, summaries]
      case GaugeDouble => [countersDouble, countersInt, gaugesInt, histograms, infos, summaries]
      case GaugeInt => [countersDouble, countersInt, gaugesDouble, histograms, infos, summaries]
      case HistogramKind => [countersDouble, countersInt, gaugesDouble, gaugesInt, infos, summaries]
      case InfoKind => [countersDouble, countersInt, gaugesDouble, gaugesInt, histograms, summaries]
      case SummaryKind => [countersDouble, countersInt, gaugesDouble, gaugesInt, histograms, infos]
    }

    predicate NameExistsInOtherType(kind: Kind, name: string) {
      FamilyNameExists(name, Others(kind))
    }

    /** All family names are valid and distinct across all lists, and every family is in the list of its kind. */
    ghost predicate Consistent() {
      && (forall k: Kind :: ListOk(k, Of(k)))
      && (forall k: Kind, k': Kind | k != k' :: Apart(Of(k), Of(k')))
    }
  }

  ghost predicate ListOk(k: Kind, fs: seq<Family>) {
    && (forall i | 0 <= i < |fs| :: fs[i].kind == k && fs[i].WellNamed())
    && (forall i, j | 0 <= i < j < |fs| :: fs[i].name != fs[j].name)
  }

  ghost predicate Apart(a: seq<Family>, b: seq<Family>) {
    forall i, j | 0 <= i < |a| && 0 <= j < |b| :: a[i].name != b[j].name
  }

  lemma {:induction false} OthersSkipOwn(lists: Lists, kind: Kind, i: nat)
    requires i < 6
    ensures |lists.Others(kind)| == 6
    ensures lists.Others(kind)[i] == lists.Of(KindAt(if i < Position(kind) then i else i + 1))
  {
  }

  /** Each specialisation looks at every list but its own. */
  lemma {:induction false} OtherTypeExactly(lists: Lists, kind: Kind, name: string)
    ensures lists.NameExistsInOtherType(kind, name) <==> exists k: Kind :: k != kind && HasFamily(lists.Of(k), name)
  {
    var others := lists.Others(kind);
    OthersSkipOwn(lists, kind, 0);
    FamilyNameExistsExactly(name, others);
    if lists.NameExistsInOtherType(kind, name) {
      var i :| 0 <= i < |others| && HasFamily(others[i], name);
      OthersSkipOwn(lists, kind, i);
      assert HasFamily(lists.Of(KindAt(if i < Position(kind) then i else i + 1)), name);
    }
    forall k: Kind | k != kind && HasFamily(lists.Of(k), name) ensures lists.NameExistsInOtherType(kind, name) {
      PositionsDiffer(k, kind);
      var i := if Position(k) < Position(kind) then Position(k) else Position(k) - 1;
      OthersSkipOwn(lists, kind, i);
      assert HasFamily(others[i], name);
    }
  }

  lemma {:induction false} PositionsDiffer(k: Kind, kind: Kind)
    ensures KindAt(Position(k)) == k
    ensures k != kind ==> Position(k) != Position(kind)
  {
  }

  function Position(kind: Kind): (i: nat)
    ensures i < 7
  {
    match kind
    case CounterDouble => 0
    case CounterInt => 1
    case GaugeDouble => 2
    case GaugeInt => 3
    case HistogramKind => 4
    case InfoKind => 5
    case SummaryKind => 6
  }

  function KindAt(i: nat): (k: Kind)
    requires i < 7
    ensures Position(k) == i
  {
    [CounterDouble, CounterInt, GaugeDouble, GaugeInt, HistogramKind, InfoKind, SummaryKind][i]
  }

  /** The kinds of the families never go back in the order of the types, and stay between two of them. */
  ghost predicate InTypeOrder(fs: seq<Family>, low: nat, high: nat) {
    && (forall i | 0 <= i < |fs| :: low <= Position(fs[i].kind) < high)
    && (forall i, j | 0 <= i < j < |fs| :: Position(fs[i].kind) <= Position(fs[j].kind))
  }

  lemma {:induction false} OrderedParts(a: seq<Family>, b: seq<Family>, low: nat, mid: nat, high: nat)
    requires low <= mid <= high && InTypeOrder(a, low, mid) && InTypeOrder(b, mid, high)
    ensures InTypeOrder(a + b, low, high)
  {
    hide Position;
    forall i | 0 <= i < |a + b| ensures (a + b)[i] == if i < |a| then a[i] else b[i - |a|] {
    }
  }

  lemma {:induction false} OneType(lists: Lists, k: Kind)
    requires lists.Consistent()
    ensures InTypeOrder(lists.Of(k), Position(k), Position(k) + 1)
  {
    assert ListOk(k, lists.Of(k));
    hide Position, Lists.Of;
  }

  /** All families of the registry, and no other, type by type. */
  lemma {:induction false} AllInOrder(lists: Lists)
    requires lists.Consistent()
    ensures InTypeOrder(lists.All(), 0, 7)
    ensures forall k: Kind, f | f in lists.Of(k) :: f in lists.All()
    ensures forall f | f in lists.All() :: f in lists.Of(f.kind)
  {
    TypesInOrder(lists);
    AllMembers(lists);
    forall f | f in lists.All() ensures f in lists.Of(f.kind) {
      var k: Kind :| f in lists.Of(k);
      assert ListOk(k, lists.Of(k));
    }
  }

  lemma {:induction false} TypesInOrder(lists: Lists)
    requires lists.Consistent()
    ensures InTypeOrder(lists.All(), 0, 7)
  {
    forall k: Kind ensures InTypeOrder(lists.Of(k), Position(k), Position(k) + 1) {
      OneType(lists, k);
    }
    assert lists.Of(CounterDouble) == lists.countersDouble && lists.Of(CounterInt) == lists.countersInt;
    assert lists.Of(GaugeDouble) == lists.gaugesDouble && lists.Of(GaugeInt) == lists.gaugesInt;
    assert lists.Of(HistogramKind) == lists.histograms && lists.Of(InfoKind) == lists.infos;
    assert lists.Of(SummaryKind) == lists.summaries;
    hide InTypeOrder, Lists.Consistent, Lists.Of;
    var two := lists.countersDouble + lists.countersInt;
    var three := two + lists.gaugesDouble;
    var four := three + lists.gaugesInt;
    var five := four + lists.histograms;
    OrderedParts(lists.countersDouble, lists.countersInt, 0, 1, 2);
    OrderedParts(two, lists.gaugesDouble, 0, 2, 3);
    OrderedParts(three, lists.gaugesInt, 0, 3, 4);
    OrderedParts(four, lists.histograms, 0, 4, 5);
    OrderedParts(five, lists.infos, 0, 5, 6);
    OrderedParts(five + lists.infos, lists.summaries, 0, 6, 7);
  }

  lemma {:induction false} AllMembers(lists: Lists)
    ensures forall k: Kind, f | f in lists.Of(k) :: f in lists.All()
    ensures forall f | f in lists.All() :: exists k: Kind :: f in lists.Of(k)
  {
    assert lists.Of(CounterDouble) == lists.countersDouble && lists.Of(CounterInt) == lists.countersInt;
    assert lists.Of(GaugeDouble) == lists.gaugesDouble && lists.Of(GaugeInt) == lists.gaugesInt;
    assert lists.Of(HistogramKind) == lists.histograms && lists.Of(InfoKind) == lists.infos;
    assert lists.Of(SummaryKind) == lists.summaries;
  }

  lemma {:induction false} OfWith(lists: Lists, kind: Kind, fs: seq<Family>, k: Kind)
    ensures lists.With(kind, fs).Of(k) == if k == kind then fs else lists.Of(k)
  {
  }

  /** Replacing the list of one kind keeps the lists consistent if the new list is, by itself and towards the others. */
  lemma {:induction false} WithConsistent(lists: Lists, kind: Kind, fs: seq<Family>)
    requires lists.Consistent() && ListOk(kind, fs)
    requires forall k: Kind | k != kind :: Apart(fs, lists.Of(k))
    ensures lists.With(kind, fs).Consistent()
  {
    var after := lists.With(kind, fs);
    forall k: Kind ensures ListOk(k, after.Of(k)) {
      OfWith(lists, kind, fs, k);
    }
    forall k: Kind, k': Kind | k != k' ensures Apart(after.Of(k), after.Of(k')) {
      OfWith(lists, kind, fs, k);
      OfWith(lists, kind, fs, k');
      if k == kind {
        assert Apart(fs, lists.Of(k'));
      } else if k' == kind {
        assert Apart(fs, lists.Of(k));
      } else {
        assert Apart(lists.Of(k), lists.Of(k'));
      }
    }
  }

  lemma {:induction false} AppendApart(a: seq<Family>, f: Family, b: seq<Family>)
    requires Apart(a, b) && !HasFamily(b, f.name)
    ensures Apart(a + [f], b)
  {
  }

  lemma {:induction false} AppendConsistent(lists: Lists, kind: Kind, f: Family)
    requires lists.Consistent() && f.kind == kind && f.WellNamed()
    requires forall k: Kind :: !HasFamily(lists.Of(k), f.name)
    ensures lists.With(kind, lists.Of(kind) + [f]).Consistent()
  {
    assert ListOk(kind, lists.Of(kind) + [f]) by {
      assert ListOk(kind, lists.Of(kind)) && !HasFamily(lists.Of(kind), f.name);
    }
    forall k: Kind | k != kind ensures Apart(lists.Of(kind) + [f], lists.Of(k)) {
      assert Apart(lists.Of(kind), lists.Of(k)) && !HasFamily(lists.Of(k), f.name);
      AppendApart(lists.Of(kind), f, lists.Of(k));
    }
    WithConsistent(lists, kind, lists.Of(kind) + [f]);
  }

  lemma {:induction false} WithoutOne(k: Kind, fs: seq<Family>, n: nat, b: seq<Family>)
    requires n < |fs|
    ensures ListOk(k, fs) ==> ListOk(k, fs[..n] + fs[n + 1..])
    ensures Apart(fs, b) ==> Apart(fs[..n] + fs[n + 1..], b)
  {
    var rest := fs[..n] + fs[n + 1..];
    assert forall i | 0 <= i < |rest| :: rest[i] == fs[if i < n then i else i + 1];
  }

  lemma {:induction false} RemoveConsistent(lists: Lists, kind: Kind, n: nat)
    requires lists.Consistent() && n < |lists.Of(kind)|
    ensures lists.With(kind, lists.Of(kind)[..n] + lists.Of(kind)[n + 1..]).Consistent()
  {
    var fs := lists.Of(kind);
    var rest := fs[..n] + fs[n + 1..];
    WithoutOne(kind, fs, n, []);
    forall k: Kind | k != kind ensures Apart(rest, lists.Of(k)) {
      assert Apart(fs, lists.Of(k));
      WithoutOne(kind, fs, n, lists.Of(k));
    }
    WithConsistent(lists, kind, rest);
  }

  /** The families that have metrics, in the order they are collected; the others are left out. */
  ghost function Populated(fs: seq<Family>): seq<Family>
    reads fs
  {
    if fs == [] then []
    else Populated(fs[..|fs| - 1]) + if fs[|fs| - 1].metrics == map[] then [] else [fs[|fs| - 1]]
  }

  lemma {:induction false} PopulatedConcat(a: seq<Family>, b: seq<Family>)
    ensures Populated(a + b) == Populated(a) + Populated(b)
  {
    if b == [] {
      assert a + b == a;
    } else {
      PopulatedConcat(a, b[..|b| - 1]);
      assert (a + b)[..|a + b| - 1] == a + b[..|b| - 1];
    }
  }

  /** p holds the families of fs that have metrics, at the positions at, in order. */
  ghost predicate Picks(p: seq<Family>, fs: seq<Family>, at: seq<nat>)
    reads fs
  {
    && |at| == |p| && (forall i, j | 0 <= i < j < |at| :: at[i] < at[j])
    && (forall i | 0 <= i < |at| :: at[i] < |fs| && p[i] == fs[at[i]] && fs[at[i]].metrics != map[])
    && (forall j | 0 <= j < |fs| && fs[j].metrics != map[] :: j in at)
  }

  lemma {:induction false} PicksMore(p: seq<Family>, fs: seq<Family>, at: seq<nat>, f: Family)
    requires Picks(p, fs, at)
    ensures f.metrics == map[] ==> Picks(p, fs + [f], at)
    ensures f.metrics != map[] ==> Picks(p + [f], fs + [f], at + [|fs|])
  {
    var all := fs + [f];
    assert forall i | 0 <= i < |fs| :: all[i] == fs[i];
    assert forall j | j in at :: j in at + [|fs|];
  }

  /** What a scrape leaves out is exactly the families without metrics; the others keep their order. */
  lemma {:induction false} PopulatedExactly(fs: seq<Family>) returns (at: seq<nat>)
    ensures Picks(Populated(fs), fs, at)
  {
    if fs == [] {
      at := [];
    } else {
      var init, f := fs[..|fs| - 1], fs[|fs| - 1];
      at := PopulatedExactly(init);
      hide Picks;
      PicksMore(Populated(init), init, at, f);
      assert init + [f] == fs && Populated(init) + [] == Populated(init);
      at := if f.metrics == map[] then at else at + [|init|];
    }
  }

  lemma {:induction false} PopulatedNext(reported: seq<Family>, fs: seq<Family>, i: nat)
    requires i < |fs|
    ensures reported + Populated(fs[..i + 1]) == reported + Populated(fs[..i]) + Populated([fs[i]])
  {
    hide Populated;
    assert fs[..i + 1] == fs[..i] + [fs[i]];
    PopulatedConcat(fs[..i], [fs[i]]);
  }

  /** The metric objects of the families fs. */
  ghost function MetricsOf(fs: seq<Family>): set<Metric>
    reads fs
  {
    set f, m | f in fs && m in f.metrics.Values :: m
  }

  /** results reports the families fs one by one, with lines the text format can carry. */
  ghost predicate Reports(results: seq<MetricFamily>, fs: seq<Family>)
    reads fs, MetricsOf(fs)
  {
    |results| == |fs| && forall i | 0 <= i < |fs| :: ReportsOne(results[i], fs[i])
  }

  /** r holds the current data of every metric of f once, under the constant labels and then its own. */
  ghost predicate ReportsOne(r: MetricFamily, f: Family)
    reads f, f.metrics.Values
  {
    && r.name == f.name && r.help == f.help && r.kind == TypeOf(f.kind) && IsTypeOf(r.kind, f.kind)
    && PrintableFamily(r) && DistinctFamily(r)
    && exists order :: f.Walks(order, r.metric)
  }

  lemma {:induction false} ReportsConcat(r: seq<MetricFamily>, fs: seq<Family>, r': seq<MetricFamily>, fs': seq<Family>)
    requires Reports(r, fs) && Reports(r', fs')
    ensures Reports(r + r', fs + fs')
  {
    hide ReportsOne;
    var all, allFs := r + r', fs + fs';
    forall i | 0 <= i < |allFs| ensures ReportsOne(all[i], allFs[i]) {
      if i < |fs| {
        assert all[i] == r[i] && allFs[i] == fs[i] && ReportsOne(r[i], fs[i]);
      } else {
        assert all[i] == r'[i - |r|] && allFs[i] == fs'[i - |fs|] && ReportsOne(r'[i - |r|], fs'[i - |fs|]);
      }
    }
  }

  lemma {:induction false} NothingReported()
    ensures Reports([], [])
  {
  }

  ghost predicate AllValid(fs: seq<Family>)
    reads fs
  {
    forall i | 0 <= i < |fs| :: fs[i].Valid()
  }

  lemma {:induction false} WithMembers(lists: Lists, kind: Kind, fs: seq<Family>)
    ensures forall f | f in lists.With(kind, fs).All() :: f in fs || f in lists.All()
    ensures forall f | f in lists.Of(kind) :: f in lists.All()
  {
  }

  lemma {:induction false} ValidParts(a: seq<Family>, b: seq<Family>)
    requires AllValid(a + b)
    ensures AllValid(a) && AllValid(b)
  {
    assert forall i | 0 <= i < |a| :: a[i] == (a + b)[i];
    assert forall i | 0 <= i < |b| :: b[i] == (a + b)[|a| + i];
  }

  lemma {:induction false} ListsValid(lists: Lists)
    requires AllValid(lists.All())
    ensures AllValid(lists.countersDouble) && AllValid(lists.countersInt)
    ensures AllValid(lists.gaugesDouble) && AllValid(lists.gaugesInt)
    ensures AllValid(lists.histograms) && AllValid(lists.infos) && AllValid(lists.summaries)
  {
    hide AllValid;
    var two := lists.countersDouble + lists.countersInt;
    var three := two + lists.gaugesDouble;
    var four := three + lists.gaugesInt;
    var five := four + lists.histograms;
    ValidParts(five + lists.infos, lists.summaries);
    ValidParts(five, lists.infos);
    ValidParts(four, lists.histograms);
    ValidParts(three, lists.gaugesInt);
    ValidParts(two, lists.gaugesDouble);
    ValidParts(lists.countersDouble, lists.countersInt);
  }

  lemma {:induction false} PopulatedAll(lists: Lists)
    ensures Populated(lists.All())
      == Populated(lists.countersDouble) + Populated(lists.countersInt)
         + Populated(lists.gaugesDouble) + Populated(lists.gaugesInt)
         + Populated(lists.histograms) + Populated(lists.infos) + Populated(lists.summaries)
  {
    hide Populated;
    var two := lists.countersDouble + lists.countersInt;
    var three := two + lists.gaugesDouble;
    var four := three + lists.gaugesInt;
    var five := four + lists.histograms;
    PopulatedConcat(lists.countersDouble, lists.countersInt);
    PopulatedConcat(two, lists.gaugesDouble);
    PopulatedConcat(three, lists.gaugesInt);
    PopulatedConcat(four, lists.histograms);
    PopulatedConcat(five, lists.infos);
    PopulatedConcat(five + lists.infos, lists.summaries);
  }

  lemma {:induction false} PopulatedOne(f: Family)
    ensures Populated([f]) == if f.metrics == map[] then [] else [f]
  {
    assert [f][..0] == [];
    assert Populated([]) == [];
  }

  /** What a valid family does to itself, adding or removing metrics, leaves the registry's families valid. */
  twostate lemma {:induction false} FamilyKeeps(r: Registry, f: Family)
    requires old(r.FamiliesValid()) && f.Valid() && unchanged(r)
    requires forall g | g in r.lists.All() && g != f :: unchanged(g)
    ensures r.FamiliesValid()
  {
    var fs := r.lists.All();
    assert old(AllValid(fs));
    forall i | 0 <= i < |fs| ensures fs[i].Valid() {
      assert old(fs[i].Valid());
      assert fs[i] in r.lists.All();
    }
  }

  class Registry {
    const insertBehavior: InsertBehavior
    var lists: Lists

    ghost predicate Valid()
      reads this
    {
      lists.Consistent()
    }

    constructor (behavior: InsertBehavior := Merge)
      ensures Valid() && insertBehavior == behavior && lists == Lists([], [], [], [], [], [], [])
      ensures FamiliesValid()
    {
      insertBehavior := behavior;
      lists := Lists([], [], [], [], [], [], []);
    }

    /** A failing call, and one that merges, changes nothing. */
    method Add(kind: Kind, name: string, help: string, labels: Labels) returns (r: Result<Family, Error>)
      requires Valid()
      modifies this
      ensures Valid()
      ensures (exists k: Kind :: k != kind && HasFamily(old(lists).Of(k), name)) ==> r == Err(NameHasOtherType)
      ensures !(exists k: Kind :: k != kind && HasFamily(old(lists).Of(k), name)) ==>
        var fs := old(lists).Of(kind);
        var i := FindFamily(fs, name);
        if i < |fs| then
          r == (if insertBehavior == Throw then Err(NameExists)
                else if fs[i].constantLabels == labels then Ok(fs[i]) else Err(NameHasOtherLabels))
        else if !CheckMetricName(name) then r == Err(InvalidMetricName)
        else if !NamesChecked(labels, kind) then r == Err(InvalidLabelName)
        else
          && r.Ok? && fresh(r.value) && r.value.Valid() && r.value.metrics == map[]
          && r.value.name == name && r.value.help == help && r.value.constantLabels == labels && r.value.kind == kind
          && lists == old(lists).With(kind, fs + [r.value])
      ensures r.Err? || !fresh(r.value) ==> lists == old(lists)
      ensures old(FamiliesValid()) ==> FamiliesValid()
    {
      OtherTypeExactly(lists, kind, name);
      if lists.NameExistsInOtherType(kind, name) {
        return Err(NameHasOtherType);
      }

      var families := lists.Of(kind);
      var i := FindFamily(families, name);
      if i != |families| {
        if insertBehavior == Merge {
          if families[i].constantLabels == labels {
            return Ok(families[i]);
          }
          return Err(NameHasOtherLabels);
        } else {
          return Err(NameExists);
        }
      }

      forall k: Kind ensures !HasFamily(lists.Of(k), name) {
      }
      r := AddNew(kind, name, help, labels);
    }

    /** The part of Add that constructs a family with a new name. */
    method AddNew(kind: Kind, name: string, help: string, labels: Labels) returns (r: Result<Family, Error>)
      requires Valid() && forall k: Kind :: !HasFamily(lists.Of(k), name)
      modifies this
      ensures Valid()
      ensures !CheckMetricName(name) ==> r == Err(InvalidMetricName)
      ensures CheckMetricName(name) && !NamesChecked(labels, kind) ==> r == Err(InvalidLabelName)
      ensures CheckMetricName(name) && NamesChecked(labels, kind) ==>
        && r.Ok? && fresh(r.value) && r.value.Valid() && r.value.metrics == map[]
        && r.value.name == name && r.value.help == help && r.value.constantLabels == labels && r.value.kind == kind
        && lists == old(lists).With(kind, old(lists).Of(kind) + [r.value])
      ensures r.Err? ==> lists == old(lists)
      ensures old(FamiliesValid()) ==> FamiliesValid()
    {
      hide AllValid, Lists.Consistent, Lists.With, HasFamily, CheckMetricName, NamesChecked;
      r := Family.Create(name, help, labels, kind);
      if r.Ok? {
        Append(kind, r.value);
      }
    }

    /** The new family joins the list of its type. */
    method Append(kind: Kind, family: Family)
      requires Valid() && forall k: Kind :: !HasFamily(lists.Of(k), family.name)
      requires family.Valid() && family.kind == kind
      modifies this
      ensures Valid() && lists == old(lists).With(kind, old(lists).Of(kind) + [family])
      ensures old(FamiliesValid()) ==> FamiliesValid()
    {
      AppendConsistent(lists, kind, family);
      hide Lists.Consistent, FamiliesValid, Lists.With, Lists.Of, HasFamily, Families.Family.Valid;
      Replace(kind, lists.Of(kind) + [family]);
    }

    /** A list gets new contents: families it had, or others that are valid. */
    method Replace(kind: Kind, families: seq<Family>)
      modifies this
      ensures lists == old(lists).With(kind, families)
      ensures old(FamiliesValid()) && (forall f | f in families :: f in old(lists).Of(kind) || f.Valid())
        ==> FamiliesValid()
    {
      WithMembers(lists, kind, families);
      hide Lists.All, Family.Valid;
      ghost var before := lists.All();
      lists := lists.With(kind, families);
    }

    /** The family is looked for by identity, in the list of its own type. */
    method Remove(family: Family) returns (found: bool)
      requires Valid()
      modifies this
      ensures Valid()
      ensures found <==> family in old(lists).Of(family.kind)
      ensures !found ==> lists == old(lists)
      ensures found ==>
        var fs := old(lists).Of(family.kind);
        exists n | 0 <= n < |fs| ::
          fs[n] == family && lists == old(lists).With(family.kind, fs[..n] + fs[n + 1..])
      ensures old(FamiliesValid()) ==> FamiliesValid()
    {
      var families := lists.Of(family.kind);
      var n := 0;
      while n < |families| && families[n] != family
        invariant n <= |families| && family !in families[..n]
      {
        n := n + 1;
      }
      if n == |families| {
        assert families[..n] == families;
        return false;
      }
      RemoveConsistent(lists, family.kind, n);
      Replace(family.kind, families[..n] + families[n + 1..]);
      return true;
    }

    ghost predicate FamiliesValid()
      reads this, lists.All()
    {
      AllValid(lists.All())
    }

    /** Every family with metrics is reported once, in type order. */
    method Collect() returns (results: seq<MetricFamily>, ghost reported: seq<Family>)
      requires Valid() && FamiliesValid()
      ensures reported == Populated(lists.All()) && Reports(results, reported)
    {
      ListsValid(lists);
      hide *;
      results, reported := CollectLists();
      PopulatedAll(lists);
    }

    /** Collect, list by list. */
    method CollectLists() returns (results: seq<MetricFamily>, ghost reported: seq<Family>)
      requires AllValid(lists.countersDouble) && AllValid(lists.countersInt)
      requires AllValid(lists.gaugesDouble) && AllValid(lists.gaugesInt)
      requires AllValid(lists.histograms) && AllValid(lists.infos) && AllValid(lists.summaries)
      ensures Reports(results, reported)
      ensures reported == Populated(lists.countersDouble) + Populated(lists.countersInt)
                          + Populated(lists.gaugesDouble) + Populated(lists.gaugesInt)
                          + Populated(lists.histograms) + Populated(lists.infos) + Populated(lists.summaries)
    {
      hide *;
      results, reported := CollectNumbers();
      results, reported := CollectOthers(results, reported);
    }

    /** The last three lists of Collect. */
    method CollectOthers(results: seq<MetricFamily>, ghost reported: seq<Family>)
      returns (results': seq<MetricFamily>, ghost reported': seq<Family>)
      requires AllValid(lists.histograms) && AllValid(lists.infos) && AllValid(lists.summaries)
      requires Reports(results, reported)
      ensures Reports(results', reported')
      ensures reported' == reported + Populated(lists.histograms) + Populated(lists.infos) + Populated(lists.summaries)
    {
      hide *;
      results', reported' := CollectAll(results, lists.histograms, reported);
      results', reported' := CollectAll(results', lists.infos, reported');
      results', reported' := CollectAll(results', lists.summaries, reported');
    }

    /** The first four lists of Collect. */
    method CollectNumbers() returns (results: seq<MetricFamily>, ghost reported: seq<Family>)
      requires AllValid(lists.countersDouble) && AllValid(lists.countersInt)
      requires AllValid(lists.gaugesDouble) && AllValid(lists.gaugesInt)
      ensures Reports(results, reported)
      ensures reported == Populated(lists.countersDouble) + Populated(lists.countersInt)
                          + Populated(lists.gaugesDouble) + Populated(lists.gaugesInt)
    {
      hide Reports, Populated, AllValid;
      NothingReported();
      results, reported := CollectAll([], lists.countersDouble, []);
      assert reported == Populated(lists.countersDouble);
      results, reported := CollectAll(results, lists.countersInt, reported);
      results, reported := CollectAll(results, lists.gaugesDouble, reported);
      results, reported := CollectAll(results, lists.gaugesInt, reported);
    }

    /** Appends the reports of one list; reported lists the families reported so far. */
    static method CollectAll(results: seq<MetricFamily>, families: seq<Family>, ghost reported: seq<Family>)
      returns (results': seq<MetricFamily>, ghost reported': seq<Family>)
      requires AllValid(families) && Reports(results, reported)
      ensures reported' == reported + Populated(families) && Reports(results', reported')
    {
      hide ReportsOne, Families.Family.Valid;
      results', reported' := results, reported;
      assert families[..0] == [] && reported + [] == reported;
      for i := 0 to |families|
        invariant reported' == reported + Populated(families[..i]) && Reports(results', reported')
      {
        results' := CollectNext(results', reported', families[i]);
        PopulatedNext(reported, families, i);
        reported' := reported' + Populated([families[i]]);
      }
      assert families[..|families|] == families;
    }

    static method CollectNext(results: seq<MetricFamily>, ghost reported: seq<Family>, family: Family)
      returns (results': seq<MetricFamily>)
      requires family.Valid() && Reports(results, reported)
      ensures Reports(results', reported + Populated([family]))
    {
      hide ReportsOne, Families.Family.Valid, Populated;
      var metrics := CollectOne(family);
      ReportsConcat(results, reported, metrics, Populated([family]));
      results' := results + metrics;
    }

    static method CollectOne(family: Family) returns (results: seq<MetricFamily>)
      requires family.Valid()
      ensures Reports(results, Populated([family]))
    {
      PopulatedOne(family);
      var metrics, order := family.Collect();
      results := metrics;
    }
  }
}
