/**
 Runs that insert one value at a time, each followed by a query. Whatever the values and the
 targets, their sample outgrows every size: while it has few items, every weight is small.
 */
module CkmsGrowth {
  import opened Wrappers
  import opened Sequences
  import opened CkmsSketch
  import opened CkmsProofs
  import opened CkmsQueries

  // ----- one value at a time -------------------------------------------------

  /** The sample after the flush of a single value. */
  ghost function Added(ts: seq<Target>, s: seq<Item>, v: real): seq<Item> {
    if s == [] then [Item(v, 1, 0)]
    else
      var p := Place(s, 0, v);
      InsertItem(s, p, Item(v, 1, DeltaAt(ts, |s|, p)))
  }

  lemma {:induction false} FlushOne(ts: seq<Target>, count: nat, s: seq<Item>, v: real)
    ensures Flush(ts, Sketch(count, s, [v])) == Sketch(count + 1, Added(ts, s, v), [])
  {
    assert Sort([v]) == [v] by {
      assert Sort([v][1..]) == [];
    }
    if s == [] {
      assert [v][1..] == [];
      assert MergePass(ts, [Item(v, 1, 0)], 0, []) == [Item(v, 1, 0)];
    } else {
      PassOne(ts, s, v);
    }
  }

  lemma {:induction false} PassOne(ts: seq<Target>, s: seq<Item>, v: real)
    requires s != []
    ensures MergePass(ts, s, 0, [v]) == Added(ts, s, v)
  {
    assert [v][1..] == [];
    assert MergePass(ts, Added(ts, s, v), Place(s, 0, v), []) == Added(ts, s, v);
  }

  lemma {:induction false} RunOne(ts: seq<Target>, ops: seq<Op>, v: real, q: real)
    requires Run(ts, ops).pending == []
    ensures var k := Run(ts, ops);
      Run(ts, ops + [InsertOp(v), GetOp(q)]) == Sketch(k.count + 1, Compress(ts, Added(ts, k.sample, v)), [])
  {
    var inserted := ops + [InsertOp(v)];
    var all := ops + [InsertOp(v), GetOp(q)];
    assert inserted[..|inserted| - 1] == ops && all[..|all| - 1] == inserted;
    assert Run(ts, inserted) == Run(ts, ops).(pending := [v]) by {
      assert Run(ts, ops).pending + [v] == [v];
    }
    FlushOne(ts, Run(ts, ops).count, Run(ts, ops).sample, v);
  }

  lemma {:induction false} ObservedOne(ops: seq<Op>, v: real, q: real)
    ensures Observed(ops + [InsertOp(v), GetOp(q)]) == Observed(ops) + [v]
  {
    var inserted := ops + [InsertOp(v)];
    var all := ops + [InsertOp(v), GetOp(q)];
    assert inserted[..|inserted| - 1] == ops && all[..|all| - 1] == inserted;
  }

  /** The values vs, each inserted and then followed by a query. */
  ghost function OneByOne(vs: seq<real>): seq<Op> {
    if vs == [] then [] else OneByOne(vs[..|vs| - 1]) + [InsertOp(vs[|vs| - 1]), GetOp(0.0)]
  }

  /** The sample they leave. */
  ghost function Kept(ts: seq<Target>, vs: seq<real>): seq<Item> {
    Run(ts, OneByOne(vs)).sample
  }

  lemma {:induction false} OneMoreValue(ts: seq<Target>, vs: seq<real>)
    requires vs != [] && Run(ts, OneByOne(vs[..|vs| - 1])).pending == []
    ensures var k := Run(ts, OneByOne(vs[..|vs| - 1]));
      Run(ts, OneByOne(vs)) == Sketch(k.count + 1, Compress(ts, Added(ts, k.sample, vs[|vs| - 1])), [])
  {
    hide Run, Compress, Added;
    RunOne(ts, OneByOne(vs[..|vs| - 1]), vs[|vs| - 1], 0.0);
  }

  lemma {:induction false} OneByOneRun(ts: seq<Target>, vs: seq<real>)
    ensures Run(ts, OneByOne(vs)).count == |vs| && Run(ts, OneByOne(vs)).pending == []
    decreases |vs|, 1
  {
    if vs == [] {
      assert OneByOne([]) == [];
    } else {
      OneByOneNext(ts, vs);
    }
  }

  lemma {:induction false} OneByOneNext(ts: seq<Target>, vs: seq<real>)
    requires vs != []
    ensures Run(ts, OneByOne(vs)).count == |vs| && Run(ts, OneByOne(vs)).pending == []
    decreases |vs|, 0
  {
    hide *;
    OneByOneRun(ts, vs[..|vs| - 1]);
    OneMoreValue(ts, vs);
  }

  lemma {:induction false} KeptNext(ts: seq<Target>, vs: seq<real>)
    requires vs != []
    ensures Kept(ts, vs) == Compress(ts, Added(ts, Kept(ts, vs[..|vs| - 1]), vs[|vs| - 1]))
  {
    hide Run, OneByOne, Compress, Added;
    OneByOneRun(ts, vs[..|vs| - 1]);
    OneMoreValue(ts, vs);
  }

  lemma {:induction false} OneByOneLog(vs: seq<real>)
    ensures Observed(OneByOne(vs)) == vs
  {
    if vs == [] {
      assert OneByOne([]) == [];
    } else {
      OneByOneLog(vs[..|vs| - 1]);
      ObservedOne(OneByOne(vs[..|vs| - 1]), vs[|vs| - 1], 0.0);
    }
  }

  lemma {:induction false} KeptItems(ts: seq<Target>, vs: seq<real>)
    ensures forall i | 0 <= i < |Kept(ts, vs)| :: Kept(ts, vs)[i].value in vs
    ensures |Kept(ts, vs)| <= |vs| && PrefixG(Kept(ts, vs), |Kept(ts, vs)|) == |vs|
    ensures SortedItems(Kept(ts, vs)) && (Kept(ts, vs) == [] <==> vs == [])
  {
    hide Run, Observed, OneByOne;
    var k, s := Run(ts, OneByOne(vs)), Kept(ts, vs);
    OneByOneRun(ts, vs);
    OneByOneLog(vs);
    RunRepresents(ts, OneByOne(vs));
    Conservation(k, multiset(vs));
    SettledSummarizes(k, multiset(vs));
    RepresentedSorted(k, multiset(vs));
    forall i | 0 <= i < |s| ensures s[i].value in vs {
      ItemRankHigh(s, vs, i);
    }
  }

  // ----- items stay small while the sample does ------------------------------

  ghost predicate SmallItem(it: Item, m: int) {
    1 <= it.g && 0 <= it.delta && it.g + it.delta <= m
  }

  ghost predicate Small(s: seq<Item>, m: int) {
    forall i | 0 <= i < |s| :: SmallItem(s[i], m)
  }

  lemma {:induction false} CompressSmall(ts: seq<Target>, s: seq<Item>, i: nat, m: int)
    requires Small(s, m) && |s| + 1 <= m
    ensures Small(CompressFrom(ts, s, i), m)
    decreases |s| - i
  {
    if |s| <= i + 1 {
    } else {
      if Mergeable(ts, s, i) {
        ErrorCapped(ts, |s|, i + 1);
      }
      CompressSmall(ts, if Mergeable(ts, s, i) then MergeAt(s, i) else s, i + 1, m);
    }
  }

  lemma {:induction false} ContributionNonNegative(t: Target, size: nat, rank: nat)
    ensures Contribution(t, size, rank).Some? ==> 0.0 <= Contribution(t, size, rank).value
  {
    var n, x := size as real, rank as real;
    if x <= t.quantile * n {
      ScaleLe(t.quantile, 1.0, n);
      ScaleLe(0.0, t.u, n - x);
      assert 0.0 <= t.u * (n - x);
    } else {
      ScaleLe(0.0, t.v, x);
    }
  }

  lemma {:induction false} ErrorNonNegative(ts: seq<Target>, size: nat, rank: nat)
    ensures 0.0 <= AllowableError(ts, size, rank)
  {
    if ts == [] {
    } else {
      ErrorNonNegative(ts[..|ts| - 1], size, rank);
      ContributionNonNegative(ts[|ts| - 1], size, rank);
    }
  }

  lemma {:induction false} NewItemSmall(ts: seq<Target>, size: nat, p: nat, v: real)
    ensures SmallItem(Item(v, 1, DeltaAt(ts, size, p)), size + 3)
  {
    ErrorNonNegative(ts, size, p + 1);
    ErrorCapped(ts, size, p + 1);
  }

  lemma {:induction false} AddedSmall(ts: seq<Target>, s: seq<Item>, v: real, m: int)
    requires Small(s, m) && |s| + 3 <= m
    ensures |Added(ts, s, v)| == |s| + 1 && Small(Added(ts, s, v), m)
  {
    hide DeltaAt, SmallItem;
    if s == [] {
      OneSmall(v, m);
    } else {
      NewItemSmall(ts, |s|, Place(s, 0, v), v);
      SmallItemUp(Item(v, 1, DeltaAt(ts, |s|, Place(s, 0, v))), |s| + 3, m);
    }
  }

  lemma {:induction false} OneSmall(v: real, m: int)
    requires 3 <= m
    ensures SmallItem(Item(v, 1, 0), m)
  {
  }

  lemma {:induction false} SmallItemUp(it: Item, m: int, m': int)
    requires SmallItem(it, m) && m <= m'
    ensures SmallItem(it, m')
  {
  }

  lemma {:induction false} TotalSmall(s: seq<Item>, n: nat, m: nat)
    requires Small(s, m) && n <= |s|
    ensures PrefixG(s, n) <= n * m
  {
    if n == 0 {
    } else {
      TotalSmall(s, n - 1, m);
      assert n * m == (n - 1) * m + m;
    }
  }

  /** The sample has had at most b items so far. */
  ghost predicate StaysWithin(ts: seq<Target>, b: nat, vs: seq<real>) {
    forall j: nat | j <= |vs| :: |Kept(ts, vs[..j])| <= b
  }

  lemma {:induction false} StayedWithin(ts: seq<Target>, b: nat, vs: seq<real>)
    requires vs != [] && StaysWithin(ts, b, vs)
    ensures StaysWithin(ts, b, vs[..|vs| - 1]) && |Kept(ts, vs)| <= b
  {
    hide Kept;
    assert vs[..|vs|] == vs;
    var before := vs[..|vs| - 1];
    forall j: nat | j <= |before| ensures |Kept(ts, before[..j])| <= b {
      assert before[..j] == vs[..j];
    }
  }

  /** While the sample has at most b items, every weight with its delta is at most b + 3. */
  lemma {:induction false} KeptSmall(ts: seq<Target>, b: nat, vs: seq<real>)
    requires StaysWithin(ts, b, vs)
    ensures Small(Kept(ts, vs), b + 3)
  {
    hide Kept, Added, CompressFrom, StaysWithin, SmallItem;
    if vs == [] {
      KeptItems(ts, []);
    } else {
      var before := vs[..|vs| - 1];
      StayedWithin(ts, b, vs);
      KeptSmall(ts, b, before);
      AtMost(ts, b, before);
      AddedSmall(ts, Kept(ts, before), vs[|vs| - 1], b + 3);
      CompressSmall(ts, Added(ts, Kept(ts, before), vs[|vs| - 1]), 0, b + 3);
      KeptNext(ts, vs);
    }
  }

  lemma {:induction false} AtMost(ts: seq<Target>, b: nat, vs: seq<real>)
    requires StaysWithin(ts, b, vs)
    ensures |Kept(ts, vs)| <= b
  {
    hide Kept;
    assert vs[..|vs|] == vs;
  }

  lemma {:induction false} ProductLe(a: nat, b: nat, d: nat)
    requires a <= b
    ensures a * d <= b * d
  {
  }

  /** So the sample outgrows every size: at most b weights of at most b + 3 do not add up to more. */
  lemma {:induction false} CannotStay(ts: seq<Target>, b: nat, vs: seq<real>)
    requires b * (b + 3) < |vs|
    ensures !StaysWithin(ts, b, vs)
  {
    hide Kept, StaysWithin, Small;
    if StaysWithin(ts, b, vs) {
      var size := |Kept(ts, vs)|;
      KeptSmall(ts, b, vs);
      AtMost(ts, b, vs);
      KeptItems(ts, vs);
      TotalSmall(Kept(ts, vs), size, b + 3);
      ProductLe(size, b, b + 3);
    }
  }

  /** The first time the sample has more than b items, given that it has by then. */
  lemma {:induction false} FirstOver(ts: seq<Target>, b: nat, vs: seq<real>) returns (n: nat)
    requires !StaysWithin(ts, b, vs)
    ensures 0 < n <= |vs| && |Kept(ts, vs[..n])| > b && StaysWithin(ts, b, vs[..n - 1])
  {
    hide Kept;
    KeptItems(ts, []);
    var before := vs[..if vs == [] then 0 else |vs| - 1];
    if vs != [] && !StaysWithin(ts, b, before) {
      n := FirstOver(ts, b, before);
      assert before[..n] == vs[..n] && before[..n - 1] == vs[..n - 1];
    } else {
      n := |vs|;
      LastOver(ts, b, vs);
    }
  }

  lemma {:induction false} LastOver(ts: seq<Target>, b: nat, vs: seq<real>)
    requires !StaysWithin(ts, b, vs) && (vs != [] ==> StaysWithin(ts, b, vs[..|vs| - 1]))
    ensures vs != [] && |Kept(ts, vs[..|vs|])| > b
  {
    hide Kept;
    KeptItems(ts, []);
    assert vs[..0] == [];
    if vs != [] {
      var before := vs[..|vs| - 1];
      assert forall j: nat | j <= |before| :: before[..j] == vs[..j];
    }
    var j: nat :| j <= |vs| && |Kept(ts, vs[..j])| > b;
  }

  /** A pass that drops no item found nothing to merge. */
  lemma {:induction false} FullSizeMeansFixed(ts: seq<Target>, s: seq<Item>, i: nat)
    requires |CompressFrom(ts, s, i)| == |s|
    ensures forall j | i <= j && j + 1 < |s| :: !Mergeable(ts, s, j)
    decreases |s| - i
  {
    if |s| <= i + 1 {
    } else {
      if Mergeable(ts, s, i) {
        CompressFromShrinks(ts, MergeAt(s, i), i + 1);
      }
      FullSizeMeansFixed(ts, s, i + 1);
    }
  }

  // ----- settling again ------------------------------------------------------

  lemma {:induction false} SettleAgain(ts: seq<Target>, count: nat, s: seq<Item>)
    ensures Settle(ts, Sketch(count, s, [])) == Sketch(count, Compress(ts, s), [])
  {
    assert Sort([]) == [];
  }

  /** A settled sketch without neighbours to merge is left alone by a query. */
  lemma {:induction false} SettledStays(ts: seq<Target>, k: Sketch)
    requires k.pending == [] && forall j: nat | j + 1 < |k.sample| :: !Mergeable(ts, k.sample, j)
    ensures Settle(ts, k) == k
  {
    assert Sort([]) == [];
    CompressFromFixpoint(ts, k.sample, 0);
  }

  // ----- queries by rank -----------------------------------------------------

  lemma {:induction false} DesiredRank(r: nat, count: nat)
    requires 0 < count
    ensures Desired(r as real / count as real, count) == r
  {
    var q := r as real / count as real;
    assert q * count as real == r as real;
  }

  lemma {:induction false} QuotientLe(x: real, y: real, c: real)
    requires x <= y && 0.0 < c
    ensures x / c <= y / c
  {
    var a, b := x / c, y / c;
    assert a * c == x && b * c == y;
    if b < a {
      ScaleLt(b, a, c);
    }
  }

  lemma {:induction false} QuantileOf(r: nat, r': nat, count: nat)
    requires r <= r' <= count && 0 < count
    ensures 0.0 <= r as real / count as real <= r' as real / count as real <= 1.0
  {
    var c := count as real;
    QuotientLe(0.0, r as real, c);
    QuotientLe(r as real, r' as real, c);
    QuotientLe(r' as real, c, c);
  }

  lemma {:induction false} NoAnswer(ts: seq<Target>, ops: seq<Op>, q: real)
    ensures Observed(ops) == [] ==> Get(ts, Run(ts, ops), q).1 == None
  {
    QueryGuarantee(ts, ops, q);
  }

  // ----- values that are only buffered ---------------------------------------

  ghost function Inserts(vs: seq<real>): seq<Op> {
    seq(|vs|, i requires 0 <= i < |vs| => InsertOp(vs[i]))
  }

  lemma {:induction false} PendingRun(ts: seq<Target>, ops: seq<Op>, vs: seq<real>)
    requires Run(ts, ops).pending == [] && |vs| < BUFFER_SIZE
    ensures Run(ts, ops + Inserts(vs)) == Run(ts, ops).(pending := vs)
  {
    if vs == [] {
      assert ops + Inserts([]) == ops;
    } else {
      var init, v := vs[..|vs| - 1], vs[|vs| - 1];
      InsertsSplit(ops, vs);
      hide Run, Inserts;
      PendingRun(ts, ops, init);
      BufferOne(ts, ops + Inserts(init), v);
    }
  }

  lemma {:induction false} InsertsSplit(ops: seq<Op>, vs: seq<real>)
    requires vs != []
    ensures var (init, v) := (vs[..|vs| - 1], vs[|vs| - 1]);
      vs == init + [v] && ops + Inserts(vs) == ops + Inserts(init) + [InsertOp(v)]
  {
  }

  lemma {:induction false} BufferOne(ts: seq<Target>, ops: seq<Op>, v: real)
    requires |Run(ts, ops).pending| + 1 < BUFFER_SIZE
    ensures Run(ts, ops + [InsertOp(v)]) == Run(ts, ops).(pending := Run(ts, ops).pending + [v])
  {
    hide Settle;
    assert (ops + [InsertOp(v)])[..|ops|] == ops;
  }
}
