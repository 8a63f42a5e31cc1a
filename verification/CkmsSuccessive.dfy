/**
 Successive queries. Every call of get compresses before it answers, so the second of two
 calls sees the sketch the first one left. Their answers are in the order of the quantiles, in
 every run, exactly when one of the targets has error 0 and a quantile strictly between 0 and 1:
 then nothing is ever folded. Otherwise the same query, asked twice, can get a smaller answer.

 The run that shows it starts with the maximum and goes on with ever larger values below it,
 each followed by a query; all deltas stay 0, and the sample outgrows every size. Fifteen more
 values just below the maximum leave, after one query, a row of items of weight 2 that the
 next query folds again. A rank whose bound lies between two of them loses its item.
 */
module CkmsSuccessive {
  import opened Wrappers
  import opened Sequences
  import opened CkmsSketch
  import opened CkmsProofs
  import opened CkmsQueries
  import opened CkmsGrowth
  import opened CkmsPasses

  /** A target that tolerates no error. */
  predicate Tight(t: Target) {
    t.error == 0.0 && 0.0 < t.quantile < 1.0
  }

  ghost predicate HasTight(ts: seq<Target>) {
    exists i | 0 <= i < |ts| :: Tight(ts[i])
  }

  /** The query for q and then, of the sketch it leaves, the query for q' are answered in order. */
  ghost predicate InOrder(ts: seq<Target>, ops: seq<Op>, q: real, q': real) {
    var (k, a) := Get(ts, Run(ts, ops), q);
    var a' := Get(ts, k, q').1;
    a.Some? && a'.Some? ==> a.value <= a'.value
  }

  // ----- with a tight target nothing is folded -------------------------------

  lemma {:induction false} TightContribution(t: Target, size: nat, rank: int)
    requires Tight(t)
    ensures Contribution(t, size, rank) == Some(0.0)
  {
    TightFactor(t.u, 1.0 - t.quantile);
    TightFactor(t.v, t.quantile);
  }

  lemma {:induction false} TightFactor(factor: real, x: real)
    requires factor * x == 0.0 && 0.0 < x
    ensures factor == 0.0
  {
  }

  lemma {:induction false} TightError(ts: seq<Target>, size: nat, rank: nat)
    requires HasTight(ts)
    ensures AllowableError(ts, size, rank) == 0.0
  {
    var t, rest := ts[|ts| - 1], ts[..|ts| - 1];
    ErrorNonNegative(rest, size, rank);
    if Tight(t) {
      TightContribution(t, size, rank);
    } else {
      var i :| 0 <= i < |ts| && Tight(ts[i]);
      assert rest[i] == ts[i];
      TightError(rest, size, rank);
      ContributionNonNegative(t, size, rank);
    }
  }

  ghost predicate Deltas(s: seq<Item>) {
    forall i | 0 <= i < |s| :: 0 <= s[i].delta
  }

  lemma {:induction false} InsertDeltas(ts: seq<Target>, s: seq<Item>, p: nat, v: real)
    requires Deltas(s) && p <= |s|
    ensures Deltas(InsertItem(s, p, Item(v, 1, DeltaAt(ts, |s|, p))))
  {
    ErrorNonNegative(ts, |s|, p + 1);
  }

  lemma {:induction false} MergePassDeltas(ts: seq<Target>, s: seq<Item>, c: nat, batch: seq<real>)
    requires c < |s| && Deltas(s)
    ensures Deltas(MergePass(ts, s, c, batch))
    decreases |batch|
  {
    if batch == [] {
    } else {
      hide DeltaAt, InsertItem, Deltas;
      var p := Place(s, c, batch[0]);
      InsertDeltas(ts, s, p, batch[0]);
      assert |InsertItem(s, p, Item(batch[0], 1, DeltaAt(ts, |s|, p)))| == |s| + 1 by {
        InsertSize(s, p, Item(batch[0], 1, DeltaAt(ts, |s|, p)));
      }
      MergePassDeltas(ts, InsertItem(s, p, Item(batch[0], 1, DeltaAt(ts, |s|, p))), p, batch[1..]);
    }
  }

  lemma {:induction false} InsertSize(s: seq<Item>, p: nat, it: Item)
    requires p <= |s|
    ensures |InsertItem(s, p, it)| == |s| + 1
  {
  }

  lemma {:induction false} CompressDeltas(ts: seq<Target>, s: seq<Item>, i: nat)
    requires Deltas(s)
    ensures Deltas(CompressFrom(ts, s, i))
    decreases |s| - i
  {
    if |s| <= i + 1 {
    } else {
      CompressDeltas(ts, if Mergeable(ts, s, i) then MergeAt(s, i) else s, i + 1);
    }
  }

  lemma {:induction false} SettleDeltas(ts: seq<Target>, k: Sketch)
    requires Deltas(k.sample)
    ensures Deltas(Settle(ts, k).sample)
  {
    var batch := Sort(k.pending);
    if batch != [] {
      if k.sample == [] {
        MergePassDeltas(ts, [Item(batch[0], 1, 0)], 0, batch[1..]);
      } else {
        MergePassDeltas(ts, k.sample, 0, batch);
      }
    }
    hide MergePass;
    CompressDeltas(ts, Flush(ts, k).sample, 0);
  }

  lemma {:induction false} RunDeltas(ts: seq<Target>, ops: seq<Op>)
    ensures Deltas(Run(ts, ops).sample)
  {
    hide Settle;
    if ops == [] {
    } else {
      var k := Run(ts, ops[..|ops| - 1]);
      RunDeltas(ts, ops[..|ops| - 1]);
      match ops[|ops| - 1] {
        case InsertOp(v) => SettleDeltas(ts, k.(pending := k.pending + [v]));
        case GetOp(_) => SettleDeltas(ts, k);
        case ResetOp =>
      }
    }
  }

  lemma {:induction false} WeightsPositive(k: Sketch, log: multiset<real>)
    requires Represents(k, log)
    ensures forall i | 0 <= i < |k.sample| :: 1 <= k.sample[i].g
  {
    var flushed :| Splits(k, log, flushed);
    var gs :| Groups(k.sample, flushed, gs);
    forall i | 0 <= i < |k.sample| ensures 1 <= k.sample[i].g {
      assert gs[i][k.sample[i].value] > 0;
    }
  }

  /** What a query leaves in any run. */
  lemma {:induction false} SettledRun(ts: seq<Target>, ops: seq<Op>)
    ensures var k := Settle(ts, Run(ts, ops));
      && k.pending == [] && Deltas(k.sample) && SortedItems(k.sample)
      && forall i | 0 <= i < |k.sample| :: 1 <= k.sample[i].g
  {
    var k, log := Run(ts, ops), multiset(Observed(ops));
    hide Run, Settle, Observed;
    RunDeltas(ts, ops);
    SettleDeltas(ts, k);
    RunRepresents(ts, ops);
    GetRepresents(ts, k, log, 0.0);
    WeightsPositive(Settle(ts, k), log);
    RepresentedSorted(Settle(ts, k), log);
  }

  /** With a tight target a query changes nothing that another one has settled. */
  lemma {:induction false} TightStays(ts: seq<Target>, ops: seq<Op>)
    requires HasTight(ts)
    ensures var k := Settle(ts, Run(ts, ops)); Settle(ts, k) == k
  {
    var k := Settle(ts, Run(ts, ops));
    hide Run, Settle;
    SettledRun(ts, ops);
    forall j: nat | j + 1 < |k.sample| ensures !Mergeable(ts, k.sample, j) {
      TightError(ts, |k.sample|, j + 1);
    }
    SettledStays(ts, k);
  }

  lemma {:induction false} DesiredNatural(q: real, count: nat)
    requires 0.0 <= q
    ensures 0 <= Desired(q, count)
  {
    ScaleLe(0.0, q, count as real);
  }

  lemma {:induction false} TightOrdered(ts: seq<Target>, k: Sketch, q: real, q': real)
    requires HasTight(ts) && SortedItems(k.sample) && 0.0 <= q <= q' && k.sample != []
    ensures Answer(ts, k, q).value <= Answer(ts, k, q').value
  {
    var n := |k.sample|;
    DesiredMonotone(q, q', k.count);
    DesiredNatural(q, k.count);
    TightError(ts, n, Desired(q, k.count));
    TightError(ts, n, Desired(q', k.count));
    ScanMonotone(k.sample, 0, 0, Bound(ts, n, Desired(q, k.count)), Bound(ts, n, Desired(q', k.count)));
  }

  lemma {:induction false} TightInOrder(ts: seq<Target>, ops: seq<Op>, q: real, q': real)
    requires HasTight(ts) && 0.0 <= q <= q'
    ensures InOrder(ts, ops, q, q')
  {
    var k := Settle(ts, Run(ts, ops));
    TightStays(ts, ops);
    SettledRun(ts, ops);
    hide Run, Settle;
    if k.sample != [] {
      TightOrdered(ts, k, q, q');
    }
  }

  /** Short of a tight target: the order holds with steady targets if the first query left no neighbours to merge. */
  lemma {:induction false} SettledInOrder(ts: seq<Target>, ops: seq<Op>, q: real, q': real)
    requires q <= q' && forall t | t in ts :: Steady(t)
    requires var s := Settle(ts, Run(ts, ops)).sample; forall j: nat | j + 1 < |s| :: !Mergeable(ts, s, j)
    ensures InOrder(ts, ops, q, q')
  {
    var k := Settle(ts, Run(ts, ops));
    SettledRun(ts, ops);
    SettledStays(ts, k);
    hide Run, Settle;
    if k.sample != [] {
      AnswersMonotone(ts, k, q, q');
    }
  }

  // ----- without one, every large sample folds -------------------------------

  ghost predicate LooseTarget(t: Target, least: nat) {
    forall n: nat, r: nat | least <= n && 1 <= r <= n ::
      Contribution(t, n, r).Some? ==> 4.0 <= Contribution(t, n, r).value
  }

  /** A contribution with its products hidden. */
  ghost function InTimes(q: real, u: real, v: real, size: real, rank: real): Option<real> {
    if rank <= Times(q, size) then
      if q == 1.0 then None else Some(Times(u, size - rank))
    else
      if q == 0.0 then None else Some(Times(v, rank))
  }

  lemma {:induction false} ContributionInTimes(t: Target, n: nat, r: nat)
    ensures var (c, d) := (Contribution(t, n, r), InTimes(t.quantile, t.u, t.v, n as real, r as real));
      c.Some? == d.Some? && (c.Some? ==> c.value == d.value)
  {
  }

  lemma {:induction false} CornerRange(q: real, n: real)
    requires 0.0 <= q <= 1.0 && 0.0 <= n
    ensures 0.0 <= Times(q, n) <= n
    ensures q == 0.0 ==> Times(q, n) == 0.0
    ensures q == 1.0 ==> Times(q, n) == n
  {
    ScaleLe(0.0, q, n);
    ScaleLe(q, 1.0, n);
  }

  lemma {:induction false} ContributionTimes(t: Target, n: nat, r: nat)
    ensures 0.0 <= Times(t.quantile, n as real) <= n as real
    ensures t.quantile == 0.0 ==> Times(t.quantile, n as real) == 0.0
    ensures t.quantile == 1.0 ==> Times(t.quantile, n as real) == n as real
    ensures Contribution(t, n, r) == InTimes(t.quantile, t.u, t.v, n as real, r as real)
  {
    hide *;
    CornerRange(t.quantile, n as real);
    ContributionInTimes(t, n, r);
  }

  /** Both branches of an inner quantile meet at twice the tolerated share of the size. */
  lemma {:induction false} BranchesMeet(t: Target, n: real, x: real)
    requires 0.0 < t.quantile < 1.0
    ensures x <= Times(t.quantile, n) ==> Times(t.v, x) <= 2.0 * Times(t.error, n) <= Times(t.u, n - x)
    ensures Times(t.quantile, n) <= x ==> 2.0 * Times(t.error, n) <= Times(t.v, x)
  {
    FirstBranch(t.u, t.quantile, t.error, n, x);
    CornerValue(t.v, t.quantile, t.error, n);
    if x <= t.quantile * n {
      TimesLe(t.v, x, t.quantile * n);
    }
    if t.quantile * n <= x {
      TimesLe(t.v, t.quantile * n, x);
    }
  }

  lemma {:induction false} CornerValue(v: real, q: real, e: real, n: real)
    requires v * q == 2.0 * e
    ensures Times(v, q * n) == 2.0 * Times(e, n)
  {
    assert v * (q * n) == (v * q) * n;
  }

  lemma {:induction false} TimesLe(x: real, a: real, b: real)
    requires 0.0 <= x && a <= b
    ensures Times(x, a) <= Times(x, b)
  {
    ScaleLe(a, b, x);
  }

  lemma {:induction false} TimesSwap(a: real, b: real)
    ensures Times(a, b) == Times(b, a)
  {
  }

  lemma {:induction false} LooseContribution(t: Target, n: nat, r: nat)
    requires 0.0 < t.quantile < 1.0 && 2.0 < Times(t.error, n as real) && 1 <= r <= n
    ensures Contribution(t, n, r).Some? ==> 4.0 <= Contribution(t, n, r).value
  {
    hide Times, Contribution;
    ContributionTimes(t, n, r);
    BranchesMeet(t, n as real, r as real);
  }

  lemma {:induction false} NothingContributed(t: Target, n: nat, r: nat)
    requires t.quantile == 0.0 || t.quantile == 1.0
    requires 1 <= r <= n
    ensures Contribution(t, n, r).None?
  {
    hide Times, Contribution;
    ContributionTimes(t, n, r);
  }

  lemma {:induction false} LargeError(e: real, least: real, n: real)
    requires 0.0 < e && least <= n && 2.0 < Times(least, e)
    ensures 2.0 < Times(e, n)
  {
    hide Times;
    TimesSwap(least, e);
    TimesLe(e, least, n);
  }

  lemma {:induction false} LooseInside(t: Target) returns (least: nat)
    requires 0.0 < t.quantile < 1.0 && 0.0 < t.error
    ensures LooseTarget(t, least)
  {
    least := LargeMultiple(t.error, 2.0);
    assert 2.0 < Times(least as real, t.error);
    hide Contribution, Times;
    forall n: nat, r: nat | least <= n && 1 <= r <= n
      ensures Contribution(t, n, r).Some? ==> 4.0 <= Contribution(t, n, r).value
    {
      LargeError(t.error, least as real, n as real);
      LooseContribution(t, n, r);
    }
  }

  lemma {:induction false} LooseFrom(t: Target) returns (least: nat)
    requires !Tight(t)
    ensures LooseTarget(t, least)
  {
    hide Contribution;
    if t.quantile == 0.0 || t.quantile == 1.0 {
      least := 0;
      forall n: nat, r: nat | 1 <= r <= n ensures Contribution(t, n, r).None? {
        NothingContributed(t, n, r);
      }
    } else {
      least := LooseInside(t);
    }
  }

  lemma {:induction false} LooseTargets(ts: seq<Target>) returns (least: nat)
    requires !HasTight(ts)
    ensures 3 <= least && Loose(ts, least)
  {
    if ts == [] {
      least := 3;
    } else {
      var t, rest := ts[|ts| - 1], ts[..|ts| - 1];
      assert !HasTight(rest) by {
        assert forall i | 0 <= i < |rest| :: rest[i] == ts[i];
      }
      var l := LooseTargets(rest);
      var l' := LooseFrom(t);
      least := if l < l' then l' else l;
      hide Contribution;
      assert LooseTarget(t, least) && Loose(rest, least);
      forall n: nat, r: nat | least <= n && 1 <= r <= n ensures 4.0 <= AllowableError(ts, n, r) {
        assert 4.0 <= AllowableError(rest, n, r);
      }
    }
  }

  // ----- a rank for every bound ----------------------------------------------

  /** The slope v is below 2 where v * x is below a cap of at most 2 * x. */
  lemma {:induction false} SlopeBelow(v: real, x: real, c: real)
    requires 0.0 < x && Times(v, x) < c <= 2.0 * x
    ensures v < 2.0 && Times(v, x + 1.0) == Times(v, x) + v
  {
    if 2.0 <= v {
      ScaleLe(2.0, v, x);
    }
  }

  /** From half the size on an error that is not capped grows by less than two from one rank to the next. */
  lemma {:induction false} ContributionStep(t: Target, n: nat, r: nat)
    requires n + 1 <= 2 * r
    requires var c := Contribution(t, n, r); c.Some? && c.value < (n + 1) as real
    ensures var (c, c') := (Contribution(t, n, r), Contribution(t, n, r + 1));
      c'.Some? && c'.value < c.value + 2.0
  {
    hide Times, Contribution;
    var size, x := n as real, r as real;
    assert (r + 1) as real == x + 1.0 && (n + 1) as real == size + 1.0;
    ContributionTimes(t, n, r);
    ContributionTimes(t, n, r + 1);
    if x <= Times(t.quantile, size) {
      BranchesMeet(t, size, x);
      TimesLe(t.u, size - (x + 1.0), size - x);
    }
    SlopeBelow(t.v, x, size + 1.0);
  }

  lemma {:induction false} ErrorStep(ts: seq<Target>, n: nat, r: nat)
    requires n + 1 <= 2 * r
    ensures AllowableError(ts, n, r + 1) < AllowableError(ts, n, r) + 2.0
  {
    if ts == [] {
    } else {
      var t, rest := ts[|ts| - 1], ts[..|ts| - 1];
      ErrorStep(rest, n, r);
      ErrorCapped(rest, n, r);
      var c := Contribution(t, n, r);
      if c.Some? && c.value < AllowableError(rest, n, r) {
        ContributionStep(t, n, r);
      }
      hide Contribution;
    }
  }

  /** Every number above the size is met by the bound of some rank, up to less than two. */
  lemma {:induction false} RankAt(ts: seq<Target>, n: nat, x: int) returns (r: nat)
    requires n < x
    ensures x as real <= Bound(ts, n, r) < x as real + 2.0 && r < x + 2
  {
    var half := (n + 2) / 2;
    ErrorCapped(ts, n, half);
    r := RankFrom(ts, n, x, half);
  }

  lemma {:induction false} RankFrom(ts: seq<Target>, n: nat, x: int, from: nat) returns (r: nat)
    requires n + 1 <= 2 * from && Bound(ts, n, from) < x as real + 2.0
    ensures x as real <= Bound(ts, n, r) < x as real + 2.0 && r < x + 2
    decreases x - from
  {
    ErrorNonNegative(ts, n, from);
    hide AllowableError;
    if x as real <= Bound(ts, n, from) {
      r := from;
    } else {
      ErrorStep(ts, n, from);
      r := RankFrom(ts, n, x, from + 1);
    }
  }

  // ----- errors grow with the size -------------------------------------------

  /** No contribution is as good as an unbounded one. */
  ghost predicate NoMore(c: Option<real>, c': Option<real>) {
    c'.None? || (c.Some? && c.value <= c'.value)
  }

  lemma {:induction false} ContributionGrows(t: Target, n: nat, n': nat, r: nat)
    requires n <= n'
    ensures NoMore(Contribution(t, n, r), Contribution(t, n', r))
  {
    hide Times, Contribution;
    var size, size', x := n as real, n' as real, r as real;
    ContributionTimes(t, n, r);
    ContributionTimes(t, n', r);
    TimesLe(t.quantile, size, size');
    TimesLe(t.u, size - x, size' - x);
    if 0.0 < t.quantile < 1.0 && x <= Times(t.quantile, size') {
      BranchesMeet(t, size', x);
    }
  }

  lemma {:induction false} ErrorGrows(ts: seq<Target>, n: nat, n': nat, r: nat)
    requires n <= n'
    ensures AllowableError(ts, n, r) <= AllowableError(ts, n', r)
  {
    if ts == [] {
    } else {
      ErrorGrows(ts[..|ts| - 1], n, n', r);
      ContributionGrows(ts[|ts| - 1], n, n', r);
      hide Contribution;
    }
  }

  // ----- values below the maximum --------------------------------------------

  /** The maximum first, and then the numbers from 0 on. */
  ghost function Up(top: real, n: nat): seq<real> {
    [top] + seq(n, i => i as real)
  }

  /** A sample of such a run: the maximum last, everything else below n. */
  ghost predicate Base(s: seq<Item>, top: real, n: nat) {
    && s != [] && Plain(s) && s[|s| - 1].value == top
    && forall i | 0 <= i < |s| - 1 :: s[i].value < n as real
  }

  lemma {:induction false} MergeBase(s: seq<Item>, i: nat, top: real, n: nat)
    requires i + 1 < |s| && Base(s, top, n)
    ensures Base(MergeAt(s, i), top, n)
  {
    MergePlain(s, i);
    MergeValues(s, i);
    hide Plain, MergeAt;
  }

  lemma {:induction false} MergePlain(s: seq<Item>, i: nat)
    requires i + 1 < |s| && Plain(s)
    ensures Plain(MergeAt(s, i))
  {
    hide Plain;
    assert s == s[..i] + [s[i], s[i + 1]] + s[i + 2..];
    FoldPlain(s[..i], s[i], s[i + 1], s[i + 2..]);
    FoldAt(s[..i], s[i], s[i + 1], s[i + 2..]);
  }

  lemma {:induction false} MergeValues(s: seq<Item>, i: nat)
    requires i + 1 < |s|
    ensures |MergeAt(s, i)| == |s| - 1
    ensures forall k | 0 <= k < |s| - 1 :: MergeAt(s, i)[k].value == s[SkipFolded(i, k)].value
  {
  }

  lemma {:induction false} CompressBase(ts: seq<Target>, s: seq<Item>, i: nat, top: real, n: nat)
    requires Base(s, top, n)
    ensures Base(CompressFrom(ts, s, i), top, n)
    decreases |s| - i
  {
    hide Base;
    if |s| <= i + 1 {
    } else if Mergeable(ts, s, i) {
      MergeBase(s, i, top, n);
      CompressBase(ts, MergeAt(s, i), i + 1, top, n);
    } else {
      CompressBase(ts, s, i + 1, top, n);
    }
  }

  lemma {:induction false} PlaceBeforeLast(y: seq<Item>, last: Item, c: nat, v: real)
    requires c <= |y| && (forall i | 0 <= i < |y| :: y[i].value < v) && v < last.value
    ensures Place(y + [last], c, v) == |y|
    decreases |y| - c
  {
    if c == |y| {
    } else {
      PlaceBeforeLast(y, last, c + 1, v);
    }
  }

  /** A value inserted just before the last item gets the delta 0. */
  lemma {:induction false} InsertBeforeLast(ts: seq<Target>, y: seq<Item>, last: Item, v: real)
    ensures InsertItem(y + [last], |y|, Item(v, 1, DeltaAt(ts, |y + [last]|, |y|))) == y + [Item(v, 1, 0)] + [last]
  {
    assert DeltaAt(ts, |y + [last]|, |y|) == 0;
  }

  lemma {:induction false} AddedBase(ts: seq<Target>, s: seq<Item>, top: real, n: nat)
    requires Base(s, top, n) && n as real < top
    ensures Base(Added(ts, s, n as real), top, n + 1)
  {
    var y, last := s[..|s| - 1], s[|s| - 1];
    assert s == y + [last];
    PlaceBeforeLast(y, last, 0, n as real);
    InsertBeforeLast(ts, y, last, n as real);
    hide Place, DeltaAt;
    assert Added(ts, s, n as real) == y + [Item(n as real, 1, 0)] + [last];
    UnitAdded(y, last, n as real);
  }

  lemma {:induction false} UnitAdded(y: seq<Item>, last: Item, v: real)
    requires Plain(y + [last]) && v < last.value && forall i | 0 <= i < |y| :: y[i].value < v
    ensures Plain(y + [Item(v, 1, 0)] + [last])
  {
    var s, t := y + [last], y + [Item(v, 1, 0)] + [last];
    assert forall i | 0 <= i < |y| :: t[i] == s[i];
    assert t[|y| + 1] == s[|y|];
  }

  lemma {:induction false} UpPrefix(top: real, n: nat, j: nat)
    requires j <= n
    ensures Up(top, n)[..j + 1] == Up(top, j)
  {
  }

  lemma {:induction false} KeptBase(ts: seq<Target>, top: real, n: nat)
    requires n as real <= top
    ensures Base(Kept(ts, Up(top, n)), top, n)
  {
    hide Kept, Compress, Added, Base;
    KeptNext(ts, Up(top, n));
    if n == 0 {
      assert Up(top, 0)[..0] == [];
      KeptItems(ts, []);
      FirstBase(ts, top);
    } else {
      UpPrefix(top, n, n - 1);
      KeptBase(ts, top, n - 1);
      assert Up(top, n)[n] == (n - 1) as real;
      AddedBase(ts, Kept(ts, Up(top, n - 1)), top, n - 1);
      CompressAllBase(ts, Added(ts, Kept(ts, Up(top, n - 1)), (n - 1) as real), top, n);
    }
  }

  lemma {:induction false} CompressAllBase(ts: seq<Target>, s: seq<Item>, top: real, n: nat)
    requires Base(s, top, n)
    ensures Base(Compress(ts, s), top, n)
  {
    CompressBase(ts, s, 0, top, n);
  }

  lemma {:induction false} FirstBase(ts: seq<Target>, top: real)
    ensures Base(Compress(ts, Added(ts, [], top)), top, 0)
  {
    assert Compress(ts, Added(ts, [], top)) == [Item(top, 1, 0)];
  }

  lemma {:induction false} LargeBase(ts: seq<Target>, b: nat) returns (top: real, n: nat)
    ensures Base(Kept(ts, Up(top, n)), top, n) && |Kept(ts, Up(top, n))| > b && (n + 15) as real < top
  {
    var many := b * (b + 3) + 1;
    top := (many + 20) as real;
    hide Kept, Base, StaysWithin;
    CannotStay(ts, b, Up(top, many));
    var j := FirstOver(ts, b, Up(top, many));
    n := j - 1;
    UpPrefix(top, many, n);
    KeptBase(ts, top, n);
  }

  // ----- fifteen more values -------------------------------------------------

  ghost function Units(vs: seq<real>): (u: seq<Item>)
    ensures |u| == |vs|
  {
    seq(|vs|, i requires 0 <= i < |vs| => Item(vs[i], 1, 0))
  }

  ghost predicate Below(y: seq<Item>, vs: seq<real>, top: real) {
    && (forall i, j | 0 <= i < |y| && 0 <= j < |vs| :: y[i].value < vs[j])
    && (forall i, j | 0 <= i < j < |vs| :: vs[i] < vs[j])
    && forall i | 0 <= i < |vs| :: vs[i] < top
  }

  lemma {:induction false} BatchBeforeLast(ts: seq<Target>, y: seq<Item>, last: Item, c: nat, vs: seq<real>)
    requires c <= |y| && Below(y, vs, last.value)
    ensures MergePass(ts, y + [last], c, vs) == y + (Units(vs) + [last])
    decreases |vs|
  {
    if vs == [] {
    } else {
      var v, y' := vs[0], y + [Item(vs[0], 1, 0)];
      PlaceBeforeLast(y, last, c, v);
      InsertBeforeLast(ts, y, last, v);
      hide Place, DeltaAt, InsertItem;
      BelowNextValue(y, vs, last.value);
      BatchBeforeLast(ts, y', last, |y|, vs[1..]);
      assert y' + (Units(vs[1..]) + [last]) == y + (Units(vs) + [last]);
    }
  }

  lemma {:induction false} BelowNextValue(y: seq<Item>, vs: seq<real>, top: real)
    requires vs != [] && Below(y, vs, top)
    ensures Below(y + [Item(vs[0], 1, 0)], vs[1..], top)
  {
  }

  lemma {:induction false} FlushBelow(ts: seq<Target>, count: nat, y: seq<Item>, last: Item, vs: seq<real>)
    requires Below(y, vs, last.value) && vs != []
    ensures Flush(ts, Sketch(count, y + [last], vs)) == Sketch(count + |vs|, y + (Units(vs) + [last]), [])
  {
    SortedUnique(Sort(vs), vs);
    BatchBeforeLast(ts, y, last, 0, vs);
    hide MergePass, Sort, Units;
  }

  lemma {:induction false} BelowPlain(y: seq<Item>, last: Item, vs: seq<real>)
    requires Plain(y + [last]) && Below(y, vs, last.value)
    ensures Plain(y + (Units(vs) + [last]))
  {
    var s, t := y + [last], y + (Units(vs) + [last]);
    assert forall i | 0 <= i < |y| :: t[i] == s[i];
    assert t[|y| + |vs|] == last == s[|y|];
    assert forall i | 0 <= i < |vs| :: t[|y| + i] == Item(vs[i], 1, 0);
  }

  // ----- falling answers -----------------------------------------------------

  /** A bound between the thresholds of items i and i + 1 gets the scan at least to item i. */
  lemma {:induction false} ScanReaches(s: seq<Item>, i: nat, bound: real)
    requires Plain(s) && i + 1 < |s| && PrefixG(s, i + 1) as real <= bound
    ensures i <= Scan(s, 0, 0, bound)
  {
    ScanFindsFirst(s, 0, bound);
    var r := Scan(s, 0, 0, bound);
    if r < i {
      PrefixGIncreases(s, r + 2, i + 1);
      assert PlainItem(s[r + 1]);
    }
  }

  /** A bound below the threshold of item i stops the scan before it. */
  lemma {:induction false} ScanStops(s: seq<Item>, i: nat, bound: real)
    requires Plain(s) && 1 <= i < |s| && bound < PrefixG(s, i + 1) as real
    ensures Scan(s, 0, 0, bound) < i
  {
    ScanFindsFirst(s, 0, bound);
    assert PlainItem(s[i]);
    assert Passes(s, i, bound);
  }

  /** The answers to a query of a sample with a row, and of what another pass leaves of it. */
  lemma {:induction false} RowFalls(ts: seq<Target>, least: nat, x: seq<Item>, row: seq<Item>, w: seq<Item>)
    returns (r: nat)
    requires Loose(ts, least) && 2 * least <= |x| && 1 <= |x| && HasRow(x, row, w)
    ensures var s := x + (row + w); var s' := Compress(ts, s);
      && r <= Total(s) && s' != []
      && s'[Scan(s', 0, 0, Bound(ts, |s'|, r))].value < s[Scan(s, 0, 0, Bound(ts, |s|, r))].value
  {
    var s := x + (row + w);
    var j, x', d, w' := SecondPass(ts, least, x, row, w);
    var s' := Compress(ts, s);
    RowThresholds(x, row, w, j);
    hide Compress, Bound, Loose;
    r := RankAt(ts, |s|, Total(x) + 2 * (j + 1));
    FoldedThreshold(x', d, w');
    CompressFromShrinks(ts, s, 0);
    BoundGrows(ts, |s'|, |s|, r);
    FallAround(s, |x| + j, Bound(ts, |s|, r), s', |x'|, Bound(ts, |s'|, r));
  }

  lemma {:induction false} BoundGrows(ts: seq<Target>, n: nat, n': nat, r: nat)
    requires n <= n'
    ensures Bound(ts, n, r) <= Bound(ts, n', r)
  {
    ErrorGrows(ts, n, n', r);
  }

  lemma {:induction false} RowThresholds(x: seq<Item>, row: seq<Item>, w: seq<Item>, j: nat)
    requires HasRow(x, row, w) && 4 <= j <= 5
    ensures var s := x + (row + w);
      && s[|x| + j] == row[j] && PrefixG(s, |x| + j + 1) == Total(x) + 2 * (j + 1)
      && |s| < Total(x) + 2 * (j + 1) && Total(x) + 2 * (j + 2) <= Total(s)
  {
    var s := x + (row + w);
    RowTotal(x, row, w, j + 1);
    RowTotal(x, row, w, j + 2);
    assert forall i | 0 <= i < |x| :: s[i] == x[i];
    TotalAtLeast(x, |x|);
    PrefixGIncreases(s, |x| + j + 2, |s|);
  }

  lemma {:induction false} FoldedThreshold(x: seq<Item>, d: Item, w: seq<Item>)
    ensures PrefixG(x + [d] + w, |x| + 1) == Total(x) + d.g
  {
    PrefixGOf(x + [d], w, |x| + 1);
    PrefixGOf(x, [d], |x|);
  }

  lemma {:induction false} FallAround(s: seq<Item>, i: nat, bound: real, s': seq<Item>, i': nat, bound': real)
    requires Plain(s) && i + 1 < |s| && PrefixG(s, i + 1) as real <= bound
    requires Plain(s') && 1 <= i' < |s'| && bound' < PrefixG(s', i' + 1) as real
    requires forall k | 0 <= k < i' :: s'[k].value < s[i].value
    ensures s'[Scan(s', 0, 0, bound')].value < s[Scan(s, 0, 0, bound)].value
  {
    ScanReaches(s, i, bound);
    ScanStops(s', i', bound');
    var top := Scan(s, 0, 0, bound);
    assert i < top ==> s[i].value < s[top].value;
  }

  /** A sketch whose next two queries, both for the same quantile, are answered out of order. */
  lemma {:induction false} RowAnswers(ts: seq<Target>, ops: seq<Op>, s: seq<Item>, count: nat, r: nat)
    requires Settle(ts, Run(ts, ops)) == Sketch(count, s, []) && s != [] && 0 < count
    requires var s' := Compress(ts, s);
      && s' != []
      && s'[Scan(s', 0, 0, Bound(ts, |s'|, r))].value < s[Scan(s, 0, 0, Bound(ts, |s|, r))].value
    ensures !InOrder(ts, ops, r as real / count as real, r as real / count as real)
  {
    hide Run, Scan, Bound, Desired, Compress;
    DesiredRank(r, count);
    SettleAgain(ts, count, s);
  }

  lemma {:induction false} BaseBelow(s: seq<Item>, top: real, n: nat, vs: seq<real>)
    requires Base(s, top, n) && (n + 15) as real < top && vs == seq(15, i => (n + i) as real)
    ensures var y, last := s[..|s| - 1], s[|s| - 1];
      && s == y + [last] && Below(y, vs, last.value) && Plain(y + (Units(vs) + [last]))
      && Total(y + (Units(vs) + [last])) == Total(s) + 15
      && forall i | 0 <= i < 15 :: Units(vs)[i].g == 1
  {
    var y, last := s[..|s| - 1], s[|s| - 1];
    assert s == y + [last];
    assert Below(y, vs, last.value);
    hide Below;
    BelowPlain(y, last, vs);
    TotalConcat(y, Units(vs) + [last]);
    TotalConcat(Units(vs), [last]);
    TotalConcat(y, [last]);
    UnitsTotal(Units(vs), |vs|);
  }

  lemma {:induction false} UnitsTotal(u: seq<Item>, n: nat)
    requires n <= |u| && forall i | 0 <= i < |u| :: u[i].g == 1
    ensures PrefixG(u, n) == n
  {
    if n == 0 {
    } else {
      UnitsTotal(u, n - 1);
    }
  }

  lemma {:induction false} SettleBelow(ts: seq<Target>, ops: seq<Op>, y: seq<Item>, last: Item, vs: seq<real>)
    requires Run(ts, ops).pending == [] && Run(ts, ops).sample == y + [last]
    requires Below(y, vs, last.value) && |vs| == 15
    ensures Settle(ts, Run(ts, ops + Inserts(vs)))
      == Sketch(Run(ts, ops).count + 15, Compress(ts, y + (Units(vs) + [last])), [])
  {
    hide Run, Below, Inserts;
    PendingRun(ts, ops, vs);
    FlushBelow(ts, Run(ts, ops).count, y, last, vs);
    hide Flush;
  }

  lemma {:induction false} KeptState(ts: seq<Target>, vs: seq<real>)
    ensures Run(ts, OneByOne(vs)) == Sketch(|vs|, Kept(ts, vs), []) && Total(Kept(ts, vs)) == |vs|
  {
    hide Run, OneByOne, PrefixG;
    OneByOneRun(ts, vs);
    KeptItems(ts, vs);
  }

  lemma {:induction false} RowFromBase(ts: seq<Target>, least: nat, ops: seq<Op>, s: seq<Item>, top: real, n: nat)
    returns (ops': seq<Op>, x: seq<Item>, row: seq<Item>, w: seq<Item>)
    requires Loose(ts, least) && 4 * least + 2 < |s| && Base(s, top, n) && (n + 15) as real < top
    requires Run(ts, ops).pending == [] && Run(ts, ops).sample == s && Run(ts, ops).count == Total(s)
    ensures Settle(ts, Run(ts, ops')) == Sketch(Run(ts, ops).count + 15, x + (row + w), [])
    ensures Total(x + (row + w)) == Run(ts, ops).count + 15
    ensures HasRow(x, row, w) && 2 * least <= |x| && 1 <= |x|
  {
    var vs := seq(15, i => (n + i) as real);
    var y, last := s[..|s| - 1], s[|s| - 1];
    BaseBelow(s, top, n, vs);
    hide *;
    SettleBelow(ts, ops, y, last, vs);
    ops' := ops + Inserts(vs);
    x, row, w := FirstPass(ts, least, y, Units(vs), last);
  }

  /** The run: a large base, and fifteen values just below its maximum. */
  lemma {:induction false} RowRun(ts: seq<Target>, least: nat)
    returns (ops: seq<Op>, count: nat, x: seq<Item>, row: seq<Item>, w: seq<Item>)
    requires Loose(ts, least)
    ensures Settle(ts, Run(ts, ops)) == Sketch(count, x + (row + w), [])
    ensures HasRow(x, row, w) && 2 * least <= |x| && 1 <= |x| && 0 < count == Total(x + (row + w))
  {
    hide *;
    var top, n := LargeBase(ts, 4 * least + 2);
    KeptState(ts, Up(top, n));
    ops, x, row, w := RowFromBase(ts, least, OneByOne(Up(top, n)), Kept(ts, Up(top, n)), top, n);
    count := Run(ts, OneByOne(Up(top, n))).count + 15;
  }

  /** Without a tight target some query, asked twice in a row, is answered less the second time. */
  lemma {:induction false} RepeatFalls(ts: seq<Target>) returns (ops: seq<Op>, q: real)
    requires !HasTight(ts)
    ensures 0.0 <= q <= 1.0 && !InOrder(ts, ops, q, q)
  {
    hide *;
    var least := LooseTargets(ts);
    var count, x, row, w;
    ops, count, x, row, w := RowRun(ts, least);
    var r := RowFalls(ts, least, x, row, w);
    QuantileOf(r, r, count);
    q := r as real / count as real;
    RowAnswers(ts, ops, x + (row + w), count, r);
  }

  /**
   Whatever targets are tracked, successive queries are answered in the order of their
   quantiles, in every run, exactly when one of the targets is tight.
   */
  lemma {:induction false} SuccessiveExactly(ts: seq<Target>)
    ensures HasTight(ts) <==> forall ops, q, q' | 0.0 <= q <= q' <= 1.0 :: InOrder(ts, ops, q, q')
  {
    hide InOrder, HasTight;
    if HasTight(ts) {
      forall ops, q, q' | 0.0 <= q <= q' <= 1.0 ensures InOrder(ts, ops, q, q') {
        TightInOrder(ts, ops, q, q');
      }
    } else {
      var ops, q := RepeatFalls(ts);
    }
  }

  // ----- a small example -----------------------------------------------------

  const LOW: Target := NewTarget(0.25, 0.2)
  const PAIR := [Item(2.0, 1, 0), Item(4.0, 1, 0)]
  const THREE := [Item(1.0, 1, 2), Item(2.0, 1, 0), Item(4.0, 1, 0)]
  const QUARTET := [Item(1.0, 1, 2), Item(2.0, 1, 0), Item(3.0, 1, 0), Item(4.0, 1, 0)]
  const TRIO := [Item(1.0, 1, 2), Item(3.0, 2, 0), Item(4.0, 1, 0)]
  const DUO := [Item(1.0, 1, 2), Item(4.0, 3, 0)]

  lemma {:induction false} LowErrors()
    ensures Steady(LOW)
    ensures AllowableError([LOW], 2, 1) == 1.6 && AllowableError([LOW], 2, 2) == 3.0
    ensures AllowableError([LOW], 3, 1) == 1.6 && AllowableError([LOW], 3, 2) == 3.2
    ensures AllowableError([LOW], 4, 1) == 1.6 && AllowableError([LOW], 4, 2) == 3.2
  {
    assert [LOW][..0] == [];
    assert LOW.v == 1.6;
    assert LOW.u * 3.0 == 1.6;
    SingleTarget(LOW, 2, 1);
    SingleTarget(LOW, 2, 2);
    SingleTarget(LOW, 3, 1);
    SingleTarget(LOW, 3, 2);
    SingleTarget(LOW, 4, 1);
    SingleTarget(LOW, 4, 2);
  }

  lemma {:induction false} PairKept()
    ensures Kept([LOW], [4.0, 2.0]) == PAIR
  {
    var ts := [LOW];
    assert [4.0, 2.0][..1] == [4.0] && [4.0][..0] == [];
    KeptItems(ts, []);
    hide Kept, AllowableError;
    KeptNext(ts, [4.0]);
    KeptNext(ts, [4.0, 2.0]);
    assert Added(ts, [Item(4.0, 1, 0)], 2.0) == PAIR;
    LowErrors();
    assert !Mergeable(ts, PAIR, 0);
  }

  /** The insertion of 1 before 2 and 4 gets delta 2. */
  lemma {:induction false} FirstInserted(rest: seq<real>)
    ensures MergePass([LOW], PAIR, 0, [1.0] + rest) == MergePass([LOW], THREE, 0, rest)
  {
    LowErrors();
    hide AllowableError;
    assert ([1.0] + rest)[1..] == rest;
    assert Place(PAIR, 0, 1.0) == 0 && DeltaAt([LOW], 2, 0) == 2;
    assert InsertItem(PAIR, 0, Item(1.0, 1, 2)) == THREE;
  }

  lemma {:induction false} SecondInserted()
    ensures MergePass([LOW], THREE, 0, [3.0]) == QUARTET
  {
    LowErrors();
    hide AllowableError;
    assert [3.0][1..] == [];
    assert Place(THREE, 0, 3.0) == Place(THREE, 1, 3.0) == Place(THREE, 2, 3.0) == 2;
    assert DeltaAt([LOW], 3, 2) == 0;
    assert InsertItem(THREE, 2, Item(3.0, 1, 0)) == QUARTET;
    assert MergePass([LOW], QUARTET, 2, []) == QUARTET;
  }

  lemma {:induction false} QuartetFlushed()
    ensures Flush([LOW], Sketch(2, PAIR, [1.0, 3.0])) == Sketch(4, QUARTET, [])
  {
    SortedUnique(Sort([1.0, 3.0]), [1.0, 3.0]);
    FirstInserted([3.0]);
    SecondInserted();
    assert [1.0] + [3.0] == [1.0, 3.0];
    hide MergePass, Sort;
  }

  lemma {:induction false} QuartetCompressed()
    ensures Compress([LOW], QUARTET) == TRIO && Compress([LOW], TRIO) == DUO
  {
    var ts := [LOW];
    hide AllowableError;
    LowErrors();
    assert MergeAt(QUARTET, 1) == TRIO && MergeAt(TRIO, 1) == DUO;
    assert CompressFrom(ts, QUARTET, 0) == CompressFrom(ts, QUARTET, 1) == CompressFrom(ts, TRIO, 2);
    assert CompressFrom(ts, TRIO, 0) == CompressFrom(ts, TRIO, 1) == CompressFrom(ts, DUO, 2);
  }

  lemma {:induction false} QuartetAnswers()
    ensures Answer([LOW], Sketch(4, TRIO, []), 0.5) == Some(3.0) && Answer([LOW], Sketch(4, DUO, []), 0.6) == Some(1.0)
  {
    hide AllowableError;
    LowErrors();
    assert Desired(0.5, 4) == 2 && Desired(0.6, 4) == 2;
    assert Scan(TRIO, 0, 0, 3.6) == 1 && Scan(DUO, 0, 0, 3.5) == 0;
  }

  /**
   A steady target is no help: with (0.25, 0.2), after 4, a query, 2, a query, 1 and 3, the
   query for 0.5 is answered 3, and the query for 0.6 after it 1.
   */
  lemma {:induction false} SteadyFalls()
    ensures var ts, k := [LOW], Run([LOW], OneByOne([4.0, 2.0]) + Inserts([1.0, 3.0]));
      && Steady(LOW) && Get(ts, k, 0.5).1 == Some(3.0) && Get(ts, Get(ts, k, 0.5).0, 0.6).1 == Some(1.0)
  {
    var ts := [LOW];
    LowErrors();
    PairKept();
    QuartetFlushed();
    QuartetCompressed();
    QuartetAnswers();
    KeptState(ts, [4.0, 2.0]);
    hide Run, OneByOne, Inserts, Compress, Flush, Answer, Kept;
    PendingRun(ts, OneByOne([4.0, 2.0]), [1.0, 3.0]);
    SettleAgain(ts, 4, TRIO);
  }
}
