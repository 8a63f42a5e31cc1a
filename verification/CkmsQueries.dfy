/**
 What a query of the sketch promises: the rank guarantee over every run, when the rank
 bound is monotone in the rank, and when asking twice gives the same sketch.
 */
module CkmsQueries {
  import opened Wrappers
  import opened Sequences
  import opened CkmsSketch
  import opened CkmsProofs

  // ----- the scan ------------------------------------------------------------

  /** The scan stops before the first item whose total weight passes the bound. */
  ghost predicate Passes(s: seq<Item>, j: nat, bound: real)
    requires j < |s|
  {
    (PrefixG(s, j) + s[j].g + s[j].delta) as real > bound
  }

  lemma {:induction false} ScanFindsFirst(s: seq<Item>, i: nat, bound: real)
    requires i < |s|
    ensures var r := Scan(s, i, PrefixG(s, i), bound);
      && (forall j | i < j <= r :: !Passes(s, j, bound))
      && (r + 1 < |s| ==> Passes(s, r + 1, bound))
    decreases |s| - i
  {
    if i + 1 == |s| || Passes(s, i + 1, bound) {
    } else {
      ScanFindsFirst(s, i + 1, bound);
    }
  }

  lemma {:induction false} ScanMonotone(s: seq<Item>, i: nat, rankMin: int, lower: real, upper: real)
    requires i < |s| && lower <= upper
    ensures Scan(s, i, rankMin, lower) <= Scan(s, i, rankMin, upper)
    decreases |s| - i
  {
    if i + 1 == |s| || (rankMin + s[i].g + s[i + 1].g + s[i + 1].delta) as real > lower {
    } else {
      ScanMonotone(s, i + 1, rankMin + s[i].g, lower, upper);
    }
  }

  // ----- the rank guarantee --------------------------------------------------

  lemma {:induction false} LowGroups(s: seq<Item>, m: multiset<real>, gs: seq<multiset<real>>, i: nat)
    requires Groups(s, m, gs) && i < |s|
    ensures var low := Union(gs[..i + 1]);
      low <= m && |low| == PrefixG(s, i + 1) && forall y | y in low :: y <= s[i].value
  {
    var low := gs[..i + 1];
    UnionSize(s, gs, i + 1);
    assert forall j | 0 <= j < |low| :: low[j] == gs[j] && s[j].value <= s[i].value;
    UnionBounded(low, s[i].value);
    UnionConcat(low, gs[i + 1..]);
    assert gs == low + gs[i + 1..];
  }

  /** The observations that item i and the items before it stand for are all at most value(i). */
  lemma {:induction false} ItemRankLow(s: seq<Item>, log: seq<real>, i: nat)
    requires Summarizes(s, multiset(log)) && i < |s|
    ensures PrefixG(s, i + 1) <= CountLe(log, s[i].value)
    ensures i == |s| - 1 ==> forall x | x in log :: x <= s[i].value
  {
    var gs :| Groups(s, multiset(log), gs);
    LowGroups(s, multiset(log), gs, i);
    SubsetCountLe(Union(gs[..i + 1]), log, s[i].value);
    if i == |s| - 1 {
      assert gs[..i + 1] == gs;
      assert forall y | y in log :: y in multiset(log);
    }
  }

  lemma {:induction false} UnionSuffix(gs: seq<multiset<real>>, i: nat)
    requires i <= |gs|
    ensures Union(gs[i..]) <= Union(gs)
  {
    UnionConcat(gs[..i], gs[i..]);
    assert gs == gs[..i] + gs[i..];
  }

  /** Every item from i on stands for an observation that is at least value(i): its own value. */
  lemma {:induction false} ItemRankHigh(s: seq<Item>, log: seq<real>, i: nat)
    requires Summarizes(s, multiset(log)) && i < |s|
    ensures s[i].value in log
    ensures |s| - i <= CountGe(log, s[i].value)
  {
    var gs :| Groups(s, multiset(log), gs);
    ValuesObserved(s, gs, i);
    UnionSuffix(gs, i);
    LargeValues(s, i);
    var high := multiset(Values(s)[i..]);
    assert s[i].value in multiset(log) by {
      assert s[i].value in high;
    }
    SubsetCountGe(high, log, s[i].value);
  }

  lemma {:induction false} LargeValues(s: seq<Item>, i: nat)
    requires SortedItems(s) && i < |s|
    ensures var high := multiset(Values(s)[i..]);
      |high| == |s| - i && s[i].value in high && forall y | y in high :: s[i].value <= y
  {
    var high := Values(s)[i..];
    assert high[0] == s[i].value;
    assert forall y | y in multiset(high) :: y in high;
  }

  lemma {:induction false} SuffixParts(s: seq<Item>, gs: seq<multiset<real>>, i: nat)
    requires i < |s| == |gs|
    ensures Values(s)[i..] == [s[i].value] + Values(s)[i + 1..]
    ensures Union(gs[i..]) == gs[i] + Union(gs[i + 1..])
  {
    assert gs[i..][0] == gs[i] && gs[i..][1..] == gs[i + 1..];
  }

  lemma {:induction false} OneMore(x: real, vs: seq<real>, g: multiset<real>, rest: multiset<real>)
    requires x in g && multiset(vs) <= rest
    ensures multiset([x] + vs) <= g + rest
  {
    assert multiset{x} <= g;
  }

  /** The values of the items from i on are themselves observations of those items' groups. */
  lemma {:induction false} ValuesObserved(s: seq<Item>, gs: seq<multiset<real>>, i: nat)
    requires Grouping(s, gs) && i <= |s|
    ensures multiset(Values(s)[i..]) <= Union(gs[i..])
    decreases |s| - i
  {
    if i == |s| {
    } else {
      assert s[i].value in gs[i];
      hide Grouping, Union, Values;
      ValuesObserved(s, gs, i + 1);
      SuffixParts(s, gs, i);
      OneMore(s[i].value, Values(s)[i + 1..], gs[i], Union(gs[i + 1..]));
    }
  }

  /** What the answer of a settled sketch says about the observations it stands for. */
  ghost predicate RankGuarantee(ts: seq<Target>, k: Sketch, log: seq<real>, q: real) {
    var s := k.sample;
    match Answer(ts, k, q)
    case None => log == []
    case Some(a) =>
      var i := AnswerIndex(ts, k, q);
      var bound := Bound(ts, |s|, Desired(q, |log|));
      && a in log
      && |s| - i <= CountGe(log, a)
      && (i + 1 == |s| ==> forall x | x in log :: x <= a)
      && (i + 1 < |s| ==> CountLe(log, a) as real > bound - (s[i + 1].g + s[i + 1].delta) as real)
      && (i > 0 ==> (PrefixG(s, i + 1) + s[i].delta) as real <= bound)
      && PrefixG(s, i + 1) <= CountLe(log, a)
  }

  lemma {:induction false} SettledSummarizes(k: Sketch, log: multiset<real>)
    requires Represents(k, log) && k.pending == []
    ensures Summarizes(k.sample, log)
  {
    var flushed :| Splits(k, log, flushed);
    assert flushed + multiset([]) == flushed;
  }

  lemma {:induction false} AnswerGuarantee(ts: seq<Target>, k: Sketch, log: seq<real>, q: real)
    requires Represents(k, multiset(log)) && k.pending == []
    ensures RankGuarantee(ts, k, log, q)
  {
    var s := k.sample;
    Conservation(k, multiset(log));
    SettledSummarizes(k, multiset(log));
    if s == [] {
      assert log == [];
    } else {
      var bound := Bound(ts, |s|, Desired(q, |log|));
      ScanFindsFirst(s, 0, bound);
      var i := AnswerIndex(ts, k, q);
      ItemRankLow(s, log, i);
      ItemRankHigh(s, log, i);
      if i > 0 {
        assert !Passes(s, i, bound);
      }
    }
  }

  /** Every query of every run answers with the rank guarantee for the values inserted since the last reset. */
  lemma {:induction false} QueryGuarantee(ts: seq<Target>, ops: seq<Op>, q: real)
    ensures var (k, a) := Get(ts, Run(ts, ops), q);
      RankGuarantee(ts, k, Observed(ops), q) && a == Answer(ts, k, q)
  {
    var log := Observed(ops);
    RunRepresents(ts, ops);
    GetRepresents(ts, Run(ts, ops), multiset(log), q);
    AnswerGuarantee(ts, Get(ts, Run(ts, ops), q).0, log, q);
  }

  // ----- monotone bounds -----------------------------------------------------

  /** The targets whose contribution alone keeps rank + error / 2 from ever decreasing. */
  predicate Steady(t: Target) {
    (t.quantile < 1.0 && t.error <= 1.0 - t.quantile) || t.error >= 0.5
  }

  function Capped(t: Target, size: nat, rank: int): real {
    Lower(Contribution(t, size, rank), (size + 1) as real)
  }

  lemma {:induction false} ScaleLe(a: real, b: real, x: real)
    requires a <= b && 0.0 <= x
    ensures a * x <= b * x
  {
  }

  lemma {:induction false} ScaleLt(a: real, b: real, x: real)
    requires a < b && 0.0 < x
    ensures a * x < b * x
  {
  }

  /** The first branch, u * (n - x) for x up to q * n, ends at 2 * e * n. */
  lemma {:induction false} FirstBranch(u: real, q: real, e: real, n: real, x: real)
    requires u * (1.0 - q) == 2.0 * e && 0.0 <= u
    ensures u * (n - x) == 2.0 * e * n + u * (q * n - x)
    ensures x <= q * n ==> u * (n - x) >= 2.0 * e * n
  {
    assert u * (n - q * n) == (u * (1.0 - q)) * n;
    assert u * (n - x) == u * (n - q * n) + u * (q * n - x);
    if x <= q * n {
      ScaleLe(0.0, u, q * n - x);
    }
  }

  /** The second branch, v * x for x from q * n, starts at 2 * e * n. */
  lemma {:induction false} SecondBranch(v: real, q: real, e: real, n: real, x: real)
    requires v * q == 2.0 * e && 0.0 <= v && q * n <= x
    ensures v * x >= 2.0 * e * n
  {
    assert v * (q * n) == (v * q) * n;
    ScaleLe(q * n, x, v);
  }

  lemma {:induction false} WideFirst(t: Target, n: real, x: real)
    requires t.error >= 0.5 && 0.0 <= n && x <= t.quantile * n && t.quantile < 1.0
    ensures n <= t.u * (n - x)
  {
    FirstBranch(t.u, t.quantile, t.error, n, x);
    ScaleLe(1.0, 2.0 * t.error, n);
  }

  lemma {:induction false} WideSecond(t: Target, n: real, x: real)
    requires t.error >= 0.5 && 0.0 <= n && t.quantile * n <= x && 0.0 < t.quantile
    ensures n <= t.v * x
  {
    SecondBranch(t.v, t.quantile, t.error, n, x);
    ScaleLe(1.0, 2.0 * t.error, n);
  }

  /** With error at least 1/2 the contribution stays within one of the cap, in either branch. */
  lemma {:induction false} WideTarget(t: Target, size: nat, rank: int)
    requires t.error >= 0.5
    ensures size as real <= Capped(t, size, rank)
  {
    if rank as real <= t.quantile * size as real {
      if t.quantile < 1.0 {
        WideFirst(t, size as real, rank as real);
      }
    } else if t.quantile > 0.0 {
      WideSecond(t, size as real, rank as real);
    }
  }

  lemma {:induction false} FactorAtMost(u: real, w: real, e: real)
    requires u * w == 2.0 * e && e <= w && 0.0 < w
    ensures u <= 2.0
  {
    if u > 2.0 {
      ScaleLt(2.0, u, w);
    }
  }

  lemma {:induction false} FactorAbove(u: real, w: real, e: real)
    requires u * w == 2.0 * e && w < e && 0.0 < w
    ensures 2.0 < u
  {
    if u <= 2.0 {
      ScaleLe(u, 2.0, w);
    }
  }

  /** With error at most 1 - quantile the slope -u/2 of the first branch is at least -1. */
  lemma {:induction false} NarrowFactor(t: Target)
    requires t.quantile < 1.0 && t.error <= 1.0 - t.quantile
    ensures t.u <= 2.0
  {
    FactorAtMost(t.u, 1.0 - t.quantile, t.error);
  }

  lemma {:induction false} NarrowFirst(u: real, n: real, x: real, y: real)
    requires 0.0 <= u <= 2.0 && x <= y
    ensures u * (n - x) <= u * (n - y) + 2.0 * (y - x)
  {
    ScaleLe(u, 2.0, y - x);
    assert u * (n - x) == u * (n - y) + u * (y - x);
  }

  lemma {:induction false} NarrowAcross(t: Target, n: real, x: real, y: real)
    requires t.u <= 2.0 && 0.0 < t.quantile < 1.0 && x <= t.quantile * n <= y
    ensures t.u * (n - x) <= t.v * y + 2.0 * (y - x)
  {
    var corner := t.quantile * n;
    SecondBranch(t.v, t.quantile, t.error, n, y);
    FirstBranch(t.u, t.quantile, t.error, n, corner);
    NarrowFirst(t.u, n, x, corner);
  }

  lemma {:induction false} NarrowSecond(v: real, x: real, y: real)
    requires 0.0 <= v && x <= y
    ensures v * x <= v * y + 2.0 * (y - x)
  {
    ScaleLe(x, y, v);
    assert v * x == x * v && v * y == y * v;
  }

  /** c falls by at most gap to c', where no contribution is as good as an unbounded one. */
  ghost predicate Falls(c: Option<real>, c': Option<real>, gap: real) {
    c'.None? || (c.Some? && c.value <= c'.value + gap)
  }

  lemma {:induction false} CappedFalls(c: Option<real>, c': Option<real>, gap: real, cap: real)
    requires Falls(c, c', gap) && 0.0 <= gap
    ensures Lower(c, cap) <= Lower(c', cap) + gap
  {
  }

  lemma {:induction false} NarrowContribution(t: Target, size: nat, r: int, r': int)
    requires t.u <= 2.0 && t.quantile < 1.0 && r <= r'
    ensures Falls(Contribution(t, size, r), Contribution(t, size, r'), 2.0 * (r' as real - r as real))
  {
    var n, x, y := size as real, r as real, r' as real;
    if y <= t.quantile * n {
      NarrowFirst(t.u, n, x, y);
    } else if t.quantile > 0.0 {
      if x <= t.quantile * n {
        NarrowAcross(t, n, x, y);
      } else {
        NarrowSecond(t.v, x, y);
      }
    }
  }

  lemma {:induction false} NarrowTarget(t: Target, size: nat, r: int, r': int)
    requires t.quantile < 1.0 && t.error <= 1.0 - t.quantile && r <= r'
    ensures Capped(t, size, r) <= Capped(t, size, r') + 2.0 * (r' as real - r as real)
  {
    NarrowFactor(t);
    NarrowContribution(t, size, r, r');
    var gap := 2.0 * (r' as real - r as real);
    CappedFalls(Contribution(t, size, r), Contribution(t, size, r'), gap, (size + 1) as real);
  }

  lemma {:induction false} SteadyTarget(t: Target, size: nat, r: int, r': int)
    requires Steady(t) && r <= r'
    ensures r as real + Capped(t, size, r) / 2.0 <= r' as real + Capped(t, size, r') / 2.0
  {
    if t.error >= 0.5 {
      WideTarget(t, size, r');
      assert Capped(t, size, r) <= (size + 1) as real;
    } else {
      NarrowTarget(t, size, r, r');
    }
  }

  lemma {:induction false} BoundMonotone(ts: seq<Target>, size: nat, r: int, r': int)
    requires r <= r' && forall t | t in ts :: Steady(t)
    ensures Bound(ts, size, r) <= Bound(ts, size, r')
  {
    if ts == [] {
    } else {
      var t, rest := ts[|ts| - 1], ts[..|ts| - 1];
      BoundMonotone(rest, size, r, r');
      SteadyTarget(t, size, r, r');
      ErrorCapped(rest, size, r);
      ErrorCapped(rest, size, r');
    }
  }

  lemma {:induction false} ErrorCapped(ts: seq<Target>, size: nat, rank: int)
    ensures AllowableError(ts, size, rank) <= (size + 1) as real
  {
    if ts == [] {
    } else {
      ErrorCapped(ts[..|ts| - 1], size, rank);
    }
  }

  /**
   A target that is not steady makes the bound fall by at least one from some rank to a
   later one, while it stays above the sample size by four.
   */
  lemma {:induction false} FallingRanks(t: Target) returns (size: nat, r: nat, r': nat)
    requires !Steady(t)
    ensures 6 < size && r < r' <= size + 1 && r <= size
    ensures (size + 4) as real <= Bound([t], size, r)
    ensures Bound([t], size, r') + 1.0 <= Bound([t], size, r)
  {
    if t.quantile == 1.0 {
      size := LargeMultiple(1.0 - 2.0 * t.error, 7.0);
      r, r' := size, size + 1;
      FallPastLast(t, size);
    } else {
      size, r, r' := FallBeforeCorner(t);
    }
    SingleTarget(t, size, r);
    SingleTarget(t, size, r');
  }

  lemma {:induction false} FallPastLast(t: Target, size: nat)
    requires t.quantile == 1.0 && t.error < 0.5 && size as real * (1.0 - 2.0 * t.error) > 7.0
    ensures 7 < size
    ensures Capped(t, size, size) == (size + 1) as real
    ensures (size + 1) as real + Capped(t, size, size + 1) / 2.0 + 1.0 <= size as real + (size + 1) as real / 2.0
  {
    assert t.quantile * size as real == size as real;
    assert t.v == 2.0 * t.error;
    assert (size + 1) as real == size as real + 1.0;
    LastDrop(t.v, t.error, size as real);
  }

  lemma {:induction false} LastDrop(v: real, e: real, n: real)
    requires v == 2.0 * e && 0.0 <= e < 0.5 && 0.0 <= n && n * (1.0 - 2.0 * e) > 7.0
    ensures 7.0 < n && v * (n + 1.0) < n + 1.0
    ensures n + 1.0 + v * (n + 1.0) / 2.0 + 1.0 <= n + (n + 1.0) / 2.0
  {
    ScaleLe(0.0, e, n);
    assert n * (1.0 - 2.0 * e) == n - 2.0 * (e * n);
    assert v * (n + 1.0) == 2.0 * (e * n) + 2.0 * e;
  }

  /** The quantile of such a target below 1 is above 1/2, and its first branch is steeper than the rank. */
  lemma {:induction false} UnsteadyFactor(t: Target)
    requires !Steady(t) && t.quantile < 1.0
    ensures 2.0 < t.u && 0.5 < t.quantile
  {
    FactorAbove(t.u, 1.0 - t.quantile, t.error);
  }

  lemma {:induction false} FallBeforeCorner(t: Target) returns (size: nat, r: nat, r': nat)
    requires !Steady(t) && t.quantile < 1.0
    ensures 6 < size && r < r' <= size
    ensures (size + 4) as real <= r as real + Capped(t, size, r) / 2.0
    ensures r' as real + Capped(t, size, r') / 2.0 + 1.0 <= r as real + Capped(t, size, r) / 2.0
  {
    UnsteadyFactor(t);
    var gap := LargeMultiple(t.u - 2.0, 2.0);
    assert Times(gap as real, t.u - 2.0) > 2.0 && Times(t.u, 1.0 - t.quantile) == 2.0 * t.error;
    hide *;
    var corner, tolerance: real;
    size, corner, tolerance := CornerSize(t.u, t.quantile, t.error, gap);
    r, r' := CornerFloor(corner, gap, size);
    CornerDrop(t.u, size as real, corner, tolerance, r as real, r' as real, gap as real);
    FirstBranchCapped(t, size, r', corner);
    FirstBranchCapped(t, size, r, corner);
  }

  /** Multiplication, so that it can be hidden where only sums of products matter. */
  ghost function Times(a: real, b: real): real {
    a * b
  }

  lemma {:induction false} FirstBranchCapped(t: Target, size: nat, rank: nat, corner: real)
    requires rank as real <= corner == Times(t.quantile, size as real) && t.quantile < 1.0
    requires Times(t.u, size as real - rank as real) <= size as real
    ensures Capped(t, size, rank) == Times(t.u, size as real - rank as real)
  {
  }

  /**
   corner is where the first branch ends and tolerance half its error there. From the last
   whole rank y before it, the bound is higher by one d ranks further left, and still uncapped.
   */
  ghost predicate CornerOf(u: real, n: real, corner: real, tolerance: real, d: real) {
    && 2.0 < u && 0.0 < d && Times(u, n - corner) == 2.0 * tolerance
    && Times(u, d) > 2.0 * d + 2.0 && n > 2.0 * tolerance + Times(u, d) + u && corner + tolerance > n + 3.0
  }

  lemma {:induction false} CornerSize(u: real, q: real, e: real, gap: nat)
    returns (size: nat, corner: real, tolerance: real)
    requires 2.0 < u && 0.5 < q < 1.0 && 1.0 - q < e < 0.5
    requires 2 <= gap && Times(gap as real, u - 2.0) > 2.0 && Times(u, 1.0 - q) == 2.0 * e
    ensures 6 < size && corner == Times(q, size as real) && (gap + 1) as real <= corner <= size as real
    ensures CornerOf(u, size as real, corner, tolerance, gap as real)
  {
    hide Times;
    var d := gap as real;
    GapTimes(d, u);
    size := CornerMultiple(q, e, Times(u, d) + u + 9.0);
    corner, tolerance := Times(q, size as real), Times(e, size as real);
    CornerEnd(u, q, e, size as real);
  }

  lemma {:induction false} GapTimes(d: real, u: real)
    ensures Times(d, u - 2.0) == Times(u, d) - 2.0 * d
  {
  }

  lemma {:induction false} CornerFloor(corner: real, gap: nat, size: nat) returns (r: nat, r': nat)
    requires (gap + 1) as real <= corner <= size as real
    ensures r + gap == r' <= size && r' as real - r as real == gap as real
    ensures corner - 1.0 < r' as real <= corner
  {
    r' := corner.Floor;
    r := r' - gap;
  }

  lemma {:induction false} CornerEnd(u: real, q: real, e: real, n: real)
    requires Times(u, 1.0 - q) == 2.0 * e
    ensures Times(u, n - Times(q, n)) == 2.0 * Times(e, n)
  {
    assert u * (n - q * n) == (u * (1.0 - q)) * n;
  }

  /** A size that makes all the distances larger than c. */
  lemma {:induction false} CornerMultiple(q: real, e: real, c: real) returns (size: nat)
    requires 0.5 < q < 1.0 && 1.0 - q < e < 0.5 && 0.0 <= c
    ensures var n := size as real;
      && c < n && c < 2.0 * Times(q, n) && Times(q, n) <= n
      && n - 2.0 * Times(e, n) > c && Times(q, n) + Times(e, n) - n > c
  {
    size := LargeForBoth(1.0 - 2.0 * e, q + e - 1.0, c);
    MultipleParts(q, e, size as real);
  }

  lemma {:induction false} MultipleParts(q: real, e: real, n: real)
    requires 0.5 < q < 1.0 && 0.0 < e && 0.0 <= n
    ensures (1.0 - 2.0 * e) * n == n - 2.0 * Times(e, n) && (q + e - 1.0) * n == Times(q, n) + Times(e, n) - n
    ensures 0.0 <= Times(e, n) && n <= 2.0 * Times(q, n) && Times(q, n) <= n
  {
    ScaleLe(q, 1.0, n);
    ScaleLe(0.0, e, n);
    ScaleLe(0.5, q, n);
  }

  lemma {:induction false} LargeForBoth(a: real, b: real, c: real) returns (n: nat)
    requires 0.0 < a && 0.0 < b && 0.0 <= c
    ensures a * n as real > c && b * n as real > c
  {
    var least := if a < b then a else b;
    n := LargeMultiple(least, c);
    ScaleLe(least, a, n as real);
    ScaleLe(least, b, n as real);
    assert n as real * least == least * n as real;
  }

  lemma {:induction false} Distribute(a: real, b: real, c: real, sum: real)
    requires sum == b + c
    ensures Times(a, sum) == Times(a, b) + Times(a, c)
  {
  }

  lemma {:induction false} FractionOf(f: real, u: real)
    requires 0.0 <= f <= 1.0 && 2.0 <= u
    ensures 2.0 * f <= Times(u, f) <= u
  {
    ScaleLe(2.0, u, f);
    ScaleLe(f, 1.0, u);
  }

  /** The first branch just before its end: d ranks further left it is still uncapped, and the bound higher by one. */
  lemma {:induction false} CornerDrop(u: real, n: real, corner: real, tolerance: real, x: real, y: real, d: real)
    requires CornerOf(u, n, corner, tolerance, d) && corner - 1.0 < y <= corner && x + d == y
    ensures var (low, high) := (Times(u, n - y), Times(u, n - x));
      low <= high <= n && n + 4.0 <= x + high / 2.0 && y + low / 2.0 + 1.0 <= x + high / 2.0
  {
    hide Times;
    FractionOf(corner - y, u);
    Distribute(u, n - corner, corner - y, n - y);
    Distribute(u, n - y, d, n - x);
  }

  /** A sample size of at least two whose multiple of a passes b. */
  lemma {:induction false} LargeMultiple(a: real, b: real) returns (n: nat)
    requires 0.0 < a && 0.0 <= b
    ensures n >= 2 && n as real * a > b
  {
    n := (b / a).Floor + 2;
    var ratio := b / a;
    assert ratio * a == b;
    ScaleLt(ratio, n as real, a);
  }

  lemma {:induction false} SingleTarget(t: Target, size: nat, rank: int)
    ensures Bound([t], size, rank) == rank as real + Capped(t, size, rank) / 2.0
  {
    assert [t][..0] == [];
    assert AllowableError([t], size, rank) == Lower(Contribution(t, size, rank), AllowableError([], size, rank));
  }

  /** Exactly when tracking a target keeps the rank bound monotone, whatever the sample size. */
  lemma {:induction false} SteadyExactly(t: Target)
    ensures Steady(t) <==> forall size: nat, r: nat, r': nat | r <= r' :: Bound([t], size, r) <= Bound([t], size, r')
  {
    if Steady(t) {
      forall size: nat, r: nat, r': nat | r <= r' ensures Bound([t], size, r) <= Bound([t], size, r') {
        BoundMonotone([t], size, r, r');
      }
    } else {
      var size, r, r' := FallingRanks(t);
    }
  }

  lemma {:induction false} DesiredMonotone(q: real, q': real, count: nat)
    requires q <= q'
    ensures Desired(q, count) <= Desired(q', count)
  {
    ScaleLe(q, q', count as real);
  }

  /** On one settled sketch a larger quantile never gets a smaller answer, if every target is steady. */
  lemma {:induction false} AnswersMonotone(ts: seq<Target>, k: Sketch, q: real, q': real)
    requires SortedItems(k.sample) && k.sample != [] && q <= q'
    requires forall t | t in ts :: Steady(t)
    ensures Answer(ts, k, q).value <= Answer(ts, k, q').value
  {
    var n := |k.sample|;
    DesiredMonotone(q, q', k.count);
    BoundMonotone(ts, n, Desired(q, k.count), Desired(q', k.count));
    ScanMonotone(k.sample, 0, 0, Bound(ts, n, Desired(q, k.count)), Bound(ts, n, Desired(q', k.count)));
  }

  lemma {:induction false} RepresentedSorted(k: Sketch, log: multiset<real>)
    requires Represents(k, log)
    ensures SortedItems(k.sample)
  {
    var flushed :| Splits(k, log, flushed);
    var gs :| Groups(k.sample, flushed, gs);
  }

  /** In every run, queries of the sketch that a query leaves behind are monotone, if every target is steady. */
  lemma {:induction false} RunAnswersMonotone(ts: seq<Target>, ops: seq<Op>, q: real, q': real)
    requires q <= q' && forall t | t in ts :: Steady(t)
    ensures var k := Settle(ts, Run(ts, ops));
      Observed(ops) != [] ==> k.sample != [] && Answer(ts, k, q).value <= Answer(ts, k, q').value
  {
    var k, log := Settle(ts, Run(ts, ops)), Observed(ops);
    RunRepresents(ts, ops);
    GetRepresents(ts, Run(ts, ops), multiset(log), q);
    RepresentedSorted(k, multiset(log));
    Conservation(k, multiset(log));
    if log != [] {
      AnswersMonotone(ts, k, q, q');
    }
  }

  // ----- asking twice --------------------------------------------------------

  /** A second query leaves the sketch alone exactly when no neighbours can still be merged. */
  lemma {:induction false} SecondQueryStable(ts: seq<Target>, k: Sketch, q: real, q': real)
    ensures var settled := Get(ts, k, q).0;
      Get(ts, settled, q').0 == settled
      <==> forall j: nat | j + 1 < |settled.sample| :: !Mergeable(ts, settled.sample, j)
  {
    var settled := Get(ts, k, q).0;
    CompressFromFixpoint(ts, settled.sample, 0);
  }

  const SHARP_LOW: Target := NewTarget(0.1, 0.5)
  const TWO_LEFT := [Item(2.0, 2, 0), Item(9.0, 1, 0)]

  lemma {:induction false} SharpLowErrors()
    ensures AllowableError([SHARP_LOW], 3, 1) == 4.0 && AllowableError([SHARP_LOW], 2, 1) == 3.0
    ensures AllowableError([SHARP_LOW], 2, 0) < 3.0
  {
    assert [SHARP_LOW][..0] == [];
    assert SHARP_LOW.v == 10.0;
    assert SHARP_LOW.u < 1.5;
    SingleTarget(SHARP_LOW, 3, 1);
    SingleTarget(SHARP_LOW, 2, 1);
    SingleTarget(SHARP_LOW, 2, 0);
  }

  lemma {:induction false} ThreeValuesSettle()
    ensures Settle([SHARP_LOW], Sketch(1, [Item(9.0, 1, 0)], [1.0, 2.0])) == Sketch(3, TWO_LEFT, [])
  {
    var ts := [SHARP_LOW];
    var nine, three := [Item(9.0, 1, 0)], [Item(1.0, 1, 0), Item(2.0, 1, 0), Item(9.0, 1, 0)];
    assert [1.0, 2.0][1..] == [2.0];
    assert Sort([2.0]) == [2.0];
    assert Sort([1.0, 2.0]) == [1.0, 2.0];
    var two := [Item(1.0, 1, 0), Item(9.0, 1, 0)];
    assert InsertItem(nine, 0, Item(1.0, 1, 0)) == two;
    assert Place(two, 0, 2.0) == 1;
    assert InsertItem(two, 1, Item(2.0, 1, 0)) == three;
    assert MergePass(ts, two, 0, [2.0]) == three;
    SharpLowErrors();
    assert MergeAt(three, 0) == TWO_LEFT;
  }

  /**
   It can differ, because one compress pass is not a fixpoint. After the insertion of 9, a
   query, and the insertions of 1 and 2, the query for 0.1 is answered 2; repeated, 9.
   */
  lemma {:induction false} SecondQueryDiffers()
    ensures var ts := [SHARP_LOW];
      var k := Run(ts, [InsertOp(9.0), GetOp(0.1), InsertOp(1.0), InsertOp(2.0)]);
      && Get(ts, k, 0.1).1 == Some(2.0)
      && Get(ts, Get(ts, k, 0.1).0, 0.1).1 == Some(9.0)
  {
    var ts := [SHARP_LOW];
    var ops := [InsertOp(9.0), GetOp(0.1), InsertOp(1.0), InsertOp(2.0)];
    assert ops[..3] == [InsertOp(9.0), GetOp(0.1), InsertOp(1.0)];
    assert ops[..3][..2] == [InsertOp(9.0), GetOp(0.1)];
    assert ops[..3][..2][..1] == [InsertOp(9.0)];
    assert Run(ts, ops[..3][..2][..1]) == Sketch(0, [], [9.0]);
    assert Sort([9.0]) == [9.0];
    assert Run(ts, ops[..3][..2]) == Sketch(1, [Item(9.0, 1, 0)], []);
    assert Run(ts, ops) == Sketch(1, [Item(9.0, 1, 0)], [1.0, 2.0]);
    ThreeValuesSettle();
    SecondAnswer();
  }

  lemma {:induction false} SecondAnswer()
    ensures var ts := [SHARP_LOW];
      && Answer(ts, Sketch(3, TWO_LEFT, []), 0.1) == Some(2.0)
      && Get(ts, Sketch(3, TWO_LEFT, []), 0.1).1 == Some(9.0)
  {
    SharpLowErrors();
    assert Desired(0.1, 3) == 0;
    assert MergeAt(TWO_LEFT, 0) == [Item(9.0, 3, 0)];
  }
}
