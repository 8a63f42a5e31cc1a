/**
 What every operation of the sketch leaves, told by its result alone: the least of the targets'
 bounds, the place and the delta of an inserted value, the pairs a compress pass folds, the item
 a query answers with, and what happens when the buffer is full.
 */
module CkmsExact {
  import opened Wrappers
  import opened Sequences
  import opened CkmsSketch
  import opened CkmsProofs
  import opened CkmsQueries
  import opened CkmsGrowth

  // ----- the error bound -----------------------------------------------------

  /**
   x is the bound target t sets at a rank: twice the tolerated share of the items beyond the
   rank, or of those up to it. A bound that is a division by zero is none.
   */
  ghost predicate Bounds(t: Target, size: nat, rank: int, x: real) {
    var n, r := size as real, rank as real;
    if r <= t.quantile * n then t.quantile < 1.0 && x * (1.0 - t.quantile) == 2.0 * t.error * (n - r)
    else t.quantile > 0.0 && x * t.quantile == 2.0 * t.error * r
  }

  lemma {:induction false} Quotient(x: real, c: real, u: real, e: real, y: real)
    requires c > 0.0 && u * c == e
    ensures x * c == e * y <==> x == u * y
  {
    assert e * y == (u * y) * c;
    assert x * c == (u * y) * c <==> x == u * y by {
      CancelFactor(x, u * y, c);
    }
  }

  lemma {:induction false} CancelFactor(x: real, y: real, c: real)
    requires c > 0.0
    ensures x * c == y * c <==> x == y
  {
    if x < y {
      ScaleLt(x, y, c);
    } else if y < x {
      ScaleLt(y, x, c);
    }
  }

  lemma {:induction false} ContributionExactly(t: Target, size: nat, rank: int, x: real)
    ensures Bounds(t, size, rank, x) <==> Contribution(t, size, rank) == Some(x)
  {
    var n, r, c := size as real, rank as real, Contribution(t, size, rank);
    if r <= t.quantile * n {
      if t.quantile < 1.0 {
        Quotient(x, 1.0 - t.quantile, t.u, 2.0 * t.error, n - r);
        assert c.Some? && c.value == t.u * (n - r);
      }
    } else if t.quantile > 0.0 {
      Quotient(x, t.quantile, t.v, 2.0 * t.error, r);
      assert c.Some? && c.value == t.v * r;
    }
  }

  /** e is the least of size + 1 and the bounds the targets set. */
  ghost predicate IsLeast(ts: seq<Target>, size: nat, rank: int, e: real) {
    && e <= (size + 1) as real
    && (forall i, x | 0 <= i < |ts| && Bounds(ts[i], size, rank, x) :: e <= x)
    && (e == (size + 1) as real || exists i | 0 <= i < |ts| :: Bounds(ts[i], size, rank, e))
  }

  lemma {:induction false} LeastIs(ts: seq<Target>, size: nat, rank: int)
    ensures IsLeast(ts, size, rank, AllowableError(ts, size, rank))
  {
    if ts == [] {
    } else {
      var t, rest := ts[|ts| - 1], ts[..|ts| - 1];
      var e, least := AllowableError(ts, size, rank), AllowableError(rest, size, rank);
      LeastIs(rest, size, rank);
      hide Bounds, Contribution;
      forall i, x | 0 <= i < |ts| && Bounds(ts[i], size, rank, x) ensures e <= x {
        ContributionExactly(ts[i], size, rank, x);
        assert i < |rest| ==> rest[i] == ts[i];
      }
      ContributionExactly(t, size, rank, e);
      if e == least && e != (size + 1) as real {
        var i :| 0 <= i < |rest| && Bounds(rest[i], size, rank, e);
        assert ts[i] == rest[i];
      }
    }
  }

  /** The error bound is the least bound any target sets, and never more than size + 1. */
  lemma {:induction false} ErrorExactly(ts: seq<Target>, size: nat, rank: int, e: real)
    ensures IsLeast(ts, size, rank, e) <==> e == AllowableError(ts, size, rank)
  {
    LeastIs(ts, size, rank);
    hide Bounds;
  }

  // ----- where a value goes --------------------------------------------------

  /**
   p is the place of v in s, searched from item c: all items passed are below v, but for the
   last one, which may equal it; the item at the place is above v unless that one does.
   */
  ghost predicate IsPlace(s: seq<Item>, c: nat, v: real, p: nat) {
    && c <= p <= |s|
    && (forall i | c <= i < p - 1 :: s[i].value < v)
    && (c < p ==> s[p - 1].value <= v)
    && (p < |s| ==> v < s[p].value || (c < p && s[p - 1].value == v))
  }

  /** The search finds this place, and no other fits. */
  lemma {:induction false} PlaceExactly(s: seq<Item>, c: nat, v: real, p: nat)
    requires c < |s|
    ensures IsPlace(s, c, v, p) <==> p == Place(s, c, v)
    decreases |s| - c
  {
    if s[c].value < v && c + 1 < |s| {
      PlaceExactly(s, c + 1, v, p);
    }
  }

  // ----- the items a flush inserts -------------------------------------------

  /** The delta of a value put at place p of n items: 0 at two places, elsewhere the least integer above the bound. */
  ghost predicate IsDelta(ts: seq<Target>, n: nat, p: nat, delta: int) {
    if p == 1 || p + 1 == n then delta == 0
    else 1 <= delta && (delta - 1) as real <= AllowableError(ts, n, p + 1) < delta as real
  }

  lemma {:induction false} DeltaExactly(ts: seq<Target>, n: nat, p: nat, delta: int)
    ensures IsDelta(ts, n, p, delta) <==> delta == DeltaAt(ts, n, p)
  {
    ErrorNonNegative(ts, n, p + 1);
  }

  ghost predicate Rises(places: seq<nat>, n: nat) {
    && (forall i | 0 <= i < |places| :: places[i] < n)
    && (forall i, j | 0 <= i < j < |places| :: places[i] < places[j])
  }

  /**
   r holds the items of s, unchanged and in order, at the places kept, and the values of the
   batch, in order, at the other places: each for itself alone, with the delta of its place in
   the items that were there when it came.
   */
  ghost predicate Merged(ts: seq<Target>, s: seq<Item>, batch: seq<real>, r: seq<Item>,
                         places: seq<nat>, kept: seq<nat>)
  {
    && |places| == |batch| && |kept| == |s| && |r| == |s| + |batch|
    && Rises(places, |r|) && Rises(kept, |r|)
    && (forall i, k | 0 <= i < |places| && 0 <= k < |kept| :: places[i] != kept[k])
    && (forall k | 0 <= k < |s| :: r[kept[k]] == s[k])
    && (forall i | 0 <= i < |batch| :: NewItem(ts, |s| + i, places[i], r[places[i]], batch[i]))
  }

  ghost predicate NewItem(ts: seq<Target>, n: nat, p: nat, it: Item, v: real) {
    it.value == v && it.g == 1 && IsDelta(ts, n, p, it.delta)
  }

  /** The items before the first new one stay where they are. */
  ghost predicate Before(places: seq<nat>, kept: seq<nat>) {
    forall k | 0 <= k < |kept| && (places != [] ==> k < places[0]) :: kept[k] == k
  }

  lemma {:induction false} MergedNone(ts: seq<Target>, s: seq<Item>) returns (kept: seq<nat>)
    ensures Merged(ts, s, [], s, [], kept) && Before([], kept)
  {
    kept := seq(|s|, k => k);
  }

  lemma {:induction false} KeptAround(kept: seq<nat>, p: nat, n: nat)
    requires p < |kept| && kept[p] == p && Rises(kept, n)
    ensures var kept' := kept[..p] + kept[p + 1..];
      Rises(kept', n) && forall k | 0 <= k < |kept'| :: kept'[k] != p
  {
    var kept' := kept[..p] + kept[p + 1..];
    forall k | 0 <= k < |kept'| ensures kept'[k] == kept[if k < p then k else k + 1] {
    }
  }

  lemma {:induction false} PlacesAround(places: seq<nat>, p: nat, n: nat)
    requires p < n && Rises(places, n) && forall i | 0 <= i < |places| :: p < places[i]
    ensures Rises([p] + places, n)
  {
  }

  lemma {:induction false} ItemsAround(s: seq<Item>, p: nat, it: Item, r: seq<Item>, kept: seq<nat>)
    requires p <= |s| && |kept| == |s| + 1 && Rises(kept, |r|)
    requires forall k | 0 <= k <= |s| :: r[kept[k]] == InsertItem(s, p, it)[k]
    ensures var kept' := kept[..p] + kept[p + 1..];
      Rises(kept', |r|) ==> forall k | 0 <= k < |s| :: r[kept'[k]] == s[k]
  {
    var kept' := kept[..p] + kept[p + 1..];
    forall k | 0 <= k < |s|
      ensures kept'[k] == kept[if k < p then k else k + 1] && InsertItem(s, p, it)[if k < p then k else k + 1] == s[k]
    {
    }
  }

  lemma {:induction false} NewAround(ts: seq<Target>, n: nat, p: nat, batch: seq<real>, r: seq<Item>, places: seq<nat>)
    requires batch != [] && |places| == |batch| - 1 && Rises([p] + places, |r|)
    requires p < |r| && NewItem(ts, n, p, r[p], batch[0])
    requires Rises(places, |r|)
    requires forall i | 0 <= i < |places| :: NewItem(ts, n + 1 + i, places[i], r[places[i]], batch[1..][i])
    ensures forall i | 0 <= i < |batch| :: NewItem(ts, n + i, ([p] + places)[i], r[([p] + places)[i]], batch[i])
  {
    hide NewItem;
    forall i | 0 <= i < |batch| ensures NewItem(ts, n + i, ([p] + places)[i], r[([p] + places)[i]], batch[i]) {
      if i > 0 {
        assert NewItem(ts, n + 1 + (i - 1), places[i - 1], r[places[i - 1]], batch[1..][i - 1]);
      }
    }
  }

  lemma {:induction false} MergedOne(ts: seq<Target>, s: seq<Item>, p: nat, it: Item, batch: seq<real>, r: seq<Item>,
        places: seq<nat>, kept: seq<nat>)
    returns (kept': seq<nat>)
    requires p <= |s| && batch != [] && NewItem(ts, |s|, p, it, batch[0])
    requires Merged(ts, InsertItem(s, p, it), batch[1..], r, places, kept) && Before(places, kept)
    requires forall i | 0 <= i < |places| :: p < places[i]
    ensures Merged(ts, s, batch, r, [p] + places, kept') && Before([p] + places, kept')
  {
    kept' := kept[..p] + kept[p + 1..];
    assert InsertItem(s, p, it)[p] == it;
    assert kept[p] == p && r[p] == it;
    assert |InsertItem(s, p, it)| == |s| + 1;
    KeptAround(kept, p, |r|);
    PlacesAround(places, p, |r|);
    ItemsAround(s, p, it, r, kept);
    NewAround(ts, |s|, p, batch, r, places);
    hide NewItem, Rises, InsertItem;
    forall i, k | 0 <= i < |[p] + places| && 0 <= k < |kept'| ensures ([p] + places)[i] != kept'[k] {
      assert kept'[k] == kept[if k < p then k else k + 1];
    }
  }

  lemma {:induction false} MergePassMerges(ts: seq<Target>, s: seq<Item>, c: nat, batch: seq<real>)
    returns (kept: seq<nat>)
    requires c < |s| && Sorted(batch) && SortedItems(s)
    requires batch != [] ==> forall i | 0 <= i < c :: s[i].value <= batch[0]
    ensures Merged(ts, s, batch, MergePass(ts, s, c, batch), Places(ts, s, c, batch), kept)
    ensures Before(Places(ts, s, c, batch), kept)
    decreases |batch|
  {
    if batch == [] {
      kept := MergedNone(ts, s);
    } else {
      var p := Place(s, c, batch[0]);
      var it := Item(batch[0], 1, DeltaAt(ts, |s|, p));
      var s' := InsertItem(s, p, it);
      PlaceSplits(s, c, batch[0]);
      SortedInsert(s, p, it);
      PlacesIncrease(ts, s', p, batch[1..]);
      DeltaExactly(ts, |s|, p, it.delta);
      hide Merged, Before, DeltaAt, Place;
      kept := MergePassMerges(ts, s', p, batch[1..]);
      kept := MergedOne(ts, s, p, it, batch, MergePass(ts, s', p, batch[1..]), Places(ts, s', p, batch[1..]), kept);
    }
  }

  /**
   What a flush leaves: the sorted buffer merged into the sample. Of an empty sample the least
   value becomes the first item, with delta 0.
   */
  lemma {:induction false} FlushExactly(ts: seq<Target>, k: Sketch)
    returns (s: seq<Item>, batch: seq<real>, places: seq<nat>, kept: seq<nat>)
    requires SortedItems(k.sample)
    ensures Sorted(batch) && Merged(ts, s, batch, Flush(ts, k).sample, places, kept)
    ensures if k.sample != [] || k.pending == [] then s == k.sample && multiset(batch) == multiset(k.pending)
            else |s| == 1 && s[0].g == 1 && s[0].delta == 0
                 && (forall v | v in k.pending :: s[0].value <= v)
                 && multiset([s[0].value] + batch) == multiset(k.pending)
    ensures Flush(ts, k).count == k.count + |k.pending| && Flush(ts, k).pending == []
  {
    var all := Sort(k.pending);
    s, batch := k.sample, all;
    if all == [] {
      kept := MergedNone(ts, s);
      places := [];
    } else {
      if s == [] {
        s, batch := [Item(all[0], 1, 0)], all[1..];
        assert all == [all[0]] + all[1..];
        forall v | v in k.pending ensures all[0] <= v {
          assert v in multiset(all);
        }
      }
      hide Merged;
      places := Places(ts, s, 0, batch);
      kept := MergePassMerges(ts, s, 0, batch);
    }
  }

  /** Every run meets what the places of a batch depend on. */
  lemma {:induction false} RunSorted(ts: seq<Target>, ops: seq<Op>)
    ensures SortedItems(Run(ts, ops).sample)
  {
    RunRepresents(ts, ops);
    RepresentedSorted(Run(ts, ops), multiset(Observed(ops)));
  }

  // ----- the pairs a compress pass folds -------------------------------------

  /**
   it stands for the items of s from a to before b: for two neighbours, folded into the right
   one, exactly when their weight and its delta are within the bound for size items and the
   rank; otherwise for one.
   */
  ghost predicate Pairs(ts: seq<Target>, s: seq<Item>, it: Item, a: nat, b: nat, size: nat, rank: nat) {
    && a < |s|
    && if a + 1 < |s| && (s[a].g + s[a + 1].g + s[a + 1].delta) as real <= AllowableError(ts, size, rank)
       then b == a + 2 && it == Item(s[a + 1].value, s[a].g + s[a + 1].g, s[a + 1].delta)
       else b == a + 1 && it == s[a]
  }

  /** Item m of r stands for the items of s from at[m] to before at[m + 1]; |s| + m - at[m] items are left by then. */
  ghost predicate PairsAt(ts: seq<Target>, s: seq<Item>, r: seq<Item>, at: seq<nat>, m: nat)
    requires m < |r| && |at| == |r| + 1
  {
    m <= at[m] <= m + |s| && Pairs(ts, s, r[m], at[m], at[m + 1], |s| + m - at[m], m + 1)
  }

  /** r is what folding s from left to right leaves. */
  ghost predicate Folds(ts: seq<Target>, s: seq<Item>, r: seq<Item>, at: seq<nat>) {
    FoldsFrom(ts, s, r, at, 0)
  }

  /** The same where the pass is at item i. */
  ghost predicate FoldsFrom(ts: seq<Target>, s: seq<Item>, r: seq<Item>, at: seq<nat>, i: nat) {
    && |at| == |r| + 1 && i <= |r| && at[|r|] == |s|
    && (forall m | 0 <= m <= i :: at[m] == m)
    && (forall m | 0 <= m < i :: m < |s| && r[m] == s[m])
    && forall m | i <= m < |r| :: PairsAt(ts, s, r, at, m)
  }

  lemma {:induction false} AfterFold(ts: seq<Target>, s: seq<Item>, i: nat, r: seq<Item>, at: seq<nat>)
    returns (at': seq<nat>)
    requires i + 1 < |s| && Mergeable(ts, s, i) && FoldsFrom(ts, MergeAt(s, i), r, at, i + 1)
    ensures FoldsFrom(ts, s, r, at', i)
  {
    var s' := MergeAt(s, i);
    at' := seq(|at|, m requires 0 <= m < |at| => if m <= i then m else at[m] + 1);
    hide AllowableError;
    assert s'[i] == Item(s[i + 1].value, s[i].g + s[i + 1].g, s[i + 1].delta);
    forall m | i <= m < |r| ensures PairsAt(ts, s, r, at', m) {
      if m > i {
        assert PairsAt(ts, s', r, at, m);
        assert at[m] < |s'| && s'[at[m]] == s[at[m] + 1];
        assert at[m] + 1 < |s'| ==> s'[at[m] + 1] == s[at[m] + 2];
      }
    }
  }

  lemma {:induction false} NoFold(ts: seq<Target>, s: seq<Item>, i: nat, r: seq<Item>, at: seq<nat>)
    requires i + 1 < |s| && !Mergeable(ts, s, i) && FoldsFrom(ts, s, r, at, i + 1)
    ensures FoldsFrom(ts, s, r, at, i)
  {
    hide AllowableError;
    assert at[i] == i && at[i + 1] == i + 1 && r[i] == s[i];
    assert PairsAt(ts, s, r, at, i);
    hide PairsAt;
  }

  lemma {:induction false} LastFold(ts: seq<Target>, s: seq<Item>, i: nat)
    requires i <= |s| <= i + 1
    ensures FoldsFrom(ts, s, s, seq(|s| + 1, m => m), i)
  {
  }

  lemma {:induction false} CompressFromFolds(ts: seq<Target>, s: seq<Item>, i: nat) returns (at: seq<nat>)
    requires i <= |s|
    ensures FoldsFrom(ts, s, CompressFrom(ts, s, i), at, i)
    decreases |s| - i
  {
    hide FoldsFrom, AllowableError;
    if |s| <= i + 1 {
      at := seq(|s| + 1, m => m);
      LastFold(ts, s, i);
    } else if Mergeable(ts, s, i) {
      at := CompressFromFolds(ts, MergeAt(s, i), i + 1);
      at := AfterFold(ts, s, i, CompressFrom(ts, MergeAt(s, i), i + 1), at);
    } else {
      at := CompressFromFolds(ts, s, i + 1);
      NoFold(ts, s, i, CompressFrom(ts, s, i + 1), at);
    }
  }

  /** What a compress pass leaves. */
  lemma {:induction false} CompressExactly(ts: seq<Target>, s: seq<Item>) returns (at: seq<nat>)
    ensures Folds(ts, s, Compress(ts, s), at)
  {
    at := CompressFromFolds(ts, s, 0);
  }

  // ----- a full buffer -------------------------------------------------------

  /** Up to 499 values are only buffered; the five hundredth does what a query of the full buffer would do. */
  lemma {:induction false} BufferExactly(ts: seq<Target>, ops: seq<Op>, vs: seq<real>, q: real)
    requires Run(ts, ops).pending == [] && |vs| <= 500
    ensures Run(ts, ops + Inserts(vs))
      == if |vs| < 500 then Run(ts, ops).(pending := vs) else Get(ts, Run(ts, ops).(pending := vs), q).0
  {
    if |vs| < 500 {
      PendingRun(ts, ops, vs);
    } else {
      var init, v := vs[..|vs| - 1], vs[|vs| - 1];
      InsertsSplit(ops, vs);
      PendingRun(ts, ops, init);
      var before := ops + Inserts(init);
      assert (before + [InsertOp(v)])[..|before|] == before;
      hide Settle, Inserts;
      assert Run(ts, before + [InsertOp(v)]) == Insert(ts, Run(ts, before), v);
    }
  }

  // ----- what a query answers ------------------------------------------------

  /** d is q times count without its fraction. */
  ghost predicate IsDesired(q: real, count: nat, d: int) {
    var x := q * count as real;
    if 0.0 <= x then d as real <= x < d as real + 1.0 else d as real - 1.0 < x <= d as real
  }

  lemma {:induction false} DesiredExactly(q: real, count: nat, d: int)
    ensures IsDesired(q, count, d) <==> d == Desired(q, count)
  {
    var x := q * count as real;
    TruncateExactly(x, d);
  }

  lemma {:induction false} TruncateExactly(x: real, d: int)
    ensures (if 0.0 <= x then d as real <= x < d as real + 1.0 else d as real - 1.0 < x <= d as real)
      <==> d == Truncate(x)
  {
  }

  /** Item i is the first whose successor's weight, total and delta pass the bound, or the last item. */
  ghost predicate IsAnswer(s: seq<Item>, bound: real, i: nat) {
    && i < |s|
    && (forall j | 0 < j <= i :: (PrefixG(s, j) + s[j].g + s[j].delta) as real <= bound)
    && (forall j | j == i + 1 < |s| :: (PrefixG(s, j) + s[j].g + s[j].delta) as real > bound)
  }

  /**
   What a query does: it settles the sketch, and answers with the item at which rank plus half
   the error bound stops the scan, or with NaN when there is none.
   */
  lemma {:induction false} QueryExactly(ts: seq<Target>, k: Sketch, q: real)
    returns (at: seq<nat>, d: int, i: nat)
    ensures var (k', a) := Get(ts, k, q);
      && k'.count == k.count + |k.pending| && k'.pending == []
      && Folds(ts, Flush(ts, k).sample, k'.sample, at)
      && (a.None? <==> k'.sample == [])
      && (a.Some? ==>
            && IsDesired(q, k'.count, d)
            && IsAnswer(k'.sample, d as real + AllowableError(ts, |k'.sample|, d) / 2.0, i)
            && a.value == k'.sample[i].value)
  {
    var k' := Get(ts, k, q).0;
    at := CompressExactly(ts, Flush(ts, k).sample);
    d, i := Desired(q, k'.count), 0;
    hide Flush, Compress, Folds, AllowableError, IsAnswer, IsDesired;
    if k'.sample != [] {
      i := AnswerIndex(ts, k', q);
      DesiredExactly(q, k'.count, d);
      ScanExactly(k'.sample, Bound(ts, |k'.sample|, d));
    }
  }

  lemma {:induction false} ScanExactly(s: seq<Item>, bound: real)
    requires s != []
    ensures IsAnswer(s, bound, Scan(s, 0, 0, bound))
  {
    ScanFindsFirst(s, 0, bound);
    var r := Scan(s, 0, 0, bound);
    forall j | 0 < j <= r ensures (PrefixG(s, j) + s[j].g + s[j].delta) as real <= bound {
      assert !Passes(s, j, bound);
    }
  }
}
