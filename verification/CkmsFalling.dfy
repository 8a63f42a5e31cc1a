/**
 Answers of one flushed sample that fall while the quantile grows. For every single target that
 is not steady there is a run whose sample shows it, so steadiness is the exact condition for
 monotone answers of one sample. Successive calls are another question: see CkmsSuccessive.

 The run inserts ever smaller values, with a query after each, until the sample outgrows a
 given size for the first time; the last query then found nothing to merge. Values inserted
 just behind the smallest item are folded into it one by one, which moves the threshold
 between the first two items, observation by observation, to where the rank bound falls.
 */
module CkmsFalling {
  import opened Wrappers
  import opened Sequences
  import opened CkmsSketch
  import opened CkmsProofs
  import opened CkmsQueries
  import opened CkmsGrowth

  // ----- descending values ---------------------------------------------------

  ghost function Down(n: nat): seq<real> {
    seq(n, i => -((i + 1) as real))
  }

  lemma {:induction false} DownPrefix(n: nat, j: nat)
    requires j <= n
    ensures Down(n)[..j] == Down(j)
  {
  }

  lemma {:induction false} DownLast(n: nat) returns (v: real, before: seq<real>)
    requires n > 0
    ensures |Down(n)| == n && Down(n)[..n - 1] == Down(n - 1) && Down(n)[n - 1] == v
    ensures before == Down(n - 1) && forall x | x in before :: v < x
  {
    DownPrefix(n, n - 1);
    v, before := -(n as real), Down(n - 1);
  }

  lemma {:induction false} AddedToFront(ts: seq<Target>, s: seq<Item>, v: real)
    requires s != [] && v < s[0].value
    ensures Added(ts, s, v) == [Item(v, 1, DeltaAt(ts, |s|, 0))] + s
  {
    hide DeltaAt;
    assert Place(s, 0, v) == 0;
    assert s[..0] == [] && s[0..] == s;
  }

  /** The next value is smaller than every item, so it goes to the front. */
  lemma {:induction false} NextInFront(ts: seq<Target>, n: nat) returns (front: Item)
    requires n > 0
    ensures var s := Kept(ts, Down(n - 1));
      && front.g == 1 && (forall i | 0 <= i < |s| :: front.value < s[i].value)
      && Kept(ts, Down(n)) == Compress(ts, [front] + s)
  {
    hide Kept, DeltaAt, Place, Compress, Down;
    var v, before := DownLast(n);
    var s := Kept(ts, before);
    KeptItems(ts, before);
    KeptNext(ts, Down(n));
    front := Item(v, 1, if s == [] then 0 else DeltaAt(ts, |s|, 0));
    if s != [] {
      AddedToFront(ts, s, v);
    } else {
      assert Added(ts, s, v) == [front] + s;
    }
  }

  /** The front of a sample whose first two items a query of a small rank tells apart. */
  ghost predicate Fronted(ts: seq<Target>, s: seq<Item>) {
    && 3 <= |s| && s[0].value < s[1].value
    && forall j: nat | 1 <= j && j + 1 < |s| :: !Mergeable(ts, s, j)
  }

  /** The weight a rank bound has to reach for the scan to get past the first item. */
  ghost function Threshold(s: seq<Item>): int
    requires 2 <= |s|
  {
    s[0].g + s[1].g + s[1].delta
  }

  /** A query that leaves more than b items merged nothing, if there were at most b before the last value. */
  lemma {:induction false} FullFront(ts: seq<Target>, s: seq<Item>, front: Item, b: nat)
    requires 2 <= b && |s| <= b < |Compress(ts, [front] + s)| && Small(s, b + 3)
    requires front.g == 1 && forall i | 0 <= i < |s| :: front.value < s[i].value
    ensures var r := Compress(ts, [front] + s);
      && |r| == b + 1 && Fronted(ts, r) && !Mergeable(ts, r, 0)
      && r[0].g == 1 && Threshold(r) <= b + 4
  {
    var added := [front] + s;
    CompressFromShrinks(ts, added, 0);
    FullSizeMeansFixed(ts, added, 0);
    CompressFromFixpoint(ts, added, 0);
    hide Mergeable;
    assert added[1] == s[0] && SmallItem(s[0], b + 3);
  }

  /** When the sample first has b + 1 items, its last query merged nothing. */
  lemma {:induction false} DescendingFull(ts: seq<Target>, b: nat) returns (n: nat)
    requires 2 <= b
    ensures var s := Kept(ts, Down(n));
      && |s| == b + 1 <= n && Fronted(ts, s) && !Mergeable(ts, s, 0)
      && s[0].g == 1 && Threshold(s) <= b + 4
  {
    var many := b * (b + 3) + 1;
    hide Kept, StaysWithin, Small, Fronted, Mergeable, Threshold, Compress;
    CannotStay(ts, b, Down(many));
    n := FirstOver(ts, b, Down(many));
    DownPrefix(many, n);
    DownPrefix(many, n - 1);
    AtMost(ts, b, Down(n - 1));
    KeptSmall(ts, b, Down(n - 1));
    KeptItems(ts, Down(n));
    var front := NextInFront(ts, n);
    FullFront(ts, Kept(ts, Down(n - 1)), front, b);
  }

  // ----- thickening the front ------------------------------------------------

  lemma {:induction false} AddedSecond(ts: seq<Target>, s: seq<Item>, v: real)
    requires 2 <= |s| && s[0].value < v < s[1].value
    ensures Added(ts, s, v) == [s[0], Item(v, 1, 0)] + s[1..]
  {
    assert Place(s, 0, v) == Place(s, 1, v) == 1;
    assert s[..1] == [s[0]];
    assert DeltaAt(ts, |s|, 1) == 0;
  }

  /** A value between the first two items is folded into the first one. */
  lemma {:induction false} ThickenOnce(ts: seq<Target>, s: seq<Item>, v: real)
    requires Fronted(ts, s) && s[0].value < v < s[1].value
    requires (s[0].g + 1) as real <= AllowableError(ts, |s| + 1, 1)
    ensures Compress(ts, Added(ts, s, v)) == s[0 := Item(v, s[0].g + 1, 0)]
    ensures Fronted(ts, s[0 := Item(v, s[0].g + 1, 0)])
  {
    var added, thick := Added(ts, s, v), s[0 := Item(v, s[0].g + 1, 0)];
    AddedSecond(ts, s, v);
    assert thick == MergeAt(added, 0) by {
      assert added[2..] == s[1..];
    }
    assert Mergeable(ts, added, 0);
    forall j: nat | 1 <= j && j + 1 < |thick| ensures !Mergeable(ts, thick, j) {
      assert !Mergeable(ts, s, j);
    }
    CompressFromFixpoint(ts, thick, 1);
  }

  /** A sketch of n items whose first item can still be thickened until the threshold is at the goal. */
  ghost predicate Thickening(ts: seq<Target>, k: Sketch, n: nat, goal: int) {
    && k.pending == [] && |k.sample| == n && Fronted(ts, k.sample)
    && Threshold(k.sample) <= goal && k.sample[0].g + goal - Threshold(k.sample) <= n + 2
  }

  lemma {:induction false} ThickenStep(ts: seq<Target>, ops: seq<Op>, n: nat, goal: int) returns (ops': seq<Op>)
    requires Thickening(ts, Run(ts, ops), n, goal) && Threshold(Run(ts, ops).sample) < goal
    requires AllowableError(ts, n + 1, 1) == (n + 2) as real
    ensures var (k, k') := (Run(ts, ops), Run(ts, ops'));
      && Thickening(ts, k', n, goal) && Threshold(k'.sample) == Threshold(k.sample) + 1
      && k'.count == k.count + 1
  {
    hide Run, Compress, Added, AllowableError, Mergeable;
    var s := Run(ts, ops).sample;
    var v := (s[0].value + s[1].value) / 2.0;
    ThickenOnce(ts, s, v);
    RunOne(ts, ops, v, 0.0);
    ops' := ops + [InsertOp(v), GetOp(0.0)];
  }

  lemma {:induction false} Thicken(ts: seq<Target>, ops: seq<Op>, n: nat, goal: int) returns (ops': seq<Op>)
    requires Thickening(ts, Run(ts, ops), n, goal) && AllowableError(ts, n + 1, 1) == (n + 2) as real
    ensures var (k, k') := (Run(ts, ops), Run(ts, ops'));
      && Thickening(ts, k', n, goal) && Threshold(k'.sample) == goal
      && k'.count == k.count + goal - Threshold(k.sample)
    decreases goal - Threshold(Run(ts, ops).sample)
  {
    assert |Run(ts, ops).sample| >= 3;
    hide Run, Fronted, Threshold, AllowableError;
    if Threshold(Run(ts, ops).sample) == goal {
      ops' := ops;
    } else {
      var next := ThickenStep(ts, ops, n, goal);
      ops' := Thicken(ts, next, n, goal);
    }
  }

  // ----- falling answers -----------------------------------------------------

  /** Two queries of one and the same state, so of one flushed sample, are answered in the order of their quantiles. */
  ghost predicate SampleInOrder(ts: seq<Target>, ops: seq<Op>, q: real, q': real) {
    var (a, a') := (Get(ts, Run(ts, ops), q).1, Get(ts, Run(ts, ops), q').1);
    a.Some? && a'.Some? ==> a.value <= a'.value
  }

  /** Where it matters the first error of a target that is not steady is the cap. */
  lemma {:induction false} FirstError(t: Target, size: nat)
    requires !Steady(t) && 3 <= size
    ensures AllowableError([t], size, 1) == (size + 1) as real
  {
    assert [t][..0] == [];
    var n := size as real;
    if t.quantile < 1.0 {
      UnsteadyFactor(t);
      ScaleLe(0.5, t.quantile, n);
      ScaleLe(2.0, t.u, n - 1.0);
    }
    FirstErrorCapped(t, size);
  }

  lemma {:induction false} FirstErrorCapped(t: Target, size: nat)
    requires 3 <= size
    requires t.quantile < 1.0 ==> 1.0 <= t.quantile * size as real && size as real + 1.0 <= t.u * (size as real - 1.0)
    ensures AllowableError([t], size, 1) == (size + 1) as real
  {
    assert [t][..0] == [];
    assert AllowableError([t], size, 1) == Lower(Contribution(t, size, 1), (size + 1) as real);
    assert t.quantile == 1.0 ==> t.quantile * size as real == size as real;
  }

  lemma {:induction false} SettledAlready(ts: seq<Target>, k: Sketch)
    requires k.pending == [] && Fronted(ts, k.sample)
    requires AllowableError(ts, |k.sample|, 1) < Threshold(k.sample) as real
    ensures Settle(ts, k) == k
  {
    assert !Mergeable(ts, k.sample, 0);
    SettledStays(ts, k);
  }

  /** Around the threshold of the first two items a rank bound decides which of them the answer comes from. */
  lemma {:induction false} FrontAnswers(s: seq<Item>, low: real, high: real)
    requires 2 <= |s| && SortedItems(s) && low < Threshold(s) as real <= high
    ensures s[Scan(s, 0, 0, low)] == s[0] && s[1].value <= s[Scan(s, 0, 0, high)].value
  {
  }

  /** For every target that is not steady there is a run whose flushed sample answers two queries out of order. */
  lemma {:induction false} SampleFalls(t: Target) returns (ops: seq<Op>, q: real, q': real)
    requires !Steady(t)
    ensures 0.0 <= q <= q' <= 1.0 && !SampleInOrder([t], ops, q, q')
  {
    var size, r, r' := FallingRanks(t);
    var n := DescendingFull([t], size - 1);
    ErrorCapped([t], size, r);
    FirstError(t, size);
    FirstError(t, size + 1);
    OneByOneRun([t], Down(n));
    var goal := Bound([t], size, r).Floor;
    ops := Thicken([t], OneByOne(Down(n)), size, goal);
    var k := Run([t], ops);
    q, q' := r as real / k.count as real, r' as real / k.count as real;
    QuantileOf(r, r', k.count);
    FallingQueries([t], ops, r, r');
  }

  lemma {:induction false} FallingQueries(ts: seq<Target>, ops: seq<Op>, r: nat, r': nat)
    requires var k := Run(ts, ops);
      && k.pending == [] && Fronted(ts, k.sample) && 0 < k.count
      && AllowableError(ts, |k.sample|, 1) < Threshold(k.sample) as real
      && Bound(ts, |k.sample|, r') < Threshold(k.sample) as real <= Bound(ts, |k.sample|, r)
    ensures var count := Run(ts, ops).count as real;
      !SampleInOrder(ts, ops, r as real / count, r' as real / count)
  {
    var k := Run(ts, ops);
    SettledAlready(ts, k);
    hide Run, Settle, Bound, Desired, Scan, Mergeable;
    RunRepresents(ts, ops);
    RepresentedSorted(k, multiset(Observed(ops)));
    DesiredRank(r, k.count);
    DesiredRank(r', k.count);
    FrontAnswers(k.sample, Bound(ts, |k.sample|, r'), Bound(ts, |k.sample|, r));
  }

  /** Flushed samples of one target answer in the order of the quantiles, in every run, exactly when it is steady. */
  lemma {:induction false} SampleExactly(t: Target)
    ensures Steady(t) <==> forall ops, q, q' | 0.0 <= q <= q' <= 1.0 :: SampleInOrder([t], ops, q, q')
  {
    if Steady(t) {
      forall ops, q, q' | 0.0 <= q <= q' <= 1.0 ensures SampleInOrder([t], ops, q, q') {
        RunAnswersMonotone([t], ops, q, q');
        NoAnswer([t], ops, q);
      }
    } else {
      var ops, q, q' := SampleFalls(t);
    }
  }

  // ----- a small example -----------------------------------------------------

  const TOP_EXACT: Target := Quantile(1.0, 0.0, 0.0, 0.0)
  const ONE_TO_FIVE := [1.0, 2.0, 3.0, 4.0, 5.0]
  const THREE_LEFT := [Item(2.0, 2, 0), Item(4.0, 2, 1), Item(5.0, 1, 1)]

  lemma {:induction false} TopErrors(size: nat, rank: nat)
    ensures AllowableError([TOP_EXACT], size, rank) == if rank <= size then (size + 1) as real else 0.0
  {
    assert [TOP_EXACT][..0] == [];
    assert AllowableError([], size, rank) == (size + 1) as real;
  }

  lemma {:induction false} TopAppends(s: seq<Item>, c: nat, v: real, rest: seq<real>)
    requires c + 1 == |s| && s[c].value < v
    ensures MergePass([TOP_EXACT], s, c, [v] + rest)
      == MergePass([TOP_EXACT], s + [Item(v, 1, if |s| == 1 then 0 else 1)], |s|, rest)
  {
    hide AllowableError;
    TopErrors(|s|, |s| + 1);
    assert Place(s, c, v) == |s|;
    var it := Item(v, 1, if |s| == 1 then 0 else 1);
    assert InsertItem(s, |s|, Item(v, 1, DeltaAt([TOP_EXACT], |s|, |s|))) == s + [it];
    assert ([v] + rest)[1..] == rest;
  }

  lemma {:induction false} PassNothing(ts: seq<Target>, s: seq<Item>, c: nat)
    requires c < |s|
    ensures MergePass(ts, s, c, []) == s
  {
  }

  lemma {:induction false} FiveMerged()
    ensures MergePass([TOP_EXACT], [Item(1.0, 1, 0)], 0, [2.0, 3.0, 4.0, 5.0])
      == [Item(1.0, 1, 0), Item(2.0, 1, 0), Item(3.0, 1, 1), Item(4.0, 1, 1), Item(5.0, 1, 1)]
  {
    var one := [Item(1.0, 1, 0)];
    var two := one + [Item(2.0, 1, 0)];
    var three := two + [Item(3.0, 1, 1)];
    var four := three + [Item(4.0, 1, 1)];
    hide MergePass;
    TopAppends(one, 0, 2.0, [3.0, 4.0, 5.0]);
    TopAppends(two, 1, 3.0, [4.0, 5.0]);
    TopAppends(three, 2, 4.0, [5.0]);
    TopAppends(four, 3, 5.0, []);
    PassNothing([TOP_EXACT], four + [Item(5.0, 1, 1)], 4);
    assert [2.0, 3.0, 4.0, 5.0] == [2.0] + [3.0, 4.0, 5.0];
    assert [3.0, 4.0, 5.0] == [3.0] + [4.0, 5.0];
    assert [4.0, 5.0] == [4.0] + [5.0];
    assert [5.0] == [5.0] + [];
  }

  lemma {:induction false} FiveCompressed()
    ensures Compress([TOP_EXACT], [Item(1.0, 1, 0), Item(2.0, 1, 0), Item(3.0, 1, 1), Item(4.0, 1, 1), Item(5.0, 1, 1)])
      == THREE_LEFT
  {
    var ts := [TOP_EXACT];
    var five := [Item(1.0, 1, 0), Item(2.0, 1, 0), Item(3.0, 1, 1), Item(4.0, 1, 1), Item(5.0, 1, 1)];
    var four := [Item(2.0, 2, 0), Item(3.0, 1, 1), Item(4.0, 1, 1), Item(5.0, 1, 1)];
    hide AllowableError;
    TopErrors(5, 1);
    TopErrors(4, 2);
    assert MergeAt(five, 0) == four;
    assert MergeAt(four, 1) == THREE_LEFT;
    assert CompressFrom(ts, five, 0) == CompressFrom(ts, four, 1);
    assert CompressFrom(ts, four, 1) == CompressFrom(ts, THREE_LEFT, 2);
  }

  lemma {:induction false} FlushFirst(ts: seq<Target>, vs: seq<real>)
    requires Sorted(vs) && vs != []
    ensures Flush(ts, Sketch(0, [], vs)) == Sketch(|vs|, MergePass(ts, [Item(vs[0], 1, 0)], 0, vs[1..]), [])
  {
    hide MergePass, Sort;
    SortedUnique(Sort(vs), vs);
  }

  lemma {:induction false} FiveSettled()
    ensures Settle([TOP_EXACT], Sketch(0, [], ONE_TO_FIVE)) == Sketch(5, THREE_LEFT, [])
  {
    hide MergePass, Flush, Compress;
    assert ONE_TO_FIVE[1..] == [2.0, 3.0, 4.0, 5.0];
    FlushFirst([TOP_EXACT], ONE_TO_FIVE);
    FiveMerged();
    FiveCompressed();
  }

  lemma {:induction false} FivePending()
    ensures Run([TOP_EXACT], Inserts(ONE_TO_FIVE)) == Sketch(0, [], ONE_TO_FIVE)
  {
    assert Run([TOP_EXACT], []) == EMPTY;
    hide Run;
    PendingRun([TOP_EXACT], [], ONE_TO_FIVE);
    assert [] + Inserts(ONE_TO_FIVE) == Inserts(ONE_TO_FIVE);
  }

  /** After the insertion of 1 to 5 with the single target (1, 0), the query for 0.6 is answered 4, for 0.8 it is 2. */
  lemma {:induction false} FallingExample()
    ensures var ts, k := [TOP_EXACT], Run([TOP_EXACT], Inserts(ONE_TO_FIVE));
      Get(ts, k, 0.6).1 == Some(4.0) && Get(ts, k, 0.8).1 == Some(2.0)
  {
    FivePending();
    FiveSettled();
    hide Run, Settle, AllowableError, Inserts;
    TopErrors(3, 3);
    TopErrors(3, 4);
    assert Desired(0.6, 5) == 3 && Desired(0.8, 5) == 4;
    assert Scan(THREE_LEFT, 0, 0, 5.0) == 1 && Scan(THREE_LEFT, 0, 0, 4.0) == 0;
  }
}
