/**
 What the sketch means. Every reachable sketch partitions the observations it stands for:
 item i owns a group of exactly g(i) observations that contains value(i) and nothing larger.
 Merging a batch, compressing, querying and resetting keep that partition, and the rank
 guarantee of a query follows from it.
 */
module CkmsProofs {
  import opened Sequences
  import opened CkmsSketch

  ghost predicate SortedItems(s: seq<Item>) {
    forall i, j | 0 <= i < j < |s| :: s[i].value <= s[j].value
  }

  ghost function Values(s: seq<Item>): (r: seq<real>)
    ensures |r| == |s|
  {
    seq(|s|, i requires 0 <= i < |s| => s[i].value)
  }

  /** Sum of g over the first n items. */
  ghost function PrefixG(s: seq<Item>, n: nat): int
    requires n <= |s|
  {
    if n == 0 then 0 else PrefixG(s, n - 1) + s[n - 1].g
  }

  // ----- the partition -------------------------------------------------------

  ghost predicate Grouping(s: seq<Item>, gs: seq<multiset<real>>) {
    && |gs| == |s|
    && forall i | 0 <= i < |s| ::
         |gs[i]| == s[i].g && s[i].value in gs[i] && forall x | x in gs[i] :: x <= s[i].value
  }

  ghost function Union(gs: seq<multiset<real>>): multiset<real> {
    if gs == [] then multiset{} else gs[0] + Union(gs[1..])
  }

  ghost predicate Groups(s: seq<Item>, m: multiset<real>, gs: seq<multiset<real>>) {
    SortedItems(s) && Grouping(s, gs) && Union(gs) == m
  }

  ghost predicate Summarizes(s: seq<Item>, m: multiset<real>) {
    exists gs :: Groups(s, m, gs)
  }

  ghost predicate Splits(k: Sketch, log: multiset<real>, flushed: multiset<real>) {
    && |k.pending| < BUFFER_SIZE
    && flushed + multiset(k.pending) == log
    && |flushed| == k.count
    && Summarizes(k.sample, flushed)
  }

  /** The sketch k stands for exactly the observations in log: those merged into the sample and those pending. */
  ghost predicate Represents(k: Sketch, log: multiset<real>) {
    exists flushed :: Splits(k, log, flushed)
  }

  lemma {:induction false} UnionConcat(a: seq<multiset<real>>, b: seq<multiset<real>>)
    ensures Union(a + b) == Union(a) + Union(b)
  {
    if a == [] {
      assert a + b == b;
    } else {
      UnionConcat(a[1..], b);
      assert (a + b)[1..] == a[1..] + b;
    }
  }

  lemma {:induction false} UnionMiddle(a: seq<multiset<real>>, g: multiset<real>, b: seq<multiset<real>>)
    ensures Union(a + [g] + b) == Union(a) + Union(b) + g
  {
    UnionConcat(a, [g] + b);
    assert a + [g] + b == a + ([g] + b);
    assert ([g] + b)[1..] == b;
  }

  lemma {:induction false} UnionInsert(gs: seq<multiset<real>>, p: nat, g: multiset<real>)
    requires p <= |gs|
    ensures Union(gs[..p] + [g] + gs[p..]) == Union(gs) + g
  {
    UnionMiddle(gs[..p], g, gs[p..]);
    UnionConcat(gs[..p], gs[p..]);
    assert gs == gs[..p] + gs[p..];
  }

  lemma {:induction false} UnionFold(a: seq<multiset<real>>, x: multiset<real>, y: multiset<real>,
        b: seq<multiset<real>>)
    ensures Union(a + [x + y] + b) == Union(a + [x] + ([y] + b))
  {
    UnionMiddle(a, x + y, b);
    UnionMiddle(a, x, [y] + b);
    assert ([y] + b)[1..] == b;
  }

  lemma {:induction false} UnionMerge(gs: seq<multiset<real>>, i: nat)
    requires i + 1 < |gs|
    ensures Union(gs[..i] + [gs[i] + gs[i + 1]] + gs[i + 2..]) == Union(gs)
  {
    UnionFold(gs[..i], gs[i], gs[i + 1], gs[i + 2..]);
    SplitPair(gs, i);
  }

  lemma {:induction false} UnionSize(s: seq<Item>, gs: seq<multiset<real>>, n: nat)
    requires Grouping(s, gs) && n <= |s|
    ensures |Union(gs[..n])| == PrefixG(s, n) >= n
  {
    if n == 0 {
    } else {
      UnionSize(s, gs, n - 1);
      assert gs[..n] == gs[..n - 1] + [gs[n - 1]];
      UnionConcat(gs[..n - 1], [gs[n - 1]]);
      assert Union([gs[n - 1]]) == gs[n - 1];
      assert gs[n - 1][s[n - 1].value] > 0;
    }
  }

  lemma {:induction false} UnionBounded(gs: seq<multiset<real>>, x: real)
    requires forall i, y | 0 <= i < |gs| && y in gs[i] :: y <= x
    ensures forall y | y in Union(gs) :: y <= x
  {
    if gs == [] {
    } else {
      UnionBounded(gs[1..], x);
    }
  }

  lemma {:induction false} InUnion(gs: seq<multiset<real>>, i: nat)
    requires i < |gs|
    ensures gs[i] <= Union(gs)
  {
    if i == 0 {
    } else {
      InUnion(gs[1..], i - 1);
    }
  }

  // ----- insertBatch ---------------------------------------------------------

  /** What the resumed search finds: everything before the place is at most v, the rest at least v. */
  lemma {:induction false} PlaceSplits(s: seq<Item>, c: nat, v: real)
    requires c < |s| && SortedItems(s)
    requires forall i | 0 <= i < c :: s[i].value <= v
    ensures forall i | 0 <= i < Place(s, c, v) :: s[i].value <= v
    ensures forall i | Place(s, c, v) <= i < |s| :: v <= s[i].value
    ensures s[c].value <= v ==> c < Place(s, c, v)
    decreases |s| - c
  {
    if s[c].value < v && c + 1 < |s| {
      PlaceSplits(s, c + 1, v);
    } else if s[c].value == v {
      SearchPastEqual(s, c, v);
    }
  }

  lemma {:induction false} SearchPastEqual(s: seq<Item>, c: nat, v: real)
    requires c < |s| && SortedItems(s) && s[c].value == v
    ensures forall i | c < i < |s| :: v <= s[i].value
  {
  }

  lemma {:induction false} SortedInsert(s: seq<Item>, p: nat, it: Item)
    requires SortedItems(s) && p <= |s|
    requires forall i | 0 <= i < p :: s[i].value <= it.value
    requires forall i | p <= i < |s| :: it.value <= s[i].value
    ensures SortedItems(InsertItem(s, p, it))
  {
    var s' := InsertItem(s, p, it);
    forall i, j | 0 <= i < j < |s'| ensures s'[i].value <= s'[j].value {
      assert i < p ==> s'[i] == s[i];
      assert i > p ==> s'[i] == s[i - 1];
      assert j < p ==> s'[j] == s[j];
      assert j > p ==> s'[j] == s[j - 1];
    }
  }

  lemma {:induction false} GroupingInsert(s: seq<Item>, gs: seq<multiset<real>>, p: nat, v: real, delta: int)
    requires Grouping(s, gs) && p <= |s|
    ensures Grouping(InsertItem(s, p, Item(v, 1, delta)), gs[..p] + [multiset{v}] + gs[p..])
  {
    var s' := InsertItem(s, p, Item(v, 1, delta));
    var gs' := gs[..p] + [multiset{v}] + gs[p..];
    forall i | 0 <= i < |s'|
      ensures |gs'[i]| == s'[i].g && s'[i].value in gs'[i] && forall x | x in gs'[i] :: x <= s'[i].value
    {
      if i < p {
        assert s'[i] == s[i] && gs'[i] == gs[i];
      } else if i > p {
        assert s'[i] == s[i - 1] && gs'[i] == gs[i - 1];
      }
    }
  }

  lemma {:induction false} InsertSummarizes(s: seq<Item>, m: multiset<real>, p: nat, v: real, delta: int)
    requires Summarizes(s, m) && p <= |s|
    requires forall i | 0 <= i < p :: s[i].value <= v
    requires forall i | p <= i < |s| :: v <= s[i].value
    ensures Summarizes(InsertItem(s, p, Item(v, 1, delta)), m + multiset{v})
  {
    var gs :| Groups(s, m, gs);
    UnionInsert(gs, p, multiset{v});
    GroupingInsert(s, gs, p, v, delta);
    SortedInsert(s, p, Item(v, 1, delta));
    assert Groups(InsertItem(s, p, Item(v, 1, delta)), m + multiset{v}, gs[..p] + [multiset{v}] + gs[p..]);
  }

  /** One resumed pass adds exactly the batch, in order, without ever moving back. */
  lemma {:induction false} MergePassSummarizes(ts: seq<Target>, s: seq<Item>, c: nat, batch: seq<real>,
        m: multiset<real>)
    requires c < |s| && Sorted(batch) && Summarizes(s, m)
    requires batch != [] ==> forall i | 0 <= i < c :: s[i].value <= batch[0]
    ensures Summarizes(MergePass(ts, s, c, batch), m + multiset(batch))
    decreases |batch|
  {
    if batch == [] {
      assert m + multiset(batch) == m;
    } else {
      var v := batch[0];
      var p := Place(s, c, v);
      PlaceSplits(s, c, v);
      InsertSummarizes(s, m, p, v, DeltaAt(ts, |s|, p));
      assert batch == [v] + batch[1..];
      MergePassSummarizes(ts, InsertItem(s, p, Item(v, 1, DeltaAt(ts, |s|, p))), p, batch[1..], m + multiset{v});
      assert m + multiset(batch) == m + multiset{v} + multiset(batch[1..]);
    }
  }

  lemma {:induction false} MergeSortedSummarizes(ts: seq<Target>, s: seq<Item>, batch: seq<real>, m: multiset<real>)
    requires Sorted(batch) && Summarizes(s, m)
    ensures Summarizes(MergeSorted(ts, s, batch), m + multiset(batch))
  {
    if batch == [] {
      assert m + multiset(batch) == m;
    } else if s == [] {
      var one := [Item(batch[0], 1, 0)];
      assert m == multiset{} by {
        var gs :| Groups(s, m, gs);
        assert gs == [];
      }
      InsertSummarizes([], m, 0, batch[0], 0);
      assert one == InsertItem([], 0, Item(batch[0], 1, 0));
      assert batch == [batch[0]] + batch[1..];
      MergePassSummarizes(ts, one, 0, batch[1..], m + multiset{batch[0]});
      assert m + multiset(batch) == m + multiset{batch[0]} + multiset(batch[1..]);
    } else {
      MergePassSummarizes(ts, s, 0, batch, m);
    }
  }

  lemma {:induction false} InsertValues(s: seq<Item>, p: nat, it: Item)
    requires p <= |s|
    ensures multiset(Values(InsertItem(s, p, it))) == multiset(Values(s)) + multiset{it.value}
  {
    var vs := Values(s);
    assert Values(InsertItem(s, p, it)) == vs[..p] + [it.value] + vs[p..];
    assert vs == vs[..p] + vs[p..];
  }

  lemma {:induction false} MergePassValues(ts: seq<Target>, s: seq<Item>, c: nat, batch: seq<real>)
    requires c < |s| && Sorted(batch) && SortedItems(s)
    requires batch != [] ==> forall i | 0 <= i < c :: s[i].value <= batch[0]
    ensures var r := MergePass(ts, s, c, batch);
      SortedItems(r) && multiset(Values(r)) == multiset(Values(s)) + multiset(batch)
    decreases |batch|
  {
    if batch == [] {
    } else {
      var it := Item(batch[0], 1, DeltaAt(ts, |s|, Place(s, c, batch[0])));
      var p := Place(s, c, batch[0]);
      PlaceSplits(s, c, batch[0]);
      SortedInsert(s, p, it);
      InsertValues(s, p, it);
      assert batch == [batch[0]] + batch[1..];
      MergePassValues(ts, InsertItem(s, p, it), p, batch[1..]);
    }
  }

  /**
   The resumed pass against the simplest form there is: append the buffer to the
   sample's values and sort everything.
   */
  lemma {:induction false} FlushSortsEverything(ts: seq<Target>, k: Sketch)
    requires SortedItems(k.sample)
    ensures Values(Flush(ts, k).sample) == Sort(Values(k.sample) + k.pending)
  {
    MergeSortedValues(ts, k.sample, Sort(k.pending));
    hide MergeSorted, Sort;
    SortedUnique(Values(Flush(ts, k).sample), Sort(Values(k.sample) + k.pending));
  }

  lemma {:induction false} MergeSortedValues(ts: seq<Target>, s: seq<Item>, batch: seq<real>)
    requires SortedItems(s) && Sorted(batch)
    ensures var r := MergeSorted(ts, s, batch);
      SortedItems(r) && multiset(Values(r)) == multiset(Values(s)) + multiset(batch)
  {
    hide MergePass;
    if batch != [] && s == [] {
      var one := [Item(batch[0], 1, 0)];
      MergePassValues(ts, one, 0, batch[1..]);
      assert batch == [batch[0]] + batch[1..];
      assert Values(one) == [batch[0]];
    } else if batch != [] {
      MergePassValues(ts, s, 0, batch);
    }
  }

  /** Where the first value of a batch goes, and where the resumed search puts each later one. */
  ghost function Places(ts: seq<Target>, s: seq<Item>, c: nat, batch: seq<real>): (r: seq<nat>)
    requires c < |s|
    ensures |r| == |batch|
    decreases |batch|
  {
    if batch == [] then []
    else
      var p := Place(s, c, batch[0]);
      [p] + Places(ts, InsertItem(s, p, Item(batch[0], 1, DeltaAt(ts, |s|, p))), p, batch[1..])
  }

  /** After the first insertion the cursor only moves forward: the places strictly increase. */
  lemma {:induction false} PlacesIncrease(ts: seq<Target>, s: seq<Item>, c: nat, batch: seq<real>)
    requires c < |s| && Sorted(batch) && SortedItems(s)
    requires batch != [] ==> forall i | 0 <= i < c :: s[i].value <= batch[0]
    ensures Ascending(c, batch != [] && s[c].value <= batch[0], Places(ts, s, c, batch))
    decreases |batch|
  {
    if batch == [] {
    } else {
      var p := Place(s, c, batch[0]);
      var it := Item(batch[0], 1, DeltaAt(ts, |s|, p));
      PlaceSplits(s, c, batch[0]);
      SortedInsert(s, p, it);
      PlacesIncrease(ts, InsertItem(s, p, it), p, batch[1..]);
    }
  }

  /** The places are strictly increasing and never before, or even always after, position c. */
  ghost predicate Ascending(c: nat, strict: bool, ps: seq<nat>) {
    && (forall i | 0 <= i < |ps| :: c <= ps[i] && (strict ==> c < ps[i]))
    && (forall i, j | 0 <= i < j < |ps| :: ps[i] < ps[j])
  }

  // ----- compress ------------------------------------------------------------

  /**
   r is s with some items folded into the right neighbour that survives them: survivor j
   is item f[j] of s with the same value and delta, the totals of g up to corresponding
   survivors agree, the last item survives, and no survivor absorbs more than one item.
   */
  ghost predicate Coarsens(r: seq<Item>, s: seq<Item>, f: seq<nat>) {
    && |f| == |r|
    && (r == [] <==> s == [])
    && (forall j | 0 <= j < |r| :: f[j] < |s|)
    && (forall j | 0 <= j < |r| :: r[j].value == s[f[j]].value && r[j].delta == s[f[j]].delta)
    && (forall j | 0 <= j < |r| :: PrefixG(r, j + 1) == PrefixG(s, f[j] + 1))
    && (forall j, k | 0 <= j < |r| && k == j + 1 < |r| :: f[j] < f[k] <= f[j] + 2)
    && (r != [] ==> f[0] <= 1 && f[|r| - 1] == |s| - 1)
  }

  lemma {:induction false} PrefixGMergeAt(s: seq<Item>, i: nat, n: nat)
    requires i + 1 < |s| && n < |s|
    ensures PrefixG(MergeAt(s, i), n) == PrefixG(s, if n <= i then n else n + 1)
  {
    if n == 0 {
    } else {
      PrefixGMergeAt(s, i, n - 1);
    }
  }

  lemma {:induction false} CompressFromCoarsens(ts: seq<Target>, s: seq<Item>, i: nat) returns (f: seq<nat>)
    requires i <= |s|
    ensures Coarsens(CompressFrom(ts, s, i), s, f)
    ensures i <= |f| && forall j | 0 <= j < i :: f[j] == j
    decreases |s| - i
  {
    hide Mergeable, Coarsens;
    if |s| <= i + 1 {
      f := seq(|s|, j => j);
      CoarsensItself(s, f);
    } else if !Mergeable(ts, s, i) {
      f := CompressFromCoarsens(ts, s, i + 1);
    } else {
      var f' := CompressFromCoarsens(ts, MergeAt(s, i), i + 1);
      f := ThroughMerge(CompressFrom(ts, s, i), s, i, f');
    }
  }

  lemma {:induction false} CoarsensItself(s: seq<Item>, f: seq<nat>)
    requires |f| == |s| && forall j | 0 <= j < |f| :: f[j] == j
    ensures Coarsens(s, s, f)
  {
    hide PrefixG;
  }

  function SkipFolded(i: nat, k: nat): nat {
    if k < i then k else k + 1
  }

  /** Survivors of MergeAt(s, i), traced back to s. */
  lemma {:induction false} ThroughMerge(r: seq<Item>, s: seq<Item>, i: nat, f': seq<nat>) returns (f: seq<nat>)
    requires i + 1 < |s| && Coarsens(r, MergeAt(s, i), f')
    requires i + 1 <= |f'| && forall j | 0 <= j < i + 1 :: f'[j] == j
    ensures Coarsens(r, s, f)
    ensures i <= |f| && forall j | 0 <= j < i :: f[j] == j
  {
    f := seq(|f'|, j requires 0 <= j < |f'| => SkipFolded(i, f'[j]));
    SurvivorsTraced(r, s, i, f', f);
    forall j, k | 0 <= j < |r| && k == j + 1 < |r|
      ensures f[j] < f[k] <= f[j] + 2
    {
      if j >= i {
        Increasing(r, MergeAt(s, i), f', i, j);
      }
    }
  }

  lemma {:induction false} SurvivorsTraced(r: seq<Item>, s: seq<Item>, i: nat, f': seq<nat>, f: seq<nat>)
    requires i + 1 < |s| && Coarsens(r, MergeAt(s, i), f')
    requires |f| == |f'| && forall j | 0 <= j < |f| :: f[j] == SkipFolded(i, f'[j])
    ensures forall j | 0 <= j < |r| :: f[j] < |s|
    ensures forall j | 0 <= j < |r| :: r[j].value == s[f[j]].value && r[j].delta == s[f[j]].delta
    ensures forall j | 0 <= j < |r| :: PrefixG(r, j + 1) == PrefixG(s, f[j] + 1)
  {
    forall j | 0 <= j < |r|
      ensures f[j] < |s| && r[j].value == s[f[j]].value && r[j].delta == s[f[j]].delta
      ensures PrefixG(r, j + 1) == PrefixG(s, f[j] + 1)
    {
      SurvivorOrigin(s, i, f'[j]);
    }
  }

  lemma {:induction false} SurvivorOrigin(s: seq<Item>, i: nat, k: nat)
    requires i + 1 < |s| && k < |s| - 1
    ensures var t := MergeAt(s, i);
      && t[k].value == s[SkipFolded(i, k)].value && t[k].delta == s[SkipFolded(i, k)].delta
      && PrefixG(t, k + 1) == PrefixG(s, SkipFolded(i, k) + 1)
  {
    PrefixGMergeAt(s, i, k);
    PrefixGMergeAt(s, i, k + 1);
    if k == i {
      assert PrefixG(MergeAt(s, i), i + 1) == PrefixG(MergeAt(s, i), i) + s[i].g + s[i + 1].g;
      assert PrefixG(s, i + 2) == PrefixG(s, i + 1) + s[i + 1].g;
    }
  }

  lemma {:induction false} Increasing(r: seq<Item>, s: seq<Item>, f: seq<nat>, i: nat, j: nat)
    requires Coarsens(r, s, f) && i <= j < |r|
    ensures f[i] + (j - i) <= f[j] <= f[i] + 2 * (j - i)
  {
    if i == j {
    } else {
      Increasing(r, s, f, i, j - 1);
    }
  }

  /** compress keeps a value subsequence of its input, the maximum, and at least half of the items. */
  lemma {:induction false} CompressCoarsens(ts: seq<Target>, s: seq<Item>) returns (f: seq<nat>)
    ensures Coarsens(Compress(ts, s), s, f)
    ensures |s| <= 2 * |Compress(ts, s)|
    ensures PrefixG(Compress(ts, s), |Compress(ts, s)|) == PrefixG(s, |s|)
  {
    f := CompressFromCoarsens(ts, s, 0);
    var r := Compress(ts, s);
    if r != [] {
      Increasing(r, s, f, 0, |r| - 1);
      assert PrefixG(r, |r| - 1 + 1) == PrefixG(s, f[|r| - 1] + 1);
    }
  }

  lemma {:induction false} MergeSummarizes(s: seq<Item>, m: multiset<real>, i: nat)
    requires i + 1 < |s| && Summarizes(s, m)
    ensures Summarizes(MergeAt(s, i), m)
  {
    var gs :| Groups(s, m, gs);
    var gs' := gs[..i] + [gs[i] + gs[i + 1]] + gs[i + 2..];
    UnionMerge(gs, i);
    GroupingMerge(s, gs, i);
    assert Groups(MergeAt(s, i), m, gs');
  }

  lemma {:induction false} GroupingMerge(s: seq<Item>, gs: seq<multiset<real>>, i: nat)
    requires i + 1 < |s| && SortedItems(s) && Grouping(s, gs)
    ensures SortedItems(MergeAt(s, i))
    ensures Grouping(MergeAt(s, i), gs[..i] + [gs[i] + gs[i + 1]] + gs[i + 2..])
  {
    var t := MergeAt(s, i);
    var gs' := gs[..i] + [gs[i] + gs[i + 1]] + gs[i + 2..];
    forall k | 0 <= k < |t|
      ensures t[k].value == s[SkipFolded(i, k)].value
      ensures |gs'[k]| == t[k].g && t[k].value in gs'[k] && forall x | x in gs'[k] :: x <= t[k].value
    {
      if k < i {
        assert t[k] == s[k] && gs'[k] == gs[k];
      } else if k > i {
        assert t[k] == s[k + 1] && gs'[k] == gs[k + 1];
      }
    }
  }

  lemma {:induction false} CompressFromSummarizes(ts: seq<Target>, s: seq<Item>, m: multiset<real>, i: nat)
    requires Summarizes(s, m)
    ensures Summarizes(CompressFrom(ts, s, i), m)
    decreases |s| - i
  {
    if |s| <= i + 1 {
    } else {
      if Mergeable(ts, s, i) {
        MergeSummarizes(s, m, i);
        CompressFromSummarizes(ts, MergeAt(s, i), m, i + 1);
      } else {
        CompressFromSummarizes(ts, s, m, i + 1);
      }
    }
  }

  lemma {:induction false} CompressFromFixpoint(ts: seq<Target>, s: seq<Item>, i: nat)
    ensures CompressFrom(ts, s, i) == s <==> forall j | i <= j && j + 1 < |s| :: !Mergeable(ts, s, j)
    decreases |s| - i
  {
    if |s| <= i + 1 {
    } else {
      if Mergeable(ts, s, i) {
        CompressFromShrinks(ts, MergeAt(s, i), i + 1);
        assert |CompressFrom(ts, s, i)| < |s|;
      } else {
        CompressFromFixpoint(ts, s, i + 1);
      }
    }
  }

  lemma {:induction false} CompressFromShrinks(ts: seq<Target>, s: seq<Item>, i: nat)
    ensures |CompressFrom(ts, s, i)| <= |s|
    decreases |s| - i
  {
    if |s| <= i + 1 {
    } else {
      CompressFromShrinks(ts, if Mergeable(ts, s, i) then MergeAt(s, i) else s, i + 1);
    }
  }

  // ----- every run -----------------------------------------------------------

  lemma {:induction false} SettleSplits(ts: seq<Target>, k: Sketch, log: multiset<real>, flushed: multiset<real>)
    requires flushed + multiset(k.pending) == log && |flushed| == k.count && Summarizes(k.sample, flushed)
    ensures Splits(Settle(ts, k), log, log) && Settle(ts, k).pending == []
  {
    var batch := Sort(k.pending);
    MergeSortedSummarizes(ts, k.sample, batch, flushed);
    assert flushed + multiset(batch) == log;
    CompressFromSummarizes(ts, Flush(ts, k).sample, log, 0);
    assert log + multiset([]) == log;
  }

  lemma {:induction false} EmptyRepresents()
    ensures Represents(EMPTY, multiset{})
  {
    assert Groups([], multiset{}, []);
    assert Splits(EMPTY, multiset{}, multiset{});
  }

  lemma {:induction false} InsertRepresents(ts: seq<Target>, k: Sketch, log: multiset<real>, v: real)
    requires Represents(k, log)
    ensures Represents(Insert(ts, k, v), log + multiset{v})
  {
    var flushed :| Splits(k, log, flushed);
    var buffered := k.(pending := k.pending + [v]);
    assert flushed + multiset(buffered.pending) == log + multiset{v};
    if |buffered.pending| == BUFFER_SIZE {
      SettleSplits(ts, buffered, log + multiset{v}, flushed);
    } else {
      assert Splits(buffered, log + multiset{v}, flushed);
    }
  }

  lemma {:induction false} GetRepresents(ts: seq<Target>, k: Sketch, log: multiset<real>, q: real)
    requires Represents(k, log)
    ensures Represents(Get(ts, k, q).0, log) && Get(ts, k, q).0.pending == []
  {
    var flushed :| Splits(k, log, flushed);
    SettleSplits(ts, k, log, flushed);
  }

  /** In every reachable state the sketch stands for exactly the values inserted since the last reset. */
  lemma {:induction false} RunRepresents(ts: seq<Target>, ops: seq<Op>)
    ensures Represents(Run(ts, ops), multiset(Observed(ops)))
  {
    if ops == [] {
      EmptyRepresents();
    } else {
      var before := ops[..|ops| - 1];
      RunRepresents(ts, before);
      match ops[|ops| - 1] {
        case InsertOp(v) =>
          InsertRepresents(ts, Run(ts, before), multiset(Observed(before)), v);
        case GetOp(q) =>
          GetRepresents(ts, Run(ts, before), multiset(Observed(before)), q);
        case ResetOp =>
          EmptyRepresents();
      }
    }
  }

  /** Conservation: the g's sum to count, and count and the buffer account for every insert. */
  lemma {:induction false} Conservation(k: Sketch, log: multiset<real>)
    requires Represents(k, log)
    ensures PrefixG(k.sample, |k.sample|) == k.count
    ensures k.count + |k.pending| == |log| && |k.pending| < BUFFER_SIZE
    ensures |k.sample| <= k.count && (k.sample == [] <==> k.count == 0)
  {
    var flushed :| Splits(k, log, flushed);
    var gs :| Groups(k.sample, flushed, gs);
    UnionSize(k.sample, gs, |k.sample|);
    assert gs[..|k.sample|] == gs;
  }
}
