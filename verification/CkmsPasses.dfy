/**
 What a compress pass does to samples whose deltas are all 0 and whose values strictly increase:
 where it arrives at a given item, and how it folds a row of light items in pairs.
 */
module CkmsPasses {
  import opened CkmsSketch
  import opened CkmsProofs
  import opened CkmsQueries
  import opened CkmsGrowth

  ghost predicate PlainItem(it: Item) {
    1 <= it.g && it.delta == 0
  }

  ghost predicate Rising(s: seq<Item>) {
    forall i, j | 0 <= i < j < |s| :: s[i].value < s[j].value
  }

  ghost predicate Plain(s: seq<Item>) {
    Rising(s) && forall i | 0 <= i < |s| :: PlainItem(s[i])
  }

  ghost function Total(s: seq<Item>): int {
    PrefixG(s, |s|)
  }

  lemma {:induction false} PrefixGOf(a: seq<Item>, b: seq<Item>, n: nat)
    requires n <= |a|
    ensures PrefixG(a + b, n) == PrefixG(a, n)
  {
    if n == 0 {
    } else {
      PrefixGOf(a, b, n - 1);
    }
  }

  lemma {:induction false} TotalConcat(a: seq<Item>, b: seq<Item>)
    ensures Total(a + b) == Total(a) + Total(b)
  {
    TotalUpTo(a, b, |b|);
  }

  lemma {:induction false} TotalUpTo(a: seq<Item>, b: seq<Item>, n: nat)
    requires n <= |b|
    ensures PrefixG(a + b, |a| + n) == Total(a) + PrefixG(b, n)
  {
    if n == 0 {
      PrefixGOf(a, b, |a|);
    } else {
      TotalUpTo(a, b, n - 1);
    }
  }

  lemma {:induction false} TotalAtLeast(s: seq<Item>, n: nat)
    requires n <= |s| && forall i | 0 <= i < |s| :: PlainItem(s[i])
    ensures n <= PrefixG(s, n)
  {
    if n == 0 {
    } else {
      TotalAtLeast(s, n - 1);
    }
  }

  lemma {:induction false} PrefixGIncreases(s: seq<Item>, m: nat, n: nat)
    requires m <= n <= |s| && forall i | 0 <= i < |s| :: PlainItem(s[i])
    ensures PrefixG(s, m) <= PrefixG(s, n)
    decreases n
  {
    if m == n {
    } else {
      PrefixGIncreases(s, m, n - 1);
    }
  }

  // ----- one step of the pass ------------------------------------------------

  /** b with the weight of a folded into it. */
  function Fold(a: Item, b: Item): Item {
    b.(g := a.g + b.g)
  }

  lemma {:induction false} FoldAt(x: seq<Item>, a: Item, b: Item, r: seq<Item>)
    ensures MergeAt(x + [a, b] + r, |x|) == x + [Fold(a, b)] + r
  {
    var s := x + [a, b] + r;
    assert s[..|x|] == x && s[|x| + 2..] == r;
  }

  lemma {:induction false} FoldTotal(x: seq<Item>, a: Item, b: Item, r: seq<Item>)
    ensures Total(x + [Fold(a, b)] + r) == Total(x + [a, b] + r)
  {
    TotalConcat(x + [Fold(a, b)], r);
    TotalConcat(x, [Fold(a, b)]);
    TotalConcat(x + [a, b], r);
    TotalConcat(x, [a, b]);
    assert PrefixG([a, b], 2) == PrefixG([a, b], 1) + b.g;
    assert PrefixG([a, b], 1) == a.g && PrefixG([Fold(a, b)], 1) == a.g + b.g;
  }

  lemma {:induction false} FoldPlain(x: seq<Item>, a: Item, b: Item, r: seq<Item>)
    requires Plain(x + [a, b] + r)
    ensures Plain(x + [Fold(a, b)] + r)
  {
    var s, t := x + [a, b] + r, x + [Fold(a, b)] + r;
    forall i | 0 <= i < |t| ensures t[i].value == s[SkipFolded(|x|, i)].value && PlainItem(t[i]) {
      FoldItem(x, a, b, r, i);
    }
  }

  lemma {:induction false} FoldItem(x: seq<Item>, a: Item, b: Item, r: seq<Item>, i: nat)
    requires Plain(x + [a, b] + r) && i < |x| + 1 + |r|
    ensures var (s, t) := (x + [a, b] + r, x + [Fold(a, b)] + r);
      t[i].value == s[SkipFolded(|x|, i)].value && PlainItem(t[i])
  {
    var s, t := x + [a, b] + r, x + [Fold(a, b)] + r;
    assert PlainItem(s[SkipFolded(|x|, i)]);
    if i == |x| {
      assert s[|x|] == a && s[|x| + 1] == b && PlainItem(s[|x|]);
    } else {
      assert t[i] == s[SkipFolded(|x|, i)];
    }
  }

  /** The pass at the pair of a and b. */
  lemma {:induction false} PassAt(ts: seq<Target>, x: seq<Item>, a: Item, b: Item, r: seq<Item>)
    ensures var s := x + [a, b] + r;
      CompressFrom(ts, s, |x|)
      == if Mergeable(ts, s, |x|) then CompressFrom(ts, x + [Fold(a, b)] + r, |x + [Fold(a, b)]|)
         else CompressFrom(ts, x + [a] + ([b] + r), |x + [a]|)
  {
    var s := x + [a, b] + r;
    FoldAt(x, a, b, r);
    assert s == x + [a] + ([b] + r);
  }

  // ----- arriving ------------------------------------------------------------

  /** The pass over y either arrives at the first item of z, or folds that one and arrives at the next. */
  ghost predicate Arrives(ts: seq<Target>, s: seq<Item>, i: nat, x: seq<Item>, z: seq<Item>) {
    && CompressFrom(ts, s, i) == CompressFrom(ts, x + z, |x|)
    && Plain(x + z) && Total(x + z) == Total(s)
  }

  lemma {:induction false} Arrive(ts: seq<Target>, x: seq<Item>, y: seq<Item>, z: seq<Item>)
    returns (x': seq<Item>, z': seq<Item>)
    requires z != [] && Plain(x + (y + z))
    ensures z' == z || z' == z[1..]
    ensures Arrives(ts, x + (y + z), |x|, x', z')
    ensures 2 * |x| + |y| <= 2 * |x'| && |x'| + |z'| <= |x| + |y| + |z|
    decreases |y|, 1
  {
    hide Plain, Total, Mergeable, CompressFrom, Fold;
    if y == [] {
      assert x + (y + z) == x + z;
      x', z' := x, z;
    } else {
      var a, b, r := y[0], (y + z)[1], (y + z)[2..];
      assert x + (y + z) == x + [a, b] + r;
      PassAt(ts, x, a, b, r);
      if !Mergeable(ts, x + [a, b] + r, |x|) {
        assert x + [a] + ([b] + r) == x + [a] + (y[1..] + z) == x + (y + z);
        x', z' := Arrive(ts, x + [a], y[1..], z);
      } else {
        FoldTotal(x, a, b, r);
        FoldPlain(x, a, b, r);
        x', z' := ArriveFolded(ts, x + [Fold(a, b)], y, z, r);
      }
    }
  }

  lemma {:induction false} ArriveFolded(ts: seq<Target>, x: seq<Item>, y: seq<Item>, z: seq<Item>, r: seq<Item>)
    returns (x': seq<Item>, z': seq<Item>)
    requires z != [] && y != [] && r == (y + z)[2..] && Plain(x + r)
    ensures z' == z || z' == z[1..]
    ensures Arrives(ts, x + r, |x|, x', z')
    ensures 2 * |x| + |y| - 2 <= 2 * |x'| && |x'| + |z'| <= |x| + |r|
    decreases |y|, 0
  {
    hide Plain, Total, Mergeable, CompressFrom;
    if |y| == 1 {
      x', z' := x, z[1..];
      assert r == z[1..];
    } else {
      assert r == y[2..] + z;
      x', z' := Arrive(ts, x, y[2..], z);
    }
  }

  /** What the pass has left behind is final. */
  lemma {:induction false} PrefixFinal(ts: seq<Target>, x: seq<Item>, w: seq<Item>) returns (w': seq<Item>)
    requires Plain(x + w)
    ensures CompressFrom(ts, x + w, |x|) == x + w' && |w'| <= |w| && (w != [] ==> w' != [])
    ensures Plain(x + w') && Total(x + w') == Total(x + w)
    decreases |w|, 0
  {
    hide Plain, Total, Mergeable, Fold;
    if |w| < 2 {
      w' := w;
    } else {
      var a, b, r := w[0], w[1], w[2..];
      assert x + w == x + [a, b] + r;
      PassAt(ts, x, a, b, r);
      hide CompressFrom;
      if !Mergeable(ts, x + [a, b] + r, |x|) {
        assert x + w == x + [a] + ([b] + r);
        w' := FinalFrom(ts, x, a, [b] + r);
      } else {
        FoldTotal(x, a, b, r);
        FoldPlain(x, a, b, r);
        w' := FinalFrom(ts, x, Fold(a, b), r);
      }
    }
  }

  lemma {:induction false} FinalFrom(ts: seq<Target>, x: seq<Item>, a: Item, r: seq<Item>) returns (w: seq<Item>)
    requires Plain(x + [a] + r)
    ensures CompressFrom(ts, x + [a] + r, |x + [a]|) == x + w && w != [] && |w| <= |r| + 1
    ensures Plain(x + w) && Total(x + w) == Total(x + [a] + r)
    decreases |r|, 1
  {
    hide Plain, Total, CompressFrom;
    var rest := PrefixFinal(ts, x + [a], r);
    w := [a] + rest;
    assert x + w == x + [a] + rest;
  }

  // ----- folding a row -------------------------------------------------------

  /** From size least on, the error at every rank of an item is at least 4. */
  ghost predicate Loose(ts: seq<Target>, least: nat) {
    forall n: nat, r: nat | least <= n && 1 <= r <= n :: 4.0 <= AllowableError(ts, n, r)
  }

  lemma {:induction false} LightFold(ts: seq<Target>, least: nat, x: seq<Item>, a: Item, b: Item, r: seq<Item>)
    requires Loose(ts, least) && least <= |x| + 2 + |r| && a.g + b.g <= 4 && b.delta == 0
    ensures CompressFrom(ts, x + [a, b] + r, |x|) == CompressFrom(ts, x + [Fold(a, b)] + r, |x + [Fold(a, b)]|)
  {
    var s := x + [a, b] + r;
    assert s[|x|] == a && s[|x| + 1] == b;
    assert Mergeable(ts, s, |x|);
    PassAt(ts, x, a, b, r);
  }

  /** The items of a row, folded two by two. */
  ghost function Paired(u: seq<Item>): (p: seq<Item>)
    ensures |p| == |u| / 2
  {
    if |u| < 2 then [] else [Fold(u[0], u[1])] + Paired(u[2..])
  }

  lemma {:induction false} PairedNext(x: seq<Item>, u: seq<Item>)
    requires |u| >= 2
    ensures x + Paired(u) == x + [Fold(u[0], u[1])] + Paired(u[2..])
  {
  }

  lemma {:induction false} NothingPaired(x: seq<Item>, u: seq<Item>)
    requires u == []
    ensures x + Paired(u) == x
  {
  }

  lemma {:induction false} PairedWeights(u: seq<Item>)
    requires forall i | 0 <= i < |u| :: u[i].g == 1
    ensures forall i | 0 <= i < |Paired(u)| :: Paired(u)[i].g == 2
  {
    if |u| < 2 {
    } else {
      PairedWeights(u[2..]);
    }
  }

  lemma {:induction false} ArrivesThen(ts: seq<Target>, s: seq<Item>, i: nat, x: seq<Item>, z: seq<Item>,
        x': seq<Item>, z': seq<Item>)
    requires Arrives(ts, s, i, x, z) && Arrives(ts, x + z, |x|, x', z')
    ensures Arrives(ts, s, i, x', z')
  {
    hide CompressFrom, Plain, Total;
  }

  lemma {:induction false} PairStep(ts: seq<Target>, least: nat, x: seq<Item>, u: seq<Item>, w: seq<Item>)
    requires |u| >= 2 && Loose(ts, least) && least <= |x| + |u| + |w|
    requires Plain(x + (u + w)) && forall i | 0 <= i < |u| :: u[i].g == 1
    ensures Arrives(ts, x + (u + w), |x|, x + [Fold(u[0], u[1])], u[2..] + w)
  {
    var a, b, r := u[0], u[1], u[2..] + w;
    RowItem(x, u, w, 1);
    assert a.g + b.g <= 4 && b.delta == 0;
    assert x + (u + w) == x + [a, b] + r;
    hide Plain, Total, CompressFrom, Loose, Fold;
    LightFold(ts, least, x, a, b, r);
    FoldTotal(x, a, b, r);
    FoldPlain(x, a, b, r);
  }

  /** Where the pass is at the first of an even number of items of weight 1, it folds them two by two. */
  lemma {:induction false} PairUp(ts: seq<Target>, least: nat, x: seq<Item>, u: seq<Item>, w: seq<Item>)
    requires |u| % 2 == 0 && Loose(ts, least) && least <= |x| + |u| / 2 + |w|
    requires Plain(x + (u + w)) && forall i | 0 <= i < |u| :: u[i].g == 1
    ensures Arrives(ts, x + (u + w), |x|, x + Paired(u), w)
    decreases |u|
  {
    hide Plain, Total, CompressFrom, Loose, Fold, Paired;
    if |u| == 0 {
      NothingPaired(x, u);
      assert x + (u + w) == x + w;
    } else {
      var x' := x + [Fold(u[0], u[1])];
      PairStep(ts, least, x, u, w);
      PairUp(ts, least, x', u[2..], w);
      ArrivesThen(ts, x + (u + w), |x|, x', u[2..] + w, x' + Paired(u[2..]), w);
      PairedNext(x, u);
    }
  }

  lemma {:induction false} RowItem(x: seq<Item>, u: seq<Item>, w: seq<Item>, i: nat)
    requires Plain(x + (u + w)) && i < |u|
    ensures PlainItem(u[i])
  {
    assert (x + (u + w))[|x| + i] == u[i];
  }

  // ----- two passes over a row -----------------------------------------------

  /** A sample of some items x, a row of seven items of weight 2, and one or two more. */
  ghost predicate HasRow(x: seq<Item>, row: seq<Item>, w: seq<Item>) {
    && Plain(x + (row + w)) && |row| == 7 && 1 <= |w| <= 2
    && forall i | 0 <= i < |row| :: row[i].g == 2
  }

  /** The part of the row that is folded in pairs, wherever the pass arrives. */
  lemma {:induction false} RowSplit(u: seq<Item>, last: Item, z: seq<Item>) returns (pairs: seq<Item>, rest: seq<Item>)
    requires |u| == 15 && (z == u + [last] || z == (u + [last])[1..])
    requires forall i | 0 <= i < |u| :: u[i].g == 1
    ensures z == pairs + rest && |pairs| == 14 && 1 <= |rest| <= 2
    ensures forall i | 0 <= i < |pairs| :: pairs[i].g == 1
  {
    if z == u + [last] {
      pairs, rest := u[..14], [u[14], last];
    } else {
      pairs, rest := u[1..], [last];
    }
  }

  /** One pass over fifteen items of weight 1 and a last item leaves a row behind what it makes of the items before. */
  lemma {:induction false} FirstPass(ts: seq<Target>, least: nat, y: seq<Item>, u: seq<Item>, last: Item)
    returns (x: seq<Item>, row: seq<Item>, w: seq<Item>)
    requires Loose(ts, least) && 2 * least <= |y| && |u| == 15
    requires Plain(y + (u + [last])) && forall i | 0 <= i < |u| :: u[i].g == 1
    ensures Compress(ts, y + (u + [last])) == x + (row + w) && HasRow(x, row, w)
    ensures |y| <= 2 * |x| && Total(x + (row + w)) == Total(y + (u + [last]))
  {
    var s := y + (u + [last]);
    assert [] + s == s;
    var z, pairs, rest: seq<Item>;
    hide Plain, Total, CompressFrom, Loose, Paired, HasRow;
    x, z := Arrive(ts, [], y, u + [last]);
    pairs, rest := RowSplit(u, last, z);
    PairUp(ts, least, x, pairs, rest);
    ArrivesThen(ts, s, 0, x, z, x + Paired(pairs), rest);
    PairedWeights(pairs);
    row := Paired(pairs);
    w := RowLeft(ts, x, row, rest);
  }

  lemma {:induction false} RowLeft(ts: seq<Target>, x: seq<Item>, row: seq<Item>, rest: seq<Item>)
    returns (w: seq<Item>)
    requires Plain(x + row + rest) && |row| == 7 && 1 <= |rest| <= 2 && forall i | 0 <= i < |row| :: row[i].g == 2
    ensures CompressFrom(ts, x + row + rest, |x + row|) == x + (row + w) && HasRow(x, row, w)
    ensures Total(x + (row + w)) == Total(x + row + rest)
  {
    hide Plain, Total, CompressFrom;
    w := PrefixFinal(ts, x + row, rest);
    assert x + row + w == x + (row + w);
  }

  lemma {:induction false} RowFrom(row: seq<Item>, w: seq<Item>, z: seq<Item>) returns (j: nat)
    requires |row| == 7 && (z == row[4..] + w || z == (row[4..] + w)[1..])
    ensures 4 <= j <= 5 && z == row[j..] + w == [row[j], row[j + 1]] + (row[j + 2..] + w)
  {
    j := if z == row[4..] + w then 4 else 5;
  }

  lemma {:induction false} BelowNext(x: seq<Item>, z: seq<Item>)
    requires Plain(x + z) && z != []
    ensures forall i | 0 <= i < |x| :: x[i].value < z[0].value
  {
    assert forall i | 0 <= i < |x| :: (x + z)[i] == x[i];
    assert (x + z)[|x|] == z[0];
  }

  /** The next pass folds either the fifth or the sixth item of the row into its neighbour. */
  lemma {:induction false} SecondPass(ts: seq<Target>, least: nat, x: seq<Item>, row: seq<Item>, w: seq<Item>)
    returns (j: nat, x': seq<Item>, d: Item, w': seq<Item>)
    requires Loose(ts, least) && 2 * least <= |x| && 1 <= |x| && HasRow(x, row, w)
    ensures 4 <= j <= 5 && Compress(ts, x + (row + w)) == x' + [d] + w'
    ensures x' != [] && Plain(x' + [d] + w') && d.g == 4 && Total(x') == Total(x) + 2 * j
    ensures forall i | 0 <= i < |x'| :: x'[i].value < row[j].value
  {
    var y, z := x + row[..4], row[4..] + w;
    assert [] + (y + z) == x + (row + w);
    var z': seq<Item>;
    hide Plain, Total, CompressFrom, Loose;
    x', z' := Arrive(ts, [], y, z);
    j := RowFrom(row, w, z');
    RowTotal(x, row, w, j);
    TotalConcat(x', z');
    BelowNext(x', z');
    RowItem(x, row, w, j + 1);
    d, w' := FoldAndFinish(ts, least, x', row[j], row[j + 1], row[j + 2..] + w);
  }

  lemma {:induction false} FoldAndFinish(ts: seq<Target>, least: nat, x: seq<Item>, a: Item, b: Item, r: seq<Item>)
    returns (d: Item, w: seq<Item>)
    requires Loose(ts, least) && least <= |x| + 2 + |r| && Plain(x + ([a, b] + r))
    requires a.g == 2 && b.g == 2 && b.delta == 0
    ensures CompressFrom(ts, x + ([a, b] + r), |x|) == x + [d] + w && Plain(x + [d] + w) && d.g == 4
  {
    hide Plain, CompressFrom, Loose;
    assert x + ([a, b] + r) == x + [a, b] + r;
    LightFold(ts, least, x, a, b, r);
    FoldPlain(x, a, b, r);
    d := Fold(a, b);
    w := PrefixFinal(ts, x + [d], r);
  }

  lemma {:induction false} RowTotal(x: seq<Item>, row: seq<Item>, w: seq<Item>, j: nat)
    requires j <= |row| && forall i | 0 <= i < |row| :: row[i].g == 2
    ensures Total(x + (row + w)) == Total(x) + 2 * j + Total(row[j..] + w)
    ensures PrefixG(x + (row + w), |x| + j) == Total(x) + 2 * j
  {
    var before, after := x + row[..j], row[j..] + w;
    assert x + (row + w) == before + after;
    TotalConcat(before, after);
    TotalConcat(x, row[..j]);
    TwosTotal(row[..j], j);
    PrefixGOf(before, after, |before|);
  }

  lemma {:induction false} TwosTotal(u: seq<Item>, n: nat)
    requires n <= |u| && forall i | 0 <= i < |u| :: u[i].g == 2
    ensures PrefixG(u, n) == 2 * n
  {
    if n == 0 {
    } else {
      TwosTotal(u, n - 1);
    }
  }
}
