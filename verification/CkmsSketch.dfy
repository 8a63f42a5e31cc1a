/**
 The CKMS quantile sketch as a value: what each operation of CKMSQuantiles
 (core/src/detail/ckms_quantiles.cc) does to the sketch's fields. The class in
 Ckms.dfy is proved to do exactly this; CkmsProofs.dfy proves what it means.
 */
module CkmsSketch {
  import opened Wrappers
  import opened Sequences

  /** Capacity of the buffer of values not merged into the sample yet. */
  const BUFFER_SIZE: nat := 500

  /** A quantile to track, the error tolerated for it, and the factors the constructor derives. */
  datatype Quantile = Quantile(quantile: real, error: real, u: real, v: real)

  /** For quantile 1 the factor u is a division by zero, and for quantile 0 the factor v; they are not used then. */
  type Target = t: Quantile |
    && 0.0 <= t.quantile <= 1.0 && 0.0 <= t.error && 0.0 <= t.u && 0.0 <= t.v
    && (t.quantile < 1.0 ==> t.u * (1.0 - t.quantile) == 2.0 * t.error)
    && (t.quantile > 0.0 ==> t.v * t.quantile == 2.0 * t.error)
    witness Quantile(0.5, 0.05, 0.2, 0.2)

  lemma {:induction false} NegativeTimes(a: real, b: real)
    requires a < 0.0 < b
    ensures a * b < 0.0
  {
  }

  lemma {:induction false} QuotientFacts(a: real, b: real)
    requires 0.0 <= a && 0.0 < b
    ensures 0.0 <= a / b && (a / b) * b == a
  {
    var ratio := a / b;
    if ratio < 0.0 {
      NegativeTimes(ratio, b);
    }
  }

  function NewTarget(quantile: real, error: real): (t: Target)
    requires 0.0 <= quantile <= 1.0 && 0.0 <= error
    ensures t.quantile == quantile && t.error == error
  {
    var u := if quantile < 1.0 then QuotientFacts(2.0 * error, 1.0 - quantile); 2.0 * error / (1.0 - quantile) else 0.0;
    var v := if quantile > 0.0 then QuotientFacts(2.0 * error, quantile); 2.0 * error / quantile else 0.0;
    Quantile(quantile, error, u, v)
  }

  /** A sample item: it stands for g observations, none larger than value. */
  datatype Item = Item(value: real, g: int, delta: int)

  datatype Sketch = Sketch(count: nat, sample: seq<Item>, pending: seq<real>)

  const EMPTY := Sketch(0, [], [])

  // ----- error bound ---------------------------------------------------------

  /**
   The bound one target contributes at a rank. When its factor is a division by zero the
   product is infinite or not a number, is never below the running minimum, and so
   contributes nothing.
   */
  function Contribution(t: Target, size: nat, rank: int): Option<real> {
    if rank as real <= t.quantile * size as real then
      if t.quantile == 1.0 then None else Some(t.u * (size as real - rank as real))
    else
      if t.quantile == 0.0 then None else Some(t.v * rank as real)
  }

  function Lower(e: Option<real>, least: real): real {
    if e.Some? && e.value < least then e.value else least
  }

  function AllowableError(ts: seq<Target>, size: nat, rank: int): real {
    if ts == [] then (size + 1) as real
    else Lower(Contribution(ts[|ts| - 1], size, rank), AllowableError(ts[..|ts| - 1], size, rank))
  }

  // ----- insertBatch ---------------------------------------------------------

  /** Where v goes when the search starts at item c. */
  function Place(s: seq<Item>, c: nat, v: real): (p: nat)
    requires c < |s|
    ensures c <= p <= |s|
    decreases |s| - c
  {
    if s[c].value < v then
      if c + 1 < |s| then Place(s, c + 1, v) else |s|
    else if s[c].value == v then c + 1
    else c
  }

  /**
   The delta of an item inserted at position p. The source tests "idx - 1 == 0" on an
   unsigned idx, so the first test holds at position 1 only, not at position 0.
   */
  function DeltaAt(ts: seq<Target>, size: nat, p: nat): int {
    if p == 1 || p + 1 == size then 0
    else AllowableError(ts, size, p + 1).Floor + 1
  }

  function InsertItem(s: seq<Item>, p: nat, it: Item): seq<Item>
    requires p <= |s|
  {
    s[..p] + [it] + s[p..]
  }

  /** One left-to-right pass; every value resumes the search where the last one was inserted. */
  function MergePass(ts: seq<Target>, s: seq<Item>, c: nat, batch: seq<real>): seq<Item>
    requires c < |s|
    decreases |batch|
  {
    if batch == [] then s
    else
      var p := Place(s, c, batch[0]);
      MergePass(ts, InsertItem(s, p, Item(batch[0], 1, DeltaAt(ts, |s|, p))), p, batch[1..])
  }

  function MergeSorted(ts: seq<Target>, s: seq<Item>, batch: seq<real>): seq<Item> {
    if batch == [] then s
    else if s == [] then MergePass(ts, [Item(batch[0], 1, 0)], 0, batch[1..])
    else MergePass(ts, s, 0, batch)
  }

  function Flush(ts: seq<Target>, k: Sketch): Sketch {
    Sketch(k.count + |k.pending|, MergeSorted(ts, k.sample, Sort(k.pending)), [])
  }

  // ----- compress ------------------------------------------------------------

  /** The test by which compress folds item i into its right neighbour. */
  predicate Mergeable(ts: seq<Target>, s: seq<Item>, i: nat)
    requires i + 1 < |s|
  {
    (s[i].g + s[i + 1].g + s[i + 1].delta) as real <= AllowableError(ts, |s|, i + 1)
  }

  function MergeAt(s: seq<Item>, i: nat): seq<Item>
    requires i + 1 < |s|
  {
    s[..i] + [s[i + 1].(g := s[i].g + s[i + 1].g)] + s[i + 2..]
  }

  /** The rest of the pass when the next pair to look at is (i, i + 1). */
  function CompressFrom(ts: seq<Target>, s: seq<Item>, i: nat): seq<Item>
    decreases |s| - i
  {
    if |s| <= i + 1 then s
    else CompressFrom(ts, if Mergeable(ts, s, i) then MergeAt(s, i) else s, i + 1)
  }

  function Compress(ts: seq<Target>, s: seq<Item>): seq<Item> {
    CompressFrom(ts, s, 0)
  }

  function Settle(ts: seq<Target>, k: Sketch): Sketch {
    var f := Flush(ts, k);
    f.(sample := Compress(ts, f.sample))
  }

  // ----- the public operations -----------------------------------------------

  function Insert(ts: seq<Target>, k: Sketch, v: real): Sketch {
    var buffered := k.(pending := k.pending + [v]);
    if |buffered.pending| == BUFFER_SIZE then Settle(ts, buffered) else buffered
  }

  /** C++ conversion from floating point to integer: towards zero. */
  function Truncate(x: real): int {
    if x >= 0.0 then x.Floor else -((-x).Floor)
  }

  function Desired(q: real, count: nat): int {
    Truncate(q * count as real)
  }

  /** The rank a query may not pass. */
  function Bound(ts: seq<Target>, size: nat, rank: int): real {
    rank as real + AllowableError(ts, size, rank) / 2.0
  }

  /** The index get stops at: scanning from item i, with rankMin the total g before it. */
  function Scan(s: seq<Item>, i: nat, rankMin: int, bound: real): (r: nat)
    requires i < |s|
    ensures i <= r < |s|
    decreases |s| - i
  {
    if i + 1 == |s| then i
    else if (rankMin + s[i].g + s[i + 1].g + s[i + 1].delta) as real > bound then i
    else Scan(s, i + 1, rankMin + s[i].g, bound)
  }

  function AnswerIndex(ts: seq<Target>, k: Sketch, q: real): (i: nat)
    requires k.sample != []
    ensures i < |k.sample|
  {
    Scan(k.sample, 0, 0, Bound(ts, |k.sample|, Desired(q, k.count)))
  }

  /** None stands for the quiet NaN that an empty sketch answers. */
  function Answer(ts: seq<Target>, k: Sketch, q: real): Option<real> {
    if k.sample == [] then None else Some(k.sample[AnswerIndex(ts, k, q)].value)
  }

  /** get flushes and compresses first, then answers on what is left. */
  function Get(ts: seq<Target>, k: Sketch, q: real): (Sketch, Option<real>) {
    var settled := Settle(ts, k);
    (settled, Answer(ts, settled, q))
  }

  // ----- runs ----------------------------------------------------------------

  datatype Op = InsertOp(value: real) | GetOp(q: real) | ResetOp

  function Step(ts: seq<Target>, k: Sketch, op: Op): Sketch {
    match op
    case InsertOp(v) => Insert(ts, k, v)
    case GetOp(q) => Get(ts, k, q).0
    case ResetOp => EMPTY
  }

  function Run(ts: seq<Target>, ops: seq<Op>): Sketch {
    if ops == [] then EMPTY else Step(ts, Run(ts, ops[..|ops| - 1]), ops[|ops| - 1])
  }

  /** The values inserted since the last reset. */
  ghost function Observed(ops: seq<Op>): seq<real> {
    if ops == [] then []
    else
      var before := Observed(ops[..|ops| - 1]);
      match ops[|ops| - 1]
      case InsertOp(v) => before + [v]
      case GetOp(_) => before
      case ResetOp => []
  }
}
