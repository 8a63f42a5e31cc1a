/**
 The sliding window of core/src/detail/time_window_quantiles.cc as a value: a ring of
 replicated sketches. Time is a number of clock ticks handed to every call, never
 decreasing from one call to the next.
 */
module WindowModel {
  import opened Wrappers
  import opened CkmsSketch

  datatype Window = Window(buckets: seq<Sketch>, current: nat, lastRotation: int)

  /** interval is the rotation interval, size the number of age buckets. */
  datatype Settings = Settings(targets: seq<Target>, interval: int, size: nat)

  type Config = c: Settings | c.interval > 0 && c.size > 0
    witness Settings([], 1, 1)

  /** max_age / age_buckets, the integer division of C++: it drops the fraction, towards zero. */
  function RotationInterval(maxAge: int, ageBuckets: nat): int
    requires ageBuckets > 0
  {
    if maxAge >= 0 then maxAge / ageBuckets else -(-maxAge / ageBuckets)
  }

  /** The settings a window is constructed with. */
  function Built(targets: seq<Target>, maxAge: int, ageBuckets: nat): Settings
    requires ageBuckets > 0
  {
    Settings(targets, RotationInterval(maxAge, ageBuckets), ageBuckets)
  }

  /** interval is the most that every age bucket can have of max_age; of a negative one, the least. */
  ghost predicate IsShare(maxAge: int, ageBuckets: nat, interval: int) {
    if maxAge >= 0 then interval * ageBuckets <= maxAge < (interval + 1) * ageBuckets
    else (interval - 1) * ageBuckets < maxAge <= interval * ageBuckets
  }

  lemma {:induction false} ShareUnique(n: nat, x: int, i: int, j: int)
    requires n > 0 && i * n <= x < (i + 1) * n && j * n <= x < (j + 1) * n
    ensures i == j
  {
    if i < j {
      ProductAtMost(i + 1, j, n);
    } else if j < i {
      ProductAtMost(j + 1, i, n);
    }
  }

  lemma {:induction false} ProductAtMost(i: int, j: int, n: nat)
    requires i <= j
    ensures i * n <= j * n
  {
  }

  lemma {:induction false} QuotientShares(n: nat, x: nat)
    requires n > 0
    ensures (x / n) * n <= x < (x / n + 1) * n
  {
    assert x == n * (x / n) + x % n;
  }

  lemma {:induction false} NegatedShare(maxAge: int, n: nat, i: int)
    requires maxAge < 0
    ensures IsShare(maxAge, n, i) <==> (-i) * n <= -maxAge < (-i + 1) * n
  {
    assert (-i) * n == -(i * n);
    assert (i - 1) * n == i * n - n && (-i + 1) * n == (-i) * n + n;
  }

  lemma {:induction false} IntervalExactly(maxAge: int, ageBuckets: nat, interval: int)
    requires ageBuckets > 0
    ensures IsShare(maxAge, ageBuckets, interval) <==> interval == RotationInterval(maxAge, ageBuckets)
  {
    var x, i := if maxAge >= 0 then maxAge else -maxAge, if maxAge >= 0 then interval else -interval;
    QuotientShares(ageBuckets, x);
    if maxAge < 0 {
      NegatedShare(maxAge, ageBuckets, interval);
      NegatedShare(maxAge, ageBuckets, -(x / ageBuckets));
    }
    if i * ageBuckets <= x < (i + 1) * ageBuckets {
      ShareUnique(ageBuckets, x, i, x / ageBuckets);
    }
  }

  predicate Fits(c: Settings, w: Window) {
    |w.buckets| == c.size && w.current < c.size
  }

  function Fresh(c: Settings, start: int): (w: Window)
    ensures c.size > 0 ==> Fits(c, w)
  {
    Window(seq(c.size, _ => EMPTY), 0, start)
  }

  /** One turn of rotate's loop: clear the current bucket and move on to the next. */
  function Turn(c: Settings, w: Window): (r: Window)
    requires Fits(c, w)
    ensures Fits(c, r)
  {
    Window(w.buckets[w.current := EMPTY],
           if w.current + 1 >= |w.buckets| then 0 else w.current + 1,
           w.lastRotation + c.interval)
  }

  /** The condition on which rotate's loop ends (see WindowProofs.RotationEnds); it always holds for a Config. */
  predicate Ends(c: Settings, w: Window, now: int) {
    c.interval > 0 || now - w.lastRotation <= c.interval
  }

  /** The loop of rotate, when delta is the time since the last rotation. */
  function Rotate(c: Settings, w: Window, delta: int): (r: Window)
    requires Fits(c, w) && (c.interval > 0 || delta <= c.interval)
    ensures Fits(c, r) && (c.interval <= 0 ==> r == w)
    decreases if delta > 0 then delta else 0
  {
    if delta > c.interval then Rotate(c, Turn(c, w), delta - c.interval) else w
  }

  function RotateTo(c: Settings, w: Window, now: int): (r: Window)
    requires Fits(c, w) && Ends(c, w, now)
    ensures Fits(c, r) && (c.interval <= 0 ==> r == w)
  {
    Rotate(c, w, now - w.lastRotation)
  }

  function Insert(c: Settings, w: Window, value: real, now: int): (r: Window)
    requires Fits(c, w) && Ends(c, w, now)
    ensures Fits(c, r)
  {
    var rotated := RotateTo(c, w, now);
    rotated.(buckets :=
      seq(c.size, i requires 0 <= i < c.size => CkmsSketch.Insert(c.targets, rotated.buckets[i], value)))
  }

  function Get(c: Settings, w: Window, q: real, now: int): (r: (Window, Option<real>))
    requires Fits(c, w) && Ends(c, w, now)
    ensures Fits(c, r.0) && (c.interval <= 0 ==> r.0.lastRotation == w.lastRotation)
  {
    var rotated := RotateTo(c, w, now);
    var (k, answer) := CkmsSketch.Get(c.targets, rotated.buckets[rotated.current], q);
    (rotated.(buckets := rotated.buckets[rotated.current := k]), answer)
  }

  // ----- runs ----------------------------------------------------------------

  datatype Event = Inserted(value: real, at: int) | Queried(q: real, at: int)

  /** Times never decrease, from the construction of the window on. */
  ghost predicate Timely(start: int, es: seq<Event>) {
    && (forall i | 0 <= i < |es| :: start <= es[i].at)
    && (forall i, j | 0 <= i < j < |es| :: es[i].at <= es[j].at)
  }

  function Step(c: Config, w: Window, e: Event): (r: Window)
    requires Fits(c, w)
    ensures Fits(c, r)
  {
    match e
    case Inserted(v, at) => Insert(c, w, v, at)
    case Queried(q, at) => Get(c, w, q, at).0
  }

  function Run(c: Config, start: int, es: seq<Event>): (r: Window)
    ensures Fits(c, r)
  {
    if es == [] then Fresh(c, start) else Step(c, Run(c, start, es[..|es| - 1]), es[|es| - 1])
  }

  // ----- the timestamped log -------------------------------------------------

  /** The rotation epoch a time belongs to: the number of whole intervals completed strictly before it. */
  ghost function Epoch(c: Config, start: int, t: int): nat {
    if t <= start then 0 else (t - start - 1) / c.interval
  }

  /** The values of the log whose insertion happened in epoch `from` or later. */
  ghost function Kept(c: Config, start: int, es: seq<Event>, from: int): seq<real> {
    if es == [] then []
    else
      var before := Kept(c, start, es[..|es| - 1], from);
      match es[|es| - 1]
      case Inserted(v, at) => if Epoch(c, start, at) >= from then before + [v] else before
      case Queried(_, _) => before
  }
}
