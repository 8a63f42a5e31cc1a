/** The ring of sketches agrees with a timestamped log filtered by age. */
module WindowProofs {
  import CkmsSketch
  import opened CkmsProofs
  import opened CkmsQueries
  import opened WindowModel

  /** The index of the bucket k places after the current one. */
  ghost function Slot(size: nat, current: nat, k: nat): (i: nat)
    requires current < size && k < size
    ensures i < size
  {
    if current + k < size then current + k else current + k - size
  }

  /**
   After r rotations the bucket k places after the current one stands for the insertions
   of epoch r + k - size + 1 and later; the current one for the last `size` epochs.
   */
  ghost predicate Agrees(c: Config, start: int, es: seq<Event>, w: Window, r: nat)
    requires Fits(c, w)
  {
    && w.lastRotation == start + r * c.interval
    && forall k: nat | k < c.size :: BucketAgrees(c, start, es, w, r, k)
  }

  ghost predicate BucketAgrees(c: Config, start: int, es: seq<Event>, w: Window, r: nat, k: nat)
    requires Fits(c, w) && k < c.size
  {
    Represents(w.buckets[Slot(c.size, w.current, k)], multiset(Kept(c, start, es, r + k - c.size + 1)))
  }

  // ----- epochs --------------------------------------------------------------

  lemma {:induction false} DivisionAtLeast(x: nat, d: int, m: nat)
    requires d > 0
    ensures x / d >= m <==> x >= m * d
  {
    var n := x / d;
    assert x == n * d + x % d && 0 <= x % d < d;
    if n >= m {
      ProductLe(m, n, d);
    } else {
      ProductLe(n + 1, m, d);
      assert (n + 1) * d == n * d + d;
    }
  }

  lemma {:induction false} ProductLe(a: int, b: int, d: int)
    requires a <= b && d > 0
    ensures a * d <= b * d
  {
  }

  /** rotate's loop condition, in terms of the epoch. */
  lemma {:induction false} EpochAbove(c: Config, start: int, t: int, r: nat)
    ensures t - start > (r + 1) * c.interval <==> Epoch(c, start, t) > r
  {
    ProductLe(1, r + 1, c.interval);
    if t > start {
      DivisionAtLeast(t - start - 1, c.interval, r + 1);
    }
  }

  lemma {:induction false} EpochMonotone(c: Config, start: int, t: int, t': int)
    requires t <= t'
    ensures Epoch(c, start, t) <= Epoch(c, start, t')
  {
    var e := Epoch(c, start, t);
    if e > 0 {
      EpochAbove(c, start, t, e - 1);
      EpochAbove(c, start, t', e - 1);
    }
  }

  // ----- rotation ------------------------------------------------------------

  lemma {:induction false} NothingKept(c: Config, start: int, es: seq<Event>, from: int)
    requires forall i | 0 <= i < |es| :: Epoch(c, start, es[i].at) < from
    ensures Kept(c, start, es, from) == []
  {
    if es == [] {
    } else {
      NothingKept(c, start, es[..|es| - 1], from);
      assert Epoch(c, start, es[|es| - 1].at) < from;
    }
  }

  lemma {:induction false} TurnAgrees(c: Config, start: int, es: seq<Event>, w: Window, r: nat)
    requires Fits(c, w) && Agrees(c, start, es, w, r)
    requires forall i | 0 <= i < |es| :: Epoch(c, start, es[i].at) <= r
    ensures Agrees(c, start, es, Turn(c, w), r + 1)
  {
    var w', r' := Turn(c, w), r + 1;
    forall k: nat | k < c.size ensures BucketAgrees(c, start, es, w', r', k) {
      if k + 1 < c.size {
        assert BucketAgrees(c, start, es, w, r, k + 1);
        assert Slot(c.size, w'.current, k) == Slot(c.size, w.current, k + 1);
      } else {
        NothingKept(c, start, es, r + 1);
        EmptyRepresents();
      }
    }
    assert (r + 1) * c.interval == r * c.interval + c.interval;
  }

  /** rotate stops in the epoch of the current time. */
  lemma {:induction false} RotateAgrees(c: Config, start: int, es: seq<Event>, w: Window, r: nat, now: int)
    requires Fits(c, w) && Agrees(c, start, es, w, r) && r <= Epoch(c, start, now)
    requires forall i | 0 <= i < |es| :: Epoch(c, start, es[i].at) <= r
    ensures Agrees(c, start, es, RotateTo(c, w, now), Epoch(c, start, now))
    decreases Epoch(c, start, now) - r
  {
    EpochAbove(c, start, now, r);
    assert (r + 1) * c.interval == r * c.interval + c.interval;
    if now - w.lastRotation <= c.interval {
    } else {
      TurnAgrees(c, start, es, w, r);
      RotateAgrees(c, start, es, Turn(c, w), r + 1, now);
    }
  }

  lemma {:induction false} KeptAppend(c: Config, start: int, es: seq<Event>, e: Event, from: int)
    ensures var before := Kept(c, start, es, from);
      Kept(c, start, es + [e], from)
      == if e.Inserted? && Epoch(c, start, e.at) >= from then before + [e.value] else before
  {
    var es' := es + [e];
    assert es'[..|es'| - 1] == es && es'[|es'| - 1] == e;
  }

  lemma {:induction false} InsertSlots(c: Config, w: Window, v: real, at: int, k: nat)
    requires Fits(c, w) && k < c.size
    ensures var (w', after) := (RotateTo(c, w, at), Insert(c, w, v, at));
      && after.current == w'.current && after.lastRotation == w'.lastRotation
      && after.buckets[Slot(c.size, after.current, k)]
         == CkmsSketch.Insert(c.targets, w'.buckets[Slot(c.size, w'.current, k)], v)
  {
  }

  lemma {:induction false} InsertBucketAgrees(c: Config, start: int, es: seq<Event>, w: Window, v: real,
        at: int, k: nat)
    requires Fits(c, w) && k < c.size && BucketAgrees(c, start, es, RotateTo(c, w, at), Epoch(c, start, at), k)
    ensures BucketAgrees(c, start, es + [Inserted(v, at)], Insert(c, w, v, at), Epoch(c, start, at), k)
  {
    var from := Epoch(c, start, at) + k - c.size + 1;
    var w' := RotateTo(c, w, at);
    var before := Kept(c, start, es, from);
    InsertSlots(c, w, v, at, k);
    InsertRepresents(c.targets, w'.buckets[Slot(c.size, w'.current, k)], multiset(before), v);
    KeptAppend(c, start, es, Inserted(v, at), from);
    assert multiset(before + [v]) == multiset(before) + multiset{v};
  }

  lemma {:induction false} InsertAgrees(c: Config, start: int, es: seq<Event>, w: Window, v: real, at: int)
    requires Fits(c, w) && Agrees(c, start, es, RotateTo(c, w, at), Epoch(c, start, at))
    ensures Agrees(c, start, es + [Inserted(v, at)], Insert(c, w, v, at), Epoch(c, start, at))
  {
    forall k: nat | k < c.size
      ensures BucketAgrees(c, start, es + [Inserted(v, at)], Insert(c, w, v, at), Epoch(c, start, at), k)
    {
      InsertBucketAgrees(c, start, es, w, v, at, k);
    }
  }

  lemma {:induction false} QuerySlots(c: Config, w: Window, q: real, at: int, k: nat)
    requires Fits(c, w) && k < c.size
    ensures var (w', after) := (RotateTo(c, w, at), Get(c, w, q, at).0);
      && after.current == w'.current && after.lastRotation == w'.lastRotation
      && after.buckets[Slot(c.size, after.current, k)]
         == if k == 0 then CkmsSketch.Get(c.targets, w'.buckets[Slot(c.size, w'.current, 0)], q).0
            else w'.buckets[Slot(c.size, w'.current, k)]
  {
    assert k != 0 ==> Slot(c.size, RotateTo(c, w, at).current, k) != RotateTo(c, w, at).current;
  }

  lemma {:induction false} QueryBucketAgrees(c: Config, start: int, es: seq<Event>, w: Window, q: real, at: int, k: nat)
    requires Fits(c, w) && k < c.size && BucketAgrees(c, start, es, RotateTo(c, w, at), Epoch(c, start, at), k)
    ensures BucketAgrees(c, start, es + [Queried(q, at)], Get(c, w, q, at).0, Epoch(c, start, at), k)
  {
    hide Epoch, Kept, CkmsSketch.Get, Represents;
    var from := Epoch(c, start, at) + k - c.size + 1;
    QuerySlots(c, w, q, at, k);
    KeptAppend(c, start, es, Queried(q, at), from);
    if k == 0 {
      var w' := RotateTo(c, w, at);
      GetRepresents(c.targets, w'.buckets[Slot(c.size, w'.current, 0)], multiset(Kept(c, start, es, from)), q);
    }
  }

  lemma {:induction false} QueryAgrees(c: Config, start: int, es: seq<Event>, w: Window, q: real, at: int)
    requires Fits(c, w) && Agrees(c, start, es, RotateTo(c, w, at), Epoch(c, start, at))
    ensures Agrees(c, start, es + [Queried(q, at)], Get(c, w, q, at).0, Epoch(c, start, at))
  {
    forall k: nat | k < c.size
      ensures BucketAgrees(c, start, es + [Queried(q, at)], Get(c, w, q, at).0, Epoch(c, start, at), k)
    {
      QueryBucketAgrees(c, start, es, w, q, at, k);
    }
  }

  /** The epoch the window is in after the run es. */
  ghost function LastEpoch(c: Config, start: int, es: seq<Event>): nat {
    if es == [] then 0 else Epoch(c, start, es[|es| - 1].at)
  }

  /**
   Window refinement: in every run the ring agrees with the filtered log, in the epoch of
   the last call.
   */
  lemma {:induction false} RunAgrees(c: Config, start: int, es: seq<Event>)
    requires Timely(start, es)
    ensures Agrees(c, start, es, Run(c, start, es), LastEpoch(c, start, es))
  {
    if es == [] {
      EmptyRepresents();
    } else {
      var before, e := es[..|es| - 1], es[|es| - 1];
      RunAgrees(c, start, before);
      RotatedRunAgrees(c, start, before, e.at);
      assert es == before + [e];
      match e {
        case Inserted(v, at) => InsertAgrees(c, start, before, Run(c, start, before), v, at);
        case Queried(q, at) => QueryAgrees(c, start, before, Run(c, start, before), q, at);
      }
    }
  }

  lemma {:induction false} RotatedRunAgrees(c: Config, start: int, es: seq<Event>, now: int)
    requires forall i | 0 <= i < |es| :: es[i].at <= now
    requires Timely(start, es) && Agrees(c, start, es, Run(c, start, es), LastEpoch(c, start, es))
    ensures Agrees(c, start, es, RotateTo(c, Run(c, start, es), now), Epoch(c, start, now))
  {
    forall i | 0 <= i < |es| ensures Epoch(c, start, es[i].at) <= LastEpoch(c, start, es) {
      EpochMonotone(c, start, es[i].at, es[|es| - 1].at);
    }
    if es != [] {
      EpochMonotone(c, start, es[|es| - 1].at, now);
    }
    RotateAgrees(c, start, es, Run(c, start, es), LastEpoch(c, start, es), now);
  }

  /** The observations a query at time now is about: the insertions of the last `size` epochs. */
  ghost function InWindow(c: Config, start: int, es: seq<Event>, now: int): seq<real> {
    Kept(c, start, es, Epoch(c, start, now) - c.size + 1)
  }

  /** Every query of every run answers with the rank guarantee for exactly the observations in the window. */
  lemma {:induction false} WindowGuarantee(c: Config, start: int, es: seq<Event>, q: real, now: int)
    requires Timely(start, es + [Queried(q, now)])
    ensures var (w, answer) := Get(c, Run(c, start, es), q, now);
      && RankGuarantee(c.targets, w.buckets[w.current], InWindow(c, start, es, now), q)
      && answer == CkmsSketch.Answer(c.targets, w.buckets[w.current], q)
  {
    var es' := es + [Queried(q, now)];
    assert forall i | 0 <= i < |es| :: es[i] == es'[i];
    assert es'[|es|].at == now;
    RunAgrees(c, start, es);
    RotatedRunAgrees(c, start, es, now);
    AgreesGuarantee(c, start, es, Run(c, start, es), q, now);
  }

  lemma {:induction false} AgreesGuarantee(c: Config, start: int, es: seq<Event>, w: Window, q: real, now: int)
    requires Fits(c, w) && Agrees(c, start, es, RotateTo(c, w, now), Epoch(c, start, now))
    ensures var (w', answer) := Get(c, w, q, now);
      && RankGuarantee(c.targets, w'.buckets[w'.current], InWindow(c, start, es, now), q)
      && answer == CkmsSketch.Answer(c.targets, w'.buckets[w'.current], q)
  {
    var rotated := RotateTo(c, w, now);
    var log := InWindow(c, start, es, now);
    assert BucketAgrees(c, start, es, rotated, Epoch(c, start, now), 0);
    GetRepresents(c.targets, rotated.buckets[rotated.current], multiset(log), q);
    AnswerGuarantee(c.targets, CkmsSketch.Get(c.targets, rotated.buckets[rotated.current], q).0, log, q);
  }

  // ----- real time -----------------------------------------------------------

  /** An epoch in terms of ticks. */
  lemma {:induction false} EpochTicks(c: Config, start: int, t: int)
    requires start <= t
    ensures var e := Epoch(c, start, t);
      t - start <= (e + 1) * c.interval && (e > 0 ==> e * c.interval < t - start)
  {
    var e := Epoch(c, start, t);
    EpochAbove(c, start, t, e);
    if e > 0 {
      EpochAbove(c, start, t, e - 1);
    }
  }

  lemma {:induction false} OldEpoch(interval: int, size: nat, e: nat, r: nat, age: int, x: int, y: int)
    requires interval > 0 && size > 0 && e < r - size + 1
    requires x <= (e + 1) * interval && r * interval < y && age == y - x
    ensures age > (size - 1) * interval
  {
    ProductLe(e + 1 + (size - 1), r, interval);
    assert (e + 1 + (size - 1)) * interval == (e + 1) * interval + (size - 1) * interval;
  }

  lemma {:induction false} RecentEpoch(interval: int, size: nat, e: nat, r: nat, age: int, x: int, y: int)
    requires interval > 0 && size > 0 && e >= r - size + 1
    requires e * interval <= x && y <= (r + 1) * interval && age == y - x
    ensures age <= size * interval
  {
    ProductLe(r + 1, e + size, interval);
    assert (e + size) * interval == e * interval + size * interval;
  }

  /**
   Whether an insertion at time t is in the window at time now: always if it is at most
   (size - 1) intervals old, never if it is more than size intervals old.
   */
  lemma {:induction false} WindowAges(c: Config, start: int, t: int, now: int)
    requires start <= t <= now
    ensures now - t <= (c.size - 1) * c.interval ==> Epoch(c, start, t) >= Epoch(c, start, now) - c.size + 1
    ensures Epoch(c, start, t) >= Epoch(c, start, now) - c.size + 1 ==> now - t <= c.size * c.interval
  {
    var e, r := Epoch(c, start, t), Epoch(c, start, now);
    EpochTicks(c, start, t);
    EpochTicks(c, start, now);
    if e < r - c.size + 1 {
      OldEpoch(c.interval, c.size, e, r, now - t, t - start, now - start);
    } else {
      RecentEpoch(c.interval, c.size, e, r, now - t, t - start, now - start);
    }
  }

  /** Membership of the filtered log, event by event. */
  lemma {:induction false} KeptExactly(c: Config, start: int, es: seq<Event>, from: int, x: real)
    ensures x in Kept(c, start, es, from)
      <==> exists i :: 0 <= i < |es| && es[i].Inserted? && es[i].value == x && Epoch(c, start, es[i].at) >= from
  {
    if es == [] {
    } else {
      var before := es[..|es| - 1];
      KeptExactly(c, start, before, from, x);
      assert forall i | 0 <= i < |before| :: before[i] == es[i];
    }
  }

  // ----- when rotation ends --------------------------------------------------

  /** The window after k turns of rotate's loop. */
  ghost function Turned(c: Settings, w: Window, k: nat): (r: Window)
    requires Fits(c, w)
    ensures Fits(c, r) && r.lastRotation == w.lastRotation + k * c.interval
  {
    if k == 0 then w
    else
      assert k * c.interval == (k - 1) * c.interval + c.interval;
      Turn(c, Turned(c, w, k - 1))
  }

  /** rotate's loop does not go on for another turn. */
  ghost predicate Stops(c: Settings, w: Window, now: int, k: nat)
    requires Fits(c, w)
  {
    now - Turned(c, w, k).lastRotation <= c.interval
  }

  /** rotate's loop ends, after however many turns. */
  ghost predicate Terminates(c: Settings, w: Window, now: int)
    requires Fits(c, w)
  {
    exists k: nat :: Stops(c, w, now, k)
  }

  /** rotate takes as many turns as its loop condition asks for. */
  lemma {:induction false} RotateTurns(c: Settings, w: Window, now: int) returns (k: nat)
    requires Fits(c, w) && Ends(c, w, now)
    ensures RotateTo(c, w, now) == Turned(c, w, k)
    ensures Stops(c, w, now, k) && forall j: nat | j < k :: !Stops(c, w, now, j)
    decreases if c.interval > 0 then now - w.lastRotation else 0
  {
    if now - w.lastRotation <= c.interval {
      k := 0;
    } else {
      var next := Turn(c, w);
      var k' := RotateTurns(c, next, now);
      k := k' + 1;
      TurnedTwice(c, w, k');
      forall j: nat | j < k ensures !Stops(c, w, now, j) {
        if j > 0 {
          TurnedTwice(c, w, j - 1);
          assert !Stops(c, next, now, j - 1);
        }
      }
    }
  }

  lemma {:induction false} TurnedTwice(c: Settings, w: Window, k: nat)
    requires Fits(c, w)
    ensures Turned(c, Turn(c, w), k) == Turned(c, w, k + 1)
  {
    if k == 0 {
      assert Turned(c, w, 0 + 1) == Turn(c, Turned(c, w, 0));
    } else {
      TurnedTwice(c, w, k - 1);
    }
  }

  /** Whether rotate's loop ends at all, from any window and at any time. */
  lemma {:induction false} LoopEnds(c: Settings, w: Window, now: int)
    requires Fits(c, w)
    ensures Terminates(c, w, now) <==> Ends(c, w, now)
  {
    if Ends(c, w, now) {
      var k := RotateTurns(c, w, now);
    } else {
      forall k: nat ensures !Stops(c, w, now, k) {
        NonPositiveProduct(k, c.interval);
      }
    }
  }

  lemma {:induction false} NonPositiveProduct(k: nat, d: int)
    requires d <= 0
    ensures k * d <= 0
  {
  }

  /** Every call of a window ends, exactly when max_age is at least one tick per bucket. */
  lemma {:induction false} RotationEnds(targets: seq<CkmsSketch.Target>, maxAge: int, ageBuckets: nat)
    requires ageBuckets > 0
    ensures var c := Built(targets, maxAge, ageBuckets);
      maxAge >= ageBuckets
      <==> forall w, now | Fits(c, w) :: Terminates(c, w, now)
  {
    var c := Built(targets, maxAge, ageBuckets);
    if maxAge >= ageBuckets {
      assert c.interval > 0;
      forall w, now | Fits(c, w) ensures Terminates(c, w, now) {
        LoopEnds(c, w, now);
      }
    } else {
      assert c.interval <= 0;
      LoopEnds(c, Fresh(c, 0), 1);
    }
  }

  /** With max_age 0 the loop goes on for ever at the first tick after the construction. */
  lemma {:induction false} RotationHangs(targets: seq<CkmsSketch.Target>, ageBuckets: nat, start: int, k: nat)
    requires ageBuckets > 0
    ensures var c := Built(targets, 0, ageBuckets);
      !Stops(c, Fresh(c, start), start + 1, k)
  {
    var c := Built(targets, 0, ageBuckets);
    assert c.interval == 0;
    LoopEnds(c, Fresh(c, start), start + 1);
    assert !Terminates(c, Fresh(c, start), start + 1);
  }
}
