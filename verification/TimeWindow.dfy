/**
 The class TimeWindowQuantiles of core/src/detail/time_window_quantiles.cc, proved to do to
 its ring of sketches what WindowModel says.
 */
module TimeWindow {
  import opened Wrappers
  import CkmsSketch
  import opened Ckms
  import opened WindowModel

  class TimeWindowQuantiles {
    ghost const config: Settings
    const quantiles: seq<CkmsSketch.Target>
    const buckets: seq<CkmsQuantiles>
    var current: nat
    var lastRotation: int
    const rotationInterval: int

    ghost function Parts(): set<object> {
      (set b: object | b in buckets) + (set i | 0 <= i < |buckets| :: buckets[i].buffer as object)
    }

    ghost predicate Valid()
      reads this, Parts()
    {
      && config == Settings(quantiles, rotationInterval, |buckets|)
      && this !in Parts()
      && current < |buckets|
      && (forall i | 0 <= i < |buckets| :: buckets[i].Valid() && buckets[i].quantiles == quantiles)
      && (forall i, j | 0 <= i < j < |buckets| :: buckets[i] != buckets[j] && buckets[i].buffer != buckets[j].buffer)
    }

    ghost function States(): (r: seq<CkmsSketch.Sketch>)
      requires Valid()
      reads this, Parts()
      ensures |r| == |buckets|
    {
      seq(|buckets|, i requires 0 <= i < |buckets| && Valid() reads this, Parts() => buckets[i].State())
    }

    ghost function State(): (w: Window)
      requires Valid()
      reads this, Parts()
      ensures Fits(config, w)
    {
      Window(States(), current, lastRotation)
    }

    /** A max_age of less than one tick per bucket is accepted, but the first rotation that is due then never ends. */
    constructor (targets: seq<CkmsSketch.Target>, maxAge: int, ageBuckets: nat, now: int)
      requires ageBuckets > 0
      ensures Valid() && fresh(Parts())
      ensures config == Built(targets, maxAge, ageBuckets) && IsShare(maxAge, ageBuckets, rotationInterval)
      ensures State() == Fresh(config, now)
    {
      var bs: seq<CkmsQuantiles> := [];
      for n := 0 to ageBuckets
        invariant |bs| == n
        invariant forall i | 0 <= i < n :: fresh(bs[i]) && fresh(bs[i].buffer)
        invariant forall i | 0 <= i < n ::
            bs[i].Valid() && bs[i].quantiles == targets && bs[i].State() == CkmsSketch.EMPTY
        invariant forall i, j | 0 <= i < j < n :: bs[i] != bs[j] && bs[i].buffer != bs[j].buffer
      {
        var b := new CkmsQuantiles(targets);
        bs := bs + [b];
      }
      quantiles := targets;
      buckets := bs;
      current := 0;
      lastRotation := now;
      rotationInterval := RotationInterval(maxAge, ageBuckets);
      config := Built(targets, maxAge, ageBuckets);
      new;
      IntervalExactly(maxAge, ageBuckets, rotationInterval);
      assert States() == Fresh(config, now).buckets;
    }

    method Rotate(now: int)
      requires Valid() && Ends(config, State(), now)
      modifies this, Parts()
      ensures Valid()
      ensures State() == RotateTo(config, old(State()), now)
    {
      var delta := now - lastRotation;
      while delta > rotationInterval
        invariant Valid() && (rotationInterval > 0 || delta <= rotationInterval)
        invariant WindowModel.Rotate(config, State(), delta) == RotateTo(config, old(State()), now)
        decreases if delta > 0 then delta else 0
      {
        hide WindowModel.Rotate;
        ghost var before := State();
        buckets[current].Reset();
        assert States() == before.buckets[before.current := CkmsSketch.EMPTY];

        current := current + 1;
        if current >= |buckets| {
          current := 0;
        }

        delta := delta - rotationInterval;
        lastRotation := lastRotation + rotationInterval;
        assert State() == Turn(config, before);
      }
    }

    method Insert(value: real, now: int)
      requires Valid() && Ends(config, State(), now)
      modifies this, Parts()
      ensures Valid()
      ensures State() == WindowModel.Insert(config, old(State()), value, now)
    {
      hide CkmsSketch.Insert;
      Rotate(now);
      ghost var rotated := State();
      for n := 0 to |buckets|
        invariant Valid() && current == rotated.current && lastRotation == rotated.lastRotation
        invariant forall i | 0 <= i < n :: States()[i] == CkmsSketch.Insert(quantiles, rotated.buckets[i], value)
        invariant forall i | n <= i < |buckets| :: States()[i] == rotated.buckets[i]
      {
        ghost var before := States();
        buckets[n].Insert(value);
        assert States()[n] == CkmsSketch.Insert(quantiles, before[n], value);
        assert forall i | 0 <= i < |buckets| && i != n :: States()[i] == before[i];
      }
      assert State() == WindowModel.Insert(config, old(State()), value, now);
    }

    method Get(q: real, now: int) returns (answer: Option<real>)
      requires Valid() && Ends(config, State(), now)
      modifies this, Parts()
      ensures Valid()
      ensures (State(), answer) == WindowModel.Get(config, old(State()), q, now)
    {
      hide CkmsSketch.Get;
      Rotate(now);
      answer := QueryCurrent(q);
    }

    /** What get does with the bucket that rotate returns. */
    method QueryCurrent(q: real) returns (answer: Option<real>)
      requires Valid()
      modifies Parts()
      ensures Valid()
      ensures var (k, a) := CkmsSketch.Get(quantiles, old(State()).buckets[current], q);
        answer == a && State() == old(State()).(buckets := old(State()).buckets[current := k])
    {
      hide CkmsSketch.Get;
      ghost var before := States();
      answer := buckets[current].Get(q);
      assert forall i | 0 <= i < |buckets| && i != current :: States()[i] == before[i];
      assert States() == before[current := CkmsSketch.Get(quantiles, before[current], q).0];
    }
  }
}
