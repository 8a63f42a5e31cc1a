/**
 The gauge and counter classes of core/src/gauge.cc and core/src/counter.cc, one call at a
 time; AtomicGauge.dfy models calls from several threads. Change is the fetch_add branch of
 the source. A counter's gauge is a member of the counter, so its value is a field here.
 */
module Instruments {

  class Gauge {
    var value: real

    constructor (initial: real)
      ensures value == initial
    {
      value := initial;
    }

    method Change(delta: real)
      modifies this
      ensures value == old(value) + delta
    {
      value := value + delta;
    }

    method Increment(delta: real)
      modifies this
      ensures value == old(value) + delta
    {
      Change(delta);
    }

    method Decrement(delta: real)
      modifies this
      ensures value == old(value) - delta
    {
      Change(-1.0 * delta);
    }

    method Set(v: real)
      modifies this
      ensures value == v
    {
      value := v;
    }
  }

  class Counter {
    var value: real

    constructor ()
      ensures value == 0.0
    {
      value := 0.0;
    }

    /** Negative amounts are ignored, so a counter only ever grows until it is reset. */
    method Increment(amount: real)
      modifies this
      ensures value == old(value) + if amount < 0.0 then 0.0 else amount
      ensures value >= old(value)
    {
      if amount < 0.0 {
        return;
      }
      value := value + amount;
    }

    method Reset()
      modifies this
      ensures value == 0.0
    {
      value := 0.0;
    }
  }
}
