/**
 The atomic gauge of core/src/gauge.cc under any number of threads, as a system of atomic
 steps: the load, every attempt of the compare-exchange loop of Change (which may fail for no
 reason), the fetch_add branch, and Set. A counter (core/src/counter.cc) calls Change only through
 its Increment, which returns at once for a negative amount, and never Set.
 */
module AtomicGauge {

  /** Where a thread is: outside any call, at the start of Change, or in its loop with the local variable `current`. */
  datatype Pc = Idle | Called(delta: real) | Trying(delta: real, current: real)

  datatype Op = Add(delta: real) | Put(value: real)

  datatype Commit = Commit(thread: nat, op: Op)

  /**
   value and pcs are the program's state. log, the operations that took effect so far in
   order, and seen, the length of the log when each thread last read the value, are history.
   */
  datatype World = World(value: real, pcs: seq<Pc>, log: seq<Commit>, seen: seq<nat>)

  datatype Event =
    | Call(t: nat, delta: real)  // Change(delta) is entered
    | Increment(t: nat, delta: real) // CounterType::Increment(delta) is entered
    | Load(t: nat)               // value_.load()
    | CasOk(t: nat)              // compare_exchange_weak stores current + delta
    | CasFail(t: nat)            // it finds another value and copies it to current
    | CasSpurious(t: nat)        // it fails although the value is current
    | FetchAdd(t: nat)           // the other branch of Change
    | Store(t: nat, v: real)     // Set(v)

  ghost predicate Enabled(w: World, e: Event) {
    && e.t < |w.pcs| == |w.seen|
    && match e
       case Call(t, _) => w.pcs[t] == Idle
       case Increment(t, _) => w.pcs[t] == Idle
       case Load(t) => w.pcs[t].Called?
       case CasOk(t) => w.pcs[t].Trying? && w.value == w.pcs[t].current
       case CasFail(t) => w.pcs[t].Trying? && w.value != w.pcs[t].current
       case CasSpurious(t) => w.pcs[t].Trying? && w.value == w.pcs[t].current
       case FetchAdd(t) => w.pcs[t].Called?
       case Store(t, _) => w.pcs[t] == Idle
  }

  /** Reading the value into current, by the load or by a failed exchange. */
  ghost function Observe(w: World, t: nat): World
    requires t < |w.pcs| == |w.seen| && w.pcs[t] != Idle
  {
    w.(pcs := w.pcs[t := Trying(w.pcs[t].delta, w.value)], seen := w.seen[t := |w.log|])
  }

  ghost function Next(w: World, e: Event): World
    requires Enabled(w, e)
  {
    match e
    case Call(t, delta) => w.(pcs := w.pcs[t := Called(delta)])
    case Increment(t, delta) => if delta < 0.0 then w else w.(pcs := w.pcs[t := Called(delta)])
    case Load(t) => Observe(w, t)
    case CasOk(t) =>
      w.(value := w.pcs[t].current + w.pcs[t].delta, pcs := w.pcs[t := Idle],
         log := w.log + [Commit(t, Add(w.pcs[t].delta))])
    case CasFail(t) => Observe(w, t)
    case CasSpurious(t) => Observe(w, t)
    case FetchAdd(t) =>
      w.(value := w.value + w.pcs[t].delta, pcs := w.pcs[t := Idle],
         log := w.log + [Commit(t, Add(w.pcs[t].delta))])
    case Store(t, v) => w.(value := v, log := w.log + [Commit(t, Put(v))])
  }

  ghost function Start(initial: real, threads: nat): World {
    World(initial, seq(threads, _ => Idle), [], seq(threads, _ => 0))
  }

  ghost predicate Possible(initial: real, threads: nat, es: seq<Event>) {
    es == []
    || (Possible(initial, threads, es[..|es| - 1])
        && Enabled(Run(initial, threads, es[..|es| - 1]), es[|es| - 1]))
  }

  /** The world after a run; only meaningful for possible ones. */
  ghost function Run(initial: real, threads: nat, es: seq<Event>): World {
    if es == [] then Start(initial, threads)
    else
      var w := Run(initial, threads, es[..|es| - 1]);
      if Enabled(w, es[|es| - 1]) then Next(w, es[|es| - 1]) else w
  }

  // ----- the sequential gauge ------------------------------------------------

  ghost function Apply(value: real, op: Op): real {
    match op
    case Add(delta) => value + delta
    case Put(v) => v
  }

  /** What a gauge used by one thread holds after the operations of the log in turn. */
  ghost function Fold(initial: real, log: seq<Commit>): real {
    if log == [] then initial else Apply(Fold(initial, log[..|log| - 1]), log[|log| - 1].op)
  }

  /** The operations thread t has invoked, in the order it invoked them; an ignored increment is none. */
  ghost function Invoked(es: seq<Event>, t: nat): seq<Op> {
    if es == [] then []
    else
      var before := Invoked(es[..|es| - 1], t);
      match es[|es| - 1]
      case Call(u, delta) => if u == t then before + [Add(delta)] else before
      case Increment(u, delta) => if u == t && delta >= 0.0 then before + [Add(delta)] else before
      case Store(u, v) => if u == t then before + [Put(v)] else before
      case _ => before
  }

  ghost function Committed(log: seq<Commit>, t: nat): seq<Op> {
    if log == [] then []
    else
      var before := Committed(log[..|log| - 1], t);
      if log[|log| - 1].thread == t then before + [log[|log| - 1].op] else before
  }

  ghost function Unfinished(pc: Pc): seq<Op> {
    if pc == Idle then [] else [Add(pc.delta)]
  }

  ghost function Failures(es: seq<Event>, t: nat): nat {
    if es == [] then 0
    else Failures(es[..|es| - 1], t) + if es[|es| - 1] == CasFail(t) then 1 else 0
  }

  // ----- the invariant -------------------------------------------------------

  ghost predicate ThreadInv(initial: real, w: World, es: seq<Event>, t: nat)
    requires t < |w.pcs| == |w.seen|
  {
    && w.seen[t] <= |w.log|
    && Failures(es, t) <= w.seen[t]
    && Invoked(es, t) == Committed(w.log, t) + Unfinished(w.pcs[t])
    && (w.pcs[t].Trying? ==>
          && w.pcs[t].current == Fold(initial, w.log[..w.seen[t]])
          && forall i | w.seen[t] <= i < |w.log| :: w.log[i].thread != t)
  }

  ghost predicate Inv(initial: real, threads: nat, w: World, es: seq<Event>) {
    && |w.pcs| == |w.seen| == threads
    && w.value == Fold(initial, w.log)
    && forall t | 0 <= t < threads :: ThreadInv(initial, w, es, t)
  }

  lemma {:induction false} FoldAppend(initial: real, log: seq<Commit>, c: Commit)
    ensures Fold(initial, log + [c]) == Apply(Fold(initial, log), c.op)
  {
    assert (log + [c])[..|log|] == log;
  }

  lemma {:induction false} CommittedAppend(log: seq<Commit>, c: Commit, t: nat)
    ensures Committed(log + [c], t) == Committed(log, t) + if c.thread == t then [c.op] else []
  {
    assert (log + [c])[..|log|] == log;
  }

  lemma {:induction false} ReadKeeps(initial: real, w: World, es: seq<Event>, e: Event, u: nat)
    requires Enabled(w, e) && (e.Load? || e.CasFail? || e.CasSpurious?)
    requires u < |w.pcs| && ThreadInv(initial, w, es, u) && ThreadInv(initial, w, es, e.t)
    requires w.value == Fold(initial, w.log)
    ensures ThreadInv(initial, Next(w, e), es + [e], u)
  {
    assert (es + [e])[..|es|] == es;
    assert w.log[..|w.log|] == w.log;
    if u == e.t && e.CasFail? {
      FailureSeesCommit(initial, w, es, u);
    }
  }

  lemma {:induction false} FailureSeesCommit(initial: real, w: World, es: seq<Event>, t: nat)
    requires t < |w.pcs| == |w.seen| && ThreadInv(initial, w, es, t) && w.value == Fold(initial, w.log)
    requires Enabled(w, CasFail(t))
    ensures w.seen[t] < |w.log| && forall i | w.seen[t] <= i < |w.log| :: w.log[i].thread != t
  {
    assert w.log[..|w.log|] == w.log;
  }

  lemma {:induction false} CommitKeeps(initial: real, w: World, es: seq<Event>, e: Event, u: nat)
    requires Enabled(w, e) && (e.CasOk? || e.FetchAdd? || e.Store?)
    requires u < |w.pcs| && ThreadInv(initial, w, es, u)
    ensures ThreadInv(initial, Next(w, e), es + [e], u)
  {
    var w' := Next(w, e);
    var c := w'.log[|w.log|];
    assert (es + [e])[..|es|] == es;
    CommittedAppend(w.log, c, u);
    assert w'.log[..w.seen[u]] == w.log[..w.seen[u]];
  }

  lemma {:induction false} CallKeeps(initial: real, w: World, es: seq<Event>, e: Event, u: nat)
    requires Enabled(w, e) && (e.Call? || e.Increment?)
    requires u < |w.pcs| && ThreadInv(initial, w, es, u)
    ensures ThreadInv(initial, Next(w, e), es + [e], u)
  {
    assert (es + [e])[..|es|] == es;
  }

  lemma {:induction false} ThreadKeeps(initial: real, w: World, es: seq<Event>, e: Event, u: nat)
    requires Enabled(w, e) && u < |w.pcs| && ThreadInv(initial, w, es, u) && ThreadInv(initial, w, es, e.t)
    requires w.value == Fold(initial, w.log)
    ensures |Next(w, e).pcs| == |Next(w, e).seen| == |w.pcs| && ThreadInv(initial, Next(w, e), es + [e], u)
  {
    assert |Next(w, e).pcs| == |Next(w, e).seen| == |w.pcs|;
    hide ThreadInv, Next, Enabled, Fold;
    if e.Load? || e.CasFail? || e.CasSpurious? {
      ReadKeeps(initial, w, es, e, u);
    } else if e.Call? || e.Increment? {
      CallKeeps(initial, w, es, e, u);
    } else {
      CommitKeeps(initial, w, es, e, u);
    }
  }

  lemma {:induction false} ValueKeeps(initial: real, w: World, e: Event)
    requires Enabled(w, e) && w.value == Fold(initial, w.log)
    ensures Next(w, e).value == Fold(initial, Next(w, e).log)
  {
    hide Fold;
    var w' := Next(w, e);
    if e.CasOk? || e.FetchAdd? || e.Store? {
      var c := w'.log[|w.log|];
      assert w'.log == w.log + [c] && w'.value == Apply(w.value, c.op);
      hide *;
      FoldAppend(initial, w.log, c);
    } else {
      assert w'.log == w.log && w'.value == w.value;
    }
  }

  lemma {:induction false} StepKeeps(initial: real, threads: nat, w: World, es: seq<Event>, e: Event)
    requires Inv(initial, threads, w, es) && Enabled(w, e)
    ensures Inv(initial, threads, Next(w, e), es + [e])
  {
    assert e.t < threads;
    hide ThreadInv, Next, Enabled, Fold;
    ValueKeeps(initial, w, e);
    ThreadKeeps(initial, w, es, e, e.t);
    forall u | 0 <= u < threads ensures ThreadInv(initial, Next(w, e), es + [e], u) {
      ThreadKeeps(initial, w, es, e, u);
    }
  }

  lemma {:induction false} StartInv(initial: real, threads: nat)
    ensures Inv(initial, threads, Start(initial, threads), [])
  {
  }

  lemma {:induction false} RunKeeps(initial: real, threads: nat, es: seq<Event>)
    requires Possible(initial, threads, es)
    ensures Inv(initial, threads, Run(initial, threads, es), es)
  {
    StartInv(initial, threads);
    hide Inv, Next, Enabled, Start;
    if es == [] {
    } else {
      var before, e := es[..|es| - 1], es[|es| - 1];
      RunKeeps(initial, threads, before);
      StepKeeps(initial, threads, Run(initial, threads, before), before, e);
      assert es == before + [e];
    }
  }

  // ----- the guarantees ------------------------------------------------------

  /**
   Linearizability: in every interleaving the value is what the committed operations give
   one after the other, and every thread's operations are committed exactly once, in its
   order, before its call returns. An update is neither lost nor repeated, even when the
   value changes and changes back between load and exchange.
   */
  lemma {:induction false} Linearizable(initial: real, threads: nat, es: seq<Event>)
    requires Possible(initial, threads, es)
    ensures var w := Run(initial, threads, es);
      && w.value == Fold(initial, w.log)
      && |w.pcs| == threads
      && forall t | 0 <= t < threads :: Invoked(es, t) == Committed(w.log, t) + Unfinished(w.pcs[t])
  {
    RunKeeps(initial, threads, es);
    var w := Run(initial, threads, es);
    forall t | 0 <= t < threads ensures Invoked(es, t) == Committed(w.log, t) + Unfinished(w.pcs[t]) {
      assert ThreadInv(initial, w, es, t);
    }
  }

  /**
   A compare-exchange that finds another value: since its thread last looked, only other
   threads have committed, and some have.
   */
  lemma {:induction false} FailureMeansCommit(initial: real, threads: nat, es: seq<Event>, t: nat)
    requires Possible(initial, threads, es + [CasFail(t)])
    ensures var w := Run(initial, threads, es);
      && t < threads == |w.seen|
      && w.seen[t] < |w.log| && forall i | w.seen[t] <= i < |w.log| :: w.log[i].thread != t
  {
    assert (es + [CasFail(t)])[..|es|] == es;
    var w := Run(initial, threads, es);
    RunKeeps(initial, threads, es);
    assert ThreadInv(initial, w, es, t);
    FailureSeesCommit(initial, w, es, t);
  }

  /** What committed stays committed. */
  lemma {:induction false} LogOnlyGrows(initial: real, threads: nat, es: seq<Event>, n: nat)
    requires n <= |es|
    ensures Run(initial, threads, es[..n]).log <= Run(initial, threads, es).log
    decreases |es|
  {
    if n == |es| {
      assert es[..n] == es;
    } else {
      LogOnlyGrows(initial, threads, es[..|es| - 1], n);
      assert es[..|es| - 1][..n] == es[..n];
    }
  }

  /** Commit a of the log is the i-th operation (from 0) of thread t. */
  ghost predicate IsNth(log: seq<Commit>, a: nat, t: nat, i: nat) {
    a < |log| && log[a].thread == t && |Committed(log[..a], t)| == i
  }

  /** How many operations of thread t have returned. */
  ghost function Returned(initial: real, threads: nat, es: seq<Event>, t: nat): int
    requires t < |Run(initial, threads, es).pcs|
  {
    |Invoked(es, t)| - |Unfinished(Run(initial, threads, es).pcs[t])|
  }

  lemma {:induction false} CommittedMonotone(log: seq<Commit>, a: nat, b: nat, t: nat)
    requires a <= b <= |log|
    ensures Committed(log[..a], t) <= Committed(log[..b], t)
    decreases b
  {
    if a == b {
    } else {
      CommittedMonotone(log, a, b - 1, t);
      assert log[..b][..b - 1] == log[..b - 1];
    }
  }

  lemma {:induction false} NthIsIth(log: seq<Commit>, a: nat, t: nat, i: nat)
    requires IsNth(log, a, t, i)
    ensures i < |Committed(log, t)| && log[a].op == Committed(log, t)[i]
  {
    assert log[..a + 1] == log[..a] + [log[a]];
    CommittedAppend(log[..a], log[a], t);
    CommittedMonotone(log, a + 1, |log|, t);
    assert log[..|log|] == log;
  }

  /** The operations of a thread that have returned are those that have been committed. */
  lemma {:induction false} ReturnedCommitted(initial: real, threads: nat, es: seq<Event>, t: nat)
    requires Possible(initial, threads, es) && t < threads
    ensures var w := Run(initial, threads, es);
      && |w.pcs| == threads && Committed(w.log, t) <= Invoked(es, t)
      && Returned(initial, threads, es, t) == |Committed(w.log, t)|
  {
    Linearizable(initial, threads, es);
    hide Run, Possible, Committed, Invoked, Unfinished, Fold;
  }

  /** What was committed in the past comes before what was not. */
  lemma {:induction false} PastFirst(past: seq<Commit>, log: seq<Commit>,
        t: nat, i: nat, a: nat, u: nat, j: nat, b: nat)
    requires past <= log && IsNth(log, a, t, i) && IsNth(log, b, u, j)
    requires i < |Committed(past, t)| && |Committed(past, u)| <= j
    ensures a < b
  {
    hide Committed;
    assert past == log[..|past|];
    if |past| <= a {
      CommittedMonotone(log, |past|, a, t);
    }
    if b < |past| {
      assert past[..b] == log[..b];
      NthIsIth(past, b, u, j);
    }
  }

  /**
   The commit order respects real time: if the i-th operation of thread t had returned by the
   n-th event, and the j-th operation of thread u was not called by then, the former is
   committed before the latter. The i-th commit of a thread is the i-th operation it called.
   */
  lemma {:induction false} RealTimeOrder(initial: real, threads: nat, es: seq<Event>, n: nat,
        t: nat, i: nat, a: nat, u: nat, j: nat, b: nat)
    requires Possible(initial, threads, es) && n <= |es| && t < threads && u < threads
    requires IsNth(Run(initial, threads, es).log, a, t, i) && IsNth(Run(initial, threads, es).log, b, u, j)
    ensures i < |Invoked(es, t)| && Run(initial, threads, es).log[a].op == Invoked(es, t)[i]
    ensures |Run(initial, threads, es[..n]).pcs| == threads
    ensures i < Returned(initial, threads, es[..n], t) && |Invoked(es[..n], u)| <= j ==> a < b
  {
    PossiblePrefix(initial, threads, es, n);
    LogOnlyGrows(initial, threads, es, n);
    hide Run, Possible, Committed, Invoked, Unfinished, IsNth, Returned;
    ReturnedCommitted(initial, threads, es, t);
    ReturnedCommitted(initial, threads, es[..n], t);
    ReturnedCommitted(initial, threads, es[..n], u);
    var log, past := Run(initial, threads, es).log, Run(initial, threads, es[..n]).log;
    NthIsIth(log, a, t, i);
    if i < Returned(initial, threads, es[..n], t) && |Invoked(es[..n], u)| <= j {
      PastFirst(past, log, t, i, a, u, j, b);
    }
  }

  lemma {:induction false} PossiblePrefix(initial: real, threads: nat, es: seq<Event>, n: nat)
    requires Possible(initial, threads, es) && n <= |es|
    ensures Possible(initial, threads, es[..n])
    decreases |es|
  {
    if n == |es| {
      assert es[..n] == es;
    } else {
      PossiblePrefix(initial, threads, es[..|es| - 1], n);
      assert es[..|es| - 1][..n] == es[..n];
    }
  }

  lemma {:induction false} OneMoreEvent(initial: real, threads: nat, es: seq<Event>, e: Event)
    requires Possible(initial, threads, es) && Enabled(Run(initial, threads, es), e)
    ensures Possible(initial, threads, es + [e])
    ensures Run(initial, threads, es + [e]) == Next(Run(initial, threads, es), e)
  {
    assert (es + [e])[..|es|] == es;
  }

  /** A thread outside any call can enter every call there is. */
  lemma {:induction false} CallsAccepted(initial: real, threads: nat, es: seq<Event>, t: nat, amount: real)
    requires Possible(initial, threads, es) && t < threads
    requires Invoked(es, t) == Committed(Run(initial, threads, es).log, t)
    ensures Possible(initial, threads, es + [Call(t, amount)])
    ensures Possible(initial, threads, es + [Increment(t, amount)])
    ensures Possible(initial, threads, es + [Store(t, amount)])
  {
    RunKeeps(initial, threads, es);
    hide Possible, Run, Invoked, Committed;
    assert ThreadInv(initial, Run(initial, threads, es), es, t);
    OneMoreEvent(initial, threads, es, Call(t, amount));
    OneMoreEvent(initial, threads, es, Increment(t, amount));
    OneMoreEvent(initial, threads, es, Store(t, amount));
  }

  /** The other branch of Change adds in one step, and an exchange may always fail for no reason. */
  lemma {:induction false} OtherSteps(initial: real, threads: nat, es: seq<Event>, t: nat)
    requires Possible(initial, threads, es) && t < threads == |Run(initial, threads, es).pcs|
    ensures var w := Run(initial, threads, es);
      && (w.pcs[t].Called? ==>
            && Possible(initial, threads, es + [FetchAdd(t)])
            && Run(initial, threads, es + [FetchAdd(t)])
               == World(w.value + w.pcs[t].delta, w.pcs[t := Idle], w.log + [Commit(t, Add(w.pcs[t].delta))], w.seen))
      && (w.pcs[t].Trying? && w.value == w.pcs[t].current ==>
            && Possible(initial, threads, es + [CasSpurious(t)])
            && Run(initial, threads, es + [CasSpurious(t)]).(seen := w.seen) == w)
  {
    var w := Run(initial, threads, es);
    RunKeeps(initial, threads, es);
    hide Run, Possible, ThreadInv, Fold;
    if w.pcs[t].Called? {
      OneMoreEvent(initial, threads, es, FetchAdd(t));
    } else if w.pcs[t].Trying? && w.value == w.pcs[t].current {
      OneMoreEvent(initial, threads, es, CasSpurious(t));
    }
  }

  /** What thread t does next in its compare-exchange loop, when no exchange fails for no reason. */
  ghost function LoopStep(w: World, t: nat): Event
    requires t < |w.pcs|
  {
    match w.pcs[t]
    case Trying(_, current) => if w.value == current then CasOk(t) else CasFail(t)
    case _ => Load(t)
  }

  /**
   Progress: left alone, a thread in the middle of a call finishes it in at most two steps of
   its loop, load or failed exchange and then the exchange, and adds its amount.
   */
  lemma {:induction false} Progress(initial: real, threads: nat, es: seq<Event>, t: nat) returns (more: seq<Event>)
    requires Possible(initial, threads, es) && t < threads == |Run(initial, threads, es).pcs|
    requires Run(initial, threads, es).pcs[t] != Idle
    ensures |more| <= 2 && forall e | e in more :: e in {Load(t), CasFail(t), CasOk(t)}
    ensures Possible(initial, threads, es + more)
    ensures var (w, w') := (Run(initial, threads, es), Run(initial, threads, es + more));
      && w'.pcs == w.pcs[t := Idle] && w'.value == w.value + w.pcs[t].delta
      && w'.log == w.log + [Commit(t, Add(w.pcs[t].delta))]
  {
    RunKeeps(initial, threads, es);
    var w := Run(initial, threads, es);
    hide Run, Possible, ThreadInv, Fold;
    var first := LoopStep(w, t);
    OneMoreEvent(initial, threads, es, first);
    more := [first];
    if !first.CasOk? {
      var es' := es + [first];
      OneMoreEvent(initial, threads, es', CasOk(t));
      more := [first, CasOk(t)];
      assert es + more == es' + [CasOk(t)];
    }
  }

  /** Lock freedom: a thread's exchange cannot fail for a reason more often than operations commit. */
  lemma {:induction false} FailuresBounded(initial: real, threads: nat, es: seq<Event>, t: nat)
    requires Possible(initial, threads, es) && t < threads
    ensures Failures(es, t) <= |Run(initial, threads, es).log|
  {
    RunKeeps(initial, threads, es);
    assert ThreadInv(initial, Run(initial, threads, es), es, t);
  }

  // ----- counters ------------------------------------------------------------

  /** What the users of a counter do: increments of any amounts, negative ones included. */
  ghost predicate CounterRun(es: seq<Event>) {
    forall i | 0 <= i < |es| :: !es[i].Store? && !es[i].Call?
  }

  ghost predicate Growing(w: World) {
    && (forall t | 0 <= t < |w.pcs| :: w.pcs[t] != Idle ==> w.pcs[t].delta >= 0.0)
    && forall i | 0 <= i < |w.log| :: w.log[i].op.Add? && w.log[i].op.delta >= 0.0
  }

  lemma {:induction false} CounterGrowing(initial: real, threads: nat, es: seq<Event>)
    requires CounterRun(es)
    ensures Growing(Run(initial, threads, es))
  {
    if es == [] {
    } else {
      CounterGrowing(initial, threads, es[..|es| - 1]);
    }
  }

  ghost function SumAdded(log: seq<Commit>): real {
    if log == [] then 0.0
    else SumAdded(log[..|log| - 1]) + if log[|log| - 1].op.Add? then log[|log| - 1].op.delta else 0.0
  }

  lemma {:induction false} FoldIsSum(initial: real, log: seq<Commit>)
    requires forall i | 0 <= i < |log| :: log[i].op.Add?
    ensures Fold(initial, log) == initial + SumAdded(log)
  {
    if log == [] {
    } else {
      FoldIsSum(initial, log[..|log| - 1]);
    }
  }

  lemma {:induction false} CounterStep(initial: real, threads: nat, es: seq<Event>)
    requires Possible(initial, threads, es) && CounterRun(es) && es != []
    ensures Run(initial, threads, es[..|es| - 1]).value <= Run(initial, threads, es).value
  {
    CounterGrowing(initial, threads, es[..|es| - 1]);
  }

  /** Whatever the amounts, a counter never decreases, and holds the sum of the increments committed. */
  lemma {:induction false} CounterMonotone(initial: real, threads: nat, es: seq<Event>, n: nat)
    requires Possible(initial, threads, es) && CounterRun(es) && n <= |es|
    ensures Run(initial, threads, es[..n]).value <= Run(initial, threads, es).value
    ensures Run(initial, threads, es).value == initial + SumAdded(Run(initial, threads, es).log)
    ensures var log := Run(initial, threads, es).log; forall c | c in log :: c.op.Add? && c.op.delta >= 0.0
    decreases |es|
  {
    RunKeeps(initial, threads, es);
    CounterGrowing(initial, threads, es);
    FoldIsSum(initial, Run(initial, threads, es).log);
    if n < |es| {
      CounterMonotone(initial, threads, es[..|es| - 1], n);
      CounterStep(initial, threads, es);
      assert es[..|es| - 1][..n] == es[..n];
    } else {
      assert es[..n] == es;
    }
  }
}
