/** Wrapper types shared by the modules. */
module Wrappers {
  datatype Option<+T> = None | Some(value: T)

  datatype Result<+T, +E> = Ok(value: T) | Err(error: E)
}

/** Sorting and counting on sequences of reals, the values every metric observes. */
module Sequences {

  predicate Sorted(s: seq<real>) {
    forall i, j | 0 <= i < j < |s| :: s[i] <= s[j]
  }

  /** The number of elements of s that are at most x. */
  ghost function CountLe(s: seq<real>, x: real): nat {
    if s == [] then 0 else CountLe(s[..|s| - 1], x) + if s[|s| - 1] <= x then 1 else 0
  }

  /** The number of elements of s that are at least x. */
  ghost function CountGe(s: seq<real>, x: real): nat {
    if s == [] then 0 else CountGe(s[..|s| - 1], x) + if s[|s| - 1] >= x then 1 else 0
  }

  ghost function Sum(s: seq<real>): real {
    if s == [] then 0.0 else Sum(s[..|s| - 1]) + s[|s| - 1]
  }

  function InsertSorted(v: real, s: seq<real>): seq<real> {
    if s == [] || v <= s[0] then [v] + s else [s[0]] + InsertSorted(v, s[1..])
  }

  lemma {:induction false} ConsSorted(x: real, t: seq<real>)
    requires Sorted(t) && forall y | y in multiset(t) :: x <= y
    ensures Sorted([x] + t)
  {
    assert forall i | 0 <= i < |t| :: t[i] in multiset(t);
  }

  lemma {:induction false} HeadAndTail(s: seq<real>)
    requires s != []
    ensures multiset(s) == multiset{s[0]} + multiset(s[1..])
    ensures Sorted(s) ==> Sorted(s[1..]) && forall y | y in multiset(s) :: s[0] <= y
  {
    assert s == [s[0]] + s[1..];
    assert forall y | y in multiset(s) :: y in s;
  }

  lemma {:induction false} InsertSortedKeeps(v: real, s: seq<real>)
    requires Sorted(s)
    ensures Sorted(InsertSorted(v, s)) && multiset(InsertSorted(v, s)) == multiset(s) + multiset{v}
  {
    if s != [] {
      HeadAndTail(s);
    }
    if s == [] || v <= s[0] {
      ConsSorted(v, s);
    } else {
      InsertSortedKeeps(v, s[1..]);
      ConsSorted(s[0], InsertSorted(v, s[1..]));
    }
  }

  /** What std::sort leaves in the range it is given. */
  function Sort(s: seq<real>): (r: seq<real>)
    ensures Sorted(r) && multiset(r) == multiset(s)
    ensures |r| == |s|
  {
    if s == [] then []
    else
      var t := Sort(s[1..]);
      InsertSortedKeeps(s[0], t);
      HeadAndTail(s);
      assert |multiset(s)| == |multiset(InsertSorted(s[0], t))|;
      InsertSorted(s[0], t)
  }

  lemma {:induction false} CancelOne(x: real, m: multiset<real>, n: multiset<real>)
    requires multiset{x} + m == multiset{x} + n
    ensures m == n
  {
    assert m == (multiset{x} + m) - multiset{x};
    assert n == (multiset{x} + n) - multiset{x};
  }

  lemma {:induction false} SameHead(a: seq<real>, b: seq<real>)
    requires Sorted(a) && Sorted(b) && multiset(a) == multiset(b) && a != [] && b != []
    ensures a[0] == b[0] && multiset(a[1..]) == multiset(b[1..])
    ensures Sorted(a[1..]) && Sorted(b[1..])
  {
    HeadAndTail(a);
    HeadAndTail(b);
    assert a[0] in multiset(a) && b[0] in multiset(b);
    CancelOne(a[0], multiset(a[1..]), multiset(b[1..]));
  }

  lemma {:induction false} SortedUnique(a: seq<real>, b: seq<real>)
    requires Sorted(a) && Sorted(b) && multiset(a) == multiset(b)
    ensures a == b
  {
    assert |multiset(a)| == |a| && |multiset(b)| == |b|;
    if a == [] {
    } else {
      SameHead(a, b);
      SortedUnique(a[1..], b[1..]);
      assert a == [a[0]] + a[1..] && b == [b[0]] + b[1..];
    }
  }

  /** A sub-multiset of s all of whose members are at most x has at most CountLe(s, x) members. */
  lemma {:induction false} SubsetCountLe(p: multiset<real>, s: seq<real>, x: real)
    requires p <= multiset(s) && forall y | y in p :: y <= x
    ensures |p| <= CountLe(s, x)
  {
    if s == [] {
    } else {
      var last := s[|s| - 1];
      assert s == s[..|s| - 1] + [last];
      SubsetCountLe(p - multiset{last}, s[..|s| - 1], x);
    }
  }

  lemma {:induction false} SubsetCountGe(p: multiset<real>, s: seq<real>, x: real)
    requires p <= multiset(s) && forall y | y in p :: y >= x
    ensures |p| <= CountGe(s, x)
  {
    if s == [] {
    } else {
      var last := s[|s| - 1];
      assert s == s[..|s| - 1] + [last];
      SubsetCountGe(p - multiset{last}, s[..|s| - 1], x);
    }
  }

  lemma {:induction false} SplitPair<T>(s: seq<T>, i: nat)
    requires i + 1 < |s|
    ensures s == s[..i] + [s[i]] + ([s[i + 1]] + s[i + 2..])
  {
  }

  lemma {:induction false} Associate<T>(a: seq<T>, b: seq<T>, c: seq<T>)
    ensures a + b + c == a + (b + c)
  {
  }

  lemma {:induction false} Halves<T>(a: seq<T>, b: seq<T>)
    ensures (a + b)[..|a|] == a && (a + b)[|a|..] == b
  {
  }
}
