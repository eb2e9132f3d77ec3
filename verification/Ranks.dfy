/** Counting and ranking in a list of samples; what a percentile query is measured against. */
module Ranks {

  /** How many samples satisfy `f`. */
  function Count(s: seq<nat>, f: nat -> bool): (n: nat)
    ensures n <= |s|
  {
    if s == [] then 0 else Count(s[..|s| - 1], f) + if f(s[|s| - 1]) then 1 else 0
  }

  function LessThan(x: nat): nat -> bool { (v: nat) => v < x }
  function AtMost(x: nat): nat -> bool { (v: nat) => v <= x }

  predicate Ascending(s: seq<nat>) {
    forall i, j | 0 <= i < j < |s| :: s[i] <= s[j]
  }

  function Insert(s: seq<nat>, x: nat): seq<nat> {
    if s == [] then [x]
    else if s[|s| - 1] <= x then s + [x]
    else Insert(s[..|s| - 1], x) + [s[|s| - 1]]
  }

  function Sorted(s: seq<nat>): seq<nat> {
    if s == [] then [] else Insert(Sorted(s[..|s| - 1]), s[|s| - 1])
  }

  lemma CountAppend(s: seq<nat>, x: nat, f: nat -> bool)
    ensures Count(s + [x], f) == Count(s, f) + if f(x) then 1 else 0
  {
    assert (s + [x])[..|s|] == s;
  }

  lemma {:induction false} CountConcat(a: seq<nat>, b: seq<nat>, f: nat -> bool)
    ensures Count(a + b, f) == Count(a, f) + Count(b, f)
    decreases |b|
  {
    if b == [] {
      assert a + b == a;
    } else {
      var n := |b| - 1;
      CountConcat(a, b[..n], f);
      assert a + b == (a + b[..n]) + [b[n]];
      CountAppend(a + b[..n], b[n], f);
    }
  }

  lemma {:induction false} CountMonotone(s: seq<nat>, f: nat -> bool, g: nat -> bool)
    requires forall i | 0 <= i < |s| :: f(s[i]) ==> g(s[i])
    ensures Count(s, f) <= Count(s, g)
    decreases |s|
  {
    if s != [] { CountMonotone(s[..|s| - 1], f, g); }
  }

  lemma {:induction false} CountNone(s: seq<nat>, f: nat -> bool)
    requires forall i | 0 <= i < |s| :: !f(s[i])
    ensures Count(s, f) == 0
    decreases |s|
  {
    if s != [] { CountNone(s[..|s| - 1], f); }
  }

  lemma {:induction false} CountSome(s: seq<nat>, f: nat -> bool, i: nat)
    requires i < |s| && f(s[i])
    ensures Count(s, f) >= 1
    decreases |s|
  {
    if i < |s| - 1 { CountSome(s[..|s| - 1], f, i); }
  }

  lemma {:induction false} CountAll(s: seq<nat>, f: nat -> bool)
    requires forall i | 0 <= i < |s| :: f(s[i])
    ensures Count(s, f) == |s|
    decreases |s|
  {
    if s != [] { CountAll(s[..|s| - 1], f); }
  }

  lemma {:induction false} InsertCounts(s: seq<nat>, x: nat, f: nat -> bool)
    ensures |Insert(s, x)| == |s| + 1
    ensures Count(Insert(s, x), f) == Count(s, f) + if f(x) then 1 else 0
    decreases |s|
  {
    if s == [] {
      CountAppend([], x, f);
      assert [] + [x] == [x];
    } else {
      var n := |s| - 1;
      if s[n] <= x {
        CountAppend(s, x, f);
      } else {
        InsertCounts(s[..n], x, f);
        CountAppend(Insert(s[..n], x), s[n], f);
      }
    }
  }

  lemma {:induction false} InsertAscends(s: seq<nat>, x: nat, bound: nat)
    requires Ascending(s) && x <= bound && forall i | 0 <= i < |s| :: s[i] <= bound
    ensures Ascending(Insert(s, x)) && forall i | 0 <= i < |Insert(s, x)| :: Insert(s, x)[i] <= bound
    decreases |s|
  {
    if s != [] && s[|s| - 1] > x {
      InsertAscends(s[..|s| - 1], x, s[|s| - 1]);
    }
  }

  lemma {:induction false} SortedAscends(s: seq<nat>, bound: nat)
    requires forall i | 0 <= i < |s| :: s[i] <= bound
    ensures Ascending(Sorted(s)) && forall i | 0 <= i < |Sorted(s)| :: Sorted(s)[i] <= bound
    decreases |s|
  {
    if s != [] {
      SortedAscends(s[..|s| - 1], bound);
      InsertAscends(Sorted(s[..|s| - 1]), s[|s| - 1], bound);
    }
  }

  /** Sorting keeps every count. */
  lemma {:induction false} SortedCounts(s: seq<nat>, f: nat -> bool)
    ensures |Sorted(s)| == |s| && Count(Sorted(s), f) == Count(s, f)
    decreases |s|
  {
    if s != [] {
      SortedCounts(s[..|s| - 1], f);
      InsertCounts(Sorted(s[..|s| - 1]), s[|s| - 1], f);
    }
  }

  lemma {:induction false} Bound(s: seq<nat>) returns (b: nat)
    ensures forall i | 0 <= i < |s| :: s[i] <= b
  {
    if s == [] {
      b := 0;
    } else {
      b := Bound(s[..|s| - 1]);
      if b < s[|s| - 1] { b := s[|s| - 1]; }
    }
  }

  lemma FewBelow(t: seq<nat>, r: nat)
    requires Ascending(t) && 1 <= r <= |t|
    ensures Count(t, LessThan(t[r - 1])) < r
  {
    var below, rest := t[..r - 1], t[r - 1..];
    assert t == below + rest;
    CountSplit(below, rest, t[r - 1]);
  }

  lemma CountSplit(below: seq<nat>, rest: seq<nat>, v: nat)
    requires forall i | 0 <= i < |rest| :: v <= rest[i]
    ensures Count(below + rest, LessThan(v)) <= |below|
  {
    CountConcat(below, rest, LessThan(v));
    CountNone(rest, LessThan(v));
  }

  lemma ManyAtMost(t: seq<nat>, r: nat, x: nat)
    requires r <= |t| && forall i | 0 <= i < r :: t[i] <= x
    ensures r <= Count(t, AtMost(x))
  {
    var low, rest := t[..r], t[r..];
    assert t == low + rest;
    CountConcat(low, rest, AtMost(x));
    CountAll(low, AtMost(x));
  }

  /** Fewer than `r` samples lie below the r-th smallest, and at least `r` do not exceed it. */
  lemma RankBounds(s: seq<nat>, r: nat)
    requires 1 <= r <= |s|
    ensures |Sorted(s)| == |s|
    ensures var v := Sorted(s)[r - 1]; Count(s, LessThan(v)) < r <= Count(s, AtMost(v))
  {
    var b := Bound(s);
    SortedAscends(s, b);
    SortedCounts(s, LessThan(0));
    var t := Sorted(s);
    AscendingRank(t, r, t[r - 1]);
    SortedCounts(s, LessThan(t[r - 1]));
    SortedCounts(s, AtMost(t[r - 1]));
  }

  lemma AscendingRank(t: seq<nat>, r: nat, v: nat)
    requires Ascending(t) && 1 <= r <= |t| && v == t[r - 1]
    ensures Count(t, LessThan(v)) < r <= Count(t, AtMost(v))
  {
    FewBelow(t, r);
    ManyAtMost(t, r, v);
  }
}
