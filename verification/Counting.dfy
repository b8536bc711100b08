/** Sums over a sequence of processes or a range of numbers, and sizes of sets of processes. */
module Counting {

  function Sum<T>(f: T -> nat, s: seq<T>): nat {
    if s == [] then 0 else Sum(f, s[..|s| - 1]) + f(s[|s| - 1])
  }

  lemma {:induction false} SumUpdate<T>(f: T -> nat, s: seq<T>, i: nat, x: T)
    requires i < |s|
    ensures Sum(f, s[i := x]) == Sum(f, s) - f(s[i]) + f(x)
    ensures Sum(f, s) >= f(s[i])
  {
    var n := |s| - 1;
    if i == n {
      assert s[i := x][..n] == s[..n];
    } else {
      assert s[i := x][..n] == s[..n][i := x];
      SumUpdate(f, s[..n], i, x);
    }
  }

  lemma {:induction false} SumZero<T>(f: T -> nat, s: seq<T>)
    requires forall x :: x in s ==> f(x) == 0
    ensures Sum(f, s) == 0
  {
    if s != [] {
      assert s == s[..|s| - 1] + [s[|s| - 1]];
      SumZero(f, s[..|s| - 1]);
    }
  }

  /** f(a) + ... + f(b - 1) */
  function SumRange(f: nat -> nat, a: nat, b: nat): nat {
    if b <= a then 0 else SumRange(f, a, b - 1) + f(b - 1)
  }

  lemma {:induction false} SumRangeSplit(f: nat -> nat, a: nat, m: nat, b: nat)
    requires a <= m <= b
    ensures SumRange(f, a, b) == SumRange(f, a, m) + SumRange(f, m, b)
  {
    if m < b {
      SumRangeSplit(f, a, m, b - 1);
    }
  }

  lemma {:induction false} SumIsRange<T>(f: T -> nat, s: seq<T>, g: nat -> nat, a: nat)
    requires forall i: nat :: i < |s| ==> f(s[i]) == g(a + i)
    ensures Sum(f, s) == SumRange(g, a, a + |s|)
  {
    if s != [] {
      SumIsRange(f, s[..|s| - 1], g, a);
      assert f(s[|s| - 1]) == g(a + |s| - 1);
    }
  }

  lemma {:induction false} SumIsCount<T>(f: T -> nat, s: seq<T>)
    requires forall i: nat :: i < |s| ==> f(s[i]) == 1
    ensures Sum(f, s) == |s|
  {
    if s != [] {
      SumIsCount(f, s[..|s| - 1]);
    }
  }

  /** A set of numbers below n has at most n members, and n only if it has them all. */
  lemma {:induction false} SetBelow(t: set<nat>, n: nat)
    requires forall w :: w in t ==> w < n
    ensures |t| <= n
    ensures |t| == n <==> forall w: nat :: w < n ==> w in t
  {
    if n == 0 {
      assert t == {};
    } else {
      SetBelow(t - {n - 1}, n - 1);
      if n - 1 !in t { assert t == t - {n - 1}; }
    }
  }
}
