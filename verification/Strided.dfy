/** cpi.c: the rectangles 1..n are dealt out to the ranks with stride numprocs and the partial sums reduced.
    Sums are over exact reals. */
module Strided {
  import opened Arith

  /** The program's integrand. The sums below are about any integrand. */
  function F(a: real): real
  {
    assert 1.0 + a * a > 0.0 by { Square(a); }
    4.0 / (1.0 + a * a)
  }

  lemma Square(a: real)
    ensures a * a >= 0.0
  {
  }

  /** The height over rectangle i when the width is h. */
  function Heights(f: real -> real, h: real): nat -> real {
    (i: nat) => f(Mid(h, i))
  }

  /** The midpoint of rectangle i. */
  function Mid(h: real, i: nat): real { h * (i as real - 0.5) }

  /** Sum of t over the listed rectangles. */
  function SumOf(t: nat -> real, indices: seq<nat>): real {
    if indices == [] then 0.0 else SumOf(t, indices[..|indices| - 1]) + t(indices[|indices| - 1])
  }

  /** The rectangles among 1..m that belong to a rank, in increasing order. */
  function Share(procs: nat, rank: nat, m: nat): seq<nat>
    requires 1 <= procs
  {
    if m == 0 then []
    else Share(procs, rank, m - 1) + if (m - 1) % procs == rank then [m] else []
  }

  /** Each rectangle belongs to exactly one rank, and is in that rank's share once. */
  lemma {:induction false} ShareMembers(procs: nat, rank: nat, m: nat)
    requires 1 <= procs
    ensures forall i :: i in Share(procs, rank, m) <==> 1 <= i <= m && (i - 1) % procs == rank
    ensures forall a, b :: 0 <= a < b < |Share(procs, rank, m)| ==> Share(procs, rank, m)[a] < Share(procs, rank, m)[b]
  {
    if m > 0 {
      ShareMembers(procs, rank, m - 1);
      var s := Share(procs, rank, m - 1);
      assert forall a :: 0 <= a < |s| ==> s[a] in s;
    }
  }

  /** A step shorter than the stride leads to an index of another rank. */
  lemma OffStride(procs: nat, rank: nat, i: nat, gap: nat)
    requires 1 <= procs && 1 <= i && (i - 1) % procs == rank && 0 < gap < procs
    ensures (i + gap - 1) % procs != rank
  {
    var q, q' := (i - 1) / procs, (i + gap - 1) / procs;
    assert i - 1 == q * procs + rank;
    assert i + gap - 1 == q' * procs + (i + gap - 1) % procs;
    if (i + gap - 1) % procs == rank {
      OneLap(q' - q, procs, gap);
    }
  }

  /** No multiple of the stride lies strictly between nothing and the stride. */
  lemma OneLap(k: int, procs: nat, gap: nat)
    requires 0 < gap < procs
    ensures k * procs != gap
  {
    if k <= 0 { MulLe(k, 0, procs); } else { MulLe(1, k, procs); }
  }

  /** Between one index of a rank and the next there is none of its own. */
  lemma {:induction false} NothingBetween(procs: nat, rank: nat, i: nat, gap: nat)
    requires 1 <= procs && 1 <= i && (i - 1) % procs == rank && gap < procs
    ensures Share(procs, rank, i + gap) == Share(procs, rank, i)
  {
    if gap > 0 {
      NothingBetween(procs, rank, i, gap - 1);
      OffStride(procs, rank, i, gap);
      assert i + gap - 1 == (i + gap) - 1;
    }
  }

  lemma {:induction false} NothingBefore(procs: nat, rank: nat, m: nat)
    requires 1 <= procs && m <= rank < procs
    ensures Share(procs, rank, m) == []
  {
    if m > 0 {
      NothingBefore(procs, rank, m - 1);
      DivMod(0, m - 1, procs);
    }
  }

  /** Adding the stride leads from one index of a rank to its next. */
  lemma NextIndex(procs: nat, rank: nat, i: nat, n: nat)
    requires 1 <= procs && 1 <= i <= n && (i - 1) % procs == rank
    ensures (i + procs - 1) % procs == rank
    ensures Share(procs, rank, Min(i + procs - 1, n)) == Share(procs, rank, i - 1) + [i]
  {
    NothingBetween(procs, rank, i, Min(procs - 1, n - i));
    var q := (i - 1) / procs;
    assert i + procs - 1 == (q + 1) * procs + rank;
    DivMod(q + 1, rank, procs);
  }

  lemma SumOfAppend(t: nat -> real, v: seq<nat>, i: nat)
    ensures SumOf(t, v + [i]) == SumOf(t, v) + t(i)
  {
    assert (v + [i])[..|v|] == v;
  }

  /** The summation loop of one rank, and the rank's part of pi. */
  method RankPi(f: real -> real, n: nat, procs: nat, rank: nat) returns (mypi: real, visited: seq<nat>)
    requires 1 <= n && 1 <= procs && rank < procs
    ensures visited == Share(procs, rank, n)
    ensures mypi == Parts(Heights(f, 1.0 / n as real), 1.0 / n as real, procs, n)(rank)
  {
    var h := 1.0 / n as real;
    var sum := 0.0;
    visited := [];
    var i := rank + 1;
    ghost var t := Heights(f, h);
    NothingBefore(procs, rank, Min(rank, n));
    DivMod(0, rank, procs);
    while i <= n
      invariant rank + 1 <= i && (i - 1) % procs == rank
      invariant visited == Share(procs, rank, Min(i - 1, n))
      invariant sum == SumOf(t, visited)
      decreases n + procs - i
    {
      var x := Mid(h, i);
      assert t(i) == f(x);
      SumOfAppend(t, visited, i);
      NextIndex(procs, rank, i, n);
      sum := sum + f(x);
      visited := visited + [i];
      i := i + procs;
    }
    mypi := h * sum;
  }

  // ---- the reduction

  /** Sum of each rank's share of 1..m, before and after scaling by the width. */
  function Shares(t: nat -> real, procs: nat, m: nat): nat -> real
    requires 1 <= procs
  {
    (r: nat) => SumOf(t, Share(procs, r, m))
  }

  function Parts(t: nat -> real, h: real, procs: nat, m: nat): nat -> real
    requires 1 <= procs
  {
    (r: nat) => h * SumOf(t, Share(procs, r, m))
  }

  /** What MPI_Reduce with MPI_SUM makes of the values of ranks 0..ranks-1. */
  function Reduce(value: nat -> real, ranks: nat): real {
    if ranks == 0 then 0.0 else Reduce(value, ranks - 1) + value(ranks - 1)
  }

  /** One more rectangle adds its term to the rank it belongs to and to no other. */
  lemma ShareGrows(t: nat -> real, procs: nat, r: nat, m: nat)
    requires 1 <= procs && 1 <= m
    ensures Shares(t, procs, m)(r) == Shares(t, procs, m - 1)(r) + if (m - 1) % procs == r then t(m) else 0.0
  {
    var before := Share(procs, r, m - 1);
    SumOfAppend(t, before, m);
    assert before + [] == before;
  }

  lemma {:induction false} ReduceGrows(t: nat -> real, procs: nat, ranks: nat, m: nat)
    requires 1 <= procs && 1 <= m
    ensures Reduce(Shares(t, procs, m), ranks)
         == Reduce(Shares(t, procs, m - 1), ranks) + if (m - 1) % procs < ranks then t(m) else 0.0
  {
    if ranks > 0 {
      ReduceGrows(t, procs, ranks - 1, m);
      ShareGrows(t, procs, ranks - 1, m);
    }
  }

  lemma {:induction false} ReduceNothing(t: nat -> real, procs: nat, ranks: nat)
    requires 1 <= procs
    ensures Reduce(Shares(t, procs, 0), ranks) == 0.0
  {
    if ranks > 0 {
      ReduceNothing(t, procs, ranks - 1);
    }
  }

  /** Over all processes the reduction grows by the term. */
  lemma ReduceGrowsAll(t: nat -> real, procs: nat, m: nat)
    requires 1 <= procs && 1 <= m
    ensures Reduce(Shares(t, procs, m), procs) == Reduce(Shares(t, procs, m - 1), procs) + t(m)
  {
    ReduceGrows(t, procs, procs, m);
    assert (m - 1) % procs < procs;
  }

  /** The sums of any number of processes reduce to the sum one process computes alone. */
  lemma {:induction false} ReduceIndependent(t: nat -> real, procs: nat, m: nat)
    requires 1 <= procs
    ensures Reduce(Shares(t, procs, m), procs) == Reduce(Shares(t, 1, m), 1)
  {
    if m == 0 {
      ReduceNothing(t, procs, procs);
      ReduceNothing(t, 1, 1);
    } else {
      ReduceIndependent(t, procs, m - 1);
      ReduceGrowsAll(t, procs, m);
      ReduceGrowsAll(t, 1, m);
    }
  }

  lemma Distribute(h: real, a: real, b: real)
    ensures h * (a + b) == h * a + h * b
  {
  }

  lemma {:induction false} ReduceScales(t: nat -> real, h: real, procs: nat, ranks: nat, m: nat)
    requires 1 <= procs
    ensures Reduce(Parts(t, h, procs, m), ranks) == h * Reduce(Shares(t, procs, m), ranks)
  {
    if ranks > 0 {
      ReduceScales(t, h, procs, ranks - 1, m);
      Distribute(h, Reduce(Shares(t, procs, m), ranks - 1), SumOf(t, Share(procs, ranks - 1, m)));
    }
  }

  /** The reported value of pi does not depend on the number of processes. */
  lemma PiIndependent(n: nat, procs: nat)
    requires 1 <= n && 1 <= procs
    ensures var h := 1.0 / n as real; var t := Heights(F, h);
            Reduce(Parts(t, h, procs, n), procs) == Reduce(Parts(t, h, 1, n), 1)
  {
    var h := 1.0 / n as real;
    var t := Heights(F, h);
    ReduceScales(t, h, procs, procs, n);
    ReduceScales(t, h, 1, 1, n);
    ReduceIndependent(t, procs, n);
  }

  // ---- what the sum is

  lemma Spread(h: real, x: real, y: real)
    ensures h * (x - y) == h * x - h * y
  {
  }

  lemma Below(h: real, x: real, y: real)
    requires h > 0.0 && x < y
    ensures h * x < h * y
  {
    Spread(h, y, x);
    PositiveProduct(h, y - x);
  }

  lemma PositiveProduct(x: real, y: real)
    requires x > 0.0 && y > 0.0
    ensures x * y > 0.0
  {
  }

  /** The sample point of rectangle i lies between its ends, h * (i - 1) and h * i, and equally far from both. */
  lemma Midpoint(h: real, i: nat)
    requires h > 0.0 && 1 <= i
    ensures h * (i as real - 1.0) < Mid(h, i) < h * i as real
    ensures Mid(h, i) - h * (i as real - 1.0) == h * i as real - Mid(h, i)
  {
    Below(h, i as real - 1.0, i as real - 0.5);
    Below(h, i as real - 0.5, i as real);
    Spread(h, i as real, 1.0);
    Spread(h, i as real, 0.5);
  }

  /** The integrand times 1 + a * a is 4; at the ends of the interval it is 4 and 2. */
  lemma IntegrandIs(a: real)
    ensures F(a) * (1.0 + a * a) == 4.0
    ensures F(0.0) == 4.0 && F(1.0) == 2.0
  {
    Square(a);
    Quotient(4.0, 1.0 + a * a);
  }

  lemma Quotient(x: real, y: real)
    requires y != 0.0
    ensures (x / y) * y == x
  {
  }

  lemma SingleShare(t: nat -> real, m: nat)
    ensures Reduce(Shares(t, 1, m), 1) == SumOf(t, Share(1, 0, m))
  {
    assert Reduce(Shares(t, 1, m), 0) == 0.0;
    assert Shares(t, 1, m)(0) == SumOf(t, Share(1, 0, m));
  }

  /** The reported value is the width times the sum of all heights, for any heights and any number of processes. */
  lemma ReducedSum(t: nat -> real, h: real, procs: nat, n: nat)
    requires 1 <= procs
    ensures Reduce(Parts(t, h, procs, n), procs) == h * SumOf(t, Share(1, 0, n))
  {
    ReduceScales(t, h, procs, procs, n);
    ReduceIndependent(t, procs, n);
    SingleShare(t, n);
  }

  /** An integrand whose graph is a straight line. */
  ghost predicate Linear(f: real -> real, a: real, b: real) { forall x :: f(x) == a + b * x }

  /** The heights of the first m rectangles under a straight line, added up. */
  function LineSum(a: real, b: real, h: real, m: nat): real {
    if m == 0 then 0.0 else LineSum(a, b, h, m - 1) + (a + b * Mid(h, m))
  }

  lemma NextShare(t: nat -> real, m: nat)
    requires m > 0
    ensures SumOf(t, Share(1, 0, m)) == SumOf(t, Share(1, 0, m - 1)) + t(m)
  {
    assert (m - 1) % 1 == 0;
    SumOfAppend(t, Share(1, 0, m - 1), m);
  }

  /** Two running totals of the same terms. */
  lemma {:induction false} SumsTo(t: nat -> real, total: nat -> real, m: nat)
    requires total(0) == 0.0 && forall i: nat :: total(i + 1) == total(i) + t(i + 1)
    ensures SumOf(t, Share(1, 0, m)) == total(m)
  {
    if m > 0 {
      SumsTo(t, total, m - 1);
      NextShare(t, m);
      assert total(m - 1 + 1) == total(m - 1) + t(m - 1 + 1);
    }
  }

  lemma LineHeight(f: real -> real, a: real, b: real, h: real, i: nat)
    requires Linear(f, a, b)
    ensures Heights(f, h)(i) == a + b * Mid(h, i)
  {
  }

  lemma LinearSum(f: real -> real, a: real, b: real, h: real, m: nat)
    requires Linear(f, a, b)
    ensures SumOf(Heights(f, h), Share(1, 0, m)) == LineSum(a, b, h, m)
  {
    var t, total := Heights(f, h), (i: nat) => LineSum(a, b, h, i);
    forall i: nat ensures total(i + 1) == total(i) + t(i + 1) {
      LineHeight(f, a, b, h, i + 1);
    }
    SumsTo(t, total, m);
  }

  lemma {:induction false} LineSumIs(a: real, b: real, h: real, m: nat)
    ensures LineSum(a, b, h, m) == a * m as real + (b * h) * (m as real * m as real / 2.0)
  {
    if m > 0 {
      LineSumIs(a, b, h, m - 1);
      LinearStep(a, b, h, m as real, (m - 1) as real);
    }
  }

  lemma LinearStep(a: real, b: real, h: real, x: real, y: real)
    requires y == x - 1.0
    ensures a * y + (b * h) * (y * y / 2.0) + (a + b * (h * (x - 0.5))) == a * x + (b * h) * (x * x / 2.0)
  {
    var k := b * h;
    assert b * (h * (x - 0.5)) == k * (x - 0.5) by { Grouped(b, h, x - 0.5); }
    assert y * y / 2.0 == x * x / 2.0 - (x - 0.5) by { PreviousSquare(x); }
    Spread(k, x * x / 2.0, x - 0.5);
    Spread(a, x, 1.0);
  }

  lemma Grouped(x: real, y: real, z: real)
    ensures x * (y * z) == (x * y) * z
  {
  }

  lemma PreviousSquare(x: real)
    ensures (x - 1.0) * (x - 1.0) == x * x - 2.0 * x + 1.0
  {
    Spread(x - 1.0, x, 1.0);
    Spread(x, x, 1.0);
  }

  lemma LineOverAll(a: real, b: real, h: real, n: nat)
    requires h * n as real == 1.0
    ensures h * LineSum(a, b, h, n) == a + b / 2.0
  {
    LineSumIs(a, b, h, n);
    WholeInterval(a, b, h, n as real);
  }

  lemma LinearReduced(f: real -> real, a: real, b: real, h: real, n: nat, procs: nat, total: real)
    requires 1 <= procs && SumOf(Heights(f, h), Share(1, 0, n)) == total && h * total == a + b / 2.0
    ensures Reduce(Parts(Heights(f, h), h, procs, n), procs) == a + b / 2.0
  {
    ReducedSum(Heights(f, h), h, procs, n);
  }

  /** The midpoint rule is exact for straight lines: over the unit interval the value is a + b / 2, for any number of
      rectangles and of processes. */
  lemma LinearExact(f: real -> real, a: real, b: real, n: nat, procs: nat)
    requires 1 <= n && 1 <= procs && Linear(f, a, b)
    ensures var h := 1.0 / n as real; Reduce(Parts(Heights(f, h), h, procs, n), procs) == a + b / 2.0
  {
    var h := 1.0 / n as real;
    Quotient(1.0, n as real);
    LinearSum(f, a, b, h, n);
    LineOverAll(a, b, h, n);
    LinearReduced(f, a, b, h, n, procs, LineSum(a, b, h, n));
  }

  lemma WholeInterval(a: real, b: real, h: real, x: real)
    requires h * x == 1.0
    ensures h * (a * x + (b * h) * (x * x / 2.0)) == a + b / 2.0
  {
    Distribute(h, a * x, (b * h) * (x * x / 2.0));
    Exchange(h, a, x);
    assert h * (a * x) == a * (h * x);
    Twice(b, h, x);
  }

  lemma Exchange(x: real, y: real, z: real)
    ensures x * (y * z) == y * (x * z)
  {
    Grouped(x, y, z);
    Grouped(y, x, z);
  }

  lemma Twice(b: real, h: real, x: real)
    requires h * x == 1.0
    ensures h * ((b * h) * (x * x / 2.0)) == b / 2.0
  {
    calc {
      h * ((b * h) * (x * x / 2.0));
      { Exchange(h, b * h, x * x / 2.0); }
      (b * h) * (h * (x * x / 2.0));
      { Half(h, x * x); Grouped(h, x, x); }
      (b * h) * (x / 2.0);
      { Half(b * h, x); Grouped(b, h, x); }
      b / 2.0;
    }
  }

  lemma Half(k: real, x: real)
    ensures k * (x / 2.0) == (k * x) / 2.0
  {
  }

  lemma FAtHalf()
    ensures F(0.5) == 3.2
  {
    IntegrandIs(0.5);
  }

  lemma OneHeight()
    ensures Heights(F, 1.0)(1) == 3.2
  {
    FAtHalf();
    assert Mid(1.0, 1) == 0.5;
  }

  lemma OnlyOne(t: nat -> real, v: real)
    requires t(1) == v
    ensures 1.0 * SumOf(t, Share(1, 0, 1)) == v
  {
    NextShare(t, 1);
  }

  /** With one rectangle the program reports 3.2, the height over the middle of the interval. */
  lemma OneRectangle(procs: nat)
    requires 1 <= procs
    ensures Reduce(Parts(Heights(F, 1.0), 1.0, procs, 1), procs) == 3.2
  {
    ReducedSum(Heights(F, 1.0), 1.0, procs, 1);
    OneHeight();
    OnlyOne(Heights(F, 1.0), 3.2);
  }
}
