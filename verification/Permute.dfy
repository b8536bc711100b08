/** Mapping a function over two orderings of the same elements gives the same bag. */
module Permute {

  function Mapped<A, B>(f: A -> B, s: seq<A>): (r: seq<B>)
    ensures |r| == |s|
    ensures forall n :: 0 <= n < |s| ==> r[n] == f(s[n])
  {
    seq(|s|, n requires 0 <= n < |s| => f(s[n]))
  }

  /** The bag of images loses f(x) when x is taken out of the middle. */
  lemma MappedWithout<A, B>(f: A -> B, a: seq<A>, x: A, b: seq<A>)
    ensures multiset(Mapped(f, a + [x] + b)) == multiset(Mapped(f, a + b)) + multiset{f(x)}
    ensures multiset(a + [x] + b) == multiset(a + b) + multiset{x}
  {
    assert Mapped(f, a + [x] + b) == Mapped(f, a) + [f(x)] + Mapped(f, b);
    assert Mapped(f, a + b) == Mapped(f, a) + Mapped(f, b);
  }

  lemma TakeOut<A>(s: seq<A>, x: A) returns (a: seq<A>, b: seq<A>)
    requires x in multiset(s)
    ensures s == a + [x] + b && multiset(a + b) == multiset(s) - multiset{x}
  {
    var m :| 0 <= m < |s| && s[m] == x;
    a, b := s[..m], s[m + 1..];
    assert s == a + [x] + b;
  }

  lemma {:induction false} MappedSame<A, B>(f: A -> B, a: seq<A>, b: seq<A>)
    requires multiset(a) == multiset(b)
    ensures multiset(Mapped(f, a)) == multiset(Mapped(f, b))
    decreases |a|
  {
    if |a| == 0 {
      assert |multiset(b)| == 0;
    } else {
      var x := a[0];
      var a1, a2 := TakeOut(a, x);
      var b1, b2 := TakeOut(b, x);
      MappedSame(f, a1 + a2, b1 + b2);
      MappedWithout(f, a1, x, a2);
      MappedWithout(f, b1, x, b2);
    }
  }

  ghost predicate Distinct<T>(s: seq<T>) { forall i, j :: 0 <= i < j < |s| ==> s[i] != s[j] }

  lemma {:induction false} DistinctCounts<T>(s: seq<T>, x: T)
    requires Distinct(s)
    ensures multiset(s)[x] == if x in s then 1 else 0
  {
    if |s| > 0 {
      var t, y := s[..|s| - 1], s[|s| - 1];
      assert s == t + [y];
      DistinctCounts(t, x);
      if x == y {
        assert forall i :: 0 <= i < |t| ==> t[i] == s[i] != y;
      }
    }
  }

  lemma RepeatCounts<T>(t: seq<T>, i: nat, j: nat)
    requires i < j < |t| && t[i] == t[j]
    ensures multiset(t)[t[i]] >= 2
  {
    assert t == t[..i] + [t[i]] + t[i + 1..j] + [t[j]] + t[j + 1..];
  }

  /** A reordering of distinct elements is distinct. */
  lemma DistinctReordered<T>(s: seq<T>, t: seq<T>)
    requires Distinct(s) && multiset(s) == multiset(t)
    ensures Distinct(t)
  {
    forall i, j | 0 <= i < j < |t| ensures t[i] != t[j] {
      DistinctCounts(s, t[i]);
      if t[i] == t[j] { RepeatCounts(t, i, j); }
    }
  }
}
