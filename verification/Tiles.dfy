/** How the root cuts the image into g * g tiles (g is 20 in the programs) and shuffles them. */
module Tiles {
  import opened Arith
  import opened Permute
  import opened Rects

  /** istep and jstep: the side of a tile along an axis of n pixels, at least 1. */
  function Step(n: int, g: int): (s: int)
    requires 1 <= n && 1 <= g
    ensures s >= 1
  {
    if n / g < 1 then 1 else n / g
  }

  function Lo(n: int, g: int, i: int): int
    requires 1 <= n && 1 <= g
  {
    Min(Step(n, g) * i, n - 1)
  }

  function Hi(n: int, g: int, i: int): int
    requires 1 <= n && 1 <= g
  {
    Min(Step(n, g) * (i + 1) - 1, n - 1)
  }

  /** How many pixels of the axis the tiles reach. */
  function Reach(n: int, g: int): int
    requires 1 <= n && 1 <= g
  {
    Min(g * Step(n, g), n)
  }

  /** Tile k, with k == i * g + j for the loop counters i and j. */
  function Tile(across: int, down: int, g: int, k: int): Rect
    requires 1 <= across && 1 <= down && 1 <= g
  {
    Rect(Lo(across, g, k / g), Hi(across, g, k / g), Lo(down, g, k % g), Hi(down, g, k % g))
  }

  /** The part of the image that some tile covers. */
  ghost predicate Covered(across: int, down: int, g: int, p: Point)
    requires 1 <= across && 1 <= down && 1 <= g
  {
    0 <= p.x < Reach(across, g) && 0 <= p.y < Reach(down, g)
  }

  // ---- one axis

  lemma StepFits(n: int, g: int)
    requires 1 <= n && 1 <= g
    ensures n >= g ==> Step(n, g) == n / g && Step(n, g) * g <= n
    ensures n < g ==> Step(n, g) == 1
  {
    if n >= g {
      var q := n / g;
      assert n == q * g + n % g;
      if q < 1 {
        MulLe(q, 0, g);
      }
    } else {
      assert n / g == 0 by { DivMod(0, n, g); }
    }
  }

  lemma IntervalInside(n: int, g: int, i: int)
    requires 1 <= n && 1 <= g && 0 <= i
    ensures 0 <= Lo(n, g, i) <= Hi(n, g, i) <= n - 1
  {
    var s := Step(n, g);
    assert s * i >= 0 by { MulLe(0, i, s); }
    assert s * (i + 1) == s * i + s;
  }

  /** No interval leaves the first Reach(n, g) pixels. */
  lemma IntervalWithinReach(n: int, g: int, i: int)
    requires 1 <= n && 1 <= g && 0 <= i < g
    ensures Hi(n, g, i) < Reach(n, g)
  {
    var s := Step(n, g);
    MulLe(i + 1, g, s);
    assert s * (i + 1) == (i + 1) * s && s * g == g * s;
  }

  /** Every one of the first Reach(n, g) pixels has its interval. */
  lemma IntervalOf(n: int, g: int, x: int) returns (i: int)
    requires 1 <= n && 1 <= g && 0 <= x < Reach(n, g)
    ensures 0 <= i < g && Lo(n, g, i) <= x <= Hi(n, g, i)
  {
    var s := Step(n, g);
    i := x / s;
    RowBelow(x, g, s);
    assert s * (i + 1) == i * s + s;
  }

  /** With at least g pixels on the axis, later intervals start after earlier ones end. */
  lemma IntervalsApart(n: int, g: int, i: int, i': int)
    requires 1 <= g <= n && 0 <= i < i' < g
    ensures Hi(n, g, i) < Lo(n, g, i')
  {
    var s := Step(n, g);
    StepFits(n, g);
    MulLe(i + 1, i', s);
    MulLe(i' + 1, g, s);
    assert s * (i' + 1) == s * i' + s;
  }

  /** With fewer than g pixels the clamp makes two intervals meet. */
  lemma IntervalsMeet(n: int, g: int)
    requires 1 <= n < g
    ensures Lo(n, g, n - 1) == Hi(n, g, n - 1) == Lo(n, g, n) == Hi(n, g, n) == n - 1
  {
    StepFits(n, g);
  }

  // ---- tiles

  lemma TileInside(across: int, down: int, g: int, k: int)
    requires 1 <= across && 1 <= down && 1 <= g && 0 <= k < g * g
    ensures var t := Tile(across, down, g, k);
            t.Proper() && 0 <= t.imin && t.imax < across && 0 <= t.jmin && t.jmax < down
  {
    RowBelow(k, g, g);
    IntervalInside(across, g, k / g);
    IntervalInside(down, g, k % g);
  }

  /** The union of all tiles is exactly the covered part of the image. */
  lemma TilesCover(across: int, down: int, g: int, p: Point)
    requires 1 <= across && 1 <= down && 1 <= g
    ensures (exists k :: 0 <= k < g * g && Tile(across, down, g, k).Has(p)) <==> Covered(across, down, g, p)
  {
    if k :| 0 <= k < g * g && Tile(across, down, g, k).Has(p) {
      TileInside(across, down, g, k);
      RowBelow(k, g, g);
      IntervalWithinReach(across, g, k / g);
      IntervalWithinReach(down, g, k % g);
    }
    if Covered(across, down, g, p) {
      var i := IntervalOf(across, g, p.x);
      var j := IntervalOf(down, g, p.y);
      DivMod(i, j, g);
      FlatBelow(i, j, g, g);
      assert Tile(across, down, g, i * g + j).Has(p);
    }
  }

  ghost predicate Apart(s: Rect, t: Rect) { forall p: Point :: !(s.Has(p) && t.Has(p)) }

  ghost predicate TilesApart(across: int, down: int, g: int)
    requires 1 <= across && 1 <= down && 1 <= g
  {
    forall k, k' :: 0 <= k < k' < g * g ==> Apart(Tile(across, down, g, k), Tile(across, down, g, k'))
  }

  lemma TilesApartWhenLarge(across: int, down: int, g: int, k: int, k': int)
    requires 1 <= g <= across && g <= down && 0 <= k < k' < g * g
    ensures Apart(Tile(across, down, g, k), Tile(across, down, g, k'))
  {
    RowBelow(k, g, g);
    RowBelow(k', g, g);
    var i, j, i', j' := k / g, k % g, k' / g, k' % g;
    if i < i' {
      IntervalsApart(across, g, i, i');
    } else if i' < i {
      IntervalsApart(across, g, i', i);
    } else if j < j' {
      IntervalsApart(down, g, j, j');
    } else {
      IntervalsApart(down, g, j', j);
    }
  }

  /** With too few columns, tiles in neighbouring columns share the last one. */
  lemma TilesMeetAcross(across: int, down: int, g: int)
    requires 1 <= across < g && 1 <= down
    ensures !TilesApart(across, down, g)
  {
    var k, k' := (across - 1) * g, across * g;
    DivMod(across - 1, 0, g);
    DivMod(across, 0, g);
    FlatBelow(across, 0, g, g);
    MulLe(0, across - 1, g);
    assert k' == k + g;
    IntervalsMeet(across, g);
    IntervalInside(down, g, 0);
    var p := Point(across - 1, Lo(down, g, 0));
    assert Tile(across, down, g, k).Has(p) && Tile(across, down, g, k').Has(p);
    assert !Apart(Tile(across, down, g, k), Tile(across, down, g, k'));
  }

  lemma TilesMeetDown(across: int, down: int, g: int)
    requires 1 <= across && 1 <= down < g
    ensures !TilesApart(across, down, g)
  {
    DivMod(0, down - 1, g);
    DivMod(0, down, g);
    MulLe(1, g, g);
    IntervalsMeet(down, g);
    IntervalInside(across, g, 0);
    var p := Point(Lo(across, g, 0), down - 1);
    assert Tile(across, down, g, down - 1).Has(p) && Tile(across, down, g, down).Has(p);
    assert !Apart(Tile(across, down, g, down - 1), Tile(across, down, g, down));
  }

  /** Tiles are pairwise disjoint exactly when both sides have at least g pixels. */
  lemma TilesApartIff(across: int, down: int, g: int)
    requires 1 <= across && 1 <= down && 1 <= g
    ensures TilesApart(across, down, g) <==> across >= g && down >= g
  {
    if across < g {
      TilesMeetAcross(across, down, g);
    } else if down < g {
      TilesMeetDown(across, down, g);
    } else {
      forall k, k' | 0 <= k < k' < g * g
        ensures Apart(Tile(across, down, g, k), Tile(across, down, g, k'))
      {
        TilesApartWhenLarge(across, down, g, k, k');
      }
    }
  }

  // ---- the root's arrays

  /** Tile k as the four arrays of the root hold it. */
  function At(i1: seq<int>, i2: seq<int>, j1: seq<int>, j2: seq<int>, k: int): Rect
    requires 0 <= k < |i1| && |i1| == |i2| == |j1| == |j2|
  {
    Rect(i1[k], i2[k], j1[k], j2[k])
  }

  function Zip(i1: seq<int>, i2: seq<int>, j1: seq<int>, j2: seq<int>): (z: seq<Rect>)
    requires |i1| == |i2| == |j1| == |j2|
    ensures |z| == |i1|
  {
    seq(|i1|, k requires 0 <= k < |i1| => At(i1, i2, j1, j2, k))
  }

  function Cut(across: int, down: int, g: int): (z: seq<Rect>)
    requires 1 <= across && 1 <= down && 1 <= g
    ensures |z| == g * g
  {
    seq(g * g, k requires 0 <= k < g * g => Tile(across, down, g, k))
  }

  /** The nested loops that fill i1, i2, j1 and j2, with their running index k. */
  method BuildTiles(across: int, down: int, g: int, i1: array<int>, i2: array<int>, j1: array<int>, j2: array<int>)
    requires 1 <= across && 1 <= down && 1 <= g
    requires i1.Length == i2.Length == j1.Length == j2.Length == g * g
    requires i1 != i2 && i1 != j1 && i1 != j2 && i2 != j1 && i2 != j2 && j1 != j2
    modifies i1, i2, j1, j2
    ensures Zip(i1[..], i2[..], j1[..], j2[..]) == Cut(across, down, g)
  {
    var istep, jstep := across / g, down / g;
    if istep < 1 { istep := 1; }
    if jstep < 1 { jstep := 1; }
    var k := 0;
    for i := 0 to g
      invariant k == i * g
      invariant forall m :: 0 <= m < k ==> Rect(i1[m], i2[m], j1[m], j2[m]) == Tile(across, down, g, m)
    {
      MulLe(i + 1, g, g);
      assert (i + 1) * g == i * g + g;
      for j := 0 to g
        invariant k == i * g + j
        invariant forall m :: 0 <= m < k ==> Rect(i1[m], i2[m], j1[m], j2[m]) == Tile(across, down, g, m)
      {
        FlatBelow(i, j, g, g);
        DivMod(i, j, g);
        i1[k] := Min(istep * i, across - 1);
        i2[k] := Min(istep * (i + 1) - 1, across - 1);
        j1[k] := Min(jstep * j, down - 1);
        j2[k] := Min(jstep * (j + 1) - 1, down - 1);
        assert Rect(i1[k], i2[k], j1[k], j2[k]) == Tile(across, down, g, k);
        k := k + 1;
      }
    }
  }

  function Swapped<T>(s: seq<T>, a: nat, b: nat): (t: seq<T>)
    requires a < |s| && b < |s|
    ensures |t| == |s| && t[a] == s[b] && t[b] == s[a] && forall k :: 0 <= k < |s| && k != a && k != b ==> t[k] == s[k]
  {
    s[a := s[b]][b := s[a]]
  }

  lemma SwappedKeepsAll<T>(s: seq<T>, a: nat, b: nat)
    requires a < |s| && b < |s|
    ensures multiset(Swapped(s, a, b)) == multiset(s)
  {
  }

  method Swap(a: array<int>, i: nat, j: nat)
    requires i < a.Length && j < a.Length
    modifies a
    ensures a[..] == Swapped(old(a[..]), i, j)
  {
    var x := a[i];
    a[i] := a[j];
    a[j] := x;
  }

  /** Swapping the same entries of all four arrays swaps whole tiles. */
  lemma ZipSwapped(i1: seq<int>, i2: seq<int>, j1: seq<int>, j2: seq<int>, a: nat, b: nat)
    requires |i1| == |i2| == |j1| == |j2| && a < |i1| && b < |i1|
    ensures var z, z' := Zip(i1, i2, j1, j2),
                         Zip(Swapped(i1, a, b), Swapped(i2, a, b), Swapped(j1, a, b), Swapped(j2, a, b));
            z' == Swapped(z, a, b) && multiset(z') == multiset(z)
  {
    var z := Zip(i1, i2, j1, j2);
    SwappedKeepsAll(z, a, b);
    assert Zip(Swapped(i1, a, b), Swapped(i2, a, b), Swapped(j1, a, b), Swapped(j2, a, b)) == Swapped(z, a, b);
  }

  predicate PicksFit(picks: seq<(nat, nat)>, n: nat) { forall p :: p in picks ==> p.0 < n && p.1 < n }

  /** What the picks make of a sequence, one swap after the other. */
  function Arranged<T>(s: seq<T>, picks: seq<(nat, nat)>): (t: seq<T>)
    requires PicksFit(picks, |s|)
    ensures |t| == |s|
  {
    if picks == [] then s
    else
      var p := picks[|picks| - 1];
      assert p in picks;
      Swapped(Arranged(s, picks[..|picks| - 1]), p.0, p.1)
  }

  lemma {:induction false} ArrangedFirst<T>(s: seq<T>, p: (nat, nat), picks: seq<(nat, nat)>)
    requires p.0 < |s| && p.1 < |s| && PicksFit(picks, |s|)
    ensures PicksFit([p] + picks, |s|)
    ensures Arranged(s, [p] + picks) == Arranged(Swapped(s, p.0, p.1), picks)
    decreases |picks|
  {
    if picks == [] {
      assert [p] + picks == [p] && [p][..0] == [];
    } else {
      ArrangedFirst(s, p, picks[..|picks| - 1]);
      assert ([p] + picks)[..|picks|] == [p] + picks[..|picks| - 1];
    }
  }

  function Backwards(picks: seq<(nat, nat)>): seq<(nat, nat)> {
    if picks == [] then [] else [picks[|picks| - 1]] + Backwards(picks[..|picks| - 1])
  }

  lemma {:induction false} BackwardsFit(picks: seq<(nat, nat)>, n: nat)
    requires PicksFit(picks, n)
    ensures PicksFit(Backwards(picks), n)
    decreases |picks|
  {
    if picks != [] {
      BackwardsFit(picks[..|picks| - 1], n);
    }
  }

  lemma SwappedTwice<T>(s: seq<T>, a: nat, b: nat)
    requires a < |s| && b < |s|
    ensures Swapped(Swapped(s, a, b), a, b) == s
  {
  }

  lemma {:induction false} ArrangedKeepsAll<T>(s: seq<T>, picks: seq<(nat, nat)>)
    requires PicksFit(picks, |s|)
    ensures multiset(Arranged(s, picks)) == multiset(s)
    decreases |picks|
  {
    if picks != [] {
      var init, p := picks[..|picks| - 1], picks[|picks| - 1];
      assert p in picks;
      ArrangedKeepsAll(s, init);
      SwappedKeepsAll(Arranged(s, init), p.0, p.1);
    }
  }

  /** The same swaps in reverse undo the shuffle. */
  lemma {:induction false} ShuffleUndone<T>(s: seq<T>, picks: seq<(nat, nat)>)
    requires PicksFit(picks, |s|)
    ensures PicksFit(Backwards(picks), |s|)
    ensures Arranged(Arranged(s, picks), Backwards(picks)) == s
    decreases |picks|
  {
    BackwardsFit(picks, |s|);
    if picks != [] {
      var init, p := picks[..|picks| - 1], picks[|picks| - 1];
      assert p in picks;
      BackwardsFit(init, |s|);
      ShuffleUndone(s, init);
      ArrangedFirst(Arranged(s, picks), p, Backwards(init));
      SwappedTwice(Arranged(s, init), p.0, p.1);
    }
  }

  /** The shuffle: each pick (ii, jj) of the random source swaps entries ii and jj of all four arrays. */
  method Shuffle(picks: seq<(nat, nat)>, i1: array<int>, i2: array<int>, j1: array<int>, j2: array<int>)
    requires i1.Length == i2.Length == j1.Length == j2.Length
    requires i1 != i2 && i1 != j1 && i1 != j2 && i2 != j1 && i2 != j2 && j1 != j2
    requires PicksFit(picks, i1.Length)
    modifies i1, i2, j1, j2
    ensures Zip(i1[..], i2[..], j1[..], j2[..]) == Arranged(old(Zip(i1[..], i2[..], j1[..], j2[..])), picks)
    ensures multiset(Zip(i1[..], i2[..], j1[..], j2[..])) == old(multiset(Zip(i1[..], i2[..], j1[..], j2[..])))
  {
    ghost var tiles := Zip(i1[..], i2[..], j1[..], j2[..]);
    for n := 0 to |picks|
      invariant Zip(i1[..], i2[..], j1[..], j2[..]) == Arranged(tiles, picks[..n])
    {
      ghost var was1, was2, was3, was4 := i1[..], i2[..], j1[..], j2[..];
      assert picks[n] in picks;
      var ii, jj := picks[n].0, picks[n].1;
      Swap(i1, ii, jj);
      Swap(i2, ii, jj);
      Swap(j1, ii, jj);
      Swap(j2, ii, jj);
      ZipSwapped(was1, was2, was3, was4, ii, jj);
      assert picks[..n + 1][..n] == picks[..n] && picks[..n + 1][n] == picks[n];
    }
    assert picks[..|picks|] == picks;
    ArrangedKeepsAll(tiles, picks);
  }

  /** Whatever the shuffle does, every piece is a proper rectangle inside the image. */
  lemma ShuffledProper(pieces: seq<Rect>, across: int, down: int, g: int)
    requires 1 <= across && 1 <= down && 1 <= g && multiset(pieces) == multiset(Cut(across, down, g))
    ensures forall r :: r in pieces ==>
              r.Proper() && 0 <= r.imin && r.imax < across && 0 <= r.jmin && r.jmax < down
  {
    var cut := Cut(across, down, g);
    forall r | r in pieces
      ensures r.Proper() && 0 <= r.imin && r.imax < across && 0 <= r.jmin && r.jmax < down
    {
      assert r in multiset(pieces) && r in multiset(cut);
      var k :| 0 <= k < |cut| && cut[k] == r;
      TileInside(across, down, g, k);
    }
  }

  /** With both sides at least g, the shuffled pieces are still pairwise disjoint. */
  lemma ShuffledApart(pieces: seq<Rect>, across: int, down: int, g: int)
    requires 1 <= g <= across && g <= down && multiset(pieces) == multiset(Cut(across, down, g))
    ensures forall q, q' :: 0 <= q < q' < |pieces| ==> Apart(pieces[q], pieces[q'])
  {
    var cut := Cut(across, down, g);
    TilesApartIff(across, down, g);
    forall k, k' | 0 <= k < k' < |cut| ensures cut[k] != cut[k'] {
      TileInside(across, down, g, k);
      var t := Tile(across, down, g, k);
      assert Apart(Tile(across, down, g, k), Tile(across, down, g, k')) && t.Has(Point(t.imin, t.jmin));
    }
    DistinctReordered(cut, pieces);
    forall q, q' | 0 <= q < q' < |pieces| ensures Apart(pieces[q], pieces[q']) {
      assert pieces[q] in multiset(pieces) && pieces[q'] in multiset(pieces);
      assert pieces[q] in cut && pieces[q'] in cut;
      var k :| 0 <= k < |cut| && cut[k] == pieces[q];
      var k' :| 0 <= k' < |cut| && cut[k'] == pieces[q'];
      assert k != k';
      if k < k' {
        assert Apart(Tile(across, down, g, k), Tile(across, down, g, k'));
      } else {
        assert Apart(Tile(across, down, g, k'), Tile(across, down, g, k));
      }
    }
  }
}
