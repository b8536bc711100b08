/** How received tiles are drawn into the root's grid, and when the result reads as the image. */
module Picture {
  import opened Arith
  import opened Rects
  import opened Tiles

  /** Grid memory, by element address. */
  type Cells = map<int, int>

  function CellsOf(s: seq<int>): Cells { map a | 0 <= a < |s| :: s[a] }

  /** One received tile: header rectangle and its data. */
  datatype Drawing = Drawing(rect: Rect, data: seq<int>)

  /** The first n element writes of drawing r. */
  function Paint(g: Cells, stride: int, r: Rect, data: seq<int>, n: nat): Cells
    requires r.Proper() && n <= |data|
  {
    if n == 0 then g
    else Paint(g, stride, r, data, n - 1)[Addr(ScanPoint(r, n - 1), stride) := data[n - 1]]
  }

  lemma CellsOfUpdate(s: seq<int>, a: int, v: int)
    requires 0 <= a < |s|
    ensures CellsOf(s[a := v]) == CellsOf(s)[a := v]
  {
  }

  /** One element write of the drawing loops is one more step of Paint. */
  lemma PaintNext(g: Cells, stride: int, r: Rect, data: seq<int>, p: Point, cells: seq<int>)
    requires r.Proper() && r.Has(p) && r.Area() <= |data|
    requires 0 <= ScanIndex(r, p) < r.Area() && 0 <= Addr(p, stride) < |cells|
    requires CellsOf(cells) == Paint(g, stride, r, data, ScanIndex(r, p))
    ensures CellsOf(cells[Addr(p, stride) := data[ScanIndex(r, p)]]) == Paint(g, stride, r, data, ScanIndex(r, p) + 1)
  {
    ScanVisits(r, p);
    CellsOfUpdate(cells, Addr(p, stride), data[ScanIndex(r, p)]);
  }

  lemma ScanRowEnd(r: Rect, j: int)
    ensures ScanIndex(r, Point(r.imin, j + 1)) == ScanIndex(r, Point(r.imin, j)) + r.Width()
    ensures ScanIndex(r, Point(r.imin, r.jmin)) == 0
    ensures ScanIndex(r, Point(r.imin, r.jmax + 1)) == r.Area()
  {
    assert (j + 1 - r.jmin) * r.Width() == (j - r.jmin) * r.Width() + r.Width();
  }

  lemma ScanColumn(r: Rect, i: int, j: int)
    ensures ScanIndex(r, Point(i, j)) == ScanIndex(r, Point(r.imin, j)) + (i - r.imin)
  {
  }

  /** The drawing loops: in_grid_array is read in order, out_grid_array is written with stride height. */
  method OutputData(input: array<int>, coord: Rect, out: array<int>, height: int)
    requires coord.Proper() && input != out && coord.Area() <= input.Length
    requires forall p: Point :: coord.Has(p) ==> 0 <= Addr(p, height) < out.Length
    modifies out
    ensures coord.Area() >= 0
    ensures CellsOf(out[..]) == Paint(old(CellsOf(out[..])), height, coord, input[..], coord.Area())
  {
    AreaNat(coord);
    ghost var before, data := CellsOf(out[..]), input[..];
    var k := 0;
    ScanRowEnd(coord, coord.jmin);
    for j := coord.jmin to coord.jmax + 1
      invariant 0 <= k <= coord.Area() && k == ScanIndex(coord, Point(coord.imin, j))
      invariant CellsOf(out[..]) == Paint(before, height, coord, data, k)
    {
      ScanRowEnd(coord, j);
      for i := coord.imin to coord.imax + 1
        invariant 0 <= k <= coord.Area() && k == ScanIndex(coord, Point(coord.imin, j)) + (i - coord.imin)
        invariant CellsOf(out[..]) == Paint(before, height, coord, data, k)
      {
        ghost var p := Point(i, j);
        ScanColumn(coord, i, j);
        ScanVisits(coord, p);
        assert coord.Has(p);
        PaintNext(before, height, coord, data, p, out[..]);
        ghost var prior := out[..];
        out[(j * height) + i] := input[k];
        assert out[..] == prior[Addr(p, height) := data[k]];
        k := k + 1;
      }
    }
  }

  function Assemble(g: Cells, stride: int, log: seq<Drawing>): Cells
    requires forall d :: d in log ==> d.rect.Proper() && |d.data| == d.rect.Area()
  {
    if |log| == 0 then g
    else
      var d := log[|log| - 1];
      Paint(Assemble(g, stride, log[..|log| - 1]), stride, d.rect, d.data, |d.data|)
  }

  // ---- what a grid shows

  ghost predicate NoClash(stride: int, u: iset<Point>) {
    forall p, q :: p in u && q in u && Addr(p, stride) == Addr(q, stride) ==> p == q
  }

  /** g shows f on the pixels of s, and is g0 at every other address. */
  ghost predicate Shows(g: Cells, g0: Cells, f: Point -> int, stride: int, s: iset<Point>) {
    && (forall p :: p in s ==> Addr(p, stride) in g && g[Addr(p, stride)] == f(p))
    && (forall a :: (forall p :: p in s ==> Addr(p, stride) != a) ==>
          (a in g <==> a in g0) && (a in g ==> g[a] == g0[a]))
  }

  ghost function Pixels(r: Rect): iset<Point> { iset p: Point | r.Has(p) }

  /** s with the first n scanned pixels of r. */
  ghost function Grown(s: iset<Point>, r: Rect, n: nat): iset<Point>
    requires r.Proper()
  {
    if n == 0 then s else Grown(s, r, n - 1) + iset{ScanPoint(r, n - 1)}
  }

  lemma {:induction false} GrownMembers(s: iset<Point>, r: Rect, n: nat, p: Point)
    requires r.Proper() && n <= r.Area()
    ensures p in Grown(s, r, n) <==> p in s || (exists k :: 0 <= k < n && p == ScanPoint(r, k))
  {
    if n > 0 {
      GrownMembers(s, r, n - 1, p);
    }
  }

  lemma GrownInside(s: iset<Point>, r: Rect, n: nat)
    requires r.Proper() && n <= r.Area()
    ensures Grown(s, r, n) <= s + Pixels(r)
  {
    forall p | p in Grown(s, r, n) ensures p in s + Pixels(r) {
      GrownMembers(s, r, n, p);
      if k :| 0 <= k < n && p == ScanPoint(r, k) {
        ScanInside(r, k);
      }
    }
  }

  lemma GrownWhole(s: iset<Point>, r: Rect)
    requires r.Proper()
    ensures r.Area() >= 0 && Grown(s, r, r.Area()) == s + Pixels(r)
  {
    AreaNat(r);
    GrownInside(s, r, r.Area());
    forall p | p in s + Pixels(r) ensures p in Grown(s, r, r.Area()) {
      GrownMembers(s, r, r.Area(), p);
      if r.Has(p) {
        ScanVisits(r, p);
      }
    }
  }

  lemma ShowsOneMore(g: Cells, g0: Cells, f: Point -> int, stride: int, s: iset<Point>, u: iset<Point>, q: Point)
    requires s <= u && q in u && NoClash(stride, u) && Shows(g, g0, f, stride, s)
    ensures Shows(g[Addr(q, stride) := f(q)], g0, f, stride, s + iset{q})
  {
    var g', t := g[Addr(q, stride) := f(q)], s + iset{q};
    forall p | p in t ensures Addr(p, stride) in g' && g'[Addr(p, stride)] == f(p) {
      assert p in u;
    }
    forall a | forall p :: p in t ==> Addr(p, stride) != a
      ensures (a in g' <==> a in g0) && (a in g' ==> g'[a] == g0[a])
    {
      assert q in t;
      assert forall p :: p in s ==> p in t;
    }
  }

  lemma {:induction false} PaintShows(
    g: Cells, g0: Cells, f: Point -> int, stride: int, s: iset<Point>, u: iset<Point>, r: Rect, n: nat)
    requires r.Proper() && n <= r.Area() && Grown(s, r, n) <= u && NoClash(stride, u)
    requires Shows(g, g0, f, stride, s)
    ensures Shows(Paint(g, stride, r, Render(f, r), n), g0, f, stride, Grown(s, r, n))
  {
    if n > 0 {
      PaintShows(g, g0, f, stride, s, u, r, n - 1);
      var q := ScanPoint(r, n - 1);
      assert Render(f, r)[n - 1] == f(q);
      assert q in Grown(s, r, n);
      ShowsOneMore(Paint(g, stride, r, Render(f, r), n - 1), g0, f, stride, Grown(s, r, n - 1), u, q);
    }
  }

  ghost predicate Faithful(log: seq<Drawing>, f: Point -> int) {
    forall d :: d in log ==> d.rect.Proper() && d.data == Render(f, d.rect)
  }

  ghost predicate DrawnAt(log: seq<Drawing>, p: Point) { exists d :: d in log && d.rect.Has(p) }

  ghost function Drawn(log: seq<Drawing>): iset<Point> {
    iset p: Point | DrawnAt(log, p)
  }

  /** Drawing any sequence of faithful tiles, in any order and with any repetition, shows f on their union. */
  lemma {:induction false} AssembleShows(g0: Cells, f: Point -> int, stride: int, log: seq<Drawing>, u: iset<Point>)
    requires Faithful(log, f) && Drawn(log) <= u && NoClash(stride, u)
    ensures Shows(Assemble(g0, stride, log), g0, f, stride, Drawn(log))
  {
    if |log| > 0 {
      var rest, d := log[..|log| - 1], log[|log| - 1];
      assert log == rest + [d];
      forall p | p in Drawn(rest) ensures p in Drawn(log) {}
      forall p | p in Pixels(d.rect) ensures p in Drawn(log) {}
      AssembleShows(g0, f, stride, rest, u);
      GrownWhole(Drawn(rest), d.rect);
      PaintShows(Assemble(g0, stride, rest), g0, f, stride, Drawn(rest), u, d.rect, d.rect.Area());
      assert Drawn(log) == Drawn(rest) + Pixels(d.rect);
    }
  }

  /** Every cell value is an old one or the colour of a drawn pixel with that address. */
  ghost predicate Sourced(g: Cells, g0: Cells, f: Point -> int, stride: int, s: iset<Point>) {
    forall a :: a in g ==> (a in g0 && g[a] == g0[a]) || (exists p :: p in s && Addr(p, stride) == a && g[a] == f(p))
  }

  lemma {:induction false} PaintSourced(
    g: Cells, g0: Cells, f: Point -> int, stride: int, s: iset<Point>, r: Rect, n: nat)
    requires r.Proper() && n <= r.Area() && Pixels(r) <= s && Sourced(g, g0, f, stride, s)
    ensures Sourced(Paint(g, stride, r, Render(f, r), n), g0, f, stride, s)
  {
    if n > 0 {
      PaintSourced(g, g0, f, stride, s, r, n - 1);
      ScanInside(r, n - 1);
      assert ScanPoint(r, n - 1) in s;
    }
  }

  lemma {:induction false} AssembleSourced(g0: Cells, f: Point -> int, stride: int, log: seq<Drawing>, s: iset<Point>)
    requires Faithful(log, f) && Drawn(log) <= s
    ensures Sourced(Assemble(g0, stride, log), g0, f, stride, s)
  {
    if |log| > 0 {
      var rest, d := log[..|log| - 1], log[|log| - 1];
      forall p | p in Drawn(rest) ensures p in Drawn(log) {}
      forall p | p in Pixels(d.rect) ensures p in Drawn(log) {}
      AssembleSourced(g0, f, stride, rest, s);
      PaintSourced(Assemble(g0, stride, rest), g0, f, stride, s, d.rect, d.rect.Area());
    }
  }

  // ---- the image of one round

  ghost function Image(across: int, down: int): iset<Point> {
    iset p: Point | 0 <= p.x < across && 0 <= p.y < down
  }

  /** A finished round: every drawing is faithful and the rectangles are those of all tiles, in some order. */
  ghost predicate Round(log: seq<Drawing>, f: Point -> int, across: int, down: int, g: int)
    requires 1 <= across && 1 <= down && 1 <= g
  {
    && Faithful(log, f)
    && multiset(RectsOf(log)) == multiset(Cut(across, down, g))
  }

  function RectsOf(log: seq<Drawing>): (z: seq<Rect>)
    ensures |z| == |log|
  {
    seq(|log|, n requires 0 <= n < |log| => log[n].rect)
  }

  lemma DrawnByRects(log: seq<Drawing>, p: Point)
    ensures DrawnAt(log, p) <==> exists r :: r in RectsOf(log) && r.Has(p)
  {
    if d :| d in log && d.rect.Has(p) {
      var n :| 0 <= n < |log| && log[n] == d;
      assert RectsOf(log)[n] == d.rect;
    }
    if r :| r in RectsOf(log) && r.Has(p) {
      var n :| 0 <= n < |log| && RectsOf(log)[n] == r;
      assert log[n] in log;
    }
  }

  lemma CutCovers(across: int, down: int, g: int, p: Point)
    requires 1 <= across && 1 <= down && 1 <= g
    ensures (exists r :: r in Cut(across, down, g) && r.Has(p)) <==> Covered(across, down, g, p)
  {
    TilesCover(across, down, g, p);
    var cut := Cut(across, down, g);
    if r :| r in cut && r.Has(p) {
      var k :| 0 <= k < |cut| && cut[k] == r;
      assert Tile(across, down, g, k).Has(p);
    }
    if k :| 0 <= k < g * g && Tile(across, down, g, k).Has(p) {
      assert cut[k] in cut;
    }
  }

  lemma RoundCovers(log: seq<Drawing>, f: Point -> int, across: int, down: int, g: int)
    requires 1 <= across && 1 <= down && 1 <= g
    requires Round(log, f, across, down, g)
    ensures Drawn(log) == iset p | Covered(across, down, g, p)
  {
    forall p: Point ensures DrawnAt(log, p) <==> Covered(across, down, g, p) {
      DrawnByRects(log, p);
      CutCovers(across, down, g, p);
      forall r ensures r in RectsOf(log) <==> r in Cut(across, down, g) {
        assert r in multiset(RectsOf(log)) <==> r in multiset(Cut(across, down, g));
      }
    }
  }

  // ---- staying inside the grid array

  /** Drawing pixel p writes inside an array of across * down elements. */
  predicate InGrid(across: int, down: int, p: Point) { 0 <= Addr(p, down) < across * down }

  lemma CoveredInside(across: int, down: int, g: int, p: Point)
    requires 1 <= across && 1 <= down && 1 <= g && Covered(across, down, g, p)
    ensures 0 <= p.x < across && 0 <= p.y < down
  {
  }

  lemma FlatFits(x: int, y: int, across: int, down: int)
    requires 0 <= x < across && 0 <= y < down && y < across
    ensures 0 <= y * down + x < across * down
  {
    MulLe(0, y, down);
    if x < down {
      FlatBelow(y, x, across, down);
    } else {
      MulLe(y, down - 1, down);
      MulLe(0, down - 1, across - down);
      assert (down - 1) * (across - down) == across * down - down * down - across + down;
      assert (down - 1) * down == down * down - down;
    }
  }

  lemma CoveredFits(across: int, down: int, g: int, p: Point)
    requires 1 <= across && 1 <= down && 1 <= g && Reach(down, g) <= across && Covered(across, down, g, p)
    ensures InGrid(across, down, p)
  {
    CoveredInside(across, down, g, p);
    FlatFits(p.x, p.y, across, down);
  }

  lemma TallOverruns(across: int, down: int, g: int)
    requires 1 <= across && 1 <= down && 1 <= g && Reach(down, g) > across
    ensures Covered(across, down, g, Point(0, across)) && !InGrid(across, down, Point(0, across))
  {
    MulLe(1, g, 1);
    StepFits(across, g);
  }

  /** The drawings of a finished round stay inside the grid array exactly when the tiles reach no further down than
      the image is wide. */
  lemma RoundFits(log: seq<Drawing>, f: Point -> int, across: int, down: int, g: int)
    requires 1 <= across && 1 <= down && 1 <= g
    requires Round(log, f, across, down, g)
    ensures (forall p :: DrawnAt(log, p) ==> InGrid(across, down, p)) <==> Reach(down, g) <= across
  {
    RoundCovers(log, f, across, down, g);
    assert forall p :: DrawnAt(log, p) <==> p in Drawn(log);
    if Reach(down, g) <= across {
      forall p | DrawnAt(log, p) ensures InGrid(across, down, p) {
        CoveredFits(across, down, g, p);
      }
    } else {
      TallOverruns(across, down, g);
      assert DrawnAt(log, Point(0, across));
    }
  }

  /** Of two images 20 pixels wide, one of 40 rows overruns its array and one of 39 rows does not. */
  lemma OverrunExample()
    ensures Covered(20, 40, 20, Point(0, 20)) && Addr(Point(0, 20), 40) == 20 * 40
    ensures Reach(39, 20) == 20 && forall p :: Covered(20, 39, 20, p) ==> InGrid(20, 39, p)
  {
    DivMod(2, 0, 20);
    DivMod(1, 19, 20);
    DivMod(1, 0, 20);
    forall p | Covered(20, 39, 20, p) ensures InGrid(20, 39, p) {
      CoveredFits(20, 39, 20, p);
    }
  }

  /** The root's drawings of a whole round, one received buffer after the other. */
  method DrawRound(ghost f: Point -> int, log: seq<Drawing>, out: array<int>, across: int, down: int, g: int)
    requires 1 <= across && 1 <= down && 1 <= g && Round(log, f, across, down, g)
    requires Reach(down, g) <= across && out.Length == across * down
    modifies out
    ensures CellsOf(out[..]) == Assemble(old(CellsOf(out[..])), down, log)
  {
    ghost var before := CellsOf(out[..]);
    RoundFits(log, f, across, down, g);
    for n := 0 to |log|
      invariant CellsOf(out[..]) == Assemble(before, down, log[..n])
    {
      var d := log[n];
      DrawingFits(f, log, across, down, n);
      var input := new int[|d.data|](i requires 0 <= i < |d.data| => d.data[i]);
      assert input[..] == d.data;
      OutputData(input, d.rect, out, down);
      assert log[..n + 1][..n] == log[..n];
    }
    assert log[..|log|] == log;
  }

  lemma DrawingFits(f: Point -> int, log: seq<Drawing>, across: int, down: int, n: nat)
    requires n < |log| && Faithful(log, f) && forall p :: DrawnAt(log, p) ==> InGrid(across, down, p)
    ensures log[n].rect.Proper() && |log[n].data| == log[n].rect.Area()
    ensures forall p :: log[n].rect.Has(p) ==> 0 <= Addr(p, down) < across * down
  {
    assert log[n] in log;
    forall p | log[n].rect.Has(p) ensures 0 <= Addr(p, down) < across * down {
      assert DrawnAt(log, p) && InGrid(across, down, p);
    }
  }

  // ---- reading the grid

  /** Read row by row with the image's own width, the grid shows f on the covered part. */
  ghost predicate ReadsAs(g: Cells, f: Point -> int, across: int, down: int, tiles: int)
    requires 1 <= across && 1 <= down && 1 <= tiles
  {
    forall p :: Covered(across, down, tiles, p) ==> Addr(p, across) in g && g[Addr(p, across)] == f(p)
  }

  /** Two covered pixels share an address at most when a row of the grid is shorter than what the tiles reach across. */
  lemma CoveredNoClash(across: int, down: int, g: int)
    requires 1 <= across && 1 <= down && 1 <= g && (Reach(across, g) <= down || down == 1)
    ensures NoClash(down, iset p | Covered(across, down, g, p))
  {
    forall p, q | Covered(across, down, g, p) && Covered(across, down, g, q) && Addr(p, down) == Addr(q, down)
      ensures p == q
    {
      if down > 1 {
        AddrInjective(p, q, down);
      }
    }
  }

  lemma SameStride(across: int, down: int, g: int)
    requires 1 <= across && 1 <= down && 1 <= g && (across == down || down == 1)
    ensures Reach(across, g) <= down || down == 1
    ensures forall p :: Covered(across, down, g, p) ==> Addr(p, down) == Addr(p, across)
  {
    if across == down {
      assert Reach(across, g) <= across;
    } else {
      assert forall p :: Covered(across, down, g, p) ==> p.y == 0;
    }
  }

  /** A grid written with one stride shows the same with another that gives the same addresses. */
  lemma ShowsRestride(g: Cells, g0: Cells, f: Point -> int, stride: int, stride': int, s: iset<Point>)
    requires Shows(g, g0, f, stride, s) && forall p :: p in s ==> Addr(p, stride) == Addr(p, stride')
    ensures Shows(g, g0, f, stride', s)
  {
  }

  /** Square images, and images of one row: every finished round shows f on the covered part,
      changes nothing else, and so does not depend on the order of the drawings. */
  lemma RoundShows(log: seq<Drawing>, f: Point -> int, across: int, down: int, g: int, g0: Cells)
    requires 1 <= across && 1 <= down && 1 <= g && (across == down || down == 1)
    requires Round(log, f, across, down, g)
    ensures Shows(Assemble(g0, down, log), g0, f, across, iset p | Covered(across, down, g, p))
  {
    var cov := iset p | Covered(across, down, g, p);
    RoundCovers(log, f, across, down, g);
    SameStride(across, down, g);
    CoveredNoClash(across, down, g);
    AssembleShows(g0, f, down, log, cov);
    ShowsRestride(Assemble(g0, down, log), g0, f, down, across, cov);
  }

  /** The colouring that tells strides and orders apart: 1 at the first pixel of one row, 0 elsewhere. */
  function Probe(row: int): Point -> int { (p: Point) => if p == Point(0, row) then 1 else 0 }

  ghost predicate LikeProbe(f: Point -> int, row: int) { forall p :: f(p) == Probe(row)(p) }

  /** The grid as calloc leaves it. */
  function Blank(across: int, down: int): Cells
    requires 1 <= across && 1 <= down
  {
    MulLe(0, across, down);
    CellsOf(seq(across * down, _ => 0))
  }

  /** With another shape the stride is wrong: no round whatever shows the probe. */
  lemma WrongStride(f: Point -> int, log: seq<Drawing>, across: int, down: int, g: int)
    requires 1 <= across && 2 <= down && across != down && 1 <= g
    requires LikeProbe(f, 1) && Round(log, f, across, down, g)
    ensures !ReadsAs(Assemble(Blank(across, down), down, log), f, across, down, g)
  {
    var image := Image(across, down);
    RoundCovers(log, f, across, down, g);
    AssembleSourced(Blank(across, down), f, down, log, image);
    var p := Point(0, 1);
    assert Covered(across, down, g, p) by { StepFits(down, g); }
    assert Addr(p, across) == across;
    assert f(p) == 1;
    forall q | q in image && Addr(q, down) == across ensures f(q) == 0 {
      assert Addr(p, down) == down;
    }
  }

  /** The grid reads as the image, for every colouring and every round, exactly for square
      images and images of a single row. */
  lemma ReadsAsIff(across: int, down: int, g: int)
    requires 1 <= across && 1 <= down && 1 <= g
    ensures (forall f: Point -> int, log :: Round(log, f, across, down, g) ==>
              ReadsAs(Assemble(Blank(across, down), down, log), f, across, down, g))
            <==> (across == down || down == 1)
  {
    if across == down || down == 1 {
      forall f: Point -> int, log | Round(log, f, across, down, g)
        ensures ReadsAs(Assemble(Blank(across, down), down, log), f, across, down, g)
      {
        RoundShows(log, f, across, down, g, Blank(across, down));
      }
    } else {
      var cut := Cut(across, down, g);
      DrawingsRound(Probe(1), cut, across, down, g);
      WrongStride(Probe(1), Drawings(Probe(1), cut), across, down, g);
    }
  }

  // ---- the order of the drawings

  /** No tile's drawing ever reaches into a row another tile is drawn in: the grid's rows are long enough, or there is
      a single row, or a single tile. */
  predicate OrderFree(across: int, down: int, g: int)
    requires 1 <= across && 1 <= down && 1 <= g
  {
    Reach(across, g) <= down || down == 1 || g == 1
  }

  lemma ShowsSame(a: Cells, b: Cells, g0: Cells, f: Point -> int, stride: int, s: iset<Point>)
    requires Shows(a, g0, f, stride, s) && Shows(b, g0, f, stride, s)
    ensures a == b
  {
    forall x ensures (x in a <==> x in b) && (x in a && x in b ==> a[x] == b[x]) {
      if p :| p in s && Addr(p, stride) == x {
        assert a[Addr(p, stride)] == f(p) == b[Addr(p, stride)];
      }
    }
  }

  /** Two lists of faithful drawings leave the same grid. */
  ghost predicate SameGrid(log1: seq<Drawing>, log2: seq<Drawing>, f: Point -> int, stride: int, g0: Cells) {
    Faithful(log1, f) && Faithful(log2, f) && Assemble(g0, stride, log1) == Assemble(g0, stride, log2)
  }

  lemma OneTile(log: seq<Drawing>, f: Point -> int, across: int, down: int)
    requires 1 <= across && 1 <= down && Round(log, f, across, down, 1)
    ensures Cut(across, down, 1)[0].Proper()
    ensures log == [Drawing(Cut(across, down, 1)[0], Render(f, Cut(across, down, 1)[0]))]
  {
    var rects, cut := RectsOf(log), Cut(across, down, 1);
    assert cut == [cut[0]] && |multiset(rects)| == |multiset(cut)| == 1;
    assert rects[0] in multiset(cut);
    assert log[0] in log;
  }

  /** Two rounds with different schedules and shuffles leave the same grid. */
  lemma RoundsAgree(log1: seq<Drawing>, log2: seq<Drawing>, f: Point -> int, across: int, down: int, g: int, g0: Cells)
    requires 1 <= across && 1 <= down && 1 <= g && OrderFree(across, down, g)
    requires Round(log1, f, across, down, g) && Round(log2, f, across, down, g)
    ensures SameGrid(log1, log2, f, down, g0)
  {
    if g == 1 {
      OneTile(log1, f, across, down);
      OneTile(log2, f, across, down);
    } else {
      var cov := iset p | Covered(across, down, g, p);
      RoundCovers(log1, f, across, down, g);
      RoundCovers(log2, f, across, down, g);
      CoveredNoClash(across, down, g);
      AssembleShows(g0, f, down, log1, cov);
      AssembleShows(g0, f, down, log2, cov);
      ShowsSame(Assemble(g0, down, log1), Assemble(g0, down, log2), g0, f, down, cov);
    }
  }

  lemma CutSize(rects: seq<Rect>, across: int, down: int, g: int)
    requires 1 <= across && 1 <= down && 1 <= g && multiset(rects) == multiset(Cut(across, down, g))
    ensures |rects| == g * g >= 1
  {
    MulLe(1, g, g);
    assert |rects| == |multiset(Cut(across, down, g))|;
  }

  /** An element that a tile writes holds the colour of one of the tile's pixels with its address. */
  lemma {:induction false} PaintHits(g: Cells, stride: int, r: Rect, f: Point -> int, n: nat, k: nat)
    requires r.Proper() && k < n <= r.Area()
    ensures var a, painted := Addr(ScanPoint(r, k), stride), Paint(g, stride, r, Render(f, r), n);
            && a in painted
            && exists m :: 0 <= m < n && Addr(ScanPoint(r, m), stride) == a && painted[a] == f(ScanPoint(r, m))
  {
    if Addr(ScanPoint(r, n - 1), stride) == Addr(ScanPoint(r, k), stride) {
      assert Render(f, r)[n - 1] == f(ScanPoint(r, n - 1));
    } else {
      PaintHits(g, stride, r, f, n - 1, k);
    }
  }

  /** The last drawing decides the elements it writes. */
  lemma LastDecides(g0: Cells, stride: int, log: seq<Drawing>, f: Point -> int, p: Point, value: int)
    requires log != [] && Faithful(log, f) && log[|log| - 1].rect.Has(p)
    requires forall q :: log[|log| - 1].rect.Has(q) && Addr(q, stride) == Addr(p, stride) ==> f(q) == value
    ensures Addr(p, stride) in Assemble(g0, stride, log) && Assemble(g0, stride, log)[Addr(p, stride)] == value
  {
    var d := log[|log| - 1];
    ScanVisits(d.rect, p);
    PaintHits(Assemble(g0, stride, log[..|log| - 1]), stride, d.rect, f, d.rect.Area(), ScanIndex(d.rect, p));
    forall m | 0 <= m < d.rect.Area() ensures d.rect.Has(ScanPoint(d.rect, m)) {
      ScanInside(d.rect, m);
    }
  }

  /** The drawings of some tiles, in this order. */
  function Drawings(f: Point -> int, rects: seq<Rect>): seq<Drawing> {
    seq(|rects|, k requires 0 <= k < |rects| => Drawing(rects[k], Data(f, rects[k])))
  }

  lemma DrawingsRound(f: Point -> int, rects: seq<Rect>, across: int, down: int, g: int)
    requires 1 <= across && 1 <= down && 1 <= g && multiset(rects) == multiset(Cut(across, down, g))
    ensures Round(Drawings(f, rects), f, across, down, g)
  {
    ShuffledProper(rects, across, down, g);
    assert RectsOf(Drawings(f, rects)) == rects;
    forall d | d in Drawings(f, rects) ensures d.rect.Proper() && d.data == Render(f, d.rect) {
      var k :| 0 <= k < |rects| && Drawings(f, rects)[k] == d;
      assert rects[k] in rects;
    }
  }

  /** The tiles with tile k moved to the end. */
  function LastTile(cut: seq<Rect>, k: nat): (z: seq<Rect>)
    requires k < |cut|
    ensures |z| == |cut| && z[|z| - 1] == cut[k] && multiset(z) == multiset(cut)
  {
    assert cut == cut[..k] + [cut[k]] + cut[k + 1..];
    cut[..k] + cut[k + 1..] + [cut[k]]
  }

  /** A tile that wraps around into the next row of tiles, and the tile it reaches into. */
  lemma Wrapping(across: int, down: int, g: int) returns (k: nat)
    requires 1 <= across && 1 <= down && 1 <= g && !OrderFree(across, down, g)
    ensures k < g * g && 1 < g * g && 1 <= Step(down, g) < down
    ensures Tile(across, down, g, k).Has(Point(down, Step(down, g) - 1))
    ensures forall p :: Tile(across, down, g, k).Has(p) ==> p.y < Step(down, g)
    ensures Tile(across, down, g, 1).Has(Point(0, Step(down, g)))
    ensures forall p :: Tile(across, down, g, 1).Has(p) ==> 0 <= p.x && Step(down, g) <= p.y
  {
    var s := Step(down, g);
    StepFits(down, g);
    MulLe(2, g, s);
    MulLe(2, g, g);
    var i := IntervalOf(across, g, down);
    FlatBelow(i, 0, g, g);
    DivMod(i, 0, g);
    DivMod(0, 1, g);
    k := i * g;
  }

  lemma WrapsOnce(t: Point, s: int, down: int)
    requires 1 <= down && 0 <= t.x && s <= t.y && Addr(t, down) == s * down
    ensures t == Point(0, s)
  {
    assert (s + 1) * down == s * down + down;
    if s < t.y {
      MulLe(s + 1, t.y, down);
    }
  }

  /** Drawn last, the tile below the wrapping one shows the probe's pixel. */
  lemma BelowLast(f: Point -> int, rects: seq<Rect>, s: int, down: int, g0: Cells)
    requires 1 <= down && rects != [] && Faithful(Drawings(f, rects), f) && LikeProbe(f, s)
    requires rects[|rects| - 1].Has(Point(0, s))
    requires forall p :: rects[|rects| - 1].Has(p) ==> 0 <= p.x && s <= p.y
    ensures s * down in Assemble(g0, down, Drawings(f, rects)) && Assemble(g0, down, Drawings(f, rects))[s * down] == 1
  {
    forall t | rects[|rects| - 1].Has(t) && Addr(t, down) == Addr(Point(0, s), down) ensures f(t) == 1 {
      WrapsOnce(t, s, down);
    }
    LastDecides(g0, down, Drawings(f, rects), f, Point(0, s), 1);
  }

  /** Drawn last, the wrapping tile hides it. */
  lemma WrappingLast(f: Point -> int, rects: seq<Rect>, s: int, down: int, g0: Cells)
    requires 1 <= down && rects != [] && Faithful(Drawings(f, rects), f) && LikeProbe(f, s)
    requires rects[|rects| - 1].Has(Point(down, s - 1))
    requires forall p :: rects[|rects| - 1].Has(p) ==> p.y < s
    ensures s * down in Assemble(g0, down, Drawings(f, rects)) && Assemble(g0, down, Drawings(f, rects))[s * down] == 0
  {
    assert Addr(Point(down, s - 1), down) == s * down;
    LastDecides(g0, down, Drawings(f, rects), f, Point(down, s - 1), 0);
  }

  /** When tiles wrap around, two orders of the same tiles leave different grids. */
  lemma OrdersDiffer(f: Point -> int, across: int, down: int, g: int, g0: Cells)
    returns (one: seq<Rect>, two: seq<Rect>)
    requires 1 <= across && 1 <= down && 1 <= g && !OrderFree(across, down, g) && LikeProbe(f, Step(down, g))
    ensures multiset(one) == multiset(two) == multiset(Cut(across, down, g))
    ensures Round(Drawings(f, one), f, across, down, g) && Round(Drawings(f, two), f, across, down, g)
    ensures !SameGrid(Drawings(f, one), Drawings(f, two), f, down, g0)
  {
    var k := Wrapping(across, down, g);
    one, two := LastTile(Cut(across, down, g), 1), LastTile(Cut(across, down, g), k);
    DrawingsRound(f, one, across, down, g);
    DrawingsRound(f, two, across, down, g);
    BelowLast(f, one, Step(down, g), down, g0);
    WrappingLast(f, two, Step(down, g), down, g0);
  }

  /** Whatever was in the grid, rounds that differ in shuffle and drawing order leave the same there, for every picture,
      exactly when no tile wraps around into another row of tiles. */
  lemma RoundsAgreeIff(across: int, down: int, g: int, g0: Cells)
    requires 1 <= across && 1 <= down && 1 <= g
    ensures (forall f: Point -> int, log1, log2 ::
              Round(log1, f, across, down, g) && Round(log2, f, across, down, g) ==> SameGrid(log1, log2, f, down, g0))
            <==> OrderFree(across, down, g)
  {
    if OrderFree(across, down, g) {
      forall f: Point -> int, log1, log2 | Round(log1, f, across, down, g) && Round(log2, f, across, down, g)
        ensures SameGrid(log1, log2, f, down, g0)
      {
        RoundsAgree(log1, log2, f, across, down, g, g0);
      }
    } else {
      var one, two := OrdersDiffer(Probe(Step(down, g)), across, down, g, g0);
    }
  }
}
