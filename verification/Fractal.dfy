/** The colour of a pixel and the loops in which a worker computes a tile. Coordinates are exact reals. */
module Fractal {
  import opened Arith
  import opened Rects
  import opened Tiles
  import opened Picture
  import opened Put

  datatype Complex = Complex(re: real, im: real)

  function Times(a: Complex, b: Complex): Complex {
    Complex(a.re * b.re - a.im * b.im, a.re * b.im + a.im * b.re)
  }

  function Plus(a: Complex, b: Complex): Complex { Complex(a.re + b.re, a.im + b.im) }

  function Minus(a: Complex, b: Complex): Complex { Complex(a.re - b.re, a.im - b.im) }

  /** absolute_complex(z) < limit, without the square root. */
  predicate Inside(z: Complex, limit: real) {
    limit > 0.0 && z.re * z.re + z.im * z.im < limit * limit
  }

  /** Which picture is plotted: Julia with constant c, the two alternates, or the Mandelbrot set. */
  datatype Plot = Julia(c: Complex) | Subtractive | Additive | Mandelbrot

  /** One iteration of the plot's equation for the point that started at coord. */
  function Next(plot: Plot, coord: Complex, z: Complex): Complex {
    match plot
    case Julia(c) => Plus(Times(z, z), c)
    case Subtractive => Times(z, Minus(Complex(1.0, 0.0), z))
    case Additive => Times(z, Plus(z, coord))
    case Mandelbrot => Plus(Times(z, z), coord)
  }

  /** The n-th point of the orbit. */
  function Orbit(plot: Plot, coord: Complex, n: nat): Complex {
    if n == 0 then coord else Next(plot, coord, Orbit(plot, coord, n - 1))
  }

  /** n is the number of iterations until the orbit first leaves the disc, or the iteration limit. */
  ghost predicate IsCount(plot: Plot, coord: Complex, limit: real, depth: int, n: nat) {
    && (forall i: nat :: i < n ==> Inside(Orbit(plot, coord, i), limit) && i < depth)
    && !(Inside(Orbit(plot, coord, n), limit) && n < depth)
  }

  function CountFrom(plot: Plot, coord: Complex, limit: real, depth: int, z: Complex, n: nat): nat
    decreases depth - n
  {
    if Inside(z, limit) && n < depth then CountFrom(plot, coord, limit, depth, Next(plot, coord, z), n + 1) else n
  }

  function Count(plot: Plot, coord: Complex, limit: real, depth: int): nat {
    CountFrom(plot, coord, limit, depth, coord, 0)
  }

  lemma {:induction false} CountFromMeaning(plot: Plot, coord: Complex, limit: real, depth: int, n: nat)
    requires forall i: nat :: i < n ==> Inside(Orbit(plot, coord, i), limit) && i < depth
    ensures IsCount(plot, coord, limit, depth, CountFrom(plot, coord, limit, depth, Orbit(plot, coord, n), n))
    decreases depth - n
  {
    if Inside(Orbit(plot, coord, n), limit) && n < depth {
      CountFromMeaning(plot, coord, limit, depth, n + 1);
    }
  }

  /** A pixel's colour is its first escape time, cut off at the iteration limit, and nothing else. */
  lemma CountMeaning(plot: Plot, coord: Complex, limit: real, depth: int, n: nat)
    ensures IsCount(plot, coord, limit, depth, n) <==> n == Count(plot, coord, limit, depth)
  {
    CountFromMeaning(plot, coord, limit, depth, 0);
    var m := Count(plot, coord, limit, depth);
    if IsCount(plot, coord, limit, depth, n) {
      assert !(n < m) && !(m < n);
    }
  }

  /** The four iteration routines are this loop with their own equation. */
  method PointCount(plot: Plot, coord: Complex, limit: real, depth: int) returns (iterations: nat)
    ensures iterations == Count(plot, coord, limit, depth)
  {
    iterations := 0;
    var z := coord;
    while Inside(z, limit) && iterations < depth
      invariant CountFrom(plot, coord, limit, depth, z, iterations) == Count(plot, coord, limit, depth)
      decreases depth - iterations
    {
      z := Next(plot, coord, z);
      iterations := iterations + 1;
    }
  }

  /** What a worker knows about the image. */
  datatype View = View(plot: Plot, xMin: real, yMax: real, xRes: real, yRes: real, limit: real, depth: int)

  /** Left to right, top to bottom. */
  function Coord(v: View, p: Point): Complex {
    Complex(v.xMin + p.x as real * v.xRes, v.yMax - p.y as real * v.yRes)
  }

  function Colour(v: View): Point -> int {
    (p: Point) => Count(v.plot, Coord(v, p), v.limit, v.depth)
  }

  // ---- the probe is a picture the programs compute

  /** The view of limits given for an image of some size, as a worker computes it. */
  function ViewOf(
    plot: Plot, xMin: real, xMax: real, yMin: real, yMax: real, across: int, down: int, limit: real, depth: int): View
    requires 1 <= across && 1 <= down
  {
    View(plot, xMin, yMax, (xMax - xMin) / across as real, (yMax - yMin) / down as real, limit, depth)
  }

  /** One iteration of the Mandelbrot equation in the unit disc, with one pixel for each unit and the origin at the
      first pixel of a row. */
  function UnitView(row: int): View { View(Mandelbrot, 0.0, row as real, 1.0, 1.0, 1.0, 1) }

  lemma SquareAtLeastOne(n: int)
    ensures (n as real) * (n as real) >= 0.0
    ensures n != 0 ==> (n as real) * (n as real) >= 1.0
  {
    if n >= 1 {
      assert (n as real - 1.0) * (n as real) >= 0.0;
    } else if n <= -1 {
      assert (n as real + 1.0) * (n as real) >= 0.0;
    }
  }

  /** Only the pixel at the origin lies inside the disc. */
  lemma UnitPixel(row: int, p: Point)
    ensures Inside(Coord(UnitView(row), p), 1.0) <==> p == Point(0, row)
  {
    SquareAtLeastOne(p.x);
    SquareAtLeastOne(row - p.y);
    assert Coord(UnitView(row), p) == Complex(p.x as real, (row - p.y) as real);
  }

  lemma OneUnit(n: int)
    requires n != 0
    ensures n as real / n as real == 1.0
  {
  }

  /** The probes that tell strides and orders apart are what the workers compute for these views, which images of every
      size have for some limits. */
  lemma ProbeIsComputed(across: int, down: int, row: int)
    requires 1 <= across && 1 <= down
    ensures LikeProbe(Colour(UnitView(row)), row)
    ensures ViewOf(Mandelbrot, 0.0, across as real, (row - down) as real, row as real, across, down, 1.0, 1)
         == UnitView(row)
  {
    OneUnit(across);
    OneUnit(down);
    assert across as real - 0.0 == across as real && row as real - (row - down) as real == down as real;
    forall p ensures Colour(UnitView(row))(p) == Probe(row)(p) {
      UnitPixel(row, p);
      var c := Coord(UnitView(row), p);
      assert CountFrom(Mandelbrot, c, 1.0, 1, Next(Mandelbrot, c, c), 1) == 1;
    }
  }

  /** The grid reads as the image for everything the workers can compute exactly for square images and images of a
      single row. */
  lemma ViewsReadAsIff(across: int, down: int, g: int)
    requires 1 <= across && 1 <= down && 1 <= g
    ensures (forall v: View, log :: Round(log, Colour(v), across, down, g) ==>
              ReadsAs(Assemble(Blank(across, down), down, log), Colour(v), across, down, g))
            <==> (across == down || down == 1)
  {
    if across == down || down == 1 {
      ReadsAsIff(across, down, g);
    } else {
      var f, cut := Colour(UnitView(1)), Cut(across, down, g);
      ProbeIsComputed(across, down, 1);
      DrawingsRound(f, cut, across, down, g);
      WrongStride(f, Drawings(f, cut), across, down, g);
    }
  }

  /** The order of the drawings does not matter for anything the workers can compute exactly when no tile wraps around
      into another row of tiles. */
  lemma ViewsAgreeIff(across: int, down: int, g: int, g0: Cells)
    requires 1 <= across && 1 <= down && 1 <= g
    ensures (forall v: View, log1, log2 ::
              Round(log1, Colour(v), across, down, g) && Round(log2, Colour(v), across, down, g) ==>
                SameGrid(log1, log2, Colour(v), down, g0))
            <==> OrderFree(across, down, g)
  {
    if OrderFree(across, down, g) {
      RoundsAgreeIff(across, down, g, g0);
    } else {
      ProbeIsComputed(across, down, Step(down, g));
      var one, two := OrdersDiffer(Colour(UnitView(Step(down, g))), across, down, g, g0);
    }
  }

  // ---- the computing loops

  /** The computing loops of pmandel.c, and of the fence version when it uses the vector datatype: results go
      to consecutive elements. */
  method ComputeTile(v: View, r: Rect, grid: array<int>)
    requires r.Proper() && r.Area() <= grid.Length
    modifies grid
    ensures r.Area() >= 0 && grid[..r.Area()] == Render(Colour(v), r) && grid[r.Area()..] == old(grid[r.Area()..])
  {
    AreaNat(r);
    ScanRowEnd(r, r.jmin);
    ghost var f := Colour(v);
    var k := 0;
    for j := r.jmin to r.jmax + 1
      invariant 0 <= k <= r.Area() && k == ScanIndex(r, Point(r.imin, j))
      invariant grid[..k] == Render(f, r)[..k] && grid[r.Area()..] == old(grid[r.Area()..])
    {
      ScanRowEnd(r, j);
      for i := r.imin to r.imax + 1
        invariant 0 <= k <= r.Area() && k == ScanIndex(r, Point(r.imin, j)) + (i - r.imin)
        invariant grid[..k] == Render(f, r)[..k] && grid[r.Area()..] == old(grid[r.Area()..])
      {
        ScanColumn(r, i, j);
        ScanVisits(r, Point(i, j));
        var icount := PointCount(v.plot, Coord(v, Point(i, j)), v.limit, v.depth);
        assert Render(f, r)[k] == icount;
        grid[k] := icount;
        k := k + 1;
      }
    }
  }

  /** The computing loops of the fence version without the datatype: each pixel is stored at its own place in
      the worker's grid and put from there to the same place of the root's window. */
  method ComputeAndPut(v: View, r: Rect, across: int, grid: array<int>) returns (puts: seq<(int, int)>)
    requires r.Proper() && forall p: Point :: r.Has(p) ==> 0 <= Addr(p, across) < grid.Length
    modifies grid
    ensures |puts| == r.Area()
    ensures forall k :: 0 <= k < |puts| ==>
              puts[k] == (Addr(ScanPoint(r, k), across), Colour(v)(ScanPoint(r, k)))
    ensures (iset w | w in puts) == ElementWrites(r, across, Colour(v))
  {
    AreaNat(r);
    ScanRowEnd(r, r.jmin);
    puts := [];
    for j := r.jmin to r.jmax + 1
      invariant |puts| == ScanIndex(r, Point(r.imin, j)) <= r.Area()
      invariant forall k :: 0 <= k < |puts| ==>
                  puts[k] == (Addr(ScanPoint(r, k), across), Colour(v)(ScanPoint(r, k)))
    {
      ScanRowEnd(r, j);
      for i := r.imin to r.imax + 1
        invariant |puts| == ScanIndex(r, Point(r.imin, j)) + (i - r.imin) <= r.Area()
        invariant forall k :: 0 <= k < |puts| ==>
                    puts[k] == (Addr(ScanPoint(r, k), across), Colour(v)(ScanPoint(r, k)))
      {
        ScanColumn(r, i, j);
        ScanVisits(r, Point(i, j));
        var icount := PointCount(v.plot, Coord(v, Point(i, j)), v.limit, v.depth);
        assert Addr(Point(i, j), across) == j * across + i && r.Has(Point(i, j));
        grid[(j * across) + i] := icount;
        puts := puts + [((j * across) + i, grid[(j * across) + i])];
      }
    }
    PutsAreElements(r, across, Colour(v), puts);
  }

  // ---- the saved image

  /** The scan for the brightest pixel, which starts from 0. */
  method Brightest(grid: seq<int>) returns (brightest: int)
    ensures forall i :: 0 <= i < |grid| ==> grid[i] <= brightest
    ensures brightest == 0 || (brightest > 0 && brightest in grid)
  {
    brightest := 0;
    for i := 0 to |grid|
      invariant forall n :: 0 <= n < i ==> grid[n] <= brightest
      invariant brightest == 0 || (brightest > 0 && brightest in grid)
    {
      if grid[i] > brightest {
        brightest := grid[i];
      }
    }
  }

  /** Every colour lookup of the image writer stays inside the table of colors + 1 entries, and only the
      brightest pixels use the extra entry on top. */
  lemma ColourIndexInTable(v: int, brightest: int, colors: int)
    requires 0 <= v <= brightest && 1 <= brightest && 1 <= colors
    ensures 0 <= (v * colors) / brightest <= colors
    ensures (v * colors) / brightest == colors <==> v == brightest
  {
    MulLe(0, v, colors);
    MulLe(v, brightest, colors);
    var n := v * colors;
    var q := n / brightest;
    assert n == q * brightest + n % brightest;
    if v == brightest {
      QuotientUnique(q, n % brightest, colors, 0, brightest);
    } else {
      MulLe(v + 1, brightest, colors);
      assert (v + 1) * colors == v * colors + colors;
      if q >= colors { MulLe(colors, q, brightest); }
      if q < 0 { MulLe(q, -1, brightest); }
    }
  }
}
