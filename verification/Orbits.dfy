/** What the iterated equations are: laws of the complex operations, and orbits that are known. */
module Orbits {
  import opened Rects
  import opened Fractal

  function Real(x: real): Complex { Complex(x, 0.0) }

  function Imaginary(): Complex { Complex(0.0, 1.0) }

  /** The squared modulus. */
  function Norm(z: Complex): real { z.re * z.re + z.im * z.im }

  // ---- the operations

  lemma PlusMinus(a: Complex, b: Complex)
    ensures Plus(a, b) == Plus(b, a) && Plus(a, Real(0.0)) == a
    ensures Minus(Plus(a, b), b) == a
  {
  }

  lemma TimesCommutes(a: Complex, b: Complex)
    ensures Times(a, b) == Times(b, a)
  {
  }

  lemma TimesDistributes(a: Complex, b: Complex, c: Complex)
    ensures Times(a, Plus(b, c)) == Plus(Times(a, b), Times(a, c))
  {
    Distribute(a.re, b.re, c.re);
    Distribute(a.im, b.im, c.im);
    Distribute(a.re, b.im, c.im);
    Distribute(a.im, b.re, c.re);
  }

  lemma Distribute(x: real, y: real, z: real)
    ensures x * (y + z) == x * y + x * z
  {
  }

  /** Multiplying by a real number scales. */
  function Scaled(k: real, a: Complex): Complex { Complex(k * a.re, k * a.im) }

  lemma TimesScales(k: real, a: Complex, b: Complex)
    ensures Times(Scaled(k, a), b) == Scaled(k, Times(a, b))
    ensures Times(Real(1.0), a) == a
  {
    Associate(k, a.re, b.re);
    Associate(k, a.im, b.im);
    Associate(k, a.re, b.im);
    Associate(k, a.im, b.re);
  }

  lemma Associate(k: real, x: real, y: real)
    ensures (k * x) * y == k * (x * y)
  {
  }

  lemma TimesI()
    ensures Times(Imaginary(), Imaginary()) == Complex(-1.0, 0.0)
  {
  }

  /** A product that commutes, distributes over sums, scales, has a one and squares I to minus one. */
  ghost predicate IsProduct(m: (Complex, Complex) -> Complex) {
    && (forall a, b :: m(a, b) == m(b, a))
    && (forall a, b, c :: m(a, Plus(b, c)) == Plus(m(a, b), m(a, c)))
    && (forall k: real, a, b :: m(Scaled(k, a), b) == Scaled(k, m(a, b)))
    && (forall a :: m(Real(1.0), a) == a)
    && m(Imaginary(), Imaginary()) == Complex(-1.0, 0.0)
  }

  lemma TimesIsProduct()
    ensures IsProduct(Times)
  {
    forall a, b ensures Times(a, b) == Times(b, a) { TimesCommutes(a, b); }
    forall a, b, c ensures Times(a, Plus(b, c)) == Plus(Times(a, b), Times(a, c)) { TimesDistributes(a, b, c); }
    forall k: real, a, b ensures Times(Scaled(k, a), b) == Scaled(k, Times(a, b)) { TimesScales(k, a, b); }
    forall a ensures Times(Real(1.0), a) == a { TimesScales(1.0, a, a); }
    TimesI();
  }

  lemma Parts(a: Complex)
    ensures a == Plus(Scaled(a.re, Real(1.0)), Scaled(a.im, Imaginary()))
  {
  }

  /** Its product with I exchanges the parts. */
  lemma ProductWithI(m: (Complex, Complex) -> Complex, b: Complex)
    requires IsProduct(m)
    ensures m(Imaginary(), b) == Complex(-b.im, b.re)
  {
    Parts(b);
    var x, y := Scaled(b.re, Real(1.0)), Scaled(b.im, Imaginary());
    assert m(Imaginary(), b) == Plus(m(Imaginary(), x), m(Imaginary(), y));
    assert m(Imaginary(), x) == m(x, Imaginary()) == Scaled(b.re, m(Real(1.0), Imaginary()));
    assert m(Imaginary(), y) == m(y, Imaginary()) == Scaled(b.im, m(Imaginary(), Imaginary()));
  }

  /** There is only one such product. */
  lemma OneProduct(m: (Complex, Complex) -> Complex, a: Complex, b: Complex)
    requires IsProduct(m)
    ensures m(a, b) == Times(a, b)
  {
    Parts(a);
    assert m(a, b) == m(b, a) == Plus(m(b, Scaled(a.re, Real(1.0))), m(b, Scaled(a.im, Imaginary())));
    assert m(b, Scaled(a.re, Real(1.0))) == m(Scaled(a.re, Real(1.0)), b) == Scaled(a.re, m(Real(1.0), b));
    assert m(b, Scaled(a.im, Imaginary())) == m(Scaled(a.im, Imaginary()), b) == Scaled(a.im, m(Imaginary(), b));
    ProductWithI(m, b);
    Negate(a.im, b.im);
  }

  lemma Negate(x: real, y: real)
    ensures x * -y == -(x * y)
  {
  }

  lemma ProductSquare(x: real, y: real)
    ensures (x * y) * (x * y) == (x * x) * (y * y)
  {
    calc {
      (x * y) * (x * y);
      x * (y * (x * y));
      { Associate(x, y, y); Associate(y, x, y); }
      x * (x * (y * y));
      { Associate(x, x, y * y); }
      (x * x) * (y * y);
    }
  }

  /** The modulus of a product is the product of the moduli. */
  lemma TimesNorm(a: Complex, b: Complex)
    ensures Norm(Times(a, b)) == Norm(a) * Norm(b)
  {
    var p, q, r, s := a.re * b.re, a.im * b.im, a.re * b.im, a.im * b.re;
    SquareOfSum(p, -q);
    SquareOfSum(r, s);
    CrossTerms(a.re, a.im, b.re, b.im);
    ProductSquare(a.re, b.re);
    ProductSquare(a.im, b.im);
    ProductSquare(a.re, b.im);
    ProductSquare(a.im, b.re);
    Expand(a.re * a.re, a.im * a.im, b.re * b.re, b.im * b.im);
  }

  lemma SquareOfSum(x: real, y: real)
    ensures (x + y) * (x + y) == x * x + 2.0 * (x * y) + y * y
  {
    Distribute(x + y, x, y);
  }

  lemma CrossTerms(x: real, y: real, u: real, v: real)
    ensures (x * u) * (y * v) == (x * v) * (y * u)
  {
    calc {
      (x * u) * (y * v);
      { Associate(x, u, y * v); }
      x * (u * (y * v));
      { Associate(u, y, v); Associate(y, u, v); Associate(y, v, u); Associate(v, y, u); }
      x * (v * (y * u));
      { Associate(x, v, y * u); }
      (x * v) * (y * u);
    }
  }

  lemma Expand(x: real, y: real, u: real, v: real)
    ensures (x + y) * (u + v) == x * u + x * v + y * u + y * v
  {
    Distribute(x + y, u, v);
  }

  /** The test of the loops is the one on the absolute value r. */
  lemma InsideIsAbsolute(z: Complex, r: real, limit: real)
    requires r >= 0.0 && r * r == Norm(z)
    ensures Inside(z, limit) <==> r < limit
  {
    if limit > 0.0 {
      SquaresOrdered(r, limit);
    }
  }

  lemma Positive(x: real, y: real)
    requires x > 0.0 && y > 0.0
    ensures x * y > 0.0
  {
  }

  lemma SquareDifference(x: real, y: real)
    ensures y * y - x * x == (y - x) * (y + x)
  {
    SquareOfSum(y, x);
    Distribute(y - x, y, x);
    Swap(y - x, y);
    Distribute(y, y, -x);
    Negate(y, x);
    Swap(y - x, x);
    Distribute(x, y, -x);
    Negate(x, x);
    Swap(x, y);
  }

  lemma Swap(x: real, y: real)
    ensures x * y == y * x
  {
  }

  /** Squares of positive numbers are ordered as the numbers are. */
  lemma SquaresOrdered(x: real, y: real)
    requires x >= 0.0 && y > 0.0
    ensures x * x < y * y <==> x < y
  {
    SquareDifference(x, y);
    if x < y {
      Positive(y - x, y + x);
    } else if x > y {
      SquareDifference(y, x);
      Positive(x - y, x + y);
    }
  }

  // ---- the equations

  /** Julia sets square and add their constant, whatever the pixel; the Mandelbrot set adds the pixel. */
  lemma SquaresAndAdds(c: Complex, coord: Complex, z: Complex)
    ensures Minus(Next(Julia(c), coord, z), c) == Minus(Next(Mandelbrot, coord, z), coord) == Times(z, z)
    ensures Next(Julia(coord), c, z) == Next(Mandelbrot, coord, z)
  {
    PlusMinus(Times(z, z), c);
    PlusMinus(Times(z, z), coord);
  }

  /** The subtractive equation has the zeros 0 and 1 and the modulus |z| |1 - z|. */
  lemma SubtractiveIs(coord: Complex, z: Complex)
    ensures Next(Subtractive, coord, Real(0.0)) == Next(Subtractive, coord, Real(1.0)) == Real(0.0)
    ensures Next(Subtractive, coord, z) == Next(Subtractive, coord, Minus(Real(1.0), z))
    ensures Plus(Next(Subtractive, coord, z), Times(z, z)) == z
    ensures Norm(Next(Subtractive, coord, z)) == Norm(z) * Norm(Minus(Real(1.0), z))
  {
    TimesNorm(z, Minus(Real(1.0), z));
    TimesCommutes(z, Minus(Real(1.0), z));
    assert Minus(Real(1.0), Minus(Real(1.0), z)) == z;
    TimesDistributes(z, Minus(Real(1.0), z), z);
    assert Plus(Minus(Real(1.0), z), z) == Real(1.0);
    TimesCommutes(z, Real(1.0));
    TimesScales(1.0, z, z);
  }

  /** The additive equation has the zeros 0 and minus the pixel and the modulus |z| |z + pixel|. */
  lemma AdditiveIs(coord: Complex, z: Complex)
    ensures Next(Additive, coord, Real(0.0)) == Next(Additive, coord, Minus(Real(0.0), coord)) == Real(0.0)
    ensures Next(Additive, coord, z) == Plus(Times(z, z), Times(z, coord))
    ensures Norm(Next(Additive, coord, z)) == Norm(z) * Norm(Plus(z, coord))
  {
    TimesNorm(z, Plus(z, coord));
    TimesDistributes(z, z, coord);
    assert Plus(Minus(Real(0.0), coord), coord) == Real(0.0);
  }

  // ---- known orbits

  /** The point an orbit starts from is the pixel itself, and each point is the equation's value at the one before. */
  lemma JuliaZero(coord: Complex, n: nat)
    ensures Orbit(Julia(Real(0.0)), coord, 0) == coord
    ensures var r := Norm(Orbit(Julia(Real(0.0)), coord, n)); Norm(Orbit(Julia(Real(0.0)), coord, n + 1)) == r * r
  {
    var z := Orbit(Julia(Real(0.0)), coord, n);
    PlusMinus(Times(z, z), Real(0.0));
    TimesNorm(z, z);
  }

  lemma MandelbrotNext(coord: Complex, z: Complex, square: Complex)
    requires Times(z, z) == square
    ensures Next(Mandelbrot, coord, z) == Plus(square, coord)
  {
  }

  lemma SquareOfI()
    ensures Times(Complex(0.0, 1.0), Complex(0.0, 1.0)) == Complex(-1.0, 0.0)
  {
  }

  lemma SquareOfLow()
    ensures Times(Complex(0.0, -1.0), Complex(0.0, -1.0)) == Complex(-1.0, 0.0)
  {
  }

  lemma SquareOfLeft()
    ensures Times(Complex(-1.0, 1.0), Complex(-1.0, 1.0)) == Complex(0.0, -2.0)
  {
  }

  lemma NextAtI()
    ensures Next(Mandelbrot, Complex(0.0, 1.0), Complex(0.0, 1.0)) == Complex(-1.0, 1.0)
  {
    SquareOfI();
    MandelbrotNext(Complex(0.0, 1.0), Complex(0.0, 1.0), Complex(-1.0, 0.0));
  }

  lemma NextAtLeft()
    ensures Next(Mandelbrot, Complex(0.0, 1.0), Complex(-1.0, 1.0)) == Complex(0.0, -1.0)
  {
    SquareOfLeft();
    MandelbrotNext(Complex(0.0, 1.0), Complex(-1.0, 1.0), Complex(0.0, -2.0));
  }

  lemma NextAtLow()
    ensures Next(Mandelbrot, Complex(0.0, 1.0), Complex(0.0, -1.0)) == Complex(-1.0, 1.0)
  {
    SquareOfLow();
    MandelbrotNext(Complex(0.0, 1.0), Complex(0.0, -1.0), Complex(-1.0, 0.0));
  }

  lemma InsideTwo()
    ensures Inside(Complex(0.0, 1.0), 2.0) && Inside(Complex(-1.0, 1.0), 2.0) && Inside(Complex(0.0, -1.0), 2.0)
  {
  }

  /** Between two points inside that are each other's successors the loop goes back and forth until the limit. */
  lemma {:induction false} CountOfCycle(
    plot: Plot, coord: Complex, limit: real, depth: int, a: Complex, b: Complex, n: nat)
    requires Next(plot, coord, a) == b && Next(plot, coord, b) == a && Inside(a, limit) && Inside(b, limit)
    ensures CountFrom(plot, coord, limit, depth, a, n) == if n < depth then depth else n
    decreases depth - n
  {
    if n < depth {
      CountOfCycle(plot, coord, limit, depth, b, a, n + 1);
    }
  }

  lemma CountOfLeft(depth: int, n: nat)
    ensures CountFrom(Mandelbrot, Complex(0.0, 1.0), 2.0, depth, Complex(-1.0, 1.0), n)
         == if n < depth then depth else n
  {
    NextAtLeft();
    NextAtLow();
    InsideTwo();
    CountOfCycle(Mandelbrot, Complex(0.0, 1.0), 2.0, depth, Complex(-1.0, 1.0), Complex(0.0, -1.0), n);
  }

  /** The Mandelbrot orbit of i is i, -1 + i, -i, -1 + i, -i, ... It stays within radius 2 for ever, so the pixel at i
      has the iteration limit as its colour. */
  lemma CountOfI(depth: nat)
    ensures Count(Mandelbrot, Complex(0.0, 1.0), 2.0, depth) == depth
  {
    InsideTwo();
    if depth > 0 {
      NextAtI();
      CountOfLeft(depth, 1);
    }
  }

  /** No point of that orbit is outside. */
  lemma OrbitOfI(n: nat)
    ensures Inside(Orbit(Mandelbrot, Complex(0.0, 1.0), n), 2.0)
  {
    CountOfI(n + 1);
    CountMeaning(Mandelbrot, Complex(0.0, 1.0), 2.0, n + 1, n + 1);
  }

  /** The Mandelbrot orbit of 1 is 1, 2, 5, ...: after one iteration it is on the circle of radius 2, not inside. */
  lemma CountOfOne(depth: nat)
    ensures Count(Mandelbrot, Real(1.0), 2.0, depth) == if depth == 0 then 0 else 1
  {
    assert Orbit(Mandelbrot, Real(1.0), 0) == Real(1.0) && Orbit(Mandelbrot, Real(1.0), 1) == Complex(2.0, 0.0);
    CountMeaning(Mandelbrot, Real(1.0), 2.0, depth, if depth == 0 then 0 else 1);
  }

  /** No colour exceeds the iteration limit, and a limit that is not positive gives 0. */
  lemma CountRange(plot: Plot, coord: Complex, limit: real, depth: int)
    ensures Count(plot, coord, limit, depth) <= if depth < 0 then 0 else depth
  {
    var n := Count(plot, coord, limit, depth);
    CountMeaning(plot, coord, limit, depth, n);
    if n > 0 {
      assert Inside(Orbit(plot, coord, n - 1), limit) && n - 1 < depth;
    }
  }

  // ---- the pixels' coordinates

  /** The first pixel is the upper left corner of the view, and the one past the last column and row the lower right. */
  lemma Corners(
    plot: Plot, xMin: real, xMax: real, yMin: real, yMax: real, across: int, down: int, limit: real, depth: int)
    requires 1 <= across && 1 <= down
    ensures var v := ViewOf(plot, xMin, xMax, yMin, yMax, across, down, limit, depth);
            && Coord(v, Point(0, 0)) == Complex(xMin, yMax)
            && Coord(v, Point(across, down)) == Complex(xMax, yMin)
  {
    Ends(xMin, xMax, across);
    Ends(yMin, yMax, down);
  }

  lemma Ends(low: real, high: real, n: int)
    requires 1 <= n
    ensures n as real * ((high - low) / n as real) == high - low
    ensures 0 as real * ((high - low) / n as real) == 0.0
  {
    Quotient(high - low, n as real);
  }

  lemma Quotient(x: real, y: real)
    requires y != 0.0
    ensures y * (x / y) == x
  {
  }

  /** A column to the right adds the horizontal resolution, a row down takes away the vertical one. */
  lemma Neighbours(v: View, p: Point)
    ensures Coord(v, Point(p.x + 1, p.y)) == Plus(Coord(v, p), Complex(v.xRes, 0.0))
    ensures Coord(v, Point(p.x, p.y + 1)) == Minus(Coord(v, p), Complex(0.0, v.yRes))
  {
    OneMore(p.x, v.xRes);
    OneMore(p.y, v.yRes);
  }

  lemma OneMore(n: int, w: real)
    ensures (n + 1) as real * w == n as real * w + w
  {
    Distribute(w, n as real, 1.0);
    assert (n + 1) as real == n as real + 1.0;
  }
}
