/** Rectangles of pixels, the order in which every loop of the programs scans them, and their pixel data. */
module Rects {
  import opened Arith

  /** Column x, row y of the image. */
  datatype Point = Point(x: int, y: int)

  /** Words 1 to 4 of a work message: inclusive column and row bounds. */
  datatype Rect = Rect(imin: int, imax: int, jmin: int, jmax: int) {
    predicate Proper() { imin <= imax && jmin <= jmax }

    function Width(): int { imax + 1 - imin }

    function Height(): int { jmax + 1 - jmin }

    /** The element count both sides of the tag-201 transfer compute. */
    function Area(): int { Width() * Height() }

    predicate Has(p: Point) { imin <= p.x <= imax && jmin <= p.y <= jmax }
  }

  lemma AreaNat(r: Rect)
    requires r.Proper()
    ensures r.Area() >= 1
  {
    MulLe(1, r.Height(), r.Width());
  }

  /** The k-th pixel in the row-by-row scan of r. */
  function ScanPoint(r: Rect, k: int): Point
    requires r.Proper()
  {
    Point(r.imin + k % r.Width(), r.jmin + k / r.Width())
  }

  /** The k-th pixel lies in r. */
  lemma ScanInside(r: Rect, k: int)
    requires r.Proper() && 0 <= k < r.Area()
    ensures r.Has(ScanPoint(r, k))
  {
    RowBelow(k, r.Height(), r.Width());
  }

  /** Position of a pixel of r in the scan. */
  function ScanIndex(r: Rect, p: Point): int { (p.y - r.jmin) * r.Width() + (p.x - r.imin) }

  /** The scan visits each pixel of r, at exactly the position the running counter k has there. */
  lemma ScanVisits(r: Rect, p: Point)
    requires r.Proper() && r.Has(p)
    ensures 0 <= ScanIndex(r, p) < r.Area()
    ensures ScanPoint(r, ScanIndex(r, p)) == p
  {
    DivMod(p.y - r.jmin, p.x - r.imin, r.Width());
    FlatBelow(p.y - r.jmin, p.x - r.imin, r.Height(), r.Width());
  }

  /** The data a worker computes for r: pixel f, scanned row by row. */
  function Render(f: Point -> int, r: Rect): (d: seq<int>)
    requires r.Proper()
    ensures |d| == r.Area()
  {
    AreaNat(r);
    seq(r.Area(), k requires 0 <= k < r.Area() => f(ScanPoint(r, k)))
  }

  /** The data the computing loops produce; they do not run for an empty range. */
  function Data(f: Point -> int, r: Rect): seq<int> {
    if r.Proper() then Render(f, r) else []
  }

  /** Element address of a pixel in a flat array with the given row stride. */
  function Addr(p: Point, stride: int): int { p.y * stride + p.x }

  /** Addresses under one stride do not collide while columns stay below it. */
  lemma AddrInjective(p: Point, q: Point, stride: int)
    requires 0 <= p.x < stride && 0 <= q.x < stride
    requires Addr(p, stride) == Addr(q, stride)
    ensures p == q
  {
    QuotientUnique(p.y, p.x, q.y, q.x, stride);
  }
}
