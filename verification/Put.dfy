/** The one-sided transfer of one tile: MPI_Put with a vector datatype, and element by element. */
module Put {
  import opened Rects
  import opened Picture

  /** Target address of element m of a vector type (blocks of len elements, stride apart) at displacement disp
      (MPI-3.1, section 4.1.2). */
  function VectorAddr(disp: int, len: int, stride: int, m: int): int
    requires len != 0
  {
    disp + (m / len) * stride + m % len
  }

  /** The (address, value) pairs one put with the vector type of r writes from a contiguous buffer. */
  ghost function VectorWrites(r: Rect, across: int, data: seq<int>): iset<(int, int)>
    requires r.Proper() && |data| == r.Area()
  {
    iset m | 0 <= m < |data| :: (VectorAddr(r.jmin * across + r.imin, r.Width(), across, m), data[m])
  }

  /** The pairs the element puts write: pixel (i, j) goes to j * across + i. */
  ghost function ElementWrites(r: Rect, across: int, f: Point -> int): iset<(int, int)> {
    iset p: Point | r.Has(p) :: (Addr(p, across), f(p))
  }

  lemma VectorAddrIsScan(r: Rect, across: int, m: int)
    requires r.Proper()
    ensures VectorAddr(r.jmin * across + r.imin, r.Width(), across, m) == Addr(ScanPoint(r, m), across)
  {
    assert (r.jmin + m / r.Width()) * across == r.jmin * across + (m / r.Width()) * across;
  }

  /** Both ways of transferring a tile write the same values to the same addresses. */
  lemma VectorIsElements(r: Rect, across: int, f: Point -> int)
    requires r.Proper()
    ensures VectorWrites(r, across, Render(f, r)) == ElementWrites(r, across, f)
  {
    var data := Render(f, r);
    forall w | w in VectorWrites(r, across, data) ensures w in ElementWrites(r, across, f) {
      var m :| 0 <= m < |data| && w == (VectorAddr(r.jmin * across + r.imin, r.Width(), across, m), data[m]);
      VectorAddrIsScan(r, across, m);
      ScanInside(r, m);
    }
    forall p: Point | r.Has(p) ensures (Addr(p, across), f(p)) in VectorWrites(r, across, data) {
      ScanVisits(r, p);
      var m := ScanIndex(r, p);
      VectorAddrIsScan(r, across, m);
      assert data[m] == f(p);
    }
  }

  /** The puts issued pixel by pixel in scan order are exactly the element writes. */
  lemma PutsAreElements(r: Rect, across: int, f: Point -> int, puts: seq<(int, int)>)
    requires r.Proper() && |puts| == r.Area()
    requires forall k :: 0 <= k < |puts| ==> puts[k] == (Addr(ScanPoint(r, k), across), f(ScanPoint(r, k)))
    ensures (iset w | w in puts) == ElementWrites(r, across, f)
  {
    forall k | 0 <= k < |puts| ensures puts[k] in ElementWrites(r, across, f) {
      ScanInside(r, k);
    }
    forall p: Point | r.Has(p) ensures (Addr(p, across), f(p)) in puts {
      ScanVisits(r, p);
      assert puts[ScanIndex(r, p)] == (Addr(p, across), f(p));
    }
  }

  /** For a rectangle inside the columns of the grid no address is written twice. */
  lemma VectorAddrsDistinct(r: Rect, across: int, m: int, n: int)
    requires r.Proper() && 0 <= r.imin && r.imax < across && 0 <= m < r.Area() && 0 <= n < r.Area() && m != n
    ensures VectorAddr(r.jmin * across + r.imin, r.Width(), across, m)
         != VectorAddr(r.jmin * across + r.imin, r.Width(), across, n)
  {
    VectorAddrIsScan(r, across, m);
    VectorAddrIsScan(r, across, n);
    ScanInside(r, m);
    ScanInside(r, n);
    assert m == (m / r.Width()) * r.Width() + m % r.Width();
    assert n == (n / r.Width()) * r.Width() + n % r.Width();
    if Addr(ScanPoint(r, m), across) == Addr(ScanPoint(r, n), across) {
      AddrInjective(ScanPoint(r, m), ScanPoint(r, n), across);
    }
  }

  /** What a put of tile r leaves to be written, as a map from addresses. */
  function WriteMap(f: Point -> int, across: int, r: Rect): Cells {
    if r.Proper() then Paint(map[], across, r, Render(f, r), |Render(f, r)|) else map[]
  }

  /** The map holds exactly the element writes. */
  lemma WriteMapHolds(f: Point -> int, across: int, r: Rect, u: iset<Point>)
    requires r.Proper() && Pixels(r) <= u && NoClash(across, u)
    ensures forall p :: r.Has(p) ==>
              Addr(p, across) in WriteMap(f, across, r) && WriteMap(f, across, r)[Addr(p, across)] == f(p)
    ensures forall a :: a in WriteMap(f, across, r) ==> exists p :: r.Has(p) && Addr(p, across) == a
  {
    var none: iset<Point> := iset{};
    GrownWhole(none, r);
    assert none + Pixels(r) == Pixels(r);
    PaintShows(map[], map[], f, across, none, u, r, r.Area());
    var w := WriteMap(f, across, r);
    forall p | r.Has(p) ensures Addr(p, across) in w && w[Addr(p, across)] == f(p) {
      assert p in Pixels(r);
    }
    forall a | a in w ensures exists p :: r.Has(p) && Addr(p, across) == a {
      assert !forall p :: p in Pixels(r) ==> Addr(p, across) != a;
    }
  }
}
