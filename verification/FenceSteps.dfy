/** Every step of the fence protocol keeps its invariant. */
module FenceSteps {
  import opened Arith
  import opened Options
  import opened Rects
  import opened Picture
  import opened Courier
  import opened Put
  import opened Fence

  // ---- addresses

  /** No two pixels that are ever written share an address: not even the idle rectangle's with another's. */
  lemma UniverseNoClash(j: Job)
    requires JobFits(j)
    ensures NoClash(j.across, Universe(j))
  {
    forall p, q | Touchable(j, p) && Touchable(j, q) && Addr(p, j.across) == Addr(q, j.across) ensures p == q {
      if p == Point(-1, -1) || q == Point(-1, -1) {
        AddrSigns(j, p);
        AddrSigns(j, q);
      } else {
        AddrInjective(p, q, j.across);
      }
    }
  }

  /** The idle rectangle lies before the window, every piece inside it. */
  lemma AddrSigns(j: Job, p: Point)
    requires JobFits(j) && Touchable(j, p)
    ensures p == Point(-1, -1) ==> Addr(p, j.across) == -j.across - 1
    ensures p != Point(-1, -1) ==> 0 <= Addr(p, j.across) < j.across * j.down
  {
    if p != Point(-1, -1) {
      FlatBelow(p.y, p.x, j.down, j.across);
    }
  }

  lemma SlotPixels(j: Job, turn: nat)
    requires JobFits(j)
    ensures SlotAt(j.pieces, turn).rect.Proper()
    ensures Pixels(SlotAt(j.pieces, turn).rect) <= Universe(j)
  {
    if turn < |j.pieces| {
      assert j.pieces[turn] in j.pieces;
    }
  }

  /** What a worker writes for a slot: each pixel of its rectangle, in its colour, and nothing else. */
  lemma SlotWrites(j: Job, turn: nat)
    requires JobFits(j)
    ensures var r := SlotAt(j.pieces, turn).rect; var w := WriteMap(j.f, j.across, r);
            && (forall p :: r.Has(p) ==> Addr(p, j.across) in w && w[Addr(p, j.across)] == j.f(p))
            && (forall a :: a in w ==> exists p :: Touchable(j, p) && r.Has(p) && Addr(p, j.across) == a)
  {
    var r := SlotAt(j.pieces, turn).rect;
    SlotPixels(j, turn);
    UniverseNoClash(j);
    WriteMapHolds(j.f, j.across, r, Universe(j));
    forall a | a in WriteMap(j.f, j.across, r)
      ensures exists p :: Touchable(j, p) && r.Has(p) && Addr(p, j.across) == a
    {
      var p :| r.Has(p) && Addr(p, j.across) == a;
      assert p in Pixels(r);
    }
  }

  // ---- the root's steps

  lemma PutWorkers(j: Job, s: State, s': State, i: nat, m: Msg)
    requires |s.worker| == |s.slots| && i < |s.worker| && Workers(j, s)
    requires s'.worker == s.worker[i := s.worker[i].(incoming := Some(m))] && s'.slots == s.slots[i := m]
    requires (StageOf(s) == Giving(i) && StageOf(s') == Giving(i + 1) && m == SlotAt(j.pieces, s.base + i))
          || (StageOf(s) == Ending(i) && StageOf(s') == Ending(i + 1) && m == DONE)
    requires s'.epoch == s.epoch && s'.base == s.base && s'.grid == s.grid
    ensures Workers(j, s')
  {
    forall v: nat | v < |s'.worker|
      ensures WorkerFits(j, StageOf(s'), s'.epoch == 0, s'.base, s'.grid, v, s'.worker[v], s'.slots[v])
    {
      assert WorkerFits(j, StageOf(s), s.epoch == 0, s.base, s.grid, v, s.worker[v], s.slots[v]);
    }
  }

  lemma PutInv(j: Job, g0: Cells, s: State)
    requires JobFits(j) && Inv(j, g0, s) && (s.pc.Put? || s.pc.PutDone?) && RootStep(j, s).Some?
    ensures Inv(j, g0, RootStep(j, s).value)
  {
    var s', i := RootStep(j, s).value, s.pc.i;
    var m := if s.pc.PutDone? then DONE else SlotAt(j.pieces, s.base + i);
    PutWorkers(j, s, s', i, m);
  }

  lemma ReadRight(j: Job, grid: Cells, r: Rect)
    requires r.Proper() && PieceRight(j, grid, r)
    ensures ReadTile(grid, j.across, r) == Data(j.f, r)
  {
    forall k | 0 <= k < r.Area() ensures Right(j, grid, ScanPoint(r, k)) {
      ScanInside(r, k);
    }
  }

  /** Reading the slots of an epoch gives the drawings of its pieces, in order. */
  lemma {:induction false} ReadEpoch(j: Job, grid: Cells, slots: seq<Msg>, base: nat)
    requires JobFits(j) && base <= |j.pieces|
    requires forall v: nat :: v < |slots| ==> slots[v] == SlotAt(j.pieces, base + v)
    requires forall q: nat :: q < |j.pieces| && q < base + |slots| ==> PieceRight(j, grid, j.pieces[q])
    ensures var log := ReadSlots(grid, j.across, slots);
            && |log| == Min(|slots|, |j.pieces| - base)
            && forall v: nat :: v < |log| ==> log[v] == Drawing(j.pieces[base + v], Data(j.f, j.pieces[base + v]))
  {
    if slots != [] {
      var n := |slots| - 1;
      ReadEpoch(j, grid, slots[..n], base);
      if base + n < |j.pieces| {
        assert j.pieces[base + n] in j.pieces;
        ReadRight(j, grid, j.pieces[base + n]);
      }
    }
  }

  ghost predicate Entry(j: Job, d: Drawing, q: nat) {
    q < |j.pieces| && d == Drawing(j.pieces[q], Data(j.f, j.pieces[q]))
  }

  ghost predicate Entries(j: Job, log: seq<Drawing>, base: nat) {
    forall q: nat :: q < |log| ==> Entry(j, log[q], base + q)
  }

  /** Appending what the collect loop reads keeps the list of drawings in hand-out order. */
  lemma EpochEntries(j: Job, grid: Cells, slots: seq<Msg>, base: nat)
    requires JobFits(j) && base <= |j.pieces|
    requires forall v: nat :: v < |slots| ==> slots[v] == SlotAt(j.pieces, base + v)
    requires forall q: nat :: q < |j.pieces| && q < base + |slots| ==> PieceRight(j, grid, j.pieces[q])
    ensures Entries(j, ReadSlots(grid, j.across, slots), base)
    ensures |ReadSlots(grid, j.across, slots)| == Min(|slots|, |j.pieces| - base)
  {
    ReadEpoch(j, grid, slots, base);
  }

  lemma CollectLog(j: Job, s: State)
    requires JobFits(j) && |s.worker| == |s.slots| && s.pc.Collect? && s.base < |j.pieces|
    requires LogFits(j, s) && SlotsFit(j, s)
    requires forall q: nat :: q < |j.pieces| && q < Finished(s) ==> PieceRight(j, s.grid, j.pieces[q])
    ensures RootStep(j, s).Some? && LogFits(j, RootStep(j, s).value)
  {
    EpochEntries(j, s.grid, s.slots, s.base);
    LogGrows(j, s.log, ReadSlots(s.grid, j.across, s.slots), s.base, |s.slots|);
  }

  lemma LogGrows(j: Job, log: seq<Drawing>, more: seq<Drawing>, base: nat, n: nat)
    requires |log| == base <= |j.pieces| && |more| == Min(n, |j.pieces| - base)
    requires forall q :: 0 <= q < |log| ==> log[q] == Drawing(j.pieces[q], Data(j.f, j.pieces[q]))
    requires Entries(j, more, base)
    ensures |log + more| == Min(base + n, |j.pieces|)
    ensures forall q :: 0 <= q < |log + more| ==> (log + more)[q] == Drawing(j.pieces[q], Data(j.f, j.pieces[q]))
  {
    forall q | 0 <= q < |log + more| ensures (log + more)[q] == Drawing(j.pieces[q], Data(j.f, j.pieces[q])) {
      if q >= |log| {
        assert Entry(j, more[q - base], base + (q - base));
      }
    }
  }

  lemma CollectWorkers(j: Job, s: State)
    requires |s.worker| == |s.slots| && Workers(j, s) && s.pc.Collect?
    ensures Workers(j, RootStep(j, s).value)
  {
    var s' := RootStep(j, s).value;
    forall v: nat | v < |s'.worker|
      ensures WorkerFits(j, StageOf(s'), s'.epoch == 0, s'.base, s'.grid, v, s'.worker[v], s'.slots[v])
    {
      assert WorkerFits(j, StageOf(s), s.epoch == 0, s.base, s.grid, v, s.worker[v], s.slots[v]);
    }
  }

  lemma CollectInv(j: Job, g0: Cells, s: State)
    requires JobFits(j) && Inv(j, g0, s) && s.pc.Collect?
    ensures RootStep(j, s).Some? && Inv(j, g0, RootStep(j, s).value)
  {
    CollectLog(j, s);
    CollectWorkers(j, s);
    assert (s.epoch + 1) * |s.worker| == s.epoch * |s.worker| + |s.worker|;
  }

  // ---- the workers' steps and the puts in flight

  /** Changing one worker and perhaps the grid, with every other worker still fitting. */
  lemma OneWorker(j: Job, s: State, s': State, v: nat, w: Worker)
    requires |s.worker| == |s.slots| && v < |s.worker| && Workers(j, s)
    requires s' == s.(worker := s.worker[v := w], grid := s'.grid)
    requires WorkerFits(j, StageOf(s), s.epoch == 0, s.base, s'.grid, v, w, s.slots[v])
    requires StageOf(s) == Working ==> forall p :: Touchable(j, p) && Right(j, s.grid, p) ==> Right(j, s'.grid, p)
    requires JobFits(j)
    ensures Workers(j, s')
  {
    forall u: nat | u < |s'.worker|
      ensures WorkerFits(j, StageOf(s'), s'.epoch == 0, s'.base, s'.grid, u, s'.worker[u], s'.slots[u])
    {
      assert WorkerFits(j, StageOf(s), s.epoch == 0, s.base, s.grid, u, s.worker[u], s.slots[u]);
      if u != v && StageOf(s) == Working {
        SlotPixels(j, s.base + u);
        assert forall p :: s.slots[u].rect.Has(p) ==> p in Universe(j);
      }
    }
  }

  lemma TestInv(j: Job, g0: Cells, s: State, v: nat)
    requires JobFits(j) && Inv(j, g0, s) && Fire(j, s, TestWork(v)).Some?
    ensures Inv(j, g0, Fire(j, s, TestWork(v)).value)
  {
    var s' := Fire(j, s, TestWork(v)).value;
    assert WorkerFits(j, StageOf(s), s.epoch == 0, s.base, s.grid, v, s.worker[v], s.slots[v]);
    SlotWrites(j, s.base + v);
    OneWorker(j, s, s', v, s'.worker[v]);
  }

  lemma LandInv(j: Job, g0: Cells, s: State, v: nat)
    requires JobFits(j) && Inv(j, g0, s) && Fire(j, s, Land(v)).Some?
    ensures Inv(j, g0, Fire(j, s, Land(v)).value)
  {
    var s' := Fire(j, s, Land(v)).value;
    assert WorkerFits(j, StageOf(s), s.epoch == 0, s.base, s.grid, v, s.worker[v], s.slots[v]);
    OneWorker(j, s, s', v, s'.worker[v]);
  }

  /** Writing pixel q in its colour leaves right pixels right and touches no foreign address. */
  lemma WriteKeeps(j: Job, g0: Cells, grid: Cells, q: Point)
    requires JobFits(j) && Touchable(j, q) && Untouched(j, g0, grid)
    ensures var grid' := grid[Addr(q, j.across) := j.f(q)];
            && Untouched(j, g0, grid') && Right(j, grid', q)
            && forall p :: Touchable(j, p) && Right(j, grid, p) ==> Right(j, grid', p)
  {
    UniverseNoClash(j);
    var grid' := grid[Addr(q, j.across) := j.f(q)];
    forall p | Touchable(j, p) && Right(j, grid, p) ensures Right(j, grid', p) {
      assert p in Universe(j) && q in Universe(j);
    }
  }

  lemma DeliverInv(j: Job, g0: Cells, s: State, v: nat, a: int)
    requires JobFits(j) && Inv(j, g0, s) && Fire(j, s, Deliver(v, a)).Some?
    ensures Inv(j, g0, Fire(j, s, Deliver(v, a)).value)
  {
    var s' := Fire(j, s, Deliver(v, a)).value;
    var w := s.worker[v];
    assert WorkerFits(j, StageOf(s), s.epoch == 0, s.base, s.grid, v, w, s.slots[v]);
    assert StageOf(s) == Working;
    var r := s.slots[v].rect;
    SlotWrites(j, s.base + v);
    var q :| Touchable(j, q) && r.Has(q) && Addr(q, j.across) == a;
    assert w.outgoing[a] == j.f(q);
    WriteKeeps(j, g0, s.grid, q);
    DeliverFits(j, s, s', v, a, q);
    OneWorker(j, s, s', v, s'.worker[v]);
    RightKept(j, s.grid, s'.grid, Finished(s));
  }

  lemma RightKept(j: Job, grid: Cells, grid': Cells, n: nat)
    requires forall q: nat :: q < |j.pieces| && q < n ==> PieceRight(j, grid, j.pieces[q])
    requires forall p :: Touchable(j, p) && Right(j, grid, p) ==> Right(j, grid', p)
    ensures forall q: nat :: q < |j.pieces| && q < n ==> PieceRight(j, grid', j.pieces[q])
  {
    forall q: nat | q < |j.pieces| && q < n ensures PieceRight(j, grid', j.pieces[q]) {
      assert PieceRight(j, grid, j.pieces[q]) && j.pieces[q] in j.pieces;
      assert forall p :: j.pieces[q].Has(p) ==> Touchable(j, p);
    }
  }

  lemma DeliverFits(j: Job, s: State, s': State, v: nat, a: int, q: Point)
    requires JobFits(j) && |s.worker| == |s.slots| && v < |s.worker| && a in s.worker[v].outgoing
    requires s.pc.WaitWork? && Touchable(j, q) && Addr(q, j.across) == a
    requires s'.grid == s.grid[a := j.f(q)]
    requires forall p :: Touchable(j, p) && Right(j, s.grid, p) ==> Right(j, s'.grid, p)
    requires WorkerFits(j, Working, s.epoch == 0, s.base, s.grid, v, s.worker[v], s.slots[v])
    ensures WorkerFits(j, Working, s.epoch == 0, s.base, s'.grid, v,
              s.worker[v].(outgoing := s.worker[v].outgoing - {a}), s.slots[v])
  {
    var out := s.worker[v].outgoing;
    SlotPixels(j, s.base + v);
    assert forall p :: s.slots[v].rect.Has(p) ==> p in Pixels(s.slots[v].rect);
    forall p | s.slots[v].rect.Has(p) ensures Carried(j, s'.grid, out - {a}, p) {
      assert Carried(j, s.grid, out, p) && p in Universe(j);
      CarriedOn(j, s.grid, out, a, q, p);
    }
  }

  /** Delivering the write for pixel q leaves every pixel to be delivered or right. */
  lemma CarriedOn(j: Job, grid: Cells, out: Cells, a: int, q: Point, p: Point)
    requires JobFits(j) && Touchable(j, p) && Touchable(j, q) && Addr(q, j.across) == a && Carried(j, grid, out, p)
    ensures Carried(j, grid[a := j.f(q)], out - {a}, p)
  {
    UniverseNoClash(j);
    assert p in Universe(j) && q in Universe(j);
  }

  // ---- the fence

  /** A fence moves every worker on to what the next stage expects; when it closes the workers' epoch, every slot
      names its piece and the piece is in the grid. */
  lemma PassWorker(j: Job, s: State, v: nat)
    requires |s.worker| == |s.slots| && v < |s.worker| && Workers(j, s) && PcFits(j, s) && Fire(j, s, Pass).Some?
    ensures var s' := Fire(j, s, Pass).value;
            && |s'.worker| == |s.worker| && s'.slots == s.slots
            && WorkerFits(j, StageOf(s'), s'.epoch == 0, s'.base, s'.grid, v, s'.worker[v], s'.slots[v])
            && (s'.pc.Collect? ==> s'.slots[v] == SlotAt(j.pieces, s'.base + v))
            && (s'.pc.Collect? ==> PieceRight(j, s'.grid, SlotAt(j.pieces, s'.base + v).rect))
  {
    assert s.worker[v] in s.worker;
    assert WorkerFits(j, StageOf(s), s.epoch == 0, s.base, s.grid, v, s.worker[v], s.slots[v]);
  }

  lemma PassInv(j: Job, g0: Cells, s: State)
    requires JobFits(j) && Inv(j, g0, s) && Fire(j, s, Pass).Some?
    ensures Inv(j, g0, Fire(j, s, Pass).value)
  {
    var s' := Fire(j, s, Pass).value;
    forall v: nat | v < |s'.worker|
      ensures WorkerFits(j, StageOf(s'), s'.epoch == 0, s'.base, s'.grid, v, s'.worker[v], s'.slots[v])
      ensures s'.pc.Collect? ==> s'.slots[v] == SlotAt(j.pieces, s'.base + v)
      ensures s'.pc.Collect? ==> PieceRight(j, s'.grid, SlotAt(j.pieces, s'.base + v).rect)
    {
      PassWorker(j, s, v);
    }
    forall q: nat | q < |j.pieces| && q < Finished(s') ensures PieceRight(j, s'.grid, j.pieces[q]) {
      if q >= Finished(s) {
        var v: nat := q - s.base;
        assert s'.slots[v] == SlotAt(j.pieces, s'.base + v);
      }
    }
  }

  /** Every step keeps the invariant. */
  lemma StepInv(j: Job, g0: Cells, s: State, act: Action)
    requires JobFits(j) && Inv(j, g0, s) && Fire(j, s, act).Some?
    ensures Inv(j, g0, Fire(j, s, act).value) && |Fire(j, s, act).value.worker| == |s.worker|
  {
    match act {
      case RootAct => if s.pc.Collect? { CollectInv(j, g0, s); } else { PutInv(j, g0, s); }
      case TestWork(v) => TestInv(j, g0, s, v);
      case Land(v) => LandInv(j, g0, s, v);
      case Deliver(v, a) => DeliverInv(j, g0, s, v, a);
      case Pass => PassInv(j, g0, s);
    }
  }
}
