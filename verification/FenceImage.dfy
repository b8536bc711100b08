/** Where the puts of the fence protocol land, which of them overlap, and the image a round leaves. */
module FenceImage {
  import opened Arith
  import opened Rects
  import opened Tiles
  import opened Picture
  import opened Courier
  import opened Put
  import opened Fence
  import opened FenceSteps
  import opened FenceLength
  import opened FenceRuns

  // ---- window bounds

  ghost predicate InWindow(j: Job, m: Msg) {
    forall a :: a in WriteMap(j.f, j.across, m.rect) ==> 0 <= a < j.across * j.down
  }

  lemma SlotInWindow(j: Job, turn: nat)
    requires JobFits(j)
    ensures InWindow(j, SlotAt(j.pieces, turn)) <==> turn < |j.pieces|
  {
    SlotWrites(j, turn);
    var w := WriteMap(j.f, j.across, SlotAt(j.pieces, turn).rect);
    if turn < |j.pieces| {
      assert j.pieces[turn] in j.pieces;
      forall a | a in w ensures 0 <= a < j.across * j.down {
        var p :| Touchable(j, p) && j.pieces[turn].Has(p) && Addr(p, j.across) == a;
        AddrSigns(j, p);
      }
    } else {
      assert IDLE.rect.Has(Point(-1, -1));
      assert Addr(Point(-1, -1), j.across) in w;
    }
  }

  /** Every put of every worker in every epoch stays inside the root's window. */
  ghost predicate RoundInWindow(j: Job, workers: nat)
    requires 1 <= workers
  {
    forall e: nat, v: nat :: e < Epochs(|j.pieces|, workers) && v < workers ==>
      InWindow(j, SlotAt(j.pieces, Turn(e, workers, v)))
  }

  lemma DividedSlots(pieces: nat, workers: nat)
    requires 1 <= workers && pieces % workers == 0
    ensures AllSlots(pieces, workers) == pieces
  {
    var q := pieces / workers;
    assert pieces == q * workers + pieces % workers;
    EpochsExact(pieces, workers, q);
  }

  lemma WindowWhenDivided(j: Job, workers: nat)
    requires JobFits(j) && 1 <= workers && |j.pieces| % workers == 0
    ensures RoundInWindow(j, workers)
  {
    var last := Epochs(|j.pieces|, workers);
    DividedSlots(|j.pieces|, workers);
    forall e: nat, v: nat {:trigger Turn(e, workers, v)} | e < last && v < workers
      ensures InWindow(j, SlotAt(j.pieces, Turn(e, workers, v)))
    {
      FlatBelow(e, v, last, workers);
      SlotInWindow(j, Turn(e, workers, v));
    }
  }

  /** Otherwise the last worker of the last epoch has a padded slot. */
  lemma LastPadded(pieces: nat, workers: nat)
    requires 1 <= workers && pieces % workers != 0
    ensures pieces / workers < Epochs(pieces, workers) && Turn(pieces / workers, workers, workers - 1) >= pieces
  {
    var q := pieces / workers;
    assert pieces == q * workers + pieces % workers;
    RowBelow(pieces, pieces + 1, workers);
    EpochsMore(pieces, workers, q);
  }

  /** Every put of the round lands in the root's window exactly when the workers divide the pieces. */
  lemma WindowIff(j: Job, workers: nat)
    requires JobFits(j) && 1 <= workers
    ensures RoundInWindow(j, workers) <==> |j.pieces| % workers == 0
  {
    if |j.pieces| % workers == 0 {
      WindowWhenDivided(j, workers);
    } else {
      LastPadded(|j.pieces|, workers);
      SlotInWindow(j, Turn(|j.pieces| / workers, workers, workers - 1));
    }
  }

  lemma TilesInside(j: Job, g: int)
    requires 1 <= j.across && 1 <= j.down && 1 <= g && multiset(j.pieces) == multiset(Cut(j.across, j.down, g))
    ensures JobFits(j)
  {
    CutSize(j.pieces, j.across, j.down, g);
    ShuffledProper(j.pieces, j.across, j.down, g);
  }

  // ---- overlapping puts

  /** The puts of two slots of the round write no common element. */
  ghost predicate SlotsApart(j: Job, tv: nat, tu: nat) {
    var wv := WriteMap(j.f, j.across, SlotAt(j.pieces, tv).rect);
    var wu := WriteMap(j.f, j.across, SlotAt(j.pieces, tu).rect);
    forall a :: a in wv ==> a !in wu
  }

  /** Two padded slots write the same element. */
  lemma PaddedMeet(j: Job, tv: nat, tu: nat)
    requires JobFits(j) && |j.pieces| <= tv && |j.pieces| <= tu
    ensures !SlotsApart(j, tv, tu)
  {
    SlotWrites(j, tv);
    assert IDLE.rect.Has(Point(-1, -1));
    assert Addr(Point(-1, -1), j.across) in WriteMap(j.f, j.across, IDLE.rect);
  }

  lemma PaddedApart(j: Job, tv: nat, tu: nat)
    requires JobFits(j) && tv < |j.pieces| <= tu
    ensures SlotsApart(j, tv, tu)
  {
    var wv := WriteMap(j.f, j.across, SlotAt(j.pieces, tv).rect);
    var wu := WriteMap(j.f, j.across, SlotAt(j.pieces, tu).rect);
    SlotWrites(j, tv);
    SlotWrites(j, tu);
    forall a | a in wv ensures a !in wu {
      var p :| Touchable(j, p) && j.pieces[tv].Has(p) && Addr(p, j.across) == a;
      assert j.pieces[tv] in j.pieces;
      AddrSigns(j, p);
      AddrSigns(j, Point(-1, -1));
    }
  }

  lemma SharedAddress(j: Job, tv: nat, tu: nat, a: int)
    requires JobFits(j) && tv < |j.pieces| && tu < |j.pieces|
    requires a in WriteMap(j.f, j.across, j.pieces[tv]) && a in WriteMap(j.f, j.across, j.pieces[tu])
    ensures exists p :: j.pieces[tv].Has(p) && j.pieces[tu].Has(p)
  {
    SlotWrites(j, tv);
    SlotWrites(j, tu);
    UniverseNoClash(j);
    var p :| Touchable(j, p) && j.pieces[tv].Has(p) && Addr(p, j.across) == a;
    var q :| Touchable(j, q) && j.pieces[tu].Has(q) && Addr(q, j.across) == a;
    assert p in Universe(j) && q in Universe(j);
  }

  /** The puts for two pieces share an element exactly when the pieces share a pixel. */
  lemma PiecesWriteApart(j: Job, tv: nat, tu: nat)
    requires JobFits(j) && tv < |j.pieces| && tu < |j.pieces|
    ensures SlotsApart(j, tv, tu) <==> Apart(j.pieces[tv], j.pieces[tu])
  {
    var wv, wu := WriteMap(j.f, j.across, j.pieces[tv]), WriteMap(j.f, j.across, j.pieces[tu]);
    if a :| a in wv && a in wu {
      SharedAddress(j, tv, tu, a);
    }
    if p: Point :| j.pieces[tv].Has(p) && j.pieces[tu].Has(p) {
      SlotWrites(j, tv);
      SlotWrites(j, tu);
      assert Addr(p, j.across) in wv && Addr(p, j.across) in wu;
    }
  }

  /** The puts for two slots are apart exactly when the first is not padded and, if the second is not either, their
      pieces are apart. */
  lemma SlotsApartIff(j: Job, tv: nat, tu: nat)
    requires JobFits(j) && tv < tu
    ensures SlotsApart(j, tv, tu) <==>
            tv < |j.pieces| && (tu < |j.pieces| ==> Apart(j.pieces[tv], j.pieces[tu]))
  {
    if tv >= |j.pieces| {
      PaddedMeet(j, tv, tu);
    } else if tu >= |j.pieces| {
      PaddedApart(j, tv, tu);
    } else {
      PiecesWriteApart(j, tv, tu);
    }
  }

  /** No two puts of one epoch overlap, in any epoch of the round. */
  ghost predicate RoundApart(j: Job, workers: nat)
    requires 1 <= workers
  {
    forall e: nat, v: nat, u: nat :: e < Epochs(|j.pieces|, workers) && v < u < workers ==>
      SlotsApart(j, Turn(e, workers, v), Turn(e, workers, u))
  }

  /** Pieces handed out in one epoch share no pixel. */
  ghost predicate EpochPiecesApart(pieces: seq<Rect>, workers: nat)
    requires 1 <= workers
  {
    forall q: nat, q': nat :: q < q' < |pieces| && q / workers == q' / workers ==> Apart(pieces[q], pieces[q'])
  }

  lemma TurnOf(q: nat, workers: nat)
    requires 1 <= workers
    ensures q % workers < workers && Turn(q / workers, workers, q % workers) == q
  {
  }

  lemma ApartPieces(j: Job, workers: nat, q: nat, q': nat)
    requires JobFits(j) && 1 <= workers && RoundApart(j, workers)
    requires q < q' < |j.pieces| && q / workers == q' / workers
    ensures Apart(j.pieces[q], j.pieces[q'])
  {
    var e := q / workers;
    TurnOf(q, workers);
    TurnOf(q', workers);
    EpochsMore(|j.pieces|, workers, e);
    assert SlotsApart(j, Turn(e, workers, q % workers), Turn(e, workers, q' % workers));
    SlotsApartIff(j, q, q');
  }

  lemma ApartPadding(j: Job, workers: nat)
    requires JobFits(j) && 1 <= workers && RoundApart(j, workers)
    ensures AllSlots(|j.pieces|, workers) <= |j.pieces| + 1
  {
    var n, last := |j.pieces|, Epochs(|j.pieces|, workers);
    LastEpoch(n, workers);
    if AllSlots(n, workers) > n + 1 {
      assert (last - 1) * workers == last * workers - workers;
      var tv, tu := Turn(last - 1, workers, workers - 2), Turn(last - 1, workers, workers - 1);
      assert SlotsApart(j, tv, tu);
      SlotsApartIff(j, tv, tu);
    }
  }

  lemma ApartSlots(j: Job, workers: nat, e: nat, v: nat, u: nat)
    requires JobFits(j) && 1 <= workers && AllSlots(|j.pieces|, workers) <= |j.pieces| + 1
    requires EpochPiecesApart(j.pieces, workers) && e < Epochs(|j.pieces|, workers) && v < u < workers
    ensures SlotsApart(j, Turn(e, workers, v), Turn(e, workers, u))
  {
    FlatBelow(e, u, Epochs(|j.pieces|, workers), workers);
    DivMod(e, v, workers);
    DivMod(e, u, workers);
    SlotsApartIff(j, Turn(e, workers, v), Turn(e, workers, u));
  }

  /** Puts of one epoch never overlap exactly when the last epoch has at most one padded slot and no two pieces of an
      epoch share a pixel. */
  lemma RoundApartIff(j: Job, workers: nat)
    requires JobFits(j) && 1 <= workers
    ensures RoundApart(j, workers) <==>
            AllSlots(|j.pieces|, workers) <= |j.pieces| + 1 && EpochPiecesApart(j.pieces, workers)
  {
    if RoundApart(j, workers) {
      ApartPadding(j, workers);
      forall q: nat, q': nat | q < q' < |j.pieces| && q / workers == q' / workers
        ensures Apart(j.pieces[q], j.pieces[q'])
      {
        ApartPieces(j, workers, q, q');
      }
    } else if AllSlots(|j.pieces|, workers) <= |j.pieces| + 1 && EpochPiecesApart(j.pieces, workers) {
      forall e: nat, v: nat, u: nat | e < Epochs(|j.pieces|, workers) && v < u < workers
        ensures SlotsApart(j, Turn(e, workers, v), Turn(e, workers, u))
      {
        ApartSlots(j, workers, e, v, u);
      }
    }
  }

  ghost predicate PiecesApart(pieces: seq<Rect>) {
    forall q, q' :: 0 <= q < q' < |pieces| ==> Apart(pieces[q], pieces[q'])
  }

  /** The shuffled tiles of an image with at least g pixels on either side meet these conditions. */
  lemma TilesFit(j: Job, g: int)
    requires 1 <= g <= j.across && g <= j.down && multiset(j.pieces) == multiset(Cut(j.across, j.down, g))
    ensures JobFits(j) && PiecesApart(j.pieces) && |j.pieces| == g * g
  {
    CutSize(j.pieces, j.across, j.down, g);
    ShuffledProper(j.pieces, j.across, j.down, g);
    ShuffledApart(j.pieces, j.across, j.down, g);
  }

  /** For such an image and workers that divide the pieces no put of the round leaves the window or meets another. */
  lemma LargeImageApart(j: Job, workers: nat, g: int)
    requires 1 <= g <= j.across && g <= j.down && multiset(j.pieces) == multiset(Cut(j.across, j.down, g))
    requires 1 <= workers && |j.pieces| % workers == 0
    ensures EpochPiecesApart(j.pieces, workers) && RoundInWindow(j, workers) && RoundApart(j, workers)
  {
    TilesFit(j, g);
    WindowIff(j, workers);
    DividedSlots(|j.pieces|, workers);
    RoundApartIff(j, workers);
  }

  /** The image of 19 by 19 pixels: one worker for each piece, so no slot is padded, and yet two puts meet at the last
      pixel. */
  lemma SmallImageMeets(j: Job)
    requires j.across == j.down == 19 && j.pieces == Cut(19, 19, 20)
    ensures |j.pieces| == 400 && RoundInWindow(j, 400) && !RoundApart(j, 400)
  {
    TilesInside(j, 20);
    WindowIff(j, 400);
    DivMod(18, 18, 20);
    DivMod(19, 19, 20);
    assert j.pieces[378].Has(Point(18, 18)) && j.pieces[399].Has(Point(18, 18));
    assert 378 / 400 == 399 / 400;
    RoundApartIff(j, 400);
  }

  /** The elements still to be delivered for two workers are in the window when the workers divide the pieces, and
      never the same when no two puts of an epoch overlap. */
  lemma PutsDisjoint(j: Job, slots: seq<Msg>, g0: Cells, trace: seq<State>, v: nat, u: nat)
    requires JobFits(j) && Run(j, slots, g0, trace) && v < u < |slots|
    ensures var s := trace[|trace| - 1];
            && |s.worker| == |slots|
            && (RoundApart(j, |slots|) ==> forall a :: a in s.worker[v].outgoing ==> a !in s.worker[u].outgoing)
            && (|j.pieces| % |slots| == 0 ==> forall a :: a in s.worker[v].outgoing ==> 0 <= a < j.across * j.down)
  {
    var s := trace[|trace| - 1];
    RunSafe(j, slots, g0, trace);
    NoRaces(j, slots, g0, trace, v);
    NoRaces(j, slots, g0, trace, u);
    if s.pc.WaitWork? {
      EpochWork(j, slots, g0, trace, v);
      EpochWork(j, slots, g0, trace, u);
      WindowIff(j, |slots|);
      var tv, tu := Turn(s.epoch, |slots|, v), Turn(s.epoch, |slots|, u);
      assert RoundInWindow(j, |slots|) ==> InWindow(j, SlotAt(j.pieces, tv));
      assert RoundApart(j, |slots|) ==> SlotsApart(j, tv, tu);
    }
  }

  // ---- the result

  /** No covered pixel has element address a. */
  ghost predicate Uncovered(j: Job, g: int, a: int)
    requires 1 <= j.across && 1 <= j.down && 1 <= g
  {
    forall p :: Covered(j.across, j.down, g, p) ==> Addr(p, j.across) != a
  }

  lemma PiecesCover(j: Job, g: int)
    requires 1 <= j.across && 1 <= j.down && 1 <= g && multiset(j.pieces) == multiset(Cut(j.across, j.down, g))
    ensures forall p: Point :: (exists r :: r in j.pieces && r.Has(p)) <==> Covered(j.across, j.down, g, p)
  {
    forall r ensures r in j.pieces <==> r in Cut(j.across, j.down, g) {
      assert r in multiset(j.pieces) <==> r in multiset(Cut(j.across, j.down, g));
    }
    forall p: Point ensures (exists r :: r in j.pieces && r.Has(p)) <==> Covered(j.across, j.down, g, p) {
      CutCovers(j.across, j.down, g, p);
    }
  }

  lemma CoveredRight(j: Job, g: int, s: State)
    requires 1 <= j.across && 1 <= j.down && 1 <= g
    requires forall p: Point :: (exists r :: r in j.pieces && r.Has(p)) <==> Covered(j.across, j.down, g, p)
    requires forall q: nat :: q < |j.pieces| ==> PieceRight(j, s.grid, j.pieces[q])
    ensures ReadsAs(s.grid, j.f, j.across, j.down, g)
  {
    forall p | Covered(j.across, j.down, g, p) ensures Right(j, s.grid, p) {
      var r :| r in j.pieces && r.Has(p);
      var q: nat :| q < |j.pieces| && j.pieces[q] == r;
      assert PieceRight(j, s.grid, j.pieces[q]);
    }
  }

  lemma UncoveredKept(j: Job, g: int, g0: Cells, grid: Cells)
    requires JobFits(j) && 1 <= g && Untouched(j, g0, grid)
    requires forall p: Point :: (exists r :: r in j.pieces && r.Has(p)) <==> Covered(j.across, j.down, g, p)
    ensures forall a :: 0 <= a < j.across * j.down && Uncovered(j, g, a) ==>
              (a in grid <==> a in g0) && (a in grid ==> grid[a] == g0[a])
  {
    forall a | 0 <= a < j.across * j.down && Uncovered(j, g, a)
      ensures (a in grid <==> a in g0) && (a in grid ==> grid[a] == g0[a])
    {
      forall p | Touchable(j, p) ensures Addr(p, j.across) != a { AddrSigns(j, p); }
    }
  }

  /** What a finished round leaves, if two kinds of puts do no harm: those outside the window, for the grid of the model
      has an element at every address, and those of one epoch that overlap, for they write equal values and the model
      delivers their elements one by one. The window shows the image on the covered part, its other elements are as
      they were, and the visualizer got each piece once, in order. */
  lemma HarmlessRunShowsImage(j: Job, slots: seq<Msg>, g0: Cells, trace: seq<State>, g: int)
    requires 1 <= j.across && 1 <= j.down && 1 <= g && multiset(j.pieces) == multiset(Cut(j.across, j.down, g))
    requires 1 <= |slots| && Run(j, slots, g0, trace) && Over(trace[|trace| - 1])
    ensures var s := trace[|trace| - 1];
            && ReadsAs(s.grid, j.f, j.across, j.down, g)
            && (forall a :: 0 <= a < j.across * j.down && Uncovered(j, g, a) ==>
                  (a in s.grid <==> a in g0) && (a in s.grid ==> s.grid[a] == g0[a]))
            && |s.log| == |j.pieces|
            && forall q :: 0 <= q < |j.pieces| ==> s.log[q] == Drawing(j.pieces[q], Data(j.f, j.pieces[q]))
  {
    var s := trace[|trace| - 1];
    TilesInside(j, g);
    RunSafe(j, slots, g0, trace);
    PiecesCover(j, g);
    CoveredRight(j, g, s);
    UncoveredKept(j, g, g0, s.grid);
  }

  /** When the workers divide the pieces and no two pieces of an epoch share a pixel, every put of the round lands in
      the window and meets no other, and at the end the window shows the image on the covered part, its other elements
      are as they were, and the visualizer got each piece once, in order. */
  lemma RunShowsImage(j: Job, slots: seq<Msg>, g0: Cells, trace: seq<State>, g: int)
    requires 1 <= j.across && 1 <= j.down && 1 <= g && multiset(j.pieces) == multiset(Cut(j.across, j.down, g))
    requires 1 <= |slots| && |j.pieces| % |slots| == 0 && EpochPiecesApart(j.pieces, |slots|)
    requires Run(j, slots, g0, trace) && Over(trace[|trace| - 1])
    ensures var s := trace[|trace| - 1];
            && RoundInWindow(j, |slots|) && RoundApart(j, |slots|)
            && ReadsAs(s.grid, j.f, j.across, j.down, g)
            && (forall a :: 0 <= a < j.across * j.down && Uncovered(j, g, a) ==>
                  (a in s.grid <==> a in g0) && (a in s.grid ==> s.grid[a] == g0[a]))
            && |s.log| == |j.pieces|
            && forall q :: 0 <= q < |j.pieces| ==> s.log[q] == Drawing(j.pieces[q], Data(j.f, j.pieces[q]))
  {
    TilesInside(j, g);
    WindowIff(j, |slots|);
    DividedSlots(|j.pieces|, |slots|);
    RoundApartIff(j, |slots|);
    HarmlessRunShowsImage(j, slots, g0, trace, g);
  }
}
