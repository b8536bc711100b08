/** How many steps a round of the fence protocol takes: fences, puts, collections, tests and delivered elements. */
module FenceLength {
  import opened Arith
  import opened Options
  import opened Rects
  import opened Picture
  import opened Counting
  import opened Courier
  import opened Put
  import opened Fence
  import opened FenceSteps

  // ---- epochs

  /** Passes of the hand-out loop: the pieces over the workers, rounded up. */
  function Epochs(pieces: nat, workers: nat): nat
    requires 1 <= workers
  {
    (pieces + workers - 1) / workers
  }

  lemma EpochsMore(pieces: nat, workers: nat, e: nat)
    requires 1 <= workers && e * workers < pieces
    ensures e + 1 <= Epochs(pieces, workers)
  {
    var n := pieces + workers - 1;
    var q := n / workers;
    assert n == q * workers + n % workers;
    assert (q + 1) * workers == q * workers + workers;
    assert (e + 1) * workers == e * workers + workers;
    if q < e + 1 {
      MulLe(q + 1, e + 1, workers);
    }
  }

  lemma EpochsExact(pieces: nat, workers: nat, e: nat)
    requires 1 <= workers && pieces <= e * workers < pieces + workers
    ensures e == Epochs(pieces, workers)
  {
    var n := pieces + workers - 1;
    assert n == (n / workers) * workers + n % workers;
    QuotientUnique(n / workers, n % workers, e, n - e * workers, workers);
  }

  function FencesTotal(pieces: nat, workers: nat): nat
    requires 1 <= workers
  {
    2 + 3 * Epochs(pieces, workers)
  }

  /** Slots filled with pieces or padding in a round. */
  function AllSlots(pieces: nat, workers: nat): nat
    requires 1 <= workers
  {
    Turn(Epochs(pieces, workers), workers, 0)
  }

  /** The last epoch reaches past the pieces by the number of its padded slots. */
  lemma LastEpoch(pieces: nat, workers: nat)
    requires 1 <= workers && 1 <= pieces
    ensures Epochs(pieces, workers) >= 1
    ensures pieces <= AllSlots(pieces, workers) < pieces + workers
  {
    var n := pieces + workers - 1;
    assert n == (n / workers) * workers + n % workers;
    EpochsMore(pieces, workers, 0);
  }

  lemma BaseFits(j: Job, g0: Cells, s: State)
    requires JobFits(j) && Inv(j, g0, s)
    ensures var n, workers := |j.pieces|, |s.worker|;
            if s.base < n then s.epoch < Epochs(n, workers) && s.base + workers <= AllSlots(n, workers)
            else s.epoch == Epochs(n, workers) && s.base == AllSlots(n, workers)
  {
    var n, workers := |j.pieces|, |s.worker|;
    if s.base < n {
      EpochsMore(n, workers, s.epoch);
      MulLe(s.epoch + 1, Epochs(n, workers), workers);
      assert (s.epoch + 1) * workers == s.epoch * workers + workers;
    } else {
      EpochsExact(n, workers, s.epoch);
    }
  }

  // ---- the elements of a put

  /** Elements in the put for the turn-th slot of the round. */
  function Elements(j: Job, turn: nat): nat { |WriteMap(j.f, j.across, SlotAt(j.pieces, turn).rect)| }

  /** Pixels of a rectangle. */
  function Size(r: Rect): nat {
    if r.Proper() then
      AreaNat(r);
      r.Area()
    else 0
  }

  lemma ScanDistinct(r: Rect, m: int, n: int)
    requires r.Proper() && ScanPoint(r, m) == ScanPoint(r, n)
    ensures m == n
  {
    assert m == (m / r.Width()) * r.Width() + m % r.Width();
    assert n == (n / r.Width()) * r.Width() + n % r.Width();
  }

  lemma {:induction false} PaintSize(stride: int, r: Rect, data: seq<int>, n: nat)
    requires r.Proper() && n <= |data| && n <= r.Area() && NoClash(stride, Pixels(r))
    ensures |Paint(map[], stride, r, data, n)| == n
    ensures forall a :: a in Paint(map[], stride, r, data, n) ==>
              exists k :: 0 <= k < n && Addr(ScanPoint(r, k), stride) == a
  {
    if n > 0 {
      PaintSize(stride, r, data, n - 1);
      var before, a := Paint(map[], stride, r, data, n - 1), Addr(ScanPoint(r, n - 1), stride);
      if a in before {
        var k :| 0 <= k < n - 1 && Addr(ScanPoint(r, k), stride) == a;
        ScanInside(r, k);
        ScanInside(r, n - 1);
        assert ScanPoint(r, k) in Pixels(r) && ScanPoint(r, n - 1) in Pixels(r);
        ScanDistinct(r, k, n - 1);
      }
      assert before[a := data[n - 1]].Keys == before.Keys + {a};
    }
  }

  /** A put carries one element for each pixel of its rectangle. */
  lemma ElementsIs(j: Job, turn: nat)
    requires JobFits(j)
    ensures Elements(j, turn) == Size(SlotAt(j.pieces, turn).rect)
  {
    var r := SlotAt(j.pieces, turn).rect;
    SlotPixels(j, turn);
    UniverseNoClash(j);
    assert forall p :: p in Pixels(r) ==> p in Universe(j);
    PaintSize(j.across, r, Render(j.f, r), |Render(j.f, r)|);
  }

  // ---- what is left

  /** The test of a slot and its elements. */
  function SlotWork(j: Job): nat -> nat { (turn: nat) => 1 + Elements(j, turn) }

  /** Tests and elements of slots a to b - 1. */
  function WorkOf(j: Job, a: nat, b: nat): nat { SumRange(SlotWork(j), a, b) }

  /** Steps a worker still causes before the fence it goes to: its test, what is in flight to it and from it. */
  function WorkerLeft(j: Job): Worker -> nat {
    (w: Worker) =>
      |w.outgoing| + (if w.incoming.Some? then 1 else 0)
      + if !w.pc.Test? then 0 else if w.window.first == 0 then 1 else 1 + |WriteMap(j.f, j.across, w.window.rect)|
  }

  /** Slots put so far, those of the end included. */
  function PutsMade(s: State): nat {
    match s.pc
    case Begin => s.base
    case Put(i) => s.base + i
    case EndPut => s.base + |s.worker|
    case WaitWork => s.base + |s.worker|
    case Collect => s.base + |s.worker|
    case DoneBegin => s.base
    case PutDone(i) => s.base + i
    case EndDone => s.base + |s.worker|
    case RootEnd => s.base + |s.worker|
  }

  /** Slots the workers have taken over, for good or for testing now. */
  function Taken(s: State): nat { if s.pc.WaitWork? || s.pc.Collect? then s.base + |s.worker| else s.base }

  /** Fences, collections, and puts with their landing. */
  function RootOwn(j: Job, s: State): int
    requires 1 <= |s.worker|
  {
    var n, workers := |j.pieces|, |s.worker|;
    (FencesTotal(n, workers) - s.fences) + (Epochs(n, workers) - s.epoch)
    + 2 * (AllSlots(n, workers) + workers - PutsMade(s))
  }

  /** The last tests, unless the workers have taken them over. */
  function LastTests(s: State): nat { if s.pc.RootEnd? then 0 else |s.worker| }

  /** With the work of the slots to come. */
  function RootLeft(j: Job, s: State): int
    requires 1 <= |s.worker|
  {
    RootOwn(j, s) + LastTests(s) + WorkOf(j, Taken(s), AllSlots(|j.pieces|, |s.worker|))
  }

  function Remaining(j: Job, s: State): int
    requires 1 <= |s.worker|
  {
    RootLeft(j, s) + Sum(WorkerLeft(j), s.worker)
  }

  // ---- every step uses up one

  /** How the root's part follows its counters. */
  lemma RootOwnChange(j: Job, s: State, s': State)
    requires 1 <= |s.worker| == |s'.worker|
    ensures RootOwn(j, s) - RootOwn(j, s')
         == (s'.fences - s.fences) + (s'.epoch - s.epoch) + 2 * (PutsMade(s') - PutsMade(s))
  {
  }

  /** The worker whose slot is put next has nothing coming and tests nothing. */
  lemma PutFinds(j: Job, s: State)
    requires |s.worker| == |s.slots| && Workers(j, s) && (s.pc.Put? || s.pc.PutDone?) && s.pc.i < |s.worker|
    ensures s.worker[s.pc.i].incoming.None? && !s.worker[s.pc.i].pc.Test?
  {
    var i := s.pc.i;
    assert WorkerFits(j, StageOf(s), s.epoch == 0, s.base, s.grid, i, s.worker[i], s.slots[i]);
  }

  lemma PutCounts(j: Job, s: State, s': State, i: nat, m: Msg)
    requires i < |s.worker| && s.worker[i].incoming.None? && !s.worker[i].pc.Test?
    requires s'.worker == s.worker[i := s.worker[i].(incoming := Some(m))]
    requires RootLeft(j, s') == RootLeft(j, s) - 2
    ensures Remaining(j, s') == Remaining(j, s) - 1
  {
    SumUpdate(WorkerLeft(j), s.worker, i, s.worker[i].(incoming := Some(m)));
  }

  lemma PutLeft(j: Job, s: State)
    requires 1 <= |s.worker| == |s.slots| && (s.pc.Put? || s.pc.PutDone?) && RootStep(j, s).Some?
    ensures var s' := RootStep(j, s).value;
            && s.pc.i < |s.worker| == |s'.worker| && RootLeft(j, s') == RootLeft(j, s) - 2
            && exists m :: s'.worker == s.worker[s.pc.i := s.worker[s.pc.i].(incoming := Some(m))]
  {
    var s', i := RootStep(j, s).value, s.pc.i;
    RootOwnChange(j, s, s');
    assert s'.worker == s.worker[i := s.worker[i].(incoming := Some(s'.slots[i]))];
  }

  lemma RootCounts(j: Job, s: State)
    requires 1 <= |s.worker| == |s.slots| && Workers(j, s) && RootStep(j, s).Some?
    ensures var s' := RootStep(j, s).value;
            |s'.worker| == |s.worker| && Remaining(j, s') == Remaining(j, s) - 1
  {
    if s.pc.Collect? {
      RootOwnChange(j, s, RootStep(j, s).value);
    } else {
      PutLeft(j, s);
      PutFinds(j, s);
      var s', i := RootStep(j, s).value, s.pc.i;
      var m :| s'.worker == s.worker[i := s.worker[i].(incoming := Some(m))];
      PutCounts(j, s, s', i, m);
    }
  }

  /** A step of one worker, or of what is in flight to it or from it. */
  lemma WorkerCounts(j: Job, s: State, s': State, v: nat)
    requires v < |s.worker| == |s'.worker| && s'.worker == s.worker[v := s'.worker[v]]
    requires s'.pc == s.pc && s'.fences == s.fences && s'.epoch == s.epoch && s'.base == s.base
    requires WorkerLeft(j)(s'.worker[v]) == WorkerLeft(j)(s.worker[v]) - 1
    ensures Remaining(j, s') == Remaining(j, s) - 1
  {
    SumUpdate(WorkerLeft(j), s.worker, v, s'.worker[v]);
  }

  lemma OneLess(out: Cells, a: int)
    requires a in out
    ensures |out - {a}| == |out| - 1
  {
    assert (out - {a}).Keys == out.Keys - {a};
  }

  /** At a fence no worker has anything left; behind it each has its slot's test and elements, or its last test. */
  lemma PassedWorker(j: Job, s: State, v: nat)
    requires |s.worker| == |s.slots| && Workers(j, s) && Fire(j, s, Pass).Some? && v < |s.worker|
    ensures WorkerLeft(j)(s.worker[v]) == 0
    ensures WorkerLeft(j)(PassAll(s.worker)[v]) ==
              if s.pc.EndPut? then SlotWork(j)(s.base + v) else if s.pc.EndDone? then 1 else 0
  {
    assert s.worker[v] in s.worker;
    assert WorkerFits(j, StageOf(s), s.epoch == 0, s.base, s.grid, v, s.worker[v], s.slots[v]);
  }

  /** The workers before and after a fence hold this, with work for each slot, one test each, or nothing. */
  ghost predicate Hold(f: Worker -> nat, ws: seq<Worker>, work: nat -> nat, base: nat, puts: bool, ends: bool) {
    forall v: nat :: v < |ws| ==> f(ws[v]) == if puts then work(base + v) else if ends then 1 else 0
  }

  lemma HoldSum(f: Worker -> nat, ws: seq<Worker>, work: nat -> nat, base: nat, puts: bool, ends: bool)
    requires Hold(f, ws, work, base, puts, ends)
    ensures Sum(f, ws) == if puts then SumRange(work, base, base + |ws|) else if ends then |ws| else 0
  {
    if puts {
      SumIsRange(f, ws, work, base);
    } else if ends {
      SumIsCount(f, ws);
    } else {
      SumZero(f, ws);
    }
  }

  lemma PassedWorkers(j: Job, s: State)
    requires |s.worker| == |s.slots| && Workers(j, s) && Fire(j, s, Pass).Some?
    ensures Hold(WorkerLeft(j), s.worker, SlotWork(j), s.base, false, false)
    ensures Hold(WorkerLeft(j), PassAll(s.worker), SlotWork(j), s.base, s.pc.EndPut?, s.pc.EndDone?)
  {
    forall v: nat | v < |s.worker|
      ensures WorkerLeft(j)(s.worker[v]) == 0
      ensures WorkerLeft(j)(PassAll(s.worker)[v]) ==
                if s.pc.EndPut? then SlotWork(j)(s.base + v) else if s.pc.EndDone? then 1 else 0
    {
      PassedWorker(j, s, v);
    }
  }

  /** The work handed over at a fence. */
  function Handed(j: Job, s: State): nat {
    if s.pc.EndPut? then WorkOf(j, s.base, s.base + |s.worker|) else if s.pc.EndDone? then |s.worker| else 0
  }

  lemma PassedSums(j: Job, s: State, ws: seq<Worker>)
    requires |ws| == |s.worker|
    requires Hold(WorkerLeft(j), s.worker, SlotWork(j), s.base, false, false)
    requires Hold(WorkerLeft(j), ws, SlotWork(j), s.base, s.pc.EndPut?, s.pc.EndDone?)
    ensures Sum(WorkerLeft(j), s.worker) == 0 && Sum(WorkerLeft(j), ws) == Handed(j, s)
  {
    HoldSum(WorkerLeft(j), s.worker, SlotWork(j), s.base, false, false);
    HoldSum(WorkerLeft(j), ws, SlotWork(j), s.base, s.pc.EndPut?, s.pc.EndDone?);
  }

  lemma WorkPass(j: Job, s: State, s': State, all: nat)
    requires RootAtFence(s.pc) && s'.pc == RootPast(s.pc) && |s'.worker| == |s.worker| && s'.base == s.base
    requires s.pc.EndPut? ==> s.base + |s.worker| <= all
    ensures LastTests(s') + WorkOf(j, Taken(s'), all) + Handed(j, s) == LastTests(s) + WorkOf(j, Taken(s), all)
  {
    if s.pc.EndPut? {
      SumRangeSplit(SlotWork(j), s.base, s.base + |s.worker|, all);
    }
  }

  /** A fence hands the work of its slots, or the last tests, over to the workers. */
  lemma RootLeftPass(j: Job, s: State, s': State)
    requires 1 <= |s.worker| == |s'.worker| && RootAtFence(s.pc) && s'.pc == RootPast(s.pc)
    requires s'.fences == s.fences + 1 && s'.epoch == s.epoch && s'.base == s.base
    requires s.pc.EndPut? ==> s.base + |s.worker| <= AllSlots(|j.pieces|, |s.worker|)
    ensures RootLeft(j, s') == RootLeft(j, s) - 1 - Handed(j, s)
  {
    RootOwnChange(j, s, s');
    WorkPass(j, s, s', AllSlots(|j.pieces|, |s.worker|));
  }

  lemma PassCounts(j: Job, g0: Cells, s: State)
    requires JobFits(j) && Inv(j, g0, s) && Fire(j, s, Pass).Some?
    ensures var s' := Fire(j, s, Pass).value;
            |s'.worker| == |s.worker| && Remaining(j, s') == Remaining(j, s) - 1
  {
    BaseFits(j, g0, s);
    PassedWorkers(j, s);
    PassedSums(j, s, PassAll(s.worker));
    RootLeftPass(j, s, Fire(j, s, Pass).value);
  }

  /** A worker's test turns into the elements it puts, a landing and a delivery into nothing. */
  lemma WorkerStepCounts(j: Job, s: State, act: Action)
    requires 1 <= |s.worker| == |s.slots| && Workers(j, s) && Fire(j, s, act).Some? && !act.RootAct? && !act.Pass?
    ensures act.v < |s.worker|
    ensures var s' := Fire(j, s, act).value;
            |s'.worker| == |s.worker| && WorkerLeft(j)(s'.worker[act.v]) == WorkerLeft(j)(s.worker[act.v]) - 1
  {
    var v: nat := act.v;
    assert WorkerFits(j, StageOf(s), s.epoch == 0, s.base, s.grid, v, s.worker[v], s.slots[v]);
    if act.Deliver? {
      OneLess(s.worker[v].outgoing, act.a);
    }
  }

  /** Every step, of a process, of a put in flight or of a fence, uses up exactly one of the remaining steps. */
  lemma StepCounts(j: Job, g0: Cells, s: State, act: Action)
    requires JobFits(j) && Inv(j, g0, s) && Fire(j, s, act).Some?
    ensures var s' := Fire(j, s, act).value;
            |s'.worker| == |s.worker| && Remaining(j, s') == Remaining(j, s) - 1
  {
    if act.RootAct? {
      RootCounts(j, s);
    } else if act.Pass? {
      PassCounts(j, g0, s);
    } else {
      WorkerStepCounts(j, s, act);
      WorkerCounts(j, s, Fire(j, s, act).value, act.v);
    }
  }

  lemma RemainingNonNegative(j: Job, g0: Cells, s: State)
    requires JobFits(j) && Inv(j, g0, s)
    ensures Remaining(j, s) >= 0
    ensures s.pc.RootEnd? ==> s.fences == FencesTotal(|j.pieces|, |s.worker|)
    ensures s.pc.RootEnd? ==> RootLeft(j, s) == 0
  {
    BaseFits(j, g0, s);
  }

  // ---- the whole round

  /** Steps of a whole round: 3 fences and a collection in each epoch and 2 fences at the end; put, landing and test of
      each slot, the last ones included; one element for each pixel of each piece and for each padded slot. */
  function RoundSteps(pieces: seq<Rect>, workers: nat): int
    requires 1 <= workers
  {
    var e, all := Epochs(|pieces|, workers), AllSlots(|pieces|, workers);
    (2 + 3 * e) + e + 3 * (all + workers) + (Sum(Size, pieces) + (all - |pieces|))
  }

  lemma {:induction false} PiecesWork(j: Job, n: nat)
    requires JobFits(j) && n <= |j.pieces|
    ensures WorkOf(j, 0, n) == n + Sum(Size, j.pieces[..n])
  {
    if n > 0 {
      PiecesWork(j, n - 1);
      ElementsIs(j, n - 1);
      assert j.pieces[..n][..n - 1] == j.pieces[..n - 1];
    }
  }

  lemma {:induction false} PaddedWork(j: Job, n: nat)
    requires JobFits(j) && |j.pieces| <= n
    ensures WorkOf(j, |j.pieces|, n) == 2 * (n - |j.pieces|)
  {
    if |j.pieces| < n {
      PaddedWork(j, n - 1);
      ElementsIs(j, n - 1);
    }
  }

  lemma StartRemaining(j: Job, s: State)
    requires JobFits(j) && 1 <= |s.worker| && s.pc == Begin && s.fences == s.epoch == s.base == 0
    requires forall w :: w in s.worker ==> WorkerLeft(j)(w) == 0
    ensures Remaining(j, s) == RoundSteps(j.pieces, |s.worker|)
  {
    var n := |j.pieces|;
    SumZero(WorkerLeft(j), s.worker);
    LastEpoch(n, |s.worker|);
    PiecesWork(j, n);
    PaddedWork(j, AllSlots(n, |s.worker|));
    SumRangeSplit(SlotWork(j), 0, n, AllSlots(n, |s.worker|));
    assert j.pieces[..n] == j.pieces;
  }
}
