/** pmandel_fence.c: the same job in epochs of one-sided puts separated by fences. Between two fences the
    processes run in any order; a put takes effect, element by element, at any moment before the fence that
    closes its epoch (MPI-3.1, section 11.5.1). */
module Fence {
  import opened Arith
  import opened Options
  import opened Rects
  import opened Picture
  import opened Courier
  import opened Put

  /** Pixel colours, image size and shuffled pieces. */
  datatype Job = Job(f: Point -> int, across: int, down: int, pieces: seq<Rect>)

  /** What the root puts when it has run out of pieces, and what it puts at the end. */
  const IDLE := Msg(-1, Rect(-1, -1, -1, -1))
  const DONE := STOP

  /** The root's program counter; the fences are Begin, EndPut, WaitWork, DoneBegin and EndDone. */
  datatype RootPc = Begin | Put(i: nat) | EndPut | WaitWork | Collect | DoneBegin | PutDone(i: nat) | EndDone | RootEnd

  /** A worker's program counter; the fences are First, Second, Sync, Hold and Receive. */
  datatype WorkerPc = First | Second | Test | Sync | Hold | Receive | WorkerEnd

  /** window is the worker's exposed work slot, incoming the root's put on its way to it,
      outgoing the element writes of the worker's own put that have not reached the root yet. */
  datatype Worker = Worker(pc: WorkerPc, window: Msg, incoming: Option<Msg>, outgoing: Cells)

  /** k, done and slots are the root's variables, grid its window, log what it passes to the visualizer.
      fences counts the fences passed; epoch and base count the finished passes of the loop and the slots
      filled in them. */
  datatype State = State(
    pc: RootPc, k: nat, done: bool, slots: seq<Msg>, worker: seq<Worker>, grid: Cells,
    log: seq<Drawing>, fences: nat, epoch: nat, base: nat)

  /** windows is what the workers' slots hold before anything was put there. */
  function Start(slots: seq<Msg>, windows: seq<Msg>, grid: Cells): State
    requires |windows| == |slots|
  {
    var workers := seq(|windows|, v requires 0 <= v < |windows| => Worker(First, windows[v], None, map[]));
    State(Begin, 0, false, slots, workers, grid, [], 0, 0, 0)
  }

  function SetWorker(s: State, v: nat, w: Worker): State
    requires v < |s.worker|
  {
    s.(worker := s.worker[v := w])
  }

  /** The root fills slot i and puts it to worker i. */
  function PutSlot(s: State, i: nat, m: Msg, pc: RootPc): State
    requires i < |s.worker| == |s.slots|
  {
    SetWorker(s, i, s.worker[i].(incoming := Some(m))).(slots := s.slots[i := m], pc := pc)
  }

  /** What the root reads from its window for the rectangle of a slot. */
  function ReadTile(grid: Cells, across: int, r: Rect): (d: seq<int>) {
    if r.Proper() then
      AreaNat(r);
      seq(r.Area(), k requires 0 <= k < r.Area() =>
        var a := Addr(ScanPoint(r, k), across); if a in grid then grid[a] else 0)
    else []
  }

  /** The collect loop: one drawing for each slot that is not idle. */
  function ReadSlots(grid: Cells, across: int, slots: seq<Msg>): seq<Drawing> {
    if slots == [] then []
    else
      var m := slots[|slots| - 1];
      ReadSlots(grid, across, slots[..|slots| - 1])
      + if m.first == -1 then [] else [Drawing(m.rect, ReadTile(grid, across, m.rect))]
  }

  predicate RootAtFence(pc: RootPc) { pc.Begin? || pc.EndPut? || pc.WaitWork? || pc.DoneBegin? || pc.EndDone? }

  predicate WorkerAtFence(pc: WorkerPc) { pc.First? || pc.Second? || pc.Sync? || pc.Hold? || pc.Receive? }

  function RootPast(pc: RootPc): RootPc {
    match pc
    case Begin => Put(0)
    case EndPut => WaitWork
    case WaitWork => Collect
    case DoneBegin => PutDone(0)
    case EndDone => RootEnd
    case _ => pc
  }

  function WorkerPast(pc: WorkerPc): WorkerPc {
    match pc
    case First => Second
    case Second => Test
    case Sync => Hold
    case Hold => Receive
    case Receive => Test
    case _ => pc
  }

  /** Everybody has called the fence and every put has reached its target. */
  predicate CanPass(s: State) {
    && RootAtFence(s.pc)
    && forall w :: w in s.worker ==> WorkerAtFence(w.pc) && w.incoming.None? && w.outgoing == map[]
  }

  function PassAll(ws: seq<Worker>): (r: seq<Worker>)
    ensures |r| == |ws|
  {
    seq(|ws|, v requires 0 <= v < |ws| => ws[v].(pc := WorkerPast(ws[v].pc)))
  }

  function RootStep(j: Job, s: State): Option<State>
    requires |s.worker| == |s.slots|
  {
    var n, workers := |j.pieces|, |s.worker|;
    match s.pc
    case Put(i) =>
      if i >= workers || s.k >= n then None
      else
        var m := if !s.done then Work(s.k, j.pieces) else IDLE;
        var next := PutSlot(s, i, m, if i + 1 < workers then Put(i + 1) else EndPut);
        Some(if s.k < n - 1 then next.(k := s.k + 1) else next.(done := true))
    case Collect =>
      Some(s.(log := s.log + ReadSlots(s.grid, j.across, s.slots), epoch := s.epoch + 1, base := s.base + workers,
              pc := if s.done then DoneBegin else Begin))
    case PutDone(i) =>
      if i >= workers then None
      else Some(PutSlot(s, i, DONE, if i + 1 < workers then PutDone(i + 1) else EndDone))
    case _ => None
  }

  /** Land: the root's put reaches worker v's window. Deliver: one element of worker v's put reaches the root. */
  datatype Action = RootAct | TestWork(v: nat) | Land(v: nat) | Deliver(v: nat, a: int) | Pass

  function Fire(j: Job, s: State, act: Action): Option<State>
    requires |s.worker| == |s.slots|
  {
    match act
    case RootAct => RootStep(j, s)
    case TestWork(v) =>
      if v < |s.worker| && s.worker[v].pc.Test? then
        var w := s.worker[v];
        Some(SetWorker(s, v,
          if w.window.first == 0 then w.(pc := WorkerEnd)
          else w.(pc := Sync, outgoing := WriteMap(j.f, j.across, w.window.rect))))
      else None
    case Land(v) =>
      if v < |s.worker| && s.worker[v].incoming.Some? then
        Some(SetWorker(s, v, s.worker[v].(window := s.worker[v].incoming.value, incoming := None)))
      else None
    case Deliver(v, a) =>
      if v < |s.worker| && a in s.worker[v].outgoing then
        var out := s.worker[v].outgoing;
        Some(SetWorker(s, v, s.worker[v].(outgoing := out - {a})).(grid := s.grid[a := out[a]]))
      else None
    case Pass =>
      if CanPass(s) then Some(s.(pc := RootPast(s.pc), worker := PassAll(s.worker), fences := s.fences + 1)) else None
  }

  // ---- the invariant

  /** The slot of worker v in epoch e, counted from the start of the round. */
  function Turn(e: nat, workers: nat, v: nat): nat {
    MulLe(0, e, workers);
    e * workers + v
  }

  /** What the turn-th slot of the whole round holds. */
  function SlotAt(pieces: seq<Rect>, turn: nat): Msg {
    if turn < |pieces| then Work(turn, pieces) else IDLE
  }

  /** The part of an epoch the processes are in, with the number of slots put in it. */
  datatype Stage = Starting | Giving(i: nat) | Working | Collecting | Ending(i: nat) | Ended

  function StageOf(s: State): Stage {
    match s.pc
    case Begin => if s.epoch == 0 then Starting else Collecting
    case Put(i) => Giving(i)
    case EndPut => Giving(|s.worker|)
    case WaitWork => Working
    case Collect => Collecting
    case DoneBegin => Collecting
    case PutDone(i) => Ending(i)
    case EndDone => Ending(|s.worker|)
    case RootEnd => Ended
  }

  /** Pixel p of the image has its colour in the grid. */
  predicate Right(j: Job, grid: Cells, p: Point) { Addr(p, j.across) in grid && grid[Addr(p, j.across)] == j.f(p) }

  /** Pixel p of a tile in transfer is still to be delivered or already right. */
  predicate Carried(j: Job, grid: Cells, out: Cells, p: Point) { Addr(p, j.across) in out || Right(j, grid, p) }

  /** The root's put of m to this worker is on its way or has landed. */
  predicate Sent(w: Worker, m: Msg) { w.incoming == Some(m) || (w.incoming.None? && w.window == m) }

  /** Worker v is where the root's stage says, with the slot contents the stage says. */
  ghost predicate WorkerFits(
    j: Job, stage: Stage, opening: bool, base: nat, grid: Cells, v: nat, w: Worker, slot: Msg)
  {
    match stage
    case Starting => w.pc.First? && w.incoming.None? && w.outgoing == map[]
    case Giving(i) =>
      && w.pc == (if opening then Second else Receive) && w.outgoing == map[]
      && if v < i then slot == SlotAt(j.pieces, base + v) && Sent(w, slot) else w.incoming.None?
    case Working =>
      && w.incoming.None? && w.window == slot == SlotAt(j.pieces, base + v)
      && (w.pc.Test? || w.pc.Sync?) && (w.pc.Test? ==> w.outgoing == map[])
      && (w.pc.Sync? ==>
            (forall a :: a in w.outgoing ==>
               a in WriteMap(j.f, j.across, slot.rect) && w.outgoing[a] == WriteMap(j.f, j.across, slot.rect)[a])
            && (forall p :: slot.rect.Has(p) ==> Carried(j, grid, w.outgoing, p)))
    case Collecting => w.pc.Hold? && w.incoming.None? && w.outgoing == map[]
    case Ending(i) =>
      && w.pc.Receive? && w.outgoing == map[]
      && if v < i then Sent(w, DONE) else w.incoming.None?
    case Ended => (w.pc.Test? || w.pc.WorkerEnd?) && w.incoming.None? && w.outgoing == map[] && w.window == DONE
  }

  ghost predicate Workers(j: Job, s: State)
    requires |s.worker| == |s.slots|
  {
    forall v: nat :: v < |s.worker| ==>
      WorkerFits(j, StageOf(s), s.epoch == 0, s.base, s.grid, v, s.worker[v], s.slots[v])
  }

  /** k and done after the first turn slots of the round. */
  predicate Counters(j: Job, s: State, turn: nat) {
    s.k == Min(turn, |j.pieces| - 1) && (s.done <==> turn >= |j.pieces|)
  }

  /** Which fence comes next, and how far the hand-out loop is. */
  ghost predicate PcFits(j: Job, s: State) {
    var n, workers := |j.pieces|, |s.worker|;
    match s.pc
    case Begin => s.fences == 3 * s.epoch && Counters(j, s, s.base) && s.base < n
    case Put(i) => s.fences == 3 * s.epoch + 1 && i < workers && Counters(j, s, s.base + i) && s.base < n
    case EndPut => s.fences == 3 * s.epoch + 1 && Counters(j, s, s.base + workers) && s.base < n
    case WaitWork => s.fences == 3 * s.epoch + 2 && Counters(j, s, s.base + workers) && s.base < n
    case Collect => s.fences == 3 * s.epoch + 3 && Counters(j, s, s.base + workers) && s.base < n
    case DoneBegin => s.fences == 3 * s.epoch && s.epoch >= 1 && n <= s.base < n + workers
    case PutDone(i) => s.fences == 3 * s.epoch + 1 && s.epoch >= 1 && i < workers && n <= s.base < n + workers
    case EndDone => s.fences == 3 * s.epoch + 1 && s.epoch >= 1 && n <= s.base < n + workers
    case RootEnd => s.fences == 3 * s.epoch + 2 && s.epoch >= 1 && n <= s.base < n + workers
  }

  /** Pieces whose epoch the workers have finished. */
  function Finished(s: State): nat { if s.pc.Collect? then s.base + |s.worker| else s.base }

  /** The pixels of all pieces, and the one pixel of the idle rectangle. */
  ghost predicate Touchable(j: Job, p: Point) { p == Point(-1, -1) || exists r :: r in j.pieces && r.Has(p) }

  ghost function Universe(j: Job): iset<Point> { iset p: Point | Touchable(j, p) }

  ghost predicate Untouched(j: Job, g0: Cells, grid: Cells) {
    forall a :: (forall p :: Touchable(j, p) ==> Addr(p, j.across) != a) ==>
      (a in grid <==> a in g0) && (a in grid ==> grid[a] == g0[a])
  }

  ghost predicate PieceRight(j: Job, grid: Cells, r: Rect) { forall p :: r.Has(p) ==> Right(j, grid, p) }

  ghost predicate GridFits(j: Job, g0: Cells, s: State) {
    && Untouched(j, g0, s.grid)
    && forall q: nat :: q < |j.pieces| && q < Finished(s) ==> PieceRight(j, s.grid, j.pieces[q])
  }

  /** The drawings passed on so far are exactly the pieces of the collected epochs, in hand-out order. */
  ghost predicate LogFits(j: Job, s: State) {
    && |s.log| == Min(s.base, |j.pieces|)
    && forall q :: 0 <= q < |s.log| ==> s.log[q] == Drawing(j.pieces[q], Data(j.f, j.pieces[q]))
  }

  /** While the root collects, its slots still name the pieces of this epoch. */
  ghost predicate SlotsFit(j: Job, s: State) {
    s.pc.Collect? ==> forall v: nat :: v < |s.slots| ==> s.slots[v] == SlotAt(j.pieces, s.base + v)
  }

  ghost predicate Inv(j: Job, g0: Cells, s: State) {
    && 1 <= |s.worker| == |s.slots|
    && s.base == s.epoch * |s.worker|
    && PcFits(j, s) && Workers(j, s) && GridFits(j, g0, s) && LogFits(j, s) && SlotsFit(j, s)
  }

  /** What the tiling guarantees: pieces are proper rectangles inside the image. */
  ghost predicate JobFits(j: Job) {
    && 1 <= j.across && 1 <= j.down && 1 <= |j.pieces|
    && forall r :: r in j.pieces ==> r.Proper() && 0 <= r.imin && r.imax < j.across && 0 <= r.jmin && r.jmax < j.down
  }
}
