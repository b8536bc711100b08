/** Whole runs of the fence protocol: safety, length, fence counts, epochs, absence of races. */
module FenceRuns {
  import opened Options
  import opened Rects
  import opened Picture
  import opened Counting
  import opened Courier
  import opened Put
  import opened Fence
  import opened FenceSteps
  import opened FenceLength

  ghost predicate Moves(j: Job, s: State, s': State)
    requires |s.worker| == |s.slots|
  {
    exists act :: Fire(j, s, act) == Some(s')
  }

  /** The workers' slots may hold anything at first. */
  ghost predicate Begins(slots: seq<Msg>, g0: Cells, s: State) {
    exists windows: seq<Msg> :: |windows| == |slots| && s == Start(slots, windows, g0)
  }

  ghost predicate Run(j: Job, slots: seq<Msg>, g0: Cells, trace: seq<State>) {
    && |trace| >= 1
    && Begins(slots, g0, trace[0])
    && forall i :: 0 <= i < |trace| - 1 ==> |trace[i].worker| == |trace[i].slots| && Moves(j, trace[i], trace[i + 1])
  }

  lemma StartInv(j: Job, slots: seq<Msg>, g0: Cells, s: State)
    requires JobFits(j) && 1 <= |slots| && Begins(slots, g0, s)
    ensures Inv(j, g0, s) && |s.worker| == |slots|
  {
  }

  lemma StartCounts(j: Job, slots: seq<Msg>, g0: Cells, s: State)
    requires JobFits(j) && 1 <= |slots| && Begins(slots, g0, s)
    ensures |s.worker| == |slots| && Remaining(j, s) == RoundSteps(j.pieces, |slots|)
  {
    StartRemaining(j, s);
  }

  lemma MovesKeep(j: Job, g0: Cells, s: State, s': State)
    requires JobFits(j) && Inv(j, g0, s) && Moves(j, s, s')
    ensures Inv(j, g0, s') && |s'.worker| == |s.worker|
  {
    var act :| Fire(j, s, act) == Some(s');
    StepInv(j, g0, s, act);
  }

  lemma MovesCount(j: Job, g0: Cells, s: State, s': State)
    requires JobFits(j) && Inv(j, g0, s) && Moves(j, s, s')
    ensures |s'.worker| == |s.worker| && Remaining(j, s') == Remaining(j, s) - 1
  {
    var act :| Fire(j, s, act) == Some(s');
    StepCounts(j, g0, s, act);
  }

  lemma RunPrefix(j: Job, slots: seq<Msg>, g0: Cells, trace: seq<State>)
    requires Run(j, slots, g0, trace) && |trace| >= 2
    ensures var n := |trace| - 1;
            && Run(j, slots, g0, trace[..n])
            && |trace[n - 1].worker| == |trace[n - 1].slots| && Moves(j, trace[n - 1], trace[n])
  {
    var n := |trace| - 1;
    assert Moves(j, trace[n - 1], trace[n - 1 + 1]);
    forall i | 0 <= i < n - 1
      ensures |trace[..n][i].worker| == |trace[..n][i].slots| && Moves(j, trace[..n][i], trace[..n][i + 1])
    {
      assert Moves(j, trace[i], trace[i + 1]);
    }
  }

  lemma {:induction false} RunSafe(j: Job, slots: seq<Msg>, g0: Cells, trace: seq<State>)
    requires JobFits(j) && 1 <= |slots| && Run(j, slots, g0, trace)
    ensures var s := trace[|trace| - 1]; Inv(j, g0, s) && |s.worker| == |slots|
  {
    var n := |trace| - 1;
    if n == 0 {
      StartInv(j, slots, g0, trace[0]);
    } else {
      RunPrefix(j, slots, g0, trace);
      RunSafe(j, slots, g0, trace[..n]);
      MovesKeep(j, g0, trace[n - 1], trace[n]);
    }
  }

  /** Steps taken and steps left always add up to the steps of the round. */
  lemma {:induction false} RunCounts(j: Job, slots: seq<Msg>, g0: Cells, trace: seq<State>)
    requires JobFits(j) && 1 <= |slots| && Run(j, slots, g0, trace)
    ensures var s := trace[|trace| - 1];
            |s.worker| == |slots| && Remaining(j, s) + (|trace| - 1) == RoundSteps(j.pieces, |slots|)
  {
    var n := |trace| - 1;
    if n == 0 {
      StartCounts(j, slots, g0, trace[0]);
    } else {
      RunPrefix(j, slots, g0, trace);
      RunCounts(j, slots, g0, trace[..n]);
      RunSafe(j, slots, g0, trace[..n]);
      MovesCount(j, g0, trace[n - 1], trace[n]);
    }
  }

  // ---- progress, termination and the number of fences

  ghost predicate Over(s: State) { s.pc.RootEnd? && forall w :: w in s.worker ==> w.pc.WorkerEnd? }

  /** A worker with nothing in flight and no slot to test waits where the root waits. */
  predicate Settled(w: Worker) { w.incoming.None? && w.outgoing == map[] && !w.pc.Test? }

  lemma SettledPasses(j: Job, g0: Cells, s: State)
    requires Inv(j, g0, s) && !Over(s) && (RootAtFence(s.pc) || s.pc.RootEnd?)
    requires forall v: nat :: v < |s.worker| ==> Settled(s.worker[v])
    ensures CanPass(s)
  {
    forall w | w in s.worker
      ensures if s.pc.RootEnd? then w.pc.WorkerEnd? else WorkerAtFence(w.pc) && w.incoming.None? && w.outgoing == map[]
    {
      var v: nat :| v < |s.worker| && s.worker[v] == w;
      assert WorkerFits(j, StageOf(s), s.epoch == 0, s.base, s.grid, v, s.worker[v], s.slots[v]);
    }
  }

  lemma KeyOrEmpty(m: Cells)
    ensures m == map[] || exists a :: a in m
  {
    if forall a :: a !in m {
      assert m == map[];
    }
  }

  /** No fence ever waits for a process that has ended: while anything is unfinished some step is possible. */
  lemma Progress(j: Job, g0: Cells, s: State) returns (act: Action)
    requires JobFits(j) && Inv(j, g0, s) && !Over(s)
    ensures Fire(j, s, act).Some?
  {
    if s.pc.Put? || s.pc.PutDone? || s.pc.Collect? {
      act := RootAct;
    } else if v: nat :| v < |s.worker| && !Settled(s.worker[v]) {
      var w := s.worker[v];
      if w.incoming.Some? {
        act := Land(v);
      } else if w.outgoing != map[] {
        KeyOrEmpty(w.outgoing);
        var a :| a in w.outgoing;
        act := Deliver(v, a);
      } else {
        act := TestWork(v);
      }
    } else {
      SettledPasses(j, g0, s);
      act := Pass;
    }
  }

  lemma OverIsZero(j: Job, g0: Cells, s: State)
    requires JobFits(j) && Inv(j, g0, s) && Over(s)
    ensures Remaining(j, s) == 0
  {
    RemainingNonNegative(j, g0, s);
    forall w | w in s.worker ensures WorkerLeft(j)(w) == 0 {
      var v: nat :| v < |s.worker| && s.worker[v] == w;
      assert WorkerFits(j, StageOf(s), s.epoch == 0, s.base, s.grid, v, s.worker[v], s.slots[v]);
    }
    SumZero(WorkerLeft(j), s.worker);
  }

  lemma UnfinishedLeft(j: Job, g0: Cells, s: State) returns (act: Action)
    requires JobFits(j) && Inv(j, g0, s) && !Over(s)
    ensures Fire(j, s, act).Some? && Remaining(j, s) >= 1
  {
    act := Progress(j, g0, s);
    StepInv(j, g0, s, act);
    StepCounts(j, g0, s, act);
    RemainingNonNegative(j, g0, Fire(j, s, act).value);
  }

  /** Every round ends, after exactly the same number of steps whatever the interleaving and whatever the root and the
      workers found in their memory; a run that has taken fewer can go on, a finished one cannot. */
  lemma RunEnds(j: Job, slots: seq<Msg>, g0: Cells, trace: seq<State>)
    requires JobFits(j) && 1 <= |slots| && Run(j, slots, g0, trace)
    ensures var s, total := trace[|trace| - 1], RoundSteps(j.pieces, |slots|);
            && |trace| - 1 <= total
            && (Over(s) <==> |trace| - 1 == total)
            && |s.worker| == |s.slots| && (Over(s) <==> forall act :: Fire(j, s, act).None?)
  {
    var s := trace[|trace| - 1];
    RunSafe(j, slots, g0, trace);
    RunCounts(j, slots, g0, trace);
    if Over(s) {
      OverIsZero(j, g0, s);
      forall act ensures Fire(j, s, act).None? {
        if Fire(j, s, act).Some? {
          StepInv(j, g0, s, act);
          StepCounts(j, g0, s, act);
          RemainingNonNegative(j, g0, Fire(j, s, act).value);
        }
      }
    } else {
      var act := UnfinishedLeft(j, g0, s);
    }
  }

  lemma RunExtend(j: Job, slots: seq<Msg>, g0: Cells, trace: seq<State>, act: Action)
    requires Run(j, slots, g0, trace) && |trace[|trace| - 1].worker| == |trace[|trace| - 1].slots|
    requires Fire(j, trace[|trace| - 1], act).Some?
    ensures Run(j, slots, g0, trace + [Fire(j, trace[|trace| - 1], act).value])
  {
    var s' := Fire(j, trace[|trace| - 1], act).value;
    var next := trace + [s'];
    forall i | 0 <= i < |next| - 1 ensures |next[i].worker| == |next[i].slots| && Moves(j, next[i], next[i + 1]) {
      if i < |trace| - 1 {
        assert Moves(j, trace[i], trace[i + 1]);
      } else {
        assert Fire(j, next[i], act) == Some(next[i + 1]);
      }
    }
  }

  /** From every reachable state the round can be driven to its end. */
  lemma {:induction false} CanFinish(j: Job, slots: seq<Msg>, g0: Cells, trace: seq<State>) returns (longer: seq<State>)
    requires JobFits(j) && 1 <= |slots| && Run(j, slots, g0, trace)
    ensures Run(j, slots, g0, longer) && trace <= longer && Over(longer[|longer| - 1])
    decreases RoundSteps(j.pieces, |slots|) - |trace|
  {
    RunEnds(j, slots, g0, trace);
    var s := trace[|trace| - 1];
    if Over(s) {
      longer := trace;
    } else {
      var act :| Fire(j, s, act).Some?;
      RunExtend(j, slots, g0, trace, act);
      longer := CanFinish(j, slots, g0, trace + [Fire(j, s, act).value]);
    }
  }

  /** All processes end together, after 2 + 3 * ceil(N / W) fences each. */
  lemma FenceCount(j: Job, slots: seq<Msg>, g0: Cells, trace: seq<State>)
    requires JobFits(j) && 1 <= |slots| && Run(j, slots, g0, trace)
    ensures var s := trace[|trace| - 1];
            && s.fences <= FencesTotal(|j.pieces|, |slots|)
            && (s.pc.RootEnd? || (exists w :: w in s.worker && w.pc.WorkerEnd?) ==>
                  s.pc.RootEnd? && s.fences == FencesTotal(|j.pieces|, |slots|))
            && (!Over(s) ==> |s.worker| == |s.slots| && exists act :: Fire(j, s, act).Some?)
  {
    var s := trace[|trace| - 1];
    RunSafe(j, slots, g0, trace);
    RemainingNonNegative(j, g0, s);
    BaseFits(j, g0, s);
    if w :| w in s.worker && w.pc.WorkerEnd? {
      var v: nat :| v < |s.worker| && s.worker[v] == w;
      assert WorkerFits(j, StageOf(s), s.epoch == 0, s.base, s.grid, v, s.worker[v], s.slots[v]);
    }
    if !Over(s) {
      var act := Progress(j, g0, s);
    }
  }

  // ---- epochs and races

  /** A worker about to read its slot has no put coming and the root is not in a put epoch; while the root
      reads its window no put is in flight and no worker can issue one; the root's puts and the workers'
      never share an epoch. */
  lemma NoRaces(j: Job, slots: seq<Msg>, g0: Cells, trace: seq<State>, v: nat)
    requires JobFits(j) && Run(j, slots, g0, trace) && v < |slots|
    ensures var s := trace[|trace| - 1]; v < |s.worker| && var w := s.worker[v];
            && (w.pc.Test? ==> w.incoming.None? && (s.pc.WaitWork? || s.pc.RootEnd?))
            && (s.pc.Collect? ==> w.outgoing == map[] && w.pc.Hold?)
            && (w.outgoing != map[] ==> s.pc.WaitWork? && w.pc.Sync?)
            && (w.incoming.Some? ==> s.pc.Put? || s.pc.EndPut? || s.pc.PutDone? || s.pc.EndDone?)
  {
    RunSafe(j, slots, g0, trace);
    var s := trace[|trace| - 1];
    assert WorkerFits(j, StageOf(s), s.epoch == 0, s.base, s.grid, v, s.worker[v], s.slots[v]);
  }

  /** In epoch e worker v works on piece e * W + v, or on the idle rectangle once the pieces have run out. */
  lemma EpochWork(j: Job, slots: seq<Msg>, g0: Cells, trace: seq<State>, v: nat)
    requires JobFits(j) && Run(j, slots, g0, trace) && v < |slots| && trace[|trace| - 1].pc.WaitWork?
    ensures var s := trace[|trace| - 1];
            && v < |s.worker| == |slots|
            && s.epoch < Epochs(|j.pieces|, |slots|)
            && (var turn := s.epoch * |slots| + v;
                s.worker[v].window == if turn < |j.pieces| then Msg(turn + 1, j.pieces[turn])
                                      else Msg(-1, Rect(-1, -1, -1, -1)))
            && s.worker[v].window == SlotAt(j.pieces, Turn(s.epoch, |slots|, v))
            && forall a :: a in s.worker[v].outgoing ==>
                 a in WriteMap(j.f, j.across, SlotAt(j.pieces, Turn(s.epoch, |slots|, v)).rect)
  {
    RunSafe(j, slots, g0, trace);
    var s := trace[|trace| - 1];
    EpochsMore(|j.pieces|, |slots|, s.epoch);
    assert WorkerFits(j, StageOf(s), s.epoch == 0, s.base, s.grid, v, s.worker[v], s.slots[v]);
  }
}
