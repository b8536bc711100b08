/** Whole runs of the pmandel.c scheduler: safety, progress, length and result. */
module WildcardRuns {
  import opened Options
  import opened Rects
  import opened Tiles
  import opened Picture
  import opened Counting
  import opened Courier
  import opened Ledger
  import opened Wildcard
  import WorkBag

  ghost predicate Moves(j: Job, s: State, s': State, strict: bool) {
    exists a :: Fire(j, s, a, strict) == Some(s')
  }

  /** A run of one round from its start; every send may be buffered. */
  ghost predicate Run(j: Job, workers: nat, trace: seq<State>) {
    && |trace| >= 1
    && trace[0] == Start(workers)
    && forall i :: 0 <= i < |trace| - 1 ==> Moves(j, trace[i], trace[i + 1], false)
  }

  /** The round is over: the root is past its loops, every worker has stopped, every channel is empty. */
  ghost predicate Over(s: State) {
    s.pc.Finished? && forall c :: c in s.conv ==> c == FRESH.(phase := Stopped)
  }

  /** A step possible with synchronous sends is the same step with buffered ones. */
  lemma StrictIsBuffered(j: Job, s: State, a: Action)
    requires Fire(j, s, a, true).Some?
    ensures Fire(j, s, a, false) == Fire(j, s, a, true)
  {
  }

  /** The bag of work stays safe under every step. */
  lemma BagSafe(j: Job, s: State, a: Action)
    requires Inv(j, s) && WorkBag.Safe(Abs(s), |j.pieces|, |s.conv|) && Fire(j, s, a, false).Some?
    ensures WorkBag.Safe(Abs(Fire(j, s, a, false).value), |j.pieces|, |s.conv|)
  {
    StepGood(j, s, a, false);
    match EventOf(j, s, a) {
      case Some(e) => WorkBag.StepSafe(Abs(s), e, |j.pieces|, |s.conv|);
      case None =>
    }
  }

  /** At every moment of every run each piece is in exactly one place, and the number of steps taken and
      the number still needed add up to 9 per piece and 3 per worker. */
  lemma {:induction false} RunSafe(j: Job, workers: nat, trace: seq<State>)
    requires 1 <= workers <= |j.pieces| && Run(j, workers, trace)
    ensures var s := trace[|trace| - 1];
            && Inv(j, s) && |s.conv| == workers
            && WorkBag.Safe(Abs(s), |j.pieces|, workers)
            && Remaining(j, s) + (|trace| - 1) == 9 * |j.pieces| + 3 * workers
  {
    var n := |trace| - 1;
    if n == 0 {
      StartInv(j, workers);
      WorkBag.EmptySafe(|j.pieces|, workers);
      SumZero(Left, trace[0].conv);
    } else {
      assert Run(j, workers, trace[..n]);
      RunSafe(j, workers, trace[..n]);
      var s := trace[n - 1];
      assert s == trace[..n][n - 1] && Moves(j, trace[n - 1], trace[n - 1 + 1], false);
      var a :| Fire(j, s, a, false) == Some(trace[n]);
      StepGood(j, s, a, false);
      BagSafe(j, s, a);
    }
  }

  // ---- progress

  /** While a loop has rounds left, some worker is neither stopped nor waited for. */
  lemma SomeoneBusy(j: Job, s: State) returns (w: nat)
    requires Inv(j, s) && s.pc.AwaitHeader?
    ensures w < |s.conv| && RoleOf(s, w) == On
  {
    SetBelow(s.stopped, |s.conv|);
    assert !forall v: nat :: v < |s.conv| ==> v in s.stopped;
    w :| w < |s.conv| && w !in s.stopped;
  }

  /** In every unfinished state some step is possible, even if no send returns before it is received. */
  lemma Progress(j: Job, s: State) returns (a: Action)
    requires Inv(j, s) && !Over(s)
    ensures Fire(j, s, a, true).Some?
  {
    var w: nat := 0;
    match s.pc {
      case HandOut(_) => return RootAct;
      case Reply(_) => return RootAct;
      case HandOutReturn(i) => w := i;
      case ReplyReturn(v) => w := v;
      case AwaitHeader => w := SomeoneBusy(j, s);
      case AwaitData(h) => w := SourceOf(h);
      case Finished =>
        SetBelow(s.stopped, |s.conv|);
        var c :| c in s.conv && c != FRESH.(phase := Stopped);
        w :| w < |s.conv| && s.conv[w] == c;
    }
    assert Fits(ByRank, j.f, j.pieces, s.k, w, s.conv[w], RoleOf(s, w));
    BusyMoves(ByRank, j.f, j.pieces, s.k, w, s.conv[w], RoleOf(s, w));
    if WorkerStep(ByRank, j.f, w, s.conv[w], true).Some? {
      a := WorkerAct(w);
    } else if s.pc.AwaitHeader? {
      a := TakeHeader(w);
    } else {
      a := RootAct;
    }
  }

  lemma OverHasNoStep(j: Job, s: State)
    requires Over(s)
    ensures forall a, strict :: Fire(j, s, a, strict).None?
  {
    forall a, strict ensures Fire(j, s, a, strict).None? {
      match a {
        case WorkerAct(w) => if w < |s.conv| { assert s.conv[w] in s.conv; }
        case _ =>
      }
    }
  }

  lemma RemainingNonNegative(j: Job, s: State)
    requires Inv(j, s)
    ensures Remaining(j, s) >= 0
    ensures Over(s) ==> Remaining(j, s) == 0
  {
    SetBelow(s.stopped, |s.conv|);
    match s.pc {
      case AwaitData(h) =>
        var w := SourceOf(h);
        assert Fits(ByRank, j.f, j.pieces, s.k, w, s.conv[w], RoleOf(s, w));
        SumUpdate(Left, s.conv, w, s.conv[w]);
      case _ =>
    }
    if Over(s) {
      SumZero(Left, s.conv);
    }
  }

  /** Every round ends, after exactly 9 N + 3 W steps whatever the interleaving; a run that has taken fewer
      can go on, whether or not sends are buffered. */
  lemma RunEnds(j: Job, workers: nat, trace: seq<State>)
    requires 1 <= workers <= |j.pieces| && Run(j, workers, trace)
    ensures var s, total := trace[|trace| - 1], 9 * |j.pieces| + 3 * workers;
            && |trace| - 1 <= total
            && (Over(s) <==> |trace| - 1 == total)
            && (!Over(s) ==> exists a :: Fire(j, s, a, true).Some?)
            && (Over(s) ==> forall a, strict :: Fire(j, s, a, strict).None?)
  {
    var s := trace[|trace| - 1];
    RunSafe(j, workers, trace);
    RemainingNonNegative(j, s);
    if Over(s) {
      OverHasNoStep(j, s);
    } else {
      var a := Progress(j, s);
      StepGood(j, s, a, true);
      RemainingNonNegative(j, Fire(j, s, a, true).value);
    }
  }

  lemma RunExtend(j: Job, workers: nat, trace: seq<State>, a: Action)
    requires Run(j, workers, trace) && Fire(j, trace[|trace| - 1], a, true).Some?
    ensures var s' := Fire(j, trace[|trace| - 1], a, true).value;
            Run(j, workers, trace + [s']) && Moves(j, trace[|trace| - 1], s', true)
  {
    var s := trace[|trace| - 1];
    StrictIsBuffered(j, s, a);
    var next := trace + [Fire(j, s, a, true).value];
    forall i | 0 <= i < |next| - 1 ensures Moves(j, next[i], next[i + 1], false) {
      if i < |trace| - 1 {
        assert Moves(j, trace[i], trace[i + 1], false);
      } else {
        assert Fire(j, s, a, false) == Some(next[i + 1]);
      }
    }
  }

  /** From step n on, every step is one that synchronous sends allow. */
  ghost predicate StrictFrom(j: Job, trace: seq<State>, n: nat) {
    forall i :: n <= i < |trace| - 1 ==> Moves(j, trace[i], trace[i + 1], true)
  }

  /** From any reachable state the round can be driven to its end by steps that no synchronous send blocks. */
  lemma {:induction false} CanFinish(j: Job, workers: nat, trace: seq<State>) returns (longer: seq<State>)
    requires 1 <= workers <= |j.pieces| && Run(j, workers, trace)
    ensures Run(j, workers, longer) && trace <= longer && Over(longer[|longer| - 1])
    ensures StrictFrom(j, longer, |trace| - 1)
    decreases 9 * |j.pieces| + 3 * workers - |trace|
  {
    RunEnds(j, workers, trace);
    if Over(trace[|trace| - 1]) {
      longer := trace;
    } else {
      var a :| Fire(j, trace[|trace| - 1], a, true).Some?;
      RunExtend(j, workers, trace, a);
      var next := trace + [Fire(j, trace[|trace| - 1], a, true).value];
      longer := CanFinish(j, workers, next);
      assert longer[|trace|] == next[|trace|] && longer[|trace| - 1] == trace[|trace| - 1];
    }
  }

  // ---- runs whose sends are all synchronous

  /** No send has returned whose message is still on its way: a worker has at most one message unreceived and waits at
      its send, and a piece of work or stop message is unreceived only while the root waits at its send. */
  predicate AllSynchronous(s: State) { forall w: nat :: w < |s.conv| ==> SynchronousAt(s, w) }

  predicate SynchronousAt(s: State, w: nat)
    requires w < |s.conv|
  {
    && Synchronous(s.conv[w])
    && (s.conv[w].work != [] ==> |s.conv[w].work| == 1 && AtSend(s.pc, w))
  }

  /** The root waits at a send to worker w. */
  predicate AtSend(pc: RootPc, w: nat) { pc == HandOutReturn(w) || pc == ReplyReturn(w) }

  lemma StrictStepAt(j: Job, s: State, a: Action, w: nat)
    requires AllSynchronous(s) && Fire(j, s, a, true).Some? && w < |s.conv|
    ensures |Fire(j, s, a, true).value.conv| == |s.conv| && SynchronousAt(Fire(j, s, a, true).value, w)
  {
    assert SynchronousAt(s, w);
    if a.WorkerAct? && a.w == w {
      SynchronousStep(ByRank, j.f, w, s.conv[w]);
    }
  }

  lemma StrictStep(j: Job, s: State, a: Action)
    requires AllSynchronous(s) && Fire(j, s, a, true).Some?
    ensures AllSynchronous(Fire(j, s, a, true).value)
  {
    var s' := Fire(j, s, a, true).value;
    forall w: nat | w < |s'.conv| ensures SynchronousAt(s', w) {
      assert |s'.conv| == |s.conv|;
      StrictStepAt(j, s, a, w);
    }
  }

  lemma StrictMove(j: Job, s: State, s': State)
    requires AllSynchronous(s) && Moves(j, s, s', true)
    ensures AllSynchronous(s')
  {
    var a :| Fire(j, s, a, true) == Some(s');
    StrictStep(j, s, a);
  }

  lemma {:induction false} StrictRunHolds(j: Job, workers: nat, trace: seq<State>)
    requires |trace| >= 1 && trace[0] == Start(workers) && StrictFrom(j, trace, 0)
    ensures AllSynchronous(trace[|trace| - 1])
  {
    var n := |trace| - 1;
    if n > 0 {
      forall i | 0 <= i < n - 1 ensures Moves(j, trace[..n][i], trace[..n][i + 1], true) {
        assert Moves(j, trace[i], trace[i + 1], true);
      }
      StrictRunHolds(j, workers, trace[..n]);
      assert Moves(j, trace[n - 1], trace[n - 1 + 1], true);
      StrictMove(j, trace[n - 1], trace[n]);
    }
  }

  /** With synchronous sends only, a worker past the send of its header, or of its data, finds that it was received, and
      so does the root past the send of a piece or of a stop message. */
  lemma StrictRun(j: Job, workers: nat, trace: seq<State>, w: nat)
    requires |trace| >= 1 && trace[0] == Start(workers) && StrictFrom(j, trace, 0)
    requires w < |trace[|trace| - 1].conv|
    ensures var s, c := trace[|trace| - 1], trace[|trace| - 1].conv[w];
            && (c.phase.DataReady? || c.phase.DataPosted? ==> c.headers == [])
            && (c.phase.Waiting? || c.phase.HeaderReady? || c.phase.Stopped? ==> c.headers == [] && c.data == [])
            && (!AtSend(s.pc, w) ==> c.work == [])
            && |c.work| <= 1 && |c.headers| + |c.data| <= 1
  {
    StrictRunHolds(j, workers, trace);
    assert SynchronousAt(trace[|trace| - 1], w);
  }

  // ---- what the root receives

  /** Whenever the root holds a header, the data it waits for is the data of that header's rectangle, from
      the worker the header names, and of exactly the length the root computes; nothing else can arrive. */
  lemma HeaderMatchesData(j: Job, workers: nat, trace: seq<State>)
    requires 1 <= workers <= |j.pieces| && Run(j, workers, trace) && trace[|trace| - 1].pc.AwaitData?
    requires forall r :: r in j.pieces ==> r.Proper()
    ensures var s, h := trace[|trace| - 1], trace[|trace| - 1].pc.h;
            && 1 <= h.first <= |s.conv| && (h.first - 1) !in s.stopped && h.rect in j.pieces
            && s.conv[h.first - 1].headers == []
            && (s.conv[h.first - 1].data == [] || s.conv[h.first - 1].data == [Render(j.f, h.rect)])
            && |Render(j.f, h.rect)| == h.rect.Area()
  {
    var s := trace[|trace| - 1];
    RunSafe(j, workers, trace);
    var w := SourceOf(s.pc.h);
    assert Fits(ByRank, j.f, j.pieces, s.k, w, s.conv[w], RoleOf(s, w));
  }

  /** At the end every piece has been drawn exactly once, with its own data, every worker was sent exactly
      one stop message, and all channels are empty. */
  lemma RunResult(j: Job, workers: nat, trace: seq<State>)
    requires 1 <= workers <= |j.pieces| && Run(j, workers, trace) && Over(trace[|trace| - 1])
    requires forall r :: r in j.pieces ==> r.Proper()
    ensures var s := trace[|trace| - 1];
            && multiset(s.drawn) == multiset(WorkBag.Upto(|j.pieces|))
            && multiset(RectsOf(s.log)) == multiset(j.pieces) && Faithful(s.log, j.f)
            && s.tail == workers && |s.stopped| == workers && (forall w: nat :: w < workers ==> w in s.stopped)
            && forall c :: c in s.conv ==> c.work == [] && c.headers == [] && c.data == []
  {
    var s := trace[|trace| - 1];
    RunSafe(j, workers, trace);
    assert Abs(s).held == map[] by {
      forall w | 0 <= w < workers ensures s.conv[w].job == None { assert s.conv[w] in s.conv; }
    }
    WorkBag.AllDrawn(Abs(s), |j.pieces|, workers);
    LogHoldsPieces(j.f, j.pieces, s.log, s.drawn);
    SetBelow(s.stopped, workers);
  }

  // ---- the image

  /** A finished run over the shuffled tiles of an image. */
  ghost predicate Finished(j: Job, workers: nat, trace: seq<State>, across: int, down: int, g: int)
    requires 1 <= across && 1 <= down && 1 <= g
  {
    && 1 <= workers <= |j.pieces| && multiset(j.pieces) == multiset(Cut(across, down, g))
    && Run(j, workers, trace) && Over(trace[|trace| - 1])
  }

  lemma RunRound(j: Job, workers: nat, trace: seq<State>, across: int, down: int, g: int)
    requires 1 <= across && 1 <= down && 1 <= g && Finished(j, workers, trace, across, down, g)
    ensures Round(trace[|trace| - 1].log, j.f, across, down, g)
  {
    ShuffledProper(j.pieces, across, down, g);
    RunResult(j, workers, trace);
  }

  /** For an image of any shape, a finished round has drawn only inside the grid array exactly when the tiles reach no
      further down than the image is wide. */
  lemma RunStaysInside(j: Job, workers: nat, trace: seq<State>, across: int, down: int, g: int)
    requires 1 <= across && 1 <= down && 1 <= g && Finished(j, workers, trace, across, down, g)
    ensures (forall p :: DrawnAt(trace[|trace| - 1].log, p) ==> InGrid(across, down, p)) <==> Reach(down, g) <= across
  {
    RunRound(j, workers, trace, across, down, g);
    RoundFits(trace[|trace| - 1].log, j.f, across, down, g);
  }

  /** For a square image, or one of a single row, every run of every shuffle leaves the sequential image in the covered
      part of the root's grid and everything else as it was. */
  lemma RunShowsImage(j: Job, workers: nat, trace: seq<State>, across: int, down: int, g: int, g0: Cells)
    requires 1 <= across && 1 <= down && 1 <= g && Finished(j, workers, trace, across, down, g)
    requires across == down || down == 1
    ensures var log := trace[|trace| - 1].log;
            && Round(log, j.f, across, down, g)
            && Shows(Assemble(g0, down, log), g0, j.f, across, iset p | Covered(across, down, g, p))
  {
    RunRound(j, workers, trace, across, down, g);
    RoundShows(trace[|trace| - 1].log, j.f, across, down, g, g0);
  }

  // ---- the order of the drawings

  /** With one worker the bag of work goes through the pieces in order. */
  lemma {:induction false} RunOneByOne(j: Job, trace: seq<State>)
    requires 1 <= |j.pieces| && Run(j, 1, trace)
    ensures WorkBag.OneByOne(Abs(trace[|trace| - 1]))
  {
    var n := |trace| - 1;
    if n == 0 {
      StartInv(j, 1);
    } else {
      assert Run(j, 1, trace[..n]);
      RunOneByOne(j, trace[..n]);
      RunSafe(j, 1, trace[..n]);
      assert trace[n - 1] == trace[..n][n - 1] && Moves(j, trace[n - 1], trace[n - 1 + 1], false);
      MoveOneByOne(j, trace[n - 1], trace[n]);
    }
  }

  lemma MoveOneByOne(j: Job, s: State, s': State)
    requires Inv(j, s) && |s.conv| == 1 && Moves(j, s, s', false) && WorkBag.OneByOne(Abs(s))
    ensures WorkBag.OneByOne(Abs(s'))
  {
    var a :| Fire(j, s, a, false) == Some(s');
    StepGood(j, s, a, false);
    match EventOf(j, s, a) {
      case Some(e) => WorkBag.OneByOneStep(Abs(s), e, |j.pieces|);
      case None =>
    }
  }

  /** So the drawings of a finished run are those of the pieces, in their order. */
  lemma RunInOrder(j: Job, trace: seq<State>)
    requires 1 <= |j.pieces| && Run(j, 1, trace) && Over(trace[|trace| - 1])
    ensures trace[|trace| - 1].log == Drawings(j.f, j.pieces)
  {
    var s := trace[|trace| - 1];
    RunSafe(j, 1, trace);
    RunOneByOne(j, trace);
    assert s.conv[0] in s.conv && 0 !in Abs(s).held;
    LogInOrder(j.f, j.pieces, s.log, s.drawn);
  }

  /** One worker can draw the tiles in any order. */
  lemma RunOf(j: Job) returns (trace: seq<State>)
    requires 1 <= |j.pieces|
    ensures Run(j, 1, trace) && Over(trace[|trace| - 1]) && trace[|trace| - 1].log == Drawings(j.f, j.pieces)
  {
    trace := CanFinish(j, 1, [Start(1)]);
    RunInOrder(j, trace);
  }

  /** Runs with different shuffles, interleavings and worker counts leave the same grid. */
  lemma RunsAgree(
    j1: Job, j2: Job, workers1: nat, workers2: nat, t1: seq<State>, t2: seq<State>,
    across: int, down: int, g: int, g0: Cells)
    requires 1 <= across && 1 <= down && 1 <= g && OrderFree(across, down, g) && j1.f == j2.f
    requires Finished(j1, workers1, t1, across, down, g) && Finished(j2, workers2, t2, across, down, g)
    ensures SameGrid(t1[|t1| - 1].log, t2[|t2| - 1].log, j1.f, down, g0)
  {
    RunRound(j1, workers1, t1, across, down, g);
    RunRound(j2, workers2, t2, across, down, g);
    RoundsAgree(t1[|t1| - 1].log, t2[|t2| - 1].log, j1.f, across, down, g, g0);
  }

  /** They do so for every picture exactly when no tile wraps around into another row of tiles. */
  lemma RunsAgreeIff(across: int, down: int, g: int, g0: Cells)
    requires 1 <= across && 1 <= down && 1 <= g
    ensures (forall j1: Job, workers1, t1: seq<State>, j2: Job, workers2, t2: seq<State> ::
              (&& Finished(j1, workers1, t1, across, down, g)
               && Finished(j2, workers2, t2, across, down, g)
               && j1.f == j2.f) ==> SameGrid(t1[|t1| - 1].log, t2[|t2| - 1].log, j1.f, down, g0))
            <==> OrderFree(across, down, g)
  {
    if OrderFree(across, down, g) {
      forall j1: Job, workers1, t1: seq<State>, j2: Job, workers2, t2: seq<State>
        | Finished(j1, workers1, t1, across, down, g) && Finished(j2, workers2, t2, across, down, g) && j1.f == j2.f
        ensures SameGrid(t1[|t1| - 1].log, t2[|t2| - 1].log, j1.f, down, g0)
      {
        RunsAgree(j1, j2, workers1, workers2, t1, t2, across, down, g, g0);
      }
    } else {
      var j1, j2, t1, t2 := RunsDiffer(across, down, g, g0);
    }
  }

  lemma RunsDiffer(across: int, down: int, g: int, g0: Cells)
    returns (j1: Job, j2: Job, t1: seq<State>, t2: seq<State>)
    requires 1 <= across && 1 <= down && 1 <= g && !OrderFree(across, down, g)
    ensures Finished(j1, 1, t1, across, down, g) && Finished(j2, 1, t2, across, down, g) && j1.f == j2.f
    ensures !SameGrid(t1[|t1| - 1].log, t2[|t2| - 1].log, j1.f, down, g0)
  {
    var f := Probe(Step(down, g));
    var one, two := OrdersDiffer(f, across, down, g, g0);
    j1, j2 := Job(f, one), Job(f, two);
    CutSize(one, across, down, g);
    CutSize(two, across, down, g);
    t1 := RunOf(j1);
    t2 := RunOf(j2);
  }
}
