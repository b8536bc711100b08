/** Whole runs of the pmandel_spawn.c scheduler, and its agreement with the pmandel.c one. */
module RequestsRuns {
  import opened Options
  import opened Rects
  import opened Tiles
  import opened Picture
  import opened Counting
  import opened Courier
  import opened Ledger
  import opened Requests
  import WorkBag
  import Wildcard
  import WildcardRuns

  ghost predicate Moves(j: Job, s: State, s': State, strict: bool) {
    exists a :: Fire(j, s, a, strict) == Some(s')
  }

  /** A run of one round from its start; garbage is what the result buffers hold before. */
  ghost predicate Run(j: Job, children: nat, garbage: Msg, trace: seq<State>) {
    && |trace| >= 1
    && trace[0] == Start(children, garbage)
    && forall i :: 0 <= i < |trace| - 1 ==> Moves(j, trace[i], trace[i + 1], false)
  }

  ghost predicate Over(s: State) {
    s.pc.Finished? && forall c :: c in s.child ==> c.conv == FRESH.(phase := Stopped)
  }

  lemma BagSafe(j: Job, s: State, a: Action)
    requires Inv(j, s) && WorkBag.Safe(Abs(s), |j.pieces|, |s.child|) && Fire(j, s, a, false).Some?
    ensures WorkBag.Safe(Abs(Fire(j, s, a, false).value), |j.pieces|, |s.child|)
  {
    StepGood(j, s, a, false);
    match EventOf(j, s, a) {
      case Some(e) => WorkBag.StepSafe(Abs(s), e, |j.pieces|, |s.child|);
      case None =>
    }
  }

  /** At every moment of every run each piece is in exactly one place, and the number of steps taken and
      the number still needed add up to 11 per piece and 3 per child. */
  lemma {:induction false} RunSafe(j: Job, children: nat, garbage: Msg, trace: seq<State>)
    requires 1 <= children <= |j.pieces| && Run(j, children, garbage, trace)
    ensures var s := trace[|trace| - 1];
            && Inv(j, s) && |s.child| == children
            && WorkBag.Safe(Abs(s), |j.pieces|, children)
            && Remaining(j, s) + (|trace| - 1) == 11 * |j.pieces| + 3 * children
  {
    var n := |trace| - 1;
    if n == 0 {
      StartInv(j, children, garbage);
      WorkBag.EmptySafe(|j.pieces|, children);
      SumZero(ChildLeft, trace[0].child);
    } else {
      assert Run(j, children, garbage, trace[..n]);
      RunSafe(j, children, garbage, trace[..n]);
      var s := trace[n - 1];
      assert s == trace[..n][n - 1] && Moves(j, trace[n - 1], trace[n - 1 + 1], false);
      var a :| Fire(j, s, a, false) == Some(trace[n]);
      StepGood(j, s, a, false);
      BagSafe(j, s, a);
    }
  }

  /** The child the root depends on next. */
  function Pivot(s: State): nat {
    match s.pc
    case HandOutReturn(i) => i
    case ReplyReturn(w) => w
    case StopReturn(w) => w
    case AwaitOne(i) => i
    case AwaitData(w, _) => w
    case _ => 0
  }

  /** In every unfinished state some step is possible, even if no send returns before it is received. */
  lemma Progress(j: Job, s: State) returns (a: Action)
    requires Inv(j, s) && !Over(s)
    ensures Fire(j, s, a, true).Some?
  {
    var w: nat := Pivot(s);
    match s.pc {
      case HandOut(_) => return RootAct;
      case HandOutIrecv(_) => return RootAct;
      case Reply(_) => return RootAct;
      case ReplyIrecv(_) => return RootAct;
      case Finished =>
        var c :| c in s.child && c.conv != FRESH.(phase := Stopped);
        w :| w < |s.child| && s.child[w] == c;
      case _ =>
    }
    assert ChildFits(j, s, w);
    BusyMoves(ByPiece, j.f, j.pieces, s.k, w, s.child[w].conv, RoleOf(s, w));
    if WorkerStep(ByPiece, j.f, w, s.child[w].conv, true).Some? {
      a := WorkerAct(w);
    } else if s.child[w].req.Active? && s.child[w].conv.headers != [] {
      a := Match(w);
    } else if s.pc.AwaitAny? {
      a := TakeAny(w);
    } else {
      a := RootAct;
    }
  }

  lemma OverHasNoStep(j: Job, s: State)
    requires Inv(j, s) && Over(s)
    ensures forall a, strict :: Fire(j, s, a, strict).None?
  {
    forall a, strict ensures Fire(j, s, a, strict).None? {
      match a {
        case WorkerAct(w) => if w < |s.child| { assert s.child[w] in s.child; }
        case Match(w) => if w < |s.child| { assert s.child[w] in s.child; }
        case _ =>
      }
    }
  }

  lemma RemainingNonNegative(j: Job, s: State)
    requires Inv(j, s)
    ensures Remaining(j, s) >= 0
    ensures Over(s) ==> Remaining(j, s) == 0
  {
    match s.pc {
      case AwaitData(w, h) =>
        assert ChildFits(j, s, w);
        SumUpdate(ChildLeft, s.child, w, s.child[w]);
      case _ =>
    }
    if Over(s) {
      SumZero(ChildLeft, s.child);
    }
  }

  /** Every round ends, after exactly 11 N + 3 W steps whatever the interleaving; a run that has taken fewer
      can go on, whether or not sends are buffered. */
  lemma RunEnds(j: Job, children: nat, garbage: Msg, trace: seq<State>)
    requires 1 <= children <= |j.pieces| && Run(j, children, garbage, trace)
    ensures var s, total := trace[|trace| - 1], 11 * |j.pieces| + 3 * children;
            && |trace| - 1 <= total
            && (Over(s) <==> |trace| - 1 == total)
            && (!Over(s) ==> exists a :: Fire(j, s, a, true).Some?)
            && (Over(s) ==> forall a, strict :: Fire(j, s, a, strict).None?)
  {
    var s := trace[|trace| - 1];
    RunSafe(j, children, garbage, trace);
    RemainingNonNegative(j, s);
    if Over(s) {
      OverHasNoStep(j, s);
    } else {
      var a := Progress(j, s);
      StepGood(j, s, a, true);
      RemainingNonNegative(j, Fire(j, s, a, true).value);
    }
  }

  /** A step possible with synchronous sends is the same step with buffered ones. */
  lemma StrictIsBuffered(j: Job, s: State, a: Action)
    requires Fire(j, s, a, true).Some?
    ensures Fire(j, s, a, false) == Fire(j, s, a, true)
  {
  }

  lemma RunExtend(j: Job, children: nat, garbage: Msg, trace: seq<State>, a: Action)
    requires Run(j, children, garbage, trace) && Fire(j, trace[|trace| - 1], a, true).Some?
    ensures var s' := Fire(j, trace[|trace| - 1], a, true).value;
            Run(j, children, garbage, trace + [s']) && Moves(j, trace[|trace| - 1], s', true)
  {
    var s := trace[|trace| - 1];
    StrictIsBuffered(j, s, a);
    var next := trace + [Fire(j, s, a, true).value];
    forall i | 0 <= i < |next| - 1 ensures Moves(j, next[i], next[i + 1], false) {
      if i < |trace| - 1 {
        assert Moves(j, trace[i], trace[i + 1], false);
      } else {
        assert Fire(j, s, a, false) == Some(next[i + 1]);
      }
    }
  }

  /** From step n on, every step is one that synchronous sends allow. */
  ghost predicate StrictFrom(j: Job, trace: seq<State>, n: nat) {
    forall i :: n <= i < |trace| - 1 ==> Moves(j, trace[i], trace[i + 1], true)
  }

  /** From any reachable state the round can be driven to its end by steps that no synchronous send blocks. */
  lemma {:induction false} CanFinish(j: Job, children: nat, garbage: Msg, trace: seq<State>)
    returns (longer: seq<State>)
    requires 1 <= children <= |j.pieces| && Run(j, children, garbage, trace)
    ensures Run(j, children, garbage, longer) && trace <= longer && Over(longer[|longer| - 1])
    ensures StrictFrom(j, longer, |trace| - 1)
    decreases 11 * |j.pieces| + 3 * children - |trace|
  {
    RunEnds(j, children, garbage, trace);
    if Over(trace[|trace| - 1]) {
      longer := trace;
    } else {
      var a :| Fire(j, trace[|trace| - 1], a, true).Some?;
      RunExtend(j, children, garbage, trace, a);
      var next := trace + [Fire(j, trace[|trace| - 1], a, true).value];
      longer := CanFinish(j, children, garbage, next);
      assert longer[|trace|] == next[|trace|] && longer[|trace| - 1] == trace[|trace| - 1];
    }
  }

  // ---- the request array

  /** At MPI_Waitany every child has exactly one live request; at MPI_Wait that child has one; when the loops
      are over no request is live. */
  lemma RequestsLive(j: Job, children: nat, garbage: Msg, trace: seq<State>)
    requires 1 <= children <= |j.pieces| && Run(j, children, garbage, trace)
    ensures var s := trace[|trace| - 1];
            && |s.child| == children
            && (s.pc.AwaitAny? ==> forall w :: 0 <= w < children ==> !s.child[w].req.Null?)
            && (s.pc.AwaitOne? ==> forall w :: 0 <= w < children ==> (s.child[w].req.Null? <==> w < s.pc.i))
            && (s.pc.Finished? ==> forall w :: 0 <= w < children ==> s.child[w].req.Null?)
  {
    RunSafe(j, children, garbage, trace);
    var s := trace[|trace| - 1];
    forall w | 0 <= w < children ensures s.child[w].req.Null? <==> NullNow(s, w) {
      assert ChildFits(j, s, w);
    }
  }

  // ---- runs whose sends are all synchronous

  /** No send has returned whose message is still on its way: a child has at most one message unreceived and waits at
      its send, and a piece of work or stop message is unreceived only while the root waits at its send. */
  predicate AllSynchronous(s: State) { forall w: nat :: w < |s.child| ==> SynchronousAt(s, w) }

  predicate SynchronousAt(s: State, w: nat)
    requires w < |s.child|
  {
    && Synchronous(s.child[w].conv)
    && (s.child[w].conv.work != [] ==> |s.child[w].conv.work| == 1 && AtSend(s.pc, w))
  }

  /** The root waits at a send to child w. */
  predicate AtSend(pc: RootPc, w: nat) { pc == HandOutReturn(w) || pc == ReplyReturn(w) || pc == StopReturn(w) }

  lemma StrictRootAt(j: Job, s: State, w: nat)
    requires AllSynchronous(s) && RootStep(j, s, true).Some? && w < |s.child|
    ensures |RootStep(j, s, true).value.child| == |s.child| && SynchronousAt(RootStep(j, s, true).value, w)
  {
    assert SynchronousAt(s, w);
  }

  lemma StrictStepAt(j: Job, s: State, a: Action, w: nat)
    requires AllSynchronous(s) && Fire(j, s, a, true).Some? && w < |s.child|
    ensures |Fire(j, s, a, true).value.child| == |s.child| && SynchronousAt(Fire(j, s, a, true).value, w)
  {
    assert SynchronousAt(s, w);
    if a.RootAct? {
      StrictRootAt(j, s, w);
    } else if a.WorkerAct? && a.w == w {
      SynchronousStep(ByPiece, j.f, w, s.child[w].conv);
    }
  }

  lemma StrictStep(j: Job, s: State, a: Action)
    requires AllSynchronous(s) && Fire(j, s, a, true).Some?
    ensures AllSynchronous(Fire(j, s, a, true).value)
  {
    var s' := Fire(j, s, a, true).value;
    forall w: nat | w < |s'.child| ensures SynchronousAt(s', w) {
      assert |s'.child| == |s.child|;
      StrictStepAt(j, s, a, w);
    }
  }

  lemma StrictMove(j: Job, s: State, s': State)
    requires AllSynchronous(s) && Moves(j, s, s', true)
    ensures AllSynchronous(s')
  {
    var a :| Fire(j, s, a, true) == Some(s');
    StrictStep(j, s, a);
  }

  lemma {:induction false} StrictRunHolds(j: Job, children: nat, garbage: Msg, trace: seq<State>)
    requires |trace| >= 1 && trace[0] == Start(children, garbage) && StrictFrom(j, trace, 0)
    ensures AllSynchronous(trace[|trace| - 1])
  {
    var n := |trace| - 1;
    if n > 0 {
      forall i | 0 <= i < n - 1 ensures Moves(j, trace[..n][i], trace[..n][i + 1], true) {
        assert Moves(j, trace[i], trace[i + 1], true);
      }
      StrictRunHolds(j, children, garbage, trace[..n]);
      assert Moves(j, trace[n - 1], trace[n - 1 + 1], true);
      StrictMove(j, trace[n - 1], trace[n]);
    }
  }

  /** With synchronous sends only, a child past the send of its header, or of its data, finds that it was received, and
      so does the root past the send of a piece or of a stop message. */
  lemma StrictRun(j: Job, children: nat, garbage: Msg, trace: seq<State>, w: nat)
    requires |trace| >= 1 && trace[0] == Start(children, garbage) && StrictFrom(j, trace, 0)
    requires w < |trace[|trace| - 1].child|
    ensures var s, c := trace[|trace| - 1], trace[|trace| - 1].child[w].conv;
            && (c.phase.DataReady? || c.phase.DataPosted? ==> c.headers == [])
            && (c.phase.Waiting? || c.phase.HeaderReady? || c.phase.Stopped? ==> c.headers == [] && c.data == [])
            && (!AtSend(s.pc, w) ==> c.work == [])
            && |c.work| <= 1 && |c.headers| + |c.data| <= 1
  {
    StrictRunHolds(j, children, garbage, trace);
    assert SynchronousAt(trace[|trace| - 1], w);
  }

  // ---- what the root receives

  /** Once a request is complete, and after the root has taken it, its result names the child's current piece
      and describes the next tag-201 message of that child, which has exactly the announced length. */
  lemma ResultMatchesData(j: Job, children: nat, garbage: Msg, trace: seq<State>, w: nat)
    requires 1 <= children <= |j.pieces| && Run(j, children, garbage, trace) && w < children
    requires forall r :: r in j.pieces ==> r.Proper()
    requires w < |trace[|trace| - 1].child|
    ensures var s := trace[|trace| - 1]; var c := s.child[w];
            (c.req.Complete? || (s.pc.AwaitData? && s.pc.w == w)) ==>
              var h := if c.req.Complete? then c.result else s.pc.h;
              && c.conv.job.Some? && c.conv.job.value < |j.pieces|
              && h.first == c.conv.job.value + 1 && h.rect == j.pieces[c.conv.job.value]
              && c.conv.headers == []
              && h.rect.Proper() && (c.conv.data == [] || c.conv.data == [Render(j.f, h.rect)])
              && |Render(j.f, h.rect)| == h.rect.Area()
  {
    var s := trace[|trace| - 1];
    RunSafe(j, children, garbage, trace);
    assert ChildFits(j, s, w);
    if s.child[w].req.Complete? || (s.pc.AwaitData? && s.pc.w == w) {
      assert j.pieces[s.child[w].conv.job.value] in j.pieces;
    }
  }

  /** At the end every piece has been drawn exactly once with its own data, every child was told to stop, and
      all channels are empty. */
  lemma RunResult(j: Job, children: nat, garbage: Msg, trace: seq<State>)
    requires 1 <= children <= |j.pieces| && Run(j, children, garbage, trace) && Over(trace[|trace| - 1])
    requires forall r :: r in j.pieces ==> r.Proper()
    ensures var s := trace[|trace| - 1];
            && multiset(s.drawn) == multiset(WorkBag.Upto(|j.pieces|))
            && multiset(RectsOf(s.log)) == multiset(j.pieces) && Faithful(s.log, j.f)
            && s.tail == children
            && forall c :: c in s.child ==> c.conv.work == [] && c.conv.headers == [] && c.conv.data == []
  {
    var s := trace[|trace| - 1];
    RunSafe(j, children, garbage, trace);
    assert Abs(s).held == map[] by {
      forall w | 0 <= w < children ensures s.child[w].conv.job == None { assert s.child[w] in s.child; }
    }
    WorkBag.AllDrawn(Abs(s), |j.pieces|, children);
    LogHoldsPieces(j.f, j.pieces, s.log, s.drawn);
  }

  // ---- the image

  /** A finished run over the shuffled tiles of an image. */
  ghost predicate Finished(
    j: Job, children: nat, garbage: Msg, trace: seq<State>, across: int, down: int, g: int)
    requires 1 <= across && 1 <= down && 1 <= g
  {
    && 1 <= children <= |j.pieces| && multiset(j.pieces) == multiset(Cut(across, down, g))
    && Run(j, children, garbage, trace) && Over(trace[|trace| - 1])
  }

  lemma RunRound(j: Job, children: nat, garbage: Msg, trace: seq<State>, across: int, down: int, g: int)
    requires 1 <= across && 1 <= down && 1 <= g && Finished(j, children, garbage, trace, across, down, g)
    ensures Round(trace[|trace| - 1].log, j.f, across, down, g)
  {
    ShuffledProper(j.pieces, across, down, g);
    RunResult(j, children, garbage, trace);
  }

  /** For an image of any shape, a finished round has drawn only inside the grid array exactly when the tiles reach no
      further down than the image is wide. */
  lemma RunStaysInside(
    j: Job, children: nat, garbage: Msg, trace: seq<State>, across: int, down: int, g: int)
    requires 1 <= across && 1 <= down && 1 <= g && Finished(j, children, garbage, trace, across, down, g)
    ensures (forall p :: DrawnAt(trace[|trace| - 1].log, p) ==> InGrid(across, down, p)) <==> Reach(down, g) <= across
  {
    RunRound(j, children, garbage, trace, across, down, g);
    RoundFits(trace[|trace| - 1].log, j.f, across, down, g);
  }

  /** For a square image, or one of a single row, every run of every shuffle leaves the sequential image in the covered
      part of the root's grid and everything else as it was. */
  lemma RunShowsImage(
    j: Job, children: nat, garbage: Msg, trace: seq<State>, across: int, down: int, g: int, g0: Cells)
    requires 1 <= across && 1 <= down && 1 <= g && Finished(j, children, garbage, trace, across, down, g)
    requires across == down || down == 1
    ensures var log := trace[|trace| - 1].log;
            && Round(log, j.f, across, down, g)
            && Shows(Assemble(g0, down, log), g0, j.f, across, iset p | Covered(across, down, g, p))
  {
    RunRound(j, children, garbage, trace, across, down, g);
    RoundShows(trace[|trace| - 1].log, j.f, across, down, g, g0);
  }

  // ---- the order of the drawings

  /** With one child the bag of work goes through the pieces in order. */
  lemma {:induction false} RunOneByOne(j: Job, garbage: Msg, trace: seq<State>)
    requires 1 <= |j.pieces| && Run(j, 1, garbage, trace)
    ensures WorkBag.OneByOne(Abs(trace[|trace| - 1]))
  {
    var n := |trace| - 1;
    if n == 0 {
      StartInv(j, 1, garbage);
    } else {
      assert Run(j, 1, garbage, trace[..n]);
      RunOneByOne(j, garbage, trace[..n]);
      RunSafe(j, 1, garbage, trace[..n]);
      assert trace[n - 1] == trace[..n][n - 1] && Moves(j, trace[n - 1], trace[n - 1 + 1], false);
      MoveOneByOne(j, trace[n - 1], trace[n]);
    }
  }

  lemma MoveOneByOne(j: Job, s: State, s': State)
    requires Inv(j, s) && |s.child| == 1 && Moves(j, s, s', false) && WorkBag.OneByOne(Abs(s))
    ensures WorkBag.OneByOne(Abs(s'))
  {
    var a :| Fire(j, s, a, false) == Some(s');
    StepGood(j, s, a, false);
    match EventOf(j, s, a) {
      case Some(e) => WorkBag.OneByOneStep(Abs(s), e, |j.pieces|);
      case None =>
    }
  }

  /** So the drawings of a finished run are those of the pieces, in their order. */
  lemma RunInOrder(j: Job, garbage: Msg, trace: seq<State>)
    requires 1 <= |j.pieces| && Run(j, 1, garbage, trace) && Over(trace[|trace| - 1])
    ensures trace[|trace| - 1].log == Drawings(j.f, j.pieces)
  {
    var s := trace[|trace| - 1];
    RunSafe(j, 1, garbage, trace);
    RunOneByOne(j, garbage, trace);
    assert s.child[0] in s.child && 0 !in Abs(s).held;
    LogInOrder(j.f, j.pieces, s.log, s.drawn);
  }

  /** One child can draw the tiles in any order. */
  lemma RunOf(j: Job, garbage: Msg) returns (trace: seq<State>)
    requires 1 <= |j.pieces|
    ensures Run(j, 1, garbage, trace) && Over(trace[|trace| - 1])
    ensures trace[|trace| - 1].log == Drawings(j.f, j.pieces)
  {
    trace := CanFinish(j, 1, garbage, [Start(1, garbage)]);
    RunInOrder(j, garbage, trace);
  }

  /** Runs with different shuffles, interleavings and child counts leave the same grid for every picture exactly when no
      tile wraps around into another row of tiles. */
  lemma RunsAgreeIff(garbage: Msg, across: int, down: int, g: int, g0: Cells)
    requires 1 <= across && 1 <= down && 1 <= g
    ensures (forall j1: Job, children1, t1: seq<State>, j2: Job, children2, t2: seq<State> ::
              (&& Finished(j1, children1, garbage, t1, across, down, g)
               && Finished(j2, children2, garbage, t2, across, down, g)
               && j1.f == j2.f) ==> SameGrid(t1[|t1| - 1].log, t2[|t2| - 1].log, j1.f, down, g0))
            <==> OrderFree(across, down, g)
  {
    if OrderFree(across, down, g) {
      forall j1: Job, children1, t1: seq<State>, j2: Job, children2, t2: seq<State>
        | Finished(j1, children1, garbage, t1, across, down, g)
          && Finished(j2, children2, garbage, t2, across, down, g) && j1.f == j2.f
        ensures SameGrid(t1[|t1| - 1].log, t2[|t2| - 1].log, j1.f, down, g0)
      {
        RunRound(j1, children1, garbage, t1, across, down, g);
        RunRound(j2, children2, garbage, t2, across, down, g);
        RoundsAgree(t1[|t1| - 1].log, t2[|t2| - 1].log, j1.f, across, down, g, g0);
      }
    } else {
      var j1, j2, t1, t2 := RunsDiffer(garbage, across, down, g, g0);
    }
  }

  lemma RunsDiffer(garbage: Msg, across: int, down: int, g: int, g0: Cells)
    returns (j1: Job, j2: Job, t1: seq<State>, t2: seq<State>)
    requires 1 <= across && 1 <= down && 1 <= g && !OrderFree(across, down, g)
    ensures Finished(j1, 1, garbage, t1, across, down, g) && Finished(j2, 1, garbage, t2, across, down, g)
    ensures j1.f == j2.f && !SameGrid(t1[|t1| - 1].log, t2[|t2| - 1].log, j1.f, down, g0)
  {
    var f := Probe(Step(down, g));
    var one, two := OrdersDiffer(f, across, down, g, g0);
    j1, j2 := Job(f, one), Job(f, two);
    CutSize(one, across, down, g);
    CutSize(two, across, down, g);
    t1 := RunOf(j1, garbage);
    t2 := RunOf(j2, garbage);
  }

  /** The two schedulers leave the same grid, whatever their shuffles, schedules and worker counts. */
  lemma SchedulersAgree(
    j1: Wildcard.Job, workers: nat, t1: seq<Wildcard.State>,
    j2: Job, children: nat, garbage: Msg, t2: seq<State>, across: int, down: int, g: int, g0: Cells)
    requires 1 <= across && 1 <= down && 1 <= g && OrderFree(across, down, g) && j1.f == j2.f
    requires WildcardRuns.Finished(j1, workers, t1, across, down, g)
    requires Finished(j2, children, garbage, t2, across, down, g)
    ensures SameGrid(t1[|t1| - 1].log, t2[|t2| - 1].log, j1.f, down, g0)
  {
    WildcardRuns.RunRound(j1, workers, t1, across, down, g);
    RunRound(j2, children, garbage, t2, across, down, g);
    RoundsAgree(t1[|t1| - 1].log, t2[|t2| - 1].log, j1.f, across, down, g, g0);
  }

  lemma SchedulersDiffer(garbage: Msg, across: int, down: int, g: int, g0: Cells)
    returns (j1: Wildcard.Job, t1: seq<Wildcard.State>, j2: Job, t2: seq<State>)
    requires 1 <= across && 1 <= down && 1 <= g && !OrderFree(across, down, g)
    ensures WildcardRuns.Finished(j1, 1, t1, across, down, g) && Finished(j2, 1, garbage, t2, across, down, g)
    ensures j1.f == j2.f && !SameGrid(t1[|t1| - 1].log, t2[|t2| - 1].log, j1.f, down, g0)
  {
    var f := Probe(Step(down, g));
    var one, two := OrdersDiffer(f, across, down, g, g0);
    j1, j2 := Wildcard.Job(f, one), Job(f, two);
    CutSize(one, across, down, g);
    CutSize(two, across, down, g);
    t1 := WildcardRuns.RunOf(j1);
    t2 := RunOf(j2, garbage);
  }

  /** They do so for every picture exactly when no tile wraps around into another row of tiles. */
  lemma SchedulersAgreeIff(garbage: Msg, across: int, down: int, g: int, g0: Cells)
    requires 1 <= across && 1 <= down && 1 <= g
    ensures (forall j1: Wildcard.Job, workers, t1: seq<Wildcard.State>, j2: Job, children, t2: seq<State> ::
              (&& WildcardRuns.Finished(j1, workers, t1, across, down, g)
               && Finished(j2, children, garbage, t2, across, down, g)
               && j1.f == j2.f) ==> SameGrid(t1[|t1| - 1].log, t2[|t2| - 1].log, j1.f, down, g0))
            <==> OrderFree(across, down, g)
  {
    if OrderFree(across, down, g) {
      forall j1: Wildcard.Job, workers, t1: seq<Wildcard.State>, j2: Job, children, t2: seq<State>
        | WildcardRuns.Finished(j1, workers, t1, across, down, g)
          && Finished(j2, children, garbage, t2, across, down, g) && j1.f == j2.f
        ensures SameGrid(t1[|t1| - 1].log, t2[|t2| - 1].log, j1.f, down, g0)
      {
        SchedulersAgree(j1, workers, t1, j2, children, garbage, t2, across, down, g, g0);
      }
    } else {
      var j1, t1, j2, t2 := SchedulersDiffer(garbage, across, down, g, g0);
    }
  }

  // ---- the number of children

  const DEFAULT_CHILDREN := 3
  const MAX_CHILDREN := 400

  /** check_mand_params on the number of children: the bound the hand-out loop needs. */
  method ClampChildren(requested: int) returns (children: int)
    ensures 1 <= children <= MAX_CHILDREN == |Cut(1, 1, 20)|
    ensures 1 <= requested <= MAX_CHILDREN ==> children == requested
    ensures requested < 1 ==> children == 3
    ensures requested > 400 ==> children == 400
  {
    children := requested;
    if children < 1 {
      children := DEFAULT_CHILDREN;
    }
    if children > MAX_CHILDREN {
      children := MAX_CHILDREN;
    }
  }
}
