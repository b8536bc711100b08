/** pmandel.c: the root hands out pieces and takes results from whichever worker answers first. */
module Wildcard {
  import opened Options
  import opened Rects
  import opened Picture
  import opened Counting
  import opened Courier
  import opened Ledger
  import WorkBag

  /** The root's program counter. HandOut(i): about to send the first piece to worker i.
      The Return states wait for MPI_Send to return. AwaitHeader: at the wildcard receive of tag 200.
      AwaitData(h): holding header h, at the receive of tag 201 from the rank named in h.
      Reply(w): result drawn, about to send to worker w. Workers are numbered from 0; w has rank w + 1. */
  datatype RootPc =
    | HandOut(i: nat)
    | HandOutReturn(i: nat)
    | AwaitHeader
    | AwaitData(h: Msg)
    | Reply(w: nat)
    | ReplyReturn(w: nat)
    | Finished

  /** k and tail are the root's loop counters; log lists its drawings.
      drawn and stopped are bookkeeping: the pieces of log, and the workers sent a stop message. */
  datatype State = State(
    pc: RootPc, k: nat, tail: nat, conv: seq<Conv>, log: seq<Drawing>, drawn: seq<nat>, stopped: set<nat>)

  /** The round's fixed data: pixel colours and the shuffled pieces. */
  datatype Job = Job(f: Point -> int, pieces: seq<Rect>)

  function Start(workers: nat): State
  {
    State(HandOut(0), 0, 0, seq(workers, _ => FRESH), [], [], {})
  }

  /** Where control goes after a reply: back to a receive while either loop has rounds left. */
  function AtLoop(j: Job, s: State): RootPc {
    if s.k < |j.pieces| || s.tail < |s.conv| then AwaitHeader else Finished
  }

  function SetConv(s: State, w: nat, c: Conv): State
    requires w < |s.conv|
  {
    s.(conv := s.conv[w := c])
  }

  /** The worker a header names. */
  function SourceOf(h: Msg): int { h.first - 1 }

  datatype Action = RootAct | TakeHeader(w: nat) | WorkerAct(w: nat)

  /** The root's step at its program counter, except the choice of the wildcard receive. */
  function RootStep(j: Job, s: State, strict: bool): Option<State> {
    match s.pc
    case HandOut(i) =>
      if i < |s.conv| && s.k < |j.pieces| then
        var c := s.conv[i];
        Some(SetConv(s, i, c.(work := c.work + [Work(s.k, j.pieces)], job := Some(s.k)))
             .(pc := HandOutReturn(i), k := s.k + 1))
      else None
    case HandOutReturn(i) =>
      if i < |s.conv| && !(strict && s.conv[i].work != []) then
        Some(s.(pc := if i + 1 < |s.conv| then HandOut(i + 1) else AtLoop(j, s)))
      else None
    case AwaitHeader => None
    case AwaitData(h) =>
      if 0 <= SourceOf(h) < |s.conv| && s.conv[SourceOf(h)].data != [] then
        var w := SourceOf(h);
        var c := s.conv[w];
        Some(SetConv(s, w, c.(data := c.data[1..], job := None))
             .(pc := Reply(w),
               log := s.log + [Drawing(h.rect, c.data[0])],
               drawn := if c.job.Some? then s.drawn + [c.job.value] else s.drawn))
      else None
    case Reply(w) =>
      if w < |s.conv| then
        var c := s.conv[w];
        if s.k < |j.pieces| then
          Some(SetConv(s, w, c.(work := c.work + [Work(s.k, j.pieces)], job := Some(s.k)))
               .(pc := ReplyReturn(w), k := s.k + 1))
        else
          Some(SetConv(s, w, c.(work := c.work + [STOP]))
               .(pc := ReplyReturn(w), tail := s.tail + 1, stopped := s.stopped + {w}))
      else None
    case ReplyReturn(w) =>
      if w < |s.conv| && !(strict && s.conv[w].work != []) then Some(s.(pc := AtLoop(j, s))) else None
    case Finished => None
  }

  /** The state after an action, if the action is possible. */
  function Fire(j: Job, s: State, a: Action, strict: bool): Option<State> {
    match a
    case RootAct => RootStep(j, s, strict)
    case TakeHeader(w) =>
      if s.pc.AwaitHeader? && w < |s.conv| && s.conv[w].headers != [] then
        var c := s.conv[w];
        Some(SetConv(s, w, c.(headers := c.headers[1..])).(pc := AwaitData(c.headers[0])))
      else None
    case WorkerAct(w) =>
      if w < |s.conv| then
        match WorkerStep(ByRank, j.f, w, s.conv[w], strict)
        case Some(c) => Some(SetConv(s, w, c))
        case None => None
      else None
  }

  // ---- the invariant

  /** Where the root stands towards worker w. */
  function RoleOf(s: State, w: nat): Role {
    if w in s.stopped then Gone
    else match s.pc
      case HandOut(i) => if w >= i then Off else On
      case HandOutReturn(i) => if w > i then Off else On
      case AwaitData(h) => if SourceOf(h) == w then Taken(h) else On
      case Reply(v) => if v == w then Off else On
      case _ => On
  }

  ghost predicate PcFits(j: Job, s: State) {
    var n, workers := |j.pieces|, |s.conv|;
    match s.pc
    case HandOut(i) => i < workers && s.k == i && s.stopped == {}
    case HandOutReturn(i) => i < workers && s.k == i + 1 && s.stopped == {}
    case AwaitHeader => s.k < n || s.tail < workers
    case AwaitData(h) => 0 <= SourceOf(h) < workers && SourceOf(h) !in s.stopped && (s.k < n || s.tail < workers)
    case Reply(w) => w < workers && w !in s.stopped && (s.k < n || s.tail < workers)
    case ReplyReturn(w) => w < workers
    case Finished => s.k == n && s.tail == workers
  }

  ghost predicate Conversing(j: Job, s: State) {
    forall w :: 0 <= w < |s.conv| ==> Fits(ByRank, j.f, j.pieces, s.k, w, s.conv[w], RoleOf(s, w))
  }

  ghost predicate Counted(j: Job, s: State) {
    && 1 <= |s.conv| <= |j.pieces|
    && s.k <= |j.pieces|
    && (!s.pc.HandOut? && !s.pc.HandOutReturn? ==> s.k >= |s.conv|)
    && |s.stopped| == s.tail
    && (forall w :: w in s.stopped ==> w < |s.conv|)
    && (s.tail > 0 ==> s.k == |j.pieces|)
  }

  /** The round as the abstract bag of work sees it. */
  ghost function Abs(s: State): WorkBag.Bag {
    WorkBag.Bag(s.k, map w: nat | w < |s.conv| && s.conv[w].job.Some? :: s.conv[w].job.value, s.drawn, s.stopped)
  }

  ghost predicate Inv(j: Job, s: State) {
    Counted(j, s) && PcFits(j, s) && Conversing(j, s) && Logged(j.f, j.pieces, s.log, s.drawn)
  }

  lemma StartInv(j: Job, workers: nat)
    requires 1 <= workers <= |j.pieces|
    ensures Inv(j, Start(workers))
    ensures Abs(Start(workers)) == WorkBag.EMPTY
  {
  }

  /** Changing one conversation, and no other worker's role, keeps all the others. */
  lemma OthersFit(j: Job, s: State, s': State, w: nat, c: Conv)
    requires Conversing(j, s) && w < |s.conv| && s'.conv == s.conv[w := c]
    requires s.k <= s'.k <= |j.pieces|
    requires forall v: nat :: v < |s.conv| && v != w ==> RoleOf(s', v) == RoleOf(s, v)
    requires Fits(ByRank, j.f, j.pieces, s'.k, w, c, RoleOf(s', w))
    ensures Conversing(j, s')
    ensures Sum(Left, s'.conv) == Sum(Left, s.conv) - Left(s.conv[w]) + Left(c)
  {
    forall v | 0 <= v < |s'.conv| ensures Fits(ByRank, j.f, j.pieces, s'.k, v, s'.conv[v], RoleOf(s', v)) {
      if v != w {
        assert Fits(ByRank, j.f, j.pieces, s.k, v, s.conv[v], RoleOf(s, v));
      }
    }
    SumUpdate(Left, s.conv, w, c);
  }

  /** The workers holding a piece change only where a job changes. */
  lemma HeldUpdate(s: State, s': State, w: nat, c: Conv)
    requires w < |s.conv| && s'.conv == s.conv[w := c]
    ensures Abs(s').held == if c.job.Some? then Abs(s).held[w := c.job.value] else Abs(s).held - {w}
  {
  }

  /** A worker's own step changes nothing but its conversation. */
  lemma ConvReplaced(j: Job, s: State, w: nat, c: Conv)
    requires Conversing(j, s) && s.k <= |j.pieces| && w < |s.conv|
    requires c.job == s.conv[w].job && Fits(ByRank, j.f, j.pieces, s.k, w, c, RoleOf(s, w))
    ensures var s' := SetConv(s, w, c);
            Conversing(j, s') && Sum(Left, s'.conv) == Sum(Left, s.conv) - Left(s.conv[w]) + Left(c)
            && Abs(s').held == Abs(s).held
  {
    OthersFit(j, s, SetConv(s, w, c), w, c);
    HeldUpdate(s, SetConv(s, w, c), w, c);
  }

  lemma WorkerConversing(j: Job, s: State, w: nat, strict: bool)
    requires Conversing(j, s) && s.k <= |j.pieces| && Fire(j, s, WorkerAct(w), strict).Some?
    ensures var s' := Fire(j, s, WorkerAct(w), strict).value;
            Conversing(j, s') && Sum(Left, s'.conv) == Sum(Left, s.conv) - 1 && Abs(s').held == Abs(s).held
  {
    var c := WorkerStep(ByRank, j.f, w, s.conv[w], strict).value;
    WorkerStepFits(ByRank, j.f, j.pieces, s.k, w, s.conv[w], RoleOf(s, w), strict);
    ConvReplaced(j, s, w, c);
  }

  lemma TakeConversing(j: Job, s: State, w: nat)
    requires Conversing(j, s) && s.k <= |j.pieces| && Fire(j, s, TakeHeader(w), true).Some?
    ensures var s' := Fire(j, s, TakeHeader(w), true).value;
            Conversing(j, s') && Sum(Left, s'.conv) == Sum(Left, s.conv) && Abs(s').held == Abs(s).held
            && s'.pc.AwaitData? && SourceOf(s'.pc.h) == w && w !in s.stopped
  {
    var c := s.conv[w].(headers := s.conv[w].headers[1..]);
    var s' := SetConv(s, w, c).(pc := AwaitData(s.conv[w].headers[0]));
    TakeFits(ByRank, j.f, j.pieces, s.k, w, s.conv[w], RoleOf(s, w));
    OthersFit(j, s, s', w, c);
    HeldUpdate(s, s', w, c);
  }

  lemma GiveConversing(j: Job, s: State, w: nat)
    requires Conversing(j, s) && PcFits(j, s) && Counted(j, s) && s.k < |j.pieces|
    requires s.pc == HandOut(w) || s.pc == Reply(w)
    ensures RootStep(j, s, false).Some?
    ensures var s' := RootStep(j, s, false).value;
            Conversing(j, s') && Sum(Left, s'.conv) == Sum(Left, s.conv) + 7
            && w !in Abs(s).held && Abs(s').held == Abs(s).held[w := s.k]
  {
    var c := s.conv[w].(work := s.conv[w].work + [Work(s.k, j.pieces)], job := Some(s.k));
    var s' := RootStep(j, s, false).value;
    assert Fits(ByRank, j.f, j.pieces, s.k, w, s.conv[w], RoleOf(s, w));
    GiveFits(ByRank, j.f, j.pieces, s.k, w, s.conv[w]);
    OthersFit(j, s, s', w, c);
    HeldUpdate(s, s', w, c);
  }

  lemma StopConversing(j: Job, s: State, w: nat)
    requires Conversing(j, s) && PcFits(j, s) && Counted(j, s) && s.k == |j.pieces| && s.pc == Reply(w)
    ensures RootStep(j, s, false).Some?
    ensures var s' := RootStep(j, s, false).value;
            Conversing(j, s') && Sum(Left, s'.conv) == Sum(Left, s.conv) + 1
            && w !in Abs(s).held && Abs(s').held == Abs(s).held
  {
    var c := s.conv[w].(work := s.conv[w].work + [STOP]);
    var s' := RootStep(j, s, false).value;
    assert Fits(ByRank, j.f, j.pieces, s.k, w, s.conv[w], RoleOf(s, w));
    StopFits(ByRank, j.f, j.pieces, s.k, w, s.conv[w]);
    OthersFit(j, s, s', w, c);
    HeldUpdate(s, s', w, c);
  }

  lemma DrawConversing(j: Job, s: State)
    requires Conversing(j, s) && PcFits(j, s) && s.k <= |j.pieces| && s.pc.AwaitData? && RootStep(j, s, false).Some?
    ensures var s', w, h := RootStep(j, s, false).value, SourceOf(s.pc.h), s.pc.h;
            Conversing(j, s') && Sum(Left, s'.conv) == Sum(Left, s.conv) - 2
            && w in Abs(s).held && Abs(s').held == Abs(s).held - {w}
            && Abs(s).held[w] < |j.pieces| && h.rect == j.pieces[Abs(s).held[w]]
            && s'.log == s.log + [Drawing(h.rect, Data(j.f, h.rect))] && s'.drawn == s.drawn + [Abs(s).held[w]]
  {
    var w := SourceOf(s.pc.h);
    var c := s.conv[w].(data := s.conv[w].data[1..], job := None);
    var s' := RootStep(j, s, false).value;
    assert Fits(ByRank, j.f, j.pieces, s.k, w, s.conv[w], RoleOf(s, w));
    DrawFits(ByRank, j.f, j.pieces, s.k, w, s.conv[w], s.pc.h);
    OthersFit(j, s, s', w, c);
    HeldUpdate(s, s', w, c);
  }

  lemma ReturnConversing(j: Job, s: State)
    requires Conversing(j, s) && PcFits(j, s) && RootStep(j, s, false).Some?
    requires s.pc.HandOutReturn? || s.pc.ReplyReturn?
    ensures var s' := RootStep(j, s, false).value; Conversing(j, s') && s'.conv == s.conv
  {
    var s' := RootStep(j, s, false).value;
    forall v | 0 <= v < |s'.conv| ensures Fits(ByRank, j.f, j.pieces, s'.k, v, s'.conv[v], RoleOf(s', v)) {
      assert Fits(ByRank, j.f, j.pieces, s.k, v, s.conv[v], RoleOf(s, v));
      assert RoleOf(s', v) == RoleOf(s, v);
    }
  }

  // ---- every step

  /** Steps the root itself still needs beyond those counted in the conversations and counters. */
  function RootLeft(pc: RootPc): int {
    match pc
    case HandOutReturn(_) => 1
    case ReplyReturn(_) => 1
    case AwaitData(_) => -1
    case _ => 0
  }

  /** Every piece still to be handed out costs 9 steps, every stop 3. */
  function Remaining(j: Job, s: State): int {
    9 * (|j.pieces| - s.k) + 3 * (|s.conv| - s.tail) + RootLeft(s.pc) + Sum(Left, s.conv)
  }

  /** The event of the bag an action stands for, if it is not a stutter. */
  function EventOf(j: Job, s: State, a: Action): Option<WorkBag.Event> {
    if !a.RootAct? then None
    else match s.pc
      case HandOut(i) => Some(WorkBag.Give(i))
      case AwaitData(h) => if SourceOf(h) >= 0 then Some(WorkBag.Draw(SourceOf(h))) else None
      case Reply(w) => Some(if s.k < |j.pieces| then WorkBag.Give(w) else WorkBag.Stop(w))
      case _ => None
  }

  ghost predicate Refines(j: Job, s: State, s': State, e: Option<WorkBag.Event>) {
    match e
    case None => Abs(s') == Abs(s)
    case Some(v) => WorkBag.Enabled(Abs(s), v, |j.pieces|, |s.conv|) && Abs(s') == WorkBag.After(Abs(s), v)
  }

  ghost predicate GoodStep(j: Job, s: State, s': State, a: Action) {
    && Inv(j, s') && |s'.conv| == |s.conv|
    && Remaining(j, s') == Remaining(j, s) - 1
    && Refines(j, s, s', EventOf(j, s, a))
  }

  lemma WorkerGood(j: Job, s: State, w: nat, strict: bool)
    requires Inv(j, s) && Fire(j, s, WorkerAct(w), strict).Some?
    ensures GoodStep(j, s, Fire(j, s, WorkerAct(w), strict).value, WorkerAct(w))
  {
    WorkerConversing(j, s, w, strict);
  }

  lemma TakeGood(j: Job, s: State, w: nat)
    requires Inv(j, s) && Fire(j, s, TakeHeader(w), true).Some?
    ensures GoodStep(j, s, Fire(j, s, TakeHeader(w), true).value, TakeHeader(w))
  {
    TakeConversing(j, s, w);
  }

  /** Handing out a piece is the bag's Give. */
  lemma GiveRefines(j: Job, s: State, s': State, w: nat)
    requires w < |s.conv| == |s'.conv| && s.k < |j.pieces| && w !in s.stopped && w !in Abs(s).held
    requires s'.k == s.k + 1 && s'.drawn == s.drawn && s'.stopped == s.stopped && Abs(s').held == Abs(s).held[w := s.k]
    ensures Refines(j, s, s', Some(WorkBag.Give(w)))
  {
  }

  lemma GiveGood(j: Job, s: State, w: nat)
    requires Inv(j, s) && s.k < |j.pieces| && (s.pc == HandOut(w) || s.pc == Reply(w))
    ensures RootStep(j, s, false).Some? && GoodStep(j, s, RootStep(j, s, false).value, RootAct)
  {
    GiveConversing(j, s, w);
    GiveRefines(j, s, RootStep(j, s, false).value, w);
  }

  lemma StopGood(j: Job, s: State, w: nat)
    requires Inv(j, s) && s.k == |j.pieces| && s.pc == Reply(w)
    ensures RootStep(j, s, false).Some? && GoodStep(j, s, RootStep(j, s, false).value, RootAct)
  {
    StopConversing(j, s, w);
  }

  lemma DrawGood(j: Job, s: State)
    requires Inv(j, s) && s.pc.AwaitData? && RootStep(j, s, false).Some?
    ensures GoodStep(j, s, RootStep(j, s, false).value, RootAct)
  {
    DrawConversing(j, s);
  }

  lemma ReturnGood(j: Job, s: State)
    requires Inv(j, s) && RootStep(j, s, false).Some? && (s.pc.HandOutReturn? || s.pc.ReplyReturn?)
    ensures GoodStep(j, s, RootStep(j, s, false).value, RootAct)
  {
    ReturnConversing(j, s);
    SetBelow(s.stopped, |s.conv|);
  }

  /** Every step, with buffered or with synchronous sends, keeps the invariant, is one step of the abstract
      bag of work or leaves it unchanged, and uses up exactly one of the remaining steps. */
  lemma StepGood(j: Job, s: State, a: Action, strict: bool)
    requires Inv(j, s) && Fire(j, s, a, strict).Some?
    ensures GoodStep(j, s, Fire(j, s, a, strict).value, a)
  {
    match a {
      case WorkerAct(w) => WorkerGood(j, s, w, strict);
      case TakeHeader(w) => TakeGood(j, s, w);
      case RootAct =>
        assert RootStep(j, s, false) == Fire(j, s, a, strict);
        match s.pc {
          case HandOut(i) => GiveGood(j, s, i);
          case AwaitData(h) => DrawGood(j, s);
          case Reply(w) => if s.k < |j.pieces| { GiveGood(j, s, w); } else { StopGood(j, s, w); }
          case _ => ReturnGood(j, s);
        }
    }
  }
}
