/** pmandel_spawn.c: the root keeps one posted receive per child and serves whichever completes first. */
module Requests {
  import opened Options
  import opened Rects
  import opened Picture
  import opened Counting
  import opened Courier
  import opened Ledger
  import WorkBag

  /** A request handle: MPI_REQUEST_NULL, posted and unmatched, or matched and ready to be waited for. */
  datatype Request = Null | Active | Complete

  /** One child: its conversation, and the root's request and result buffer for it. */
  datatype Child = Child(conv: Conv, req: Request, result: Msg)

  /** The root's program counter. Irecv states are about to post a receive, AwaitAny is MPI_Waitany,
      AwaitOne(i) is MPI_Wait on child i's request, StopReturn waits for the send of a stop message. */
  datatype RootPc =
    | HandOut(i: nat)
    | HandOutReturn(i: nat)
    | HandOutIrecv(i: nat)
    | AwaitAny
    | AwaitOne(i: nat)
    | AwaitData(w: nat, h: Msg)
    | Reply(w: nat)
    | ReplyReturn(w: nat)
    | ReplyIrecv(w: nat)
    | StopReturn(w: nat)
    | Finished

  datatype State = State(
    pc: RootPc, k: nat, tail: nat, child: seq<Child>, log: seq<Drawing>, drawn: seq<nat>)

  datatype Job = Job(f: Point -> int, pieces: seq<Rect>)

  function Start(children: nat, garbage: Msg): State {
    State(HandOut(0), 0, 0, seq(children, _ => Child(FRESH, Null, garbage)), [], [])
  }

  /** Control after a pass through either loop, or after the hand-out loop. */
  function AtLoop(j: Job, k: nat, tail: nat, children: nat): RootPc {
    if k < |j.pieces| then AwaitAny else if tail < children then AwaitOne(tail) else Finished
  }

  function SetChild(s: State, w: nat, c: Child): State
    requires w < |s.child|
  {
    s.(child := s.child[w := c])
  }

  function SetConv(s: State, w: nat, c: Conv): State
    requires w < |s.child|
  {
    SetChild(s, w, s.child[w].(conv := c))
  }

  /** Match: a header in the channel meets the posted receive and lands in the result buffer.
      TakeAny: MPI_Waitany returns child w. */
  datatype Action = RootAct | TakeAny(w: nat) | Match(w: nat) | WorkerAct(w: nat)

  function Post(j: Job, s: State, w: nat, pc: RootPc): State
    requires w < |s.child| && s.k < |j.pieces|
  {
    var c := s.child[w].conv;
    SetConv(s, w, c.(work := c.work + [Work(s.k, j.pieces)], job := Some(s.k))).(pc := pc, k := s.k + 1)
  }

  function PostStop(s: State, w: nat): State
    requires w < |s.child|
  {
    var c := s.child[w].conv;
    SetConv(s, w, c.(work := c.work + [STOP])).(pc := StopReturn(w), tail := s.tail + 1)
  }

  function PostIrecv(s: State, w: nat, pc: RootPc): State
    requires w < |s.child|
  {
    SetChild(s, w, s.child[w].(req := Active)).(pc := pc)
  }

  function TakeResult(s: State, w: nat): State
    requires w < |s.child|
  {
    SetChild(s, w, s.child[w].(req := Null)).(pc := AwaitData(w, s.child[w].result))
  }

  function DrawData(s: State, w: nat, h: Msg): State
    requires w < |s.child| && s.child[w].conv.data != []
  {
    var c := s.child[w].conv;
    SetConv(s, w, c.(data := c.data[1..], job := None))
    .(pc := Reply(w),
      log := s.log + [Drawing(h.rect, c.data[0])],
      drawn := if c.job.Some? then s.drawn + [c.job.value] else s.drawn)
  }

  /** The root's step at its program counter, except the choice MPI_Waitany makes. */
  function RootStep(j: Job, s: State, strict: bool): Option<State> {
    var children := |s.child|;
    match s.pc
    case HandOut(i) =>
      if i < children && s.k < |j.pieces| then Some(Post(j, s, i, HandOutReturn(i))) else None
    case HandOutReturn(i) =>
      if i < children && !(strict && s.child[i].conv.work != []) then Some(s.(pc := HandOutIrecv(i))) else None
    case HandOutIrecv(i) =>
      if i < children then
        Some(PostIrecv(s, i, if i + 1 < children then HandOut(i + 1) else AtLoop(j, s.k, s.tail, children)))
      else None
    case AwaitAny => None
    case AwaitOne(i) => if i < children && !s.child[i].req.Active? then Some(TakeResult(s, i)) else None
    case AwaitData(w, h) =>
      if w < children && s.child[w].conv.data != [] then Some(DrawData(s, w, h)) else None
    case Reply(w) =>
      if w >= children then None
      else if s.k < |j.pieces| then Some(Post(j, s, w, ReplyReturn(w)))
      else Some(PostStop(s, w))
    case ReplyReturn(w) =>
      if w < children && !(strict && s.child[w].conv.work != []) then Some(s.(pc := ReplyIrecv(w))) else None
    case ReplyIrecv(w) =>
      if w < children then Some(PostIrecv(s, w, AtLoop(j, s.k, s.tail, children))) else None
    case StopReturn(w) =>
      if w < children && !(strict && s.child[w].conv.work != []) then
        Some(s.(pc := AtLoop(j, s.k, s.tail, children)))
      else None
    case Finished => None
  }

  function Fire(j: Job, s: State, a: Action, strict: bool): Option<State> {
    match a
    case RootAct => RootStep(j, s, strict)
    case TakeAny(w) =>
      if s.pc.AwaitAny? && w < |s.child| && s.child[w].req.Complete? then Some(TakeResult(s, w)) else None
    case Match(w) =>
      if w < |s.child| && s.child[w].req.Active? && s.child[w].conv.headers != [] then
        var c := s.child[w].conv;
        Some(SetChild(s, w, Child(c.(headers := c.headers[1..]), Complete, c.headers[0])))
      else None
    case WorkerAct(w) =>
      if w < |s.child| then
        match WorkerStep(ByPiece, j.f, w, s.child[w].conv, strict)
        case Some(c) => Some(SetConv(s, w, c))
        case None => None
      else None
  }

  // ---- the invariant

  /** The root's handle for child w is null exactly here: not posted yet, just waited for, or stopped. */
  predicate NullNow(s: State, w: nat) {
    w < s.tail
    || match s.pc
       case HandOut(i) => w >= i
       case HandOutReturn(i) => w >= i
       case HandOutIrecv(i) => w >= i
       case AwaitData(v, _) => v == w
       case Reply(v) => v == w
       case ReplyReturn(v) => v == w
       case ReplyIrecv(v) => v == w
       case _ => false
  }

  function RoleOf(s: State, w: nat): Role
    requires w < |s.child|
  {
    if s.child[w].req.Complete? then Taken(s.child[w].result)
    else if w < s.tail then Gone
    else match s.pc
      case HandOut(i) => if w >= i then Off else On
      case HandOutReturn(i) => if w > i then Off else On
      case HandOutIrecv(i) => if w > i then Off else On
      case AwaitData(v, h) => if v == w then Taken(h) else On
      case Reply(v) => if v == w then Off else On
      case _ => On
  }

  ghost predicate ChildFits(j: Job, s: State, w: nat)
    requires w < |s.child|
  {
    && Fits(ByPiece, j.f, j.pieces, s.k, w, s.child[w].conv, RoleOf(s, w))
    && (s.child[w].req.Null? <==> NullNow(s, w))
  }

  ghost predicate Serving(j: Job, s: State) {
    forall w: nat :: w < |s.child| ==> ChildFits(j, s, w)
  }

  ghost predicate PcFits(j: Job, s: State) {
    var n, children := |j.pieces|, |s.child|;
    match s.pc
    case HandOut(i) => i < children && s.k == i && s.tail == 0
    case HandOutReturn(i) => i < children && s.k == i + 1 && s.tail == 0
    case HandOutIrecv(i) => i < children && s.k == i + 1 && s.tail == 0
    case AwaitAny => s.k < n && s.tail == 0
    case AwaitOne(i) => s.k == n && i == s.tail < children
    case AwaitData(w, _) => w < children && if s.k < n then s.tail == 0 else w == s.tail
    case Reply(w) => w < children && if s.k < n then s.tail == 0 else w == s.tail
    case ReplyReturn(w) => w < children && s.tail == 0
    case ReplyIrecv(w) => w < children && s.tail == 0
    case StopReturn(w) => s.k == n && s.tail == w + 1 <= children
    case Finished => s.k == n && s.tail == children
  }

  ghost predicate Counted(j: Job, s: State) {
    1 <= |s.child| <= |j.pieces| && s.k <= |j.pieces| && s.tail <= |s.child| && (s.tail > 0 ==> s.k == |j.pieces|)
  }

  ghost predicate Inv(j: Job, s: State) {
    Counted(j, s) && PcFits(j, s) && Serving(j, s) && Logged(j.f, j.pieces, s.log, s.drawn)
  }

  ghost function HeldBy(child: seq<Child>): map<nat, nat> {
    map w: nat | w < |child| && child[w].conv.job.Some? :: child[w].conv.job.value
  }

  /** Worker w has been sent its stop message. */
  predicate Told(s: State, w: nat) { w < s.tail }

  ghost function Abs(s: State): WorkBag.Bag {
    WorkBag.Bag(s.k, HeldBy(s.child), s.drawn, set w: nat | w < |s.child| && Told(s, w))
  }

  /** Steps a child still needs, with the matching of its header to the posted receive. */
  function ChildLeft(c: Child): nat {
    Left(c.conv) + if c.conv.job.Some? && !c.req.Complete? then 1 else 0
  }

  function RootLeft(pc: RootPc): int {
    match pc
    case HandOutReturn(_) => 2
    case HandOutIrecv(_) => 1
    case ReplyReturn(_) => 2
    case ReplyIrecv(_) => 1
    case StopReturn(_) => 1
    case AwaitData(_, _) => -2
    case _ => 0
  }

  /** Every piece still to be handed out costs 11 steps, every stop 3. */
  function Remaining(j: Job, s: State): int {
    11 * (|j.pieces| - s.k) + 3 * (|s.child| - s.tail) + RootLeft(s.pc) + Sum(ChildLeft, s.child)
  }

  lemma StartInv(j: Job, children: nat, garbage: Msg)
    requires 1 <= children <= |j.pieces|
    ensures Inv(j, Start(children, garbage))
    ensures Abs(Start(children, garbage)) == WorkBag.EMPTY
  {
  }

  // ---- single steps

  /** Nothing about child w depends on the others. */
  ghost predicate SameFor(s: State, s': State, w: nat)
    requires w < |s.child| == |s'.child|
  {
    s'.child[w] == s.child[w] && RoleOf(s', w) == RoleOf(s, w) && NullNow(s', w) == NullNow(s, w)
  }

  /** Changing one child, and no other child's role or handle, keeps all the others. */
  lemma OthersFit(j: Job, s: State, s': State, w: nat, c: Child)
    requires Serving(j, s) && w < |s.child| && s'.child == s.child[w := c]
    requires s.k <= s'.k <= |j.pieces|
    requires forall v: nat :: v < |s.child| && v != w ==> SameFor(s, s', v)
    requires ChildFits(j, s', w)
    ensures Serving(j, s')
    ensures Sum(ChildLeft, s'.child) == Sum(ChildLeft, s.child) - ChildLeft(s.child[w]) + ChildLeft(c)
  {
    forall v: nat | v < |s'.child| ensures ChildFits(j, s', v) {
      if v != w {
        assert SameFor(s, s', v) && ChildFits(j, s, v);
      }
    }
    SumUpdate(ChildLeft, s.child, w, c);
  }

  lemma HeldUpdate(child: seq<Child>, w: nat, c: Child)
    requires w < |child|
    ensures HeldBy(child[w := c]) ==
            if c.conv.job.Some? then HeldBy(child)[w := c.conv.job.value] else HeldBy(child) - {w}
  {
  }

  /** A step of a worker or of the message system inside one child's conversation. */
  lemma ChildReplaced(j: Job, s: State, w: nat, c: Child)
    requires Serving(j, s) && s.k <= |j.pieces| && w < |s.child|
    requires c.conv.job == s.child[w].conv.job && ChildFits(j, SetChild(s, w, c), w)
    ensures var s' := SetChild(s, w, c);
            Serving(j, s') && HeldBy(s'.child) == HeldBy(s.child)
            && Sum(ChildLeft, s'.child) == Sum(ChildLeft, s.child) - ChildLeft(s.child[w]) + ChildLeft(c)
  {
    OthersFit(j, s, SetChild(s, w, c), w, c);
    HeldUpdate(s.child, w, c);
  }

  lemma WorkerServing(j: Job, s: State, w: nat, strict: bool)
    requires Serving(j, s) && s.k <= |j.pieces| && Fire(j, s, WorkerAct(w), strict).Some?
    ensures var s' := Fire(j, s, WorkerAct(w), strict).value;
            Serving(j, s') && HeldBy(s'.child) == HeldBy(s.child)
            && Sum(ChildLeft, s'.child) == Sum(ChildLeft, s.child) - 1
  {
    var c := WorkerStep(ByPiece, j.f, w, s.child[w].conv, strict).value;
    assert ChildFits(j, s, w);
    WorkerStepFits(ByPiece, j.f, j.pieces, s.k, w, s.child[w].conv, RoleOf(s, w), strict);
    ChildReplaced(j, s, w, s.child[w].(conv := c));
  }

  lemma MatchServing(j: Job, s: State, w: nat)
    requires Serving(j, s) && s.k <= |j.pieces| && Fire(j, s, Match(w), true).Some?
    ensures var s' := Fire(j, s, Match(w), true).value;
            Serving(j, s') && HeldBy(s'.child) == HeldBy(s.child)
            && Sum(ChildLeft, s'.child) == Sum(ChildLeft, s.child) - 1
  {
    var c := s.child[w].conv;
    assert ChildFits(j, s, w);
    TakeFits(ByPiece, j.f, j.pieces, s.k, w, c, RoleOf(s, w));
    ChildReplaced(j, s, w, Child(c.(headers := c.headers[1..]), Complete, c.headers[0]));
  }

  lemma TakeServing(j: Job, s: State, w: nat)
    requires Serving(j, s) && PcFits(j, s) && Counted(j, s) && w < |s.child|
    requires s.pc.AwaitAny? || s.pc == AwaitOne(w)
    requires s.child[w].req.Complete?
    ensures var s' := TakeResult(s, w);
            Serving(j, s') && HeldBy(s'.child) == HeldBy(s.child) && w >= s.tail
            && Sum(ChildLeft, s'.child) == Sum(ChildLeft, s.child) + 1
  {
    var c := s.child[w].(req := Null);
    assert ChildFits(j, s, w);
    OthersFit(j, s, TakeResult(s, w), w, c);
    HeldUpdate(s.child, w, c);
  }

  lemma IrecvServing(j: Job, s: State, w: nat)
    requires Serving(j, s) && PcFits(j, s) && Counted(j, s) && w < |s.child|
    requires s.pc == HandOutIrecv(w) || s.pc == ReplyIrecv(w)
    ensures RootStep(j, s, false).Some?
    ensures var s' := RootStep(j, s, false).value;
            Serving(j, s') && HeldBy(s'.child) == HeldBy(s.child)
            && Sum(ChildLeft, s'.child) == Sum(ChildLeft, s.child)
  {
    var s' := RootStep(j, s, false).value;
    var c := s.child[w].(req := Active);
    assert ChildFits(j, s, w);
    OthersFit(j, s, s', w, c);
    HeldUpdate(s.child, w, c);
  }

  lemma GiveServing(j: Job, s: State, w: nat, pc: RootPc)
    requires Serving(j, s) && PcFits(j, s) && Counted(j, s) && s.k < |j.pieces|
    requires (s.pc == HandOut(w) && pc == HandOutReturn(w)) || (s.pc == Reply(w) && pc == ReplyReturn(w))
    ensures var s' := Post(j, s, w, pc);
            Serving(j, s') && w !in HeldBy(s.child) && HeldBy(s'.child) == HeldBy(s.child)[w := s.k]
            && Sum(ChildLeft, s'.child) == Sum(ChildLeft, s.child) + 8
  {
    var c := s.child[w].conv;
    var c' := c.(work := c.work + [Work(s.k, j.pieces)], job := Some(s.k));
    assert ChildFits(j, s, w);
    GiveFits(ByPiece, j.f, j.pieces, s.k, w, c);
    OthersFit(j, s, Post(j, s, w, pc), w, s.child[w].(conv := c'));
    HeldUpdate(s.child, w, s.child[w].(conv := c'));
  }

  lemma StopServing(j: Job, s: State, w: nat)
    requires Serving(j, s) && PcFits(j, s) && Counted(j, s) && s.k == |j.pieces| && s.pc == Reply(w)
    ensures var s' := PostStop(s, w);
            Serving(j, s') && w !in HeldBy(s.child) && HeldBy(s'.child) == HeldBy(s.child)
            && Sum(ChildLeft, s'.child) == Sum(ChildLeft, s.child) + 1
  {
    var c := s.child[w].conv;
    var c' := c.(work := c.work + [STOP]);
    assert ChildFits(j, s, w);
    StopFits(ByPiece, j.f, j.pieces, s.k, w, c);
    OthersFit(j, s, PostStop(s, w), w, s.child[w].(conv := c'));
    HeldUpdate(s.child, w, s.child[w].(conv := c'));
  }

  lemma DrawServing(j: Job, s: State, w: nat, h: Msg)
    requires Serving(j, s) && PcFits(j, s) && Counted(j, s) && s.pc == AwaitData(w, h) && s.child[w].conv.data != []
    ensures var s' := DrawData(s, w, h);
            Serving(j, s') && w in HeldBy(s.child) && HeldBy(s'.child) == HeldBy(s.child) - {w}
            && Sum(ChildLeft, s'.child) == Sum(ChildLeft, s.child) - 3
            && HeldBy(s.child)[w] < |j.pieces| && h.rect == j.pieces[HeldBy(s.child)[w]]
            && s'.log == s.log + [Drawing(h.rect, Data(j.f, h.rect))] && s'.drawn == s.drawn + [HeldBy(s.child)[w]]
  {
    var c := s.child[w].conv;
    var c' := c.(data := c.data[1..], job := None);
    assert ChildFits(j, s, w);
    DrawFits(ByPiece, j.f, j.pieces, s.k, w, c, h);
    OthersFit(j, s, DrawData(s, w, h), w, s.child[w].(conv := c'));
    HeldUpdate(s.child, w, s.child[w].(conv := c'));
  }

  lemma ReturnServing(j: Job, s: State)
    requires Serving(j, s) && PcFits(j, s) && Counted(j, s) && RootStep(j, s, false).Some?
    requires s.pc.HandOutReturn? || s.pc.ReplyReturn? || s.pc.StopReturn?
    ensures var s' := RootStep(j, s, false).value; Serving(j, s') && s'.child == s.child
  {
    var s' := RootStep(j, s, false).value;
    forall v: nat | v < |s'.child| ensures ChildFits(j, s', v) {
      assert ChildFits(j, s, v);
      assert SameFor(s, s', v);
    }
  }

  // ---- every step

  /** The event of the bag an action stands for, if it is not a stutter. */
  function EventOf(j: Job, s: State, a: Action): Option<WorkBag.Event> {
    if !a.RootAct? then None
    else match s.pc
      case HandOut(i) => Some(WorkBag.Give(i))
      case AwaitData(w, _) => Some(WorkBag.Draw(w))
      case Reply(w) => Some(if s.k < |j.pieces| then WorkBag.Give(w) else WorkBag.Stop(w))
      case _ => None
  }

  ghost predicate Refines(j: Job, s: State, s': State, e: Option<WorkBag.Event>) {
    match e
    case None => Abs(s') == Abs(s)
    case Some(v) => WorkBag.Enabled(Abs(s), v, |j.pieces|, |s.child|) && Abs(s') == WorkBag.After(Abs(s), v)
  }

  ghost predicate GoodStep(j: Job, s: State, s': State, a: Action) {
    && Inv(j, s') && |s'.child| == |s.child|
    && Remaining(j, s') == Remaining(j, s) - 1
    && Refines(j, s, s', EventOf(j, s, a))
  }

  lemma WorkerGood(j: Job, s: State, w: nat, strict: bool)
    requires Inv(j, s) && Fire(j, s, WorkerAct(w), strict).Some?
    ensures GoodStep(j, s, Fire(j, s, WorkerAct(w), strict).value, WorkerAct(w))
  {
    WorkerServing(j, s, w, strict);
  }

  lemma MatchGood(j: Job, s: State, w: nat)
    requires Inv(j, s) && Fire(j, s, Match(w), true).Some?
    ensures GoodStep(j, s, Fire(j, s, Match(w), true).value, Match(w))
  {
    MatchServing(j, s, w);
  }

  lemma TakeGood(j: Job, s: State, w: nat, a: Action)
    requires Inv(j, s) && Fire(j, s, a, true).Some? && w < |s.child| && s.child[w].req.Complete?
    requires a == TakeAny(w) || (a == RootAct && s.pc == AwaitOne(w))
    ensures GoodStep(j, s, Fire(j, s, a, true).value, a)
  {
    TakeServing(j, s, w);
  }

  lemma IrecvGood(j: Job, s: State, w: nat)
    requires Inv(j, s) && (s.pc == HandOutIrecv(w) || s.pc == ReplyIrecv(w))
    ensures RootStep(j, s, false).Some? && GoodStep(j, s, RootStep(j, s, false).value, RootAct)
  {
    IrecvServing(j, s, w);
  }

  /** Handing out a piece is the bag's Give. */
  lemma GiveRefines(j: Job, s: State, s': State, w: nat)
    requires w < |s.child| == |s'.child| && s.k < |j.pieces| && w >= s.tail && w !in HeldBy(s.child)
    requires s'.k == s.k + 1 && s'.drawn == s.drawn && s'.tail == s.tail
    requires HeldBy(s'.child) == HeldBy(s.child)[w := s.k]
    ensures Refines(j, s, s', Some(WorkBag.Give(w)))
  {
    assert Abs(s').stopped == Abs(s).stopped;
  }

  lemma GiveGood(j: Job, s: State, w: nat)
    requires Inv(j, s) && s.k < |j.pieces| && (s.pc == HandOut(w) || s.pc == Reply(w))
    ensures RootStep(j, s, false).Some? && GoodStep(j, s, RootStep(j, s, false).value, RootAct)
  {
    var pc := if s.pc.HandOut? then HandOutReturn(w) else ReplyReturn(w);
    GiveServing(j, s, w, pc);
    GiveRefines(j, s, Post(j, s, w, pc), w);
  }

  lemma StopGood(j: Job, s: State, w: nat)
    requires Inv(j, s) && s.k == |j.pieces| && s.pc == Reply(w)
    ensures RootStep(j, s, false).Some? && GoodStep(j, s, RootStep(j, s, false).value, RootAct)
  {
    StopServing(j, s, w);
  }

  lemma DrawGood(j: Job, s: State, w: nat, h: Msg)
    requires Inv(j, s) && s.pc == AwaitData(w, h) && RootStep(j, s, false).Some?
    ensures GoodStep(j, s, RootStep(j, s, false).value, RootAct)
  {
    DrawServing(j, s, w, h);
  }

  lemma ReturnGood(j: Job, s: State)
    requires Inv(j, s) && RootStep(j, s, false).Some?
    requires s.pc.HandOutReturn? || s.pc.ReplyReturn? || s.pc.StopReturn?
    ensures GoodStep(j, s, RootStep(j, s, false).value, RootAct)
  {
    ReturnServing(j, s);
  }

  /** At MPI_Wait the handle is never null: the root does not run on with a stale result. */
  lemma WaitHasRequest(j: Job, s: State, i: nat)
    requires Inv(j, s) && s.pc == AwaitOne(i)
    ensures i < |s.child| && !s.child[i].req.Null?
  {
    assert ChildFits(j, s, i);
  }

  /** Every step, with buffered or with synchronous sends, keeps the invariant, is one step of the abstract
      bag of work or leaves it unchanged, and uses up exactly one of the remaining steps. */
  lemma StepGood(j: Job, s: State, a: Action, strict: bool)
    requires Inv(j, s) && Fire(j, s, a, strict).Some?
    ensures GoodStep(j, s, Fire(j, s, a, strict).value, a)
  {
    match a {
      case WorkerAct(w) => WorkerGood(j, s, w, strict);
      case Match(w) => MatchGood(j, s, w);
      case TakeAny(w) => TakeGood(j, s, w, a);
      case RootAct =>
        assert RootStep(j, s, false) == Fire(j, s, a, strict);
        match s.pc {
          case HandOut(i) => GiveGood(j, s, i);
          case AwaitOne(i) => WaitHasRequest(j, s, i); TakeGood(j, s, i, a);
          case AwaitData(w, h) => DrawGood(j, s, w, h);
          case Reply(w) => if s.k < |j.pieces| { GiveGood(j, s, w); } else { StopGood(j, s, w); }
          case HandOutIrecv(i) => IrecvGood(j, s, i);
          case ReplyIrecv(w) => IrecvGood(j, s, w);
          case _ => ReturnGood(j, s);
        }
    }
  }
}
