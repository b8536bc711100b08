/** One worker of a message-passing scheduler, its three first-in-first-out channels to and from the root
    (tags 100, 200 and 201), and what the pair can look like during its conversation with the root.
    A send is posted in one step and returns in a later one; the strict form of a return waits until the
    message has been received, so both buffered and synchronous sends are runs of this machine. */
module Courier {
  import opened Options
  import opened Rects

  /** Five integers: a first word and a rectangle. */
  datatype Msg = Msg(first: int, rect: Rect)

  /** pmandel.c overwrites the first word of a reply with the worker's rank; pmandel_spawn.c leaves it. */
  datatype Style = ByRank | ByPiece

  const STOP := Msg(0, Rect(0, 0, 0, 0))

  function Work(q: nat, pieces: seq<Rect>): Msg
    requires q < |pieces|
  {
    Msg(q + 1, pieces[q])
  }

  /** The header worker w sends back for work m. */
  function Header(style: Style, w: nat, m: Msg): Msg {
    if style.ByRank? then m.(first := w + 1) else m
  }

  datatype Phase =
    | Waiting
    | HeaderReady(m: Msg)
    | HeaderPosted(m: Msg)
    | DataReady(m: Msg)
    | DataPosted(m: Msg)
    | Stopped

  /** job names the piece the worker is charged with; it is bookkeeping and guards no step. */
  datatype Conv = Conv(work: seq<Msg>, phase: Phase, headers: seq<Msg>, data: seq<seq<int>>, job: Option<nat>)

  const FRESH := Conv([], Waiting, [], [], None)

  /** The next step of the worker, if it has one. */
  function WorkerStep(style: Style, f: Point -> int, w: nat, c: Conv, strict: bool): Option<Conv> {
    match c.phase
    case Waiting =>
      if c.work == [] then None
      else Some(c.(work := c.work[1..],
                   phase := if c.work[0].first == 0 then Stopped else HeaderReady(c.work[0])))
    case HeaderReady(m) => Some(c.(headers := c.headers + [Header(style, w, m)], phase := HeaderPosted(m)))
    case HeaderPosted(m) => if strict && c.headers != [] then None else Some(c.(phase := DataReady(m)))
    case DataReady(m) => Some(c.(data := c.data + [Data(f, m.rect)], phase := DataPosted(m)))
    case DataPosted(_) => if strict && c.data != [] then None else Some(c.(phase := Waiting))
    case Stopped => None
  }

  // ---- the states of a conversation

  predicate Between(c: Conv) { c.phase.Waiting? || c.phase.DataPosted? }

  predicate Silent(c: Conv) { c.headers == [] && c.data == [] }

  /** Nothing to do and nothing in flight. */
  predicate Idle(c: Conv) { c.job.None? && c.work == [] && Silent(c) && Between(c) }

  /** The one stop message is on its way or has been taken. */
  predicate Dismissed(c: Conv) {
    c.job.None? && Silent(c) && ((c.work == [STOP] && Between(c)) || (c.work == [] && c.phase.Stopped?))
  }

  /** The headers still in the channel once the reply to m has been posted. */
  function Pending(h: Msg, taken: bool): seq<Msg> { if taken then [] else [h] }

  /** Work m is on its way, being computed, or its result is on its way back.
      taken says that the root already has the header h. */
  predicate Busy(f: Point -> int, c: Conv, m: Msg, h: Msg, taken: bool) {
    || (c.work == [m] && Silent(c) && Between(c) && !taken)
    || (c.work == [] && Silent(c) && c.phase == HeaderReady(m) && !taken)
    || (c.work == [] && c.data == [] && c.headers == Pending(h, taken)
          && (c.phase == HeaderPosted(m) || c.phase == DataReady(m)))
    || (c.work == [] && c.data == [Data(f, m.rect)] && c.headers == Pending(h, taken)
          && (c.phase == DataPosted(m) || c.phase.Waiting?))
  }

  /** Where the root stands towards one worker. */
  datatype Role = Off | Gone | On | Taken(h: Msg)

  /** The conversation with worker w is what role says, about one of the first k pieces. */
  predicate Fits(style: Style, f: Point -> int, pieces: seq<Rect>, k: nat, w: nat, c: Conv, role: Role) {
    match role
    case Off => Idle(c)
    case Gone => Dismissed(c)
    case On =>
      c.job.Some? && c.job.value < k <= |pieces|
      && var m := Work(c.job.value, pieces); Busy(f, c, m, Header(style, w, m), false)
    case Taken(h) =>
      c.job.Some? && c.job.value < k <= |pieces|
      && var m := Work(c.job.value, pieces); h == Header(style, w, m) && Busy(f, c, m, h, true)
  }

  /** Steps this conversation still needs: 5 of the worker for each piece of work not received yet, and
      2 of the root (taking header and data) while a piece is out. */
  function Left(c: Conv): nat {
    (if c.job.Some? then 2 else 0)
    + (if c.work == [] then 0 else if c.work[0].first == 0 then 1 else 5)
    + match c.phase
      case Waiting => 0
      case HeaderReady(_) => 4
      case HeaderPosted(_) => 3
      case DataReady(_) => 2
      case DataPosted(_) => 1
      case Stopped => 0
  }

  /** Whatever the worker does, the conversation stays what it was, one step shorter. */
  lemma WorkerStepFits(
    style: Style, f: Point -> int, pieces: seq<Rect>, k: nat, w: nat, c: Conv, role: Role, strict: bool)
    requires Fits(style, f, pieces, k, w, c, role)
    requires WorkerStep(style, f, w, c, strict).Some?
    ensures var c' := WorkerStep(style, f, w, c, strict).value;
            Fits(style, f, pieces, k, w, c', role) && c'.job == c.job && Left(c') == Left(c) - 1
  {
    var c' := WorkerStep(style, f, w, c, strict).value;
    match c.phase {
      case Waiting =>
        assert c'.work == [];
      case HeaderReady(m) =>
        assert c'.headers == [Header(style, w, m)];
      case DataReady(m) =>
        assert c'.data == [Data(f, m.rect)];
      case _ =>
    }
  }

  /** The root posts piece k to a worker that is off. */
  lemma GiveFits(style: Style, f: Point -> int, pieces: seq<Rect>, k: nat, w: nat, c: Conv)
    requires Fits(style, f, pieces, k, w, c, Off) && k < |pieces|
    ensures var c' := c.(work := c.work + [Work(k, pieces)], job := Some(k));
            Fits(style, f, pieces, k + 1, w, c', On) && Left(c') == Left(c) + 7
  {
    assert c.work + [Work(k, pieces)] == [Work(k, pieces)];
  }

  /** The root posts the stop message to a worker that is off. */
  lemma StopFits(style: Style, f: Point -> int, pieces: seq<Rect>, k: nat, w: nat, c: Conv)
    requires Fits(style, f, pieces, k, w, c, Off)
    ensures var c' := c.(work := c.work + [STOP]);
            Fits(style, f, pieces, k, w, c', Gone) && Left(c') == Left(c) + 1
  {
    assert c.work + [STOP] == [STOP];
  }

  /** The root takes the only header there can be: the one for the worker's own job. */
  lemma TakeFits(style: Style, f: Point -> int, pieces: seq<Rect>, k: nat, w: nat, c: Conv, role: Role)
    requires Fits(style, f, pieces, k, w, c, role) && c.headers != []
    ensures role == On
    ensures c.job.Some? && c.job.value < |pieces|
    ensures c.headers == [Header(style, w, Work(c.job.value, pieces))]
    ensures var c' := c.(headers := c.headers[1..]);
            Fits(style, f, pieces, k, w, c', Taken(c.headers[0])) && Left(c') == Left(c)
  {
  }

  /** The root takes the data: it is the data of the header it holds, of exactly the announced length. */
  lemma DrawFits(style: Style, f: Point -> int, pieces: seq<Rect>, k: nat, w: nat, c: Conv, h: Msg)
    requires Fits(style, f, pieces, k, w, c, Taken(h)) && c.data != []
    ensures c.job.Some? && c.job.value < |pieces| && h.rect == pieces[c.job.value]
    ensures c.data == [Data(f, h.rect)]
    ensures var c' := c.(data := c.data[1..], job := None);
            Fits(style, f, pieces, k, w, c', Off) && Left(c') == Left(c) - 2
  {
  }

  /** A busy worker whose header has not been taken can move, or its header is there to take;
      one whose header has been taken can move, or its data is there to take. */
  lemma BusyMoves(style: Style, f: Point -> int, pieces: seq<Rect>, k: nat, w: nat, c: Conv, role: Role)
    requires Fits(style, f, pieces, k, w, c, role)
    ensures role.On? ==> WorkerStep(style, f, w, c, true).Some? || c.headers != []
    ensures role.Taken? ==> WorkerStep(style, f, w, c, true).Some? || c.data != []
    ensures role.Gone? ==> WorkerStep(style, f, w, c, true).Some? || c == FRESH.(phase := Stopped)
    ensures c.work != [] ==> WorkerStep(style, f, w, c, true).Some?
  {
  }

  // ---- synchronous sends

  /** With synchronous sends a worker has at most one message unreceived, and waits at that message's send. */
  predicate Synchronous(c: Conv) {
    && |c.headers| + |c.data| <= 1
    && (c.headers != [] ==> c.phase.HeaderPosted?)
    && (c.data != [] ==> c.phase.DataPosted?)
  }

  lemma SynchronousStep(style: Style, f: Point -> int, w: nat, c: Conv)
    requires Synchronous(c) && WorkerStep(style, f, w, c, true).Some?
    ensures Synchronous(WorkerStep(style, f, w, c, true).value)
    ensures |WorkerStep(style, f, w, c, true).value.work| <= |c.work|
  {
  }
}
