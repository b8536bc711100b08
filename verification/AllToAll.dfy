/** sendrecv_ult.c: every rank runs one sending and one receiving thread over the same all-to-all schedule. */
module AllToAll {
  import opened Arith
  import opened Options
  import opened Counting

  // ---- the schedule

  /** Loop counters i and j flattened: the n-th message has j == n % (size - 1) + 1. A single rank sends none. */
  function Shift(size: nat, n: nat): (j: nat)
    requires 1 <= size
    ensures j < size && (2 <= size ==> 1 <= j)
  {
    if size == 1 then 0 else n % (size - 1) + 1
  }

  function Dest(size: nat, rank: nat, n: nat): (d: nat)
    requires 1 <= size
    ensures d < size
  {
    (rank + Shift(size, n)) % size
  }

  function Source(size: nat, rank: nat, n: nat): (r: nat)
    requires 1 <= size
    ensures r < size
  {
    (rank + size - Shift(size, n)) % size
  }

  /** Remainder of a number below twice the modulus. */
  lemma Wrap(x: nat, size: nat)
    requires x < 2 * size
    ensures x % size == if x < size then x else x - size
  {
    if x < size { DivMod(0, x, size); } else { DivMod(1, x - size, size); }
  }

  /** The n-th send of r goes to d exactly when the n-th receive of d is from r; no rank sends to itself. */
  lemma Meets(size: nat, r: nat, d: nat, n: nat)
    requires 1 <= size && r < size && d < size
    ensures Dest(size, r, n) == d <==> Source(size, d, n) == r
    ensures 2 <= size ==> Dest(size, r, n) != r
  {
    Wrap(r + Shift(size, n), size);
    Wrap(d + size - Shift(size, n), size);
  }

  // ---- the machine

  /** One message: its first element, and its position in the sender's schedule (bookkeeping). */
  datatype Packet = Packet(value: int, serial: nat)

  datatype Pair = Pair(src: nat, dst: nat)

  /** posted and returned count a rank's MPI_Send calls begun and finished, received its finished MPI_Recv
      calls; sum is the variable the receiving thread adds to. */
  datatype Rank = Rank(posted: nat, returned: nat, received: nat, sum: int)

  datatype State = State(rank: seq<Rank>, chan: map<Pair, seq<Packet>>)

  /** Number of messages each rank sends and receives. */
  function Total(size: nat, loops: nat): nat
    requires 1 <= size
  {
    MulLe(0, loops, size - 1);
    loops * (size - 1)
  }

  function Start(size: nat): State {
    State(seq(size, _ => Rank(0, 0, 0, 0)), map[])
  }

  function Chan(s: State, r: nat, d: nat): seq<Packet> {
    if Pair(r, d) in s.chan then s.chan[Pair(r, d)] else []
  }

  datatype Action = Post(r: nat) | Return(r: nat) | Receive(r: nat)

  function SetRank(s: State, r: nat, x: Rank): State
    requires r < |s.rank|
  {
    s.(rank := s.rank[r := x])
  }

  /** strict: a send returns only when its message has left the channel. */
  function Fire(loops: nat, s: State, a: Action, strict: bool): Option<State>
    requires 1 <= |s.rank|
  {
    var size := |s.rank|;
    if a.r >= size then None
    else
      var x := s.rank[a.r];
      match a
      case Post(r) =>
        if x.posted == x.returned && x.posted < Total(size, loops) then
          var d := Dest(size, r, x.posted);
          Some(SetRank(s, r, x.(posted := x.posted + 1))
               .(chan := s.chan[Pair(r, d) := Chan(s, r, d) + [Packet(r, x.posted)]]))
        else None
      case Return(r) =>
        if x.returned < x.posted
           && !(strict && exists p :: p in Chan(s, r, Dest(size, r, x.returned)) && p.serial == x.returned)
        then Some(SetRank(s, r, x.(returned := x.returned + 1)))
        else None
      case Receive(d) =>
        var src := Source(size, d, x.received);
        if x.received < Total(size, loops) && Chan(s, src, d) != [] then
          var c := Chan(s, src, d);
          Some(SetRank(s, d, x.(received := x.received + 1, sum := x.sum + c[0].value))
               .(chan := s.chan[Pair(src, d) := c[1..]]))
        else None
  }

  // ---- the invariant

  predicate Ascending(c: seq<Packet>) { forall i, k :: 0 <= i < k < |c| ==> c[i].serial < c[k].serial }

  ghost predicate Present(c: seq<Packet>, n: nat) { exists p :: p in c && p.serial == n }

  /** The channel from r to d holds, in order, exactly the messages r has posted to d and d has not received. */
  ghost predicate ChanFits(s: State, r: nat, d: nat)
    requires 1 <= |s.rank| && r < |s.rank| && d < |s.rank|
  {
    var c, size := Chan(s, r, d), |s.rank|;
    && Ascending(c)
    && (forall p :: p in c ==>
          p.value == r && s.rank[d].received <= p.serial < s.rank[r].posted && Dest(size, r, p.serial) == d)
    && (forall n: nat :: s.rank[d].received <= n < s.rank[r].posted && Dest(size, r, n) == d ==> Present(c, n))
  }

  /** What rank d has added up after n receives. */
  function SumTo(size: nat, d: nat, n: nat): int
    requires 1 <= size
  {
    if n == 0 then 0 else SumTo(size, d, n - 1) + Source(size, d, n - 1)
  }

  ghost predicate RankFits(loops: nat, s: State, r: nat)
    requires 1 <= |s.rank| && r < |s.rank|
  {
    var x, size := s.rank[r], |s.rank|;
    && x.returned <= x.posted <= x.returned + 1
    && x.posted <= Total(size, loops) && x.received <= Total(size, loops)
    && x.sum == SumTo(size, r, x.received)
    && forall n: nat :: n < x.received ==> n < s.rank[Source(size, r, n)].posted
  }

  ghost predicate Inv(loops: nat, s: State) {
    && 1 <= |s.rank|
    && (forall r: nat :: r < |s.rank| ==> RankFits(loops, s, r))
    && (forall r: nat, d: nat :: r < |s.rank| && d < |s.rank| ==> ChanFits(s, r, d))
  }

  lemma StartInv(size: nat, loops: nat)
    requires 1 <= size
    ensures Inv(loops, Start(size))
  {
  }

  lemma PostChan(loops: nat, s: State, r: nat, r': nat, d': nat)
    requires Inv(loops, s) && Fire(loops, s, Post(r), false).Some? && r' < |s.rank| && d' < |s.rank|
    ensures ChanFits(Fire(loops, s, Post(r), false).value, r', d')
  {
    var s', n := Fire(loops, s, Post(r), false).value, s.rank[r].posted;
    var d := Dest(|s.rank|, r, n);
    Meets(|s.rank|, r, d, n);
    assert RankFits(loops, s, d) && ChanFits(s, r', d');
    var c, c' := Chan(s, r', d'), Chan(s', r', d');
    if r' == r && d' == d {
      assert c' == c + [Packet(r, n)];
      forall m: nat | s'.rank[d'].received <= m < s'.rank[r'].posted && Dest(|s.rank|, r', m) == d'
        ensures Present(c', m)
      {
        if m < n {
          assert Present(c, m);
          var p :| p in c && p.serial == m;
          assert p in c';
        } else {
          assert c'[|c|] in c';
        }
      }
    } else {
      assert c' == c;
    }
  }

  lemma PostInv(loops: nat, s: State, r: nat)
    requires Inv(loops, s) && Fire(loops, s, Post(r), false).Some?
    ensures Inv(loops, Fire(loops, s, Post(r), false).value)
  {
    var s' := Fire(loops, s, Post(r), false).value;
    forall r': nat | r' < |s'.rank| ensures RankFits(loops, s', r') {
      assert RankFits(loops, s, r');
    }
    forall r': nat, d': nat | r' < |s'.rank| && d' < |s'.rank| ensures ChanFits(s', r', d') {
      PostChan(loops, s, r, r', d');
    }
  }

  lemma ReturnInv(loops: nat, s: State, r: nat)
    requires Inv(loops, s) && Fire(loops, s, Return(r), false).Some?
    ensures Inv(loops, Fire(loops, s, Return(r), false).value)
  {
    var s' := Fire(loops, s, Return(r), false).value;
    forall r': nat | r' < |s'.rank| ensures RankFits(loops, s', r') {
      assert RankFits(loops, s, r');
    }
    forall r': nat, d': nat | r' < |s'.rank| && d' < |s'.rank| ensures ChanFits(s', r', d') {
      assert ChanFits(s, r', d');
    }
  }

  /** The j-th send of a rank meets the j-th receive of its destination: the message at the head of the channel
      a rank receives from is the one with the receiver's own position, carrying the sender's rank. */
  lemma HeadMeets(loops: nat, s: State, d: nat)
    requires Inv(loops, s) && d < |s.rank|
    ensures var n := s.rank[d].received; var src := Source(|s.rank|, d, n); var c := Chan(s, src, d);
            && (c != [] <==> n < s.rank[src].posted)
            && (c != [] ==> c[0] == Packet(src, n))
  {
    var n := s.rank[d].received;
    var src := Source(|s.rank|, d, n);
    var c := Chan(s, src, d);
    Meets(|s.rank|, src, d, n);
    assert ChanFits(s, src, d);
    assert n < s.rank[src].posted ==> Present(c, n);
    if c != [] {
      assert c[0] in c;
      var p :| p in c && p.serial == n;
      var i :| 0 <= i < |c| && c[i] == p;
    }
  }

  /** Taking the head off a channel leaves the messages with the later positions, in order. */
  lemma TailHolds(c: seq<Packet>)
    requires c != [] && Ascending(c)
    ensures Ascending(c[1..])
    ensures forall p :: p in c[1..] ==> p in c && c[0].serial < p.serial
    ensures forall m: nat :: Present(c, m) && m != c[0].serial ==> Present(c[1..], m)
  {
    forall m: nat | Present(c, m) && m != c[0].serial ensures Present(c[1..], m) {
      var p :| p in c && p.serial == m;
      var i :| 0 <= i < |c| && c[i] == p;
      assert c[1..][i - 1] == p;
    }
  }

  lemma ReceiveChan(loops: nat, s: State, d: nat, r': nat, d': nat)
    requires Inv(loops, s) && Fire(loops, s, Receive(d), false).Some? && r' < |s.rank| && d' < |s.rank|
    ensures ChanFits(Fire(loops, s, Receive(d), false).value, r', d')
  {
    var s', n := Fire(loops, s, Receive(d), false).value, s.rank[d].received;
    HeadMeets(loops, s, d);
    Meets(|s.rank|, r', d', n);
    assert ChanFits(s, r', d');
    var c := Chan(s, r', d');
    if r' == Source(|s.rank|, d, n) && d' == d {
      assert Chan(s', r', d') == c[1..];
      TailHolds(c);
    } else {
      assert Chan(s', r', d') == c;
    }
  }

  lemma ReceiveRank(loops: nat, s: State, d: nat, r': nat)
    requires Inv(loops, s) && Fire(loops, s, Receive(d), false).Some? && r' < |s.rank|
    ensures RankFits(loops, Fire(loops, s, Receive(d), false).value, r')
  {
    HeadMeets(loops, s, d);
    assert RankFits(loops, s, r');
  }

  lemma ReceiveInv(loops: nat, s: State, d: nat)
    requires Inv(loops, s) && Fire(loops, s, Receive(d), false).Some?
    ensures Inv(loops, Fire(loops, s, Receive(d), false).value)
  {
    forall r': nat | r' < |s.rank| ensures RankFits(loops, Fire(loops, s, Receive(d), false).value, r') {
      ReceiveRank(loops, s, d, r');
    }
    forall r': nat, d': nat | r' < |s.rank| && d' < |s.rank|
      ensures ChanFits(Fire(loops, s, Receive(d), false).value, r', d')
    {
      ReceiveChan(loops, s, d, r', d');
    }
  }

  /** Calls a rank still has to begin or finish. */
  function RankLeft(total: nat): Rank -> nat {
    (x: Rank) => if x.posted <= total && x.returned <= total && x.received <= total
                 then 3 * total - x.posted - x.returned - x.received else 0
  }

  /** Every step, with buffered or with synchronous sends, keeps the invariant and finishes one of the
      3 * total calls of one rank. */
  lemma StepInv(loops: nat, s: State, a: Action, strict: bool)
    requires Inv(loops, s) && Fire(loops, s, a, strict).Some?
    ensures var s' := Fire(loops, s, a, strict).value; var left := RankLeft(Total(|s.rank|, loops));
            Inv(loops, s') && |s'.rank| == |s.rank| && Sum(left, s'.rank) == Sum(left, s.rank) - 1
  {
    var s' := Fire(loops, s, a, strict).value;
    assert Fire(loops, s, a, false) == Some(s');
    match a {
      case Post(r) => PostInv(loops, s, r);
      case Return(r) => ReturnInv(loops, s, r);
      case Receive(r) => ReceiveInv(loops, s, r);
    }
    assert RankFits(loops, s, a.r) && RankFits(loops, s', a.r);
    SumUpdate(RankLeft(Total(|s.rank|, loops)), s.rank, a.r, s'.rank[a.r]);
  }

  ghost predicate Over(loops: nat, s: State)
    requires 1 <= |s.rank|
  {
    forall x :: x in s.rank ==> x.posted == x.returned == x.received == Total(|s.rank|, loops)
  }

  /** A rank with the fewest receives. */
  lemma Slowest(s: State) returns (d: nat)
    requires 1 <= |s.rank|
    ensures d < |s.rank| && forall r: nat :: r < |s.rank| ==> s.rank[d].received <= s.rank[r].received
  {
    d := 0;
    for i := 0 to |s.rank|
      invariant d < |s.rank| && forall r: nat :: r < i ==> s.rank[d].received <= s.rank[r].received
    {
      if s.rank[i].received < s.rank[d].received { d := i; }
    }
  }

  /** A blocked send waits for a rank that is no further than its own position. */
  lemma BlockedBehind(loops: nat, s: State, r: nat)
    requires Inv(loops, s) && r < |s.rank| && s.rank[r].returned < s.rank[r].posted
    ensures Fire(loops, s, Return(r), true).Some?
      || exists d: nat :: d < |s.rank| && s.rank[d].received <= s.rank[r].returned
  {
    var d := Dest(|s.rank|, r, s.rank[r].returned);
    assert ChanFits(s, r, d);
  }

  /** The schedule never deadlocks, even when no send returns before its message is received. */
  lemma Progress(loops: nat, s: State) returns (a: Action)
    requires Inv(loops, s) && !Over(loops, s)
    ensures Fire(loops, s, a, true).Some?
  {
    var size := |s.rank|;
    var total := Total(size, loops);
    var d := Slowest(s);
    var n := s.rank[d].received;
    assert RankFits(loops, s, d);
    if n < total {
      var src := Source(size, d, n);
      HeadMeets(loops, s, d);
      assert RankFits(loops, s, src);
      if n < s.rank[src].posted {
        a := Receive(d);
      } else if s.rank[src].posted == s.rank[src].returned {
        a := Post(src);
      } else {
        BlockedBehind(loops, s, src);
        a := Return(src);
      }
    } else {
      var x :| x in s.rank && !(x.posted == x.returned == x.received == total);
      var r: nat :| r < size && s.rank[r] == x;
      assert RankFits(loops, s, r);
      AllPosted(loops, s, r);
      BlockedBehind(loops, s, r);
      a := Return(r);
    }
  }

  /** When everybody has received everything, everybody has posted everything. */
  lemma AllPosted(loops: nat, s: State, r: nat)
    requires Inv(loops, s) && r < |s.rank|
    requires forall d: nat :: d < |s.rank| ==> s.rank[d].received >= Total(|s.rank|, loops)
    ensures s.rank[r].posted == Total(|s.rank|, loops)
  {
    var n := s.rank[r].posted;
    var d := Dest(|s.rank|, r, n);
    Meets(|s.rank|, r, d, n);
    assert RankFits(loops, s, r) && RankFits(loops, s, d);
  }
}
