/** Whole runs of the all-to-all exchange and the sum each rank ends with. */
module AllToAllRuns {
  import opened Arith
  import opened Options
  import opened Counting
  import opened AllToAll

  ghost predicate Moves(loops: nat, s: State, s': State, strict: bool)
    requires 1 <= |s.rank|
  {
    exists a :: Fire(loops, s, a, strict) == Some(s')
  }

  ghost predicate Run(size: nat, loops: nat, trace: seq<State>) {
    && |trace| >= 1
    && trace[0] == Start(size)
    && forall i :: 0 <= i < |trace| - 1 ==> 1 <= |trace[i].rank| && Moves(loops, trace[i], trace[i + 1], false)
  }

  lemma {:induction false} SumAll(total: nat, size: nat)
    ensures Sum(RankLeft(total), Start(size).rank) == 3 * total * size
  {
    if size == 0 {
      assert Start(0).rank == [];
    } else {
      SumAll(total, size - 1);
      assert Start(size).rank[..size - 1] == Start(size - 1).rank;
      assert 3 * total * size == 3 * total * (size - 1) + 3 * total;
    }
  }

  /** The calls finished and the calls left always add up to 3 * loops * (size - 1) per rank. */
  lemma {:induction false} RunSafe(size: nat, loops: nat, trace: seq<State>)
    requires 1 <= size && Run(size, loops, trace)
    ensures var s, total := trace[|trace| - 1], Total(size, loops);
            Inv(loops, s) && |s.rank| == size && Sum(RankLeft(total), s.rank) + (|trace| - 1) == 3 * total * size
  {
    var n := |trace| - 1;
    if n == 0 {
      StartInv(size, loops);
      SumAll(Total(size, loops), size);
    } else {
      assert Run(size, loops, trace[..n]);
      RunSafe(size, loops, trace[..n]);
      var s := trace[n - 1];
      assert s == trace[..n][n - 1] && Moves(loops, trace[n - 1], trace[n - 1 + 1], false);
      var a :| Fire(loops, s, a, false) == Some(trace[n]);
      StepInv(loops, s, a, false);
    }
  }

  // ---- runs whose sends are all synchronous

  ghost predicate StrictRun(size: nat, loops: nat, trace: seq<State>) {
    && |trace| >= 1
    && trace[0] == Start(size)
    && forall i :: 0 <= i < |trace| - 1 ==> 1 <= |trace[i].rank| && Moves(loops, trace[i], trace[i + 1], true)
  }

  lemma StrictIsBuffered(loops: nat, s: State, s': State)
    requires 1 <= |s.rank| && Moves(loops, s, s', true)
    ensures Moves(loops, s, s', false)
  {
    var a :| Fire(loops, s, a, true) == Some(s');
    assert Fire(loops, s, a, false) == Some(s');
  }

  lemma StrictRunIsRun(size: nat, loops: nat, trace: seq<State>)
    requires StrictRun(size, loops, trace)
    ensures Run(size, loops, trace)
  {
    forall i | 0 <= i < |trace| - 1 ensures 1 <= |trace[i].rank| && Moves(loops, trace[i], trace[i + 1], false) {
      StrictIsBuffered(loops, trace[i], trace[i + 1]);
    }
  }

  /** No message of a send that has returned is in a channel. */
  ghost predicate NoneReturned(s: State) {
    forall r: nat, d: nat, p :: r < |s.rank| && d < |s.rank| && p in Chan(s, r, d) ==> p.serial >= s.rank[r].returned
  }

  lemma StrictStep(loops: nat, s: State, a: Action)
    requires Inv(loops, s) && NoneReturned(s) && Fire(loops, s, a, true).Some?
    ensures NoneReturned(Fire(loops, s, a, true).value)
  {
    var s' := Fire(loops, s, a, true).value;
    forall r: nat, d: nat, p | r < |s'.rank| && d < |s'.rank| && p in Chan(s', r, d)
      ensures p.serial >= s'.rank[r].returned
    {
      assert ChanFits(s, r, d) && RankFits(loops, s, r);
      if !a.Post? {
        assert p in Chan(s, r, d);
      }
    }
  }

  lemma {:induction false} StrictRunHolds(size: nat, loops: nat, trace: seq<State>)
    requires 1 <= size && StrictRun(size, loops, trace)
    ensures NoneReturned(trace[|trace| - 1])
  {
    var n := |trace| - 1;
    if n > 0 {
      assert StrictRun(size, loops, trace[..n]);
      StrictRunHolds(size, loops, trace[..n]);
      StrictRunIsRun(size, loops, trace[..n]);
      RunSafe(size, loops, trace[..n]);
      assert Moves(loops, trace[n - 1], trace[n - 1 + 1], true);
      var a :| Fire(loops, trace[n - 1], a, true) == Some(trace[n]);
      StrictStep(loops, trace[n - 1], a);
    }
  }

  /** With synchronous sends only, the message of every send that has returned was received, so no rank ever has two
      messages unreceived. */
  lemma StrictReceived(size: nat, loops: nat, trace: seq<State>, r: nat, n: nat)
    requires 1 <= size && StrictRun(size, loops, trace) && r < size
    ensures var s := trace[|trace| - 1];
            && |s.rank| == size && s.rank[r].posted <= s.rank[r].returned + 1
            && (n < s.rank[r].returned ==> n < s.rank[Dest(size, r, n)].received)
  {
    var s := trace[|trace| - 1];
    StrictRunIsRun(size, loops, trace);
    RunSafe(size, loops, trace);
    StrictRunHolds(size, loops, trace);
    assert RankFits(loops, s, r) && ChanFits(s, r, Dest(size, r, n));
  }

  // ---- the sum

  /** j-th source of rank d within one pass, for j from 1. */
  function PassSum(size: nat, d: nat, m: nat): int
    requires 1 <= size && m < size && d < size
  {
    if m == 0 then 0 else PassSum(size, d, m - 1) + (d + size - m) % size
  }

  lemma {:induction false} PassSumClosed(size: nat, d: nat, m: nat)
    requires 1 <= size && m < size && d < size
    ensures 2 * PassSum(size, d, m) == m * (2 * d - m - 1) + if m <= d then 0 else 2 * size * (m - d)
  {
    if m > 0 {
      PassSumClosed(size, d, m - 1);
      Wrap(d + size - m, size);
      assert m * (2 * d - m - 1) == (m - 1) * (2 * d - (m - 1) - 1) + 2 * (d - m);
      if m > d {
        assert 2 * size * (m - d) == 2 * size * (m - 1 - d) + 2 * size;
      }
    }
  }

  /** One pass adds up all the other ranks. */
  lemma PassTotal(size: nat, d: nat)
    requires 1 <= size && d < size
    ensures 2 * PassSum(size, d, size - 1) == size * (size - 1) - 2 * d
  {
    PassSumClosed(size, d, size - 1);
    PassAlgebra(size - 1, d);
    assert size - 1 == d ==> 2 * size * (size - 1 - d) == 0;
  }

  lemma PassAlgebra(n: int, d: int)
    ensures n * (2 * d - n - 1) + 2 * (n + 1) * (n - d) == (n + 1) * n - 2 * d
  {
    assert n * (2 * d - n - 1) == 2 * (n * d) - n * n - n;
    assert 2 * (n + 1) * (n - d) == 2 * (n * n) - 2 * (n * d) + 2 * n - 2 * d;
  }

  lemma {:induction false} PassWithin(size: nat, d: nat, i: nat, m: nat)
    requires 1 <= size && d < size && m < size
    ensures Total(size, i) + m >= 0
    ensures SumTo(size, d, Total(size, i) + m) == SumTo(size, d, Total(size, i)) + PassSum(size, d, m)
  {
    if m > 0 {
      PassWithin(size, d, i, m - 1);
      DivMod(i, m - 1, size - 1);
      assert Shift(size, Total(size, i) + m - 1) == m;
    }
  }

  /** A product grows by its other factor when one factor grows by one. */
  lemma OneMore(n: int, w: int)
    ensures n * w == (n - 1) * w + w
  {
  }

  /** A quantity that grows by the same amount in every round. */
  lemma {:induction false} Steady(a: nat -> int, each: int, rounds: nat)
    requires a(0) == 0 && forall i: nat :: a(i + 1) == a(i) + each
    ensures a(rounds) == rounds * each
  {
    if rounds > 0 {
      Steady(a, each, rounds - 1);
      assert a(rounds - 1 + 1) == a(rounds - 1) + each;
      OneMore(rounds, each);
    }
  }

  /** The pass after the first i adds what one pass adds. */
  lemma SumRound(size: nat, d: nat, i: nat)
    requires 1 <= size && d < size
    ensures 2 * SumTo(size, d, Total(size, i + 1)) == 2 * SumTo(size, d, Total(size, i)) + (size * (size - 1) - 2 * d)
  {
    PassWithin(size, d, i, size - 1);
    PassTotal(size, d);
    OneMore(i + 1, size - 1);
  }

  lemma SumRounds(size: nat, d: nat, loops: nat)
    requires 1 <= size && d < size
    ensures 2 * SumTo(size, d, Total(size, loops)) == loops * (size * (size - 1) - 2 * d)
  {
    var a, each := (i: nat) => 2 * SumTo(size, d, Total(size, i)), size * (size - 1) - 2 * d;
    forall i: nat ensures a(i + 1) == a(i) + each {
      SumRound(size, d, i);
    }
    Steady(a, each, loops);
  }

  lemma DoneLeft(loops: nat, s: State)
    requires Inv(loops, s)
    ensures Over(loops, s) ==> Sum(RankLeft(Total(|s.rank|, loops)), s.rank) == 0
  {
    if Over(loops, s) {
      SumZero(RankLeft(Total(|s.rank|, loops)), s.rank);
    }
  }

  /** Rank d holds its share of the sum and nothing is left on the way to it. */
  ghost predicate RankDone(loops: nat, s: State, d: nat)
    requires 1 <= |s.rank| && d < |s.rank|
  {
    && 2 * s.rank[d].sum == loops * (|s.rank| * (|s.rank| - 1) - 2 * d)
    && forall r: nat :: r < |s.rank| ==> Chan(s, r, d) == []
  }

  /** Every run ends after exactly 3 * loops * (size - 1) * size calls; one that is not over can go on, also
      with synchronous sends; and at the end rank d holds loops * (size * (size - 1) / 2 - d), with every
      channel empty. */
  lemma RunEnds(size: nat, loops: nat, trace: seq<State>)
    requires 1 <= size && Run(size, loops, trace)
    ensures var s, calls := trace[|trace| - 1], 3 * Total(size, loops) * size;
            && |trace| - 1 <= calls && |s.rank| == size
            && (Over(loops, s) <==> |trace| - 1 == calls)
            && (!Over(loops, s) ==> exists a :: Fire(loops, s, a, true).Some?)
            && (Over(loops, s) ==> forall d: nat :: d < size ==> RankDone(loops, s, d))
  {
    var s := trace[|trace| - 1];
    RunSafe(size, loops, trace);
    DoneLeft(loops, s);
    if Over(loops, s) {
      forall d: nat | d < size ensures RankDone(loops, s, d) {
        FinalRank(loops, s, d);
      }
    } else {
      var a := Progress(loops, s);
      StepInv(loops, s, a, true);
    }
  }

  lemma HeadIsMember(c: seq<Packet>)
    ensures c == [] || exists p :: p in c
  {
    assert c == [] || c[0] in c;
  }

  lemma FinalRank(loops: nat, s: State, d: nat)
    requires Inv(loops, s) && Over(loops, s) && d < |s.rank|
    ensures RankDone(loops, s, d)
  {
    SumRounds(|s.rank|, d, loops);
    assert s.rank[d] in s.rank && RankFits(loops, s, d);
    forall r: nat | r < |s.rank| ensures Chan(s, r, d) == [] {
      HeadIsMember(Chan(s, r, d));
      assert s.rank[r] in s.rank && ChanFits(s, r, d);
    }
  }

  // ---- the loops

  /** thread_send_func: the ranks it sends to, in order. */
  method SendOrder(size: nat, rank: nat, loops: nat) returns (dests: seq<nat>)
    requires 1 <= size && rank < size
    ensures |dests| == Total(size, loops)
    ensures forall n :: 0 <= n < |dests| ==> dests[n] == Dest(size, rank, n)
  {
    dests := [];
    for i := 0 to loops
      invariant |dests| == Total(size, i)
      invariant forall n :: 0 <= n < |dests| ==> dests[n] == Dest(size, rank, n)
    {
      OneMore(i + 1, size - 1);
      for j := 1 to size
        invariant |dests| == Total(size, i) + (j - 1)
        invariant forall n :: 0 <= n < |dests| ==> dests[n] == Dest(size, rank, n)
      {
        DivMod(i, j - 1, size - 1);
        assert Shift(size, |dests|) == j;
        dests := dests + [(rank + j) % size];
      }
    }
  }

  lemma TakenNext(incoming: seq<int>, before: seq<nat>, source: nat)
    requires |before| < |incoming| && incoming[..|before| + 1] == before + [source]
    ensures incoming[..|before|] == before && incoming[|before|] == source
  {
    assert incoming[..|before| + 1] == incoming[..|before|] + [incoming[|before|]];
  }

  /** thread_recv_func over the first elements of the messages it receives: the ranks it receives from, in
      order, and the sum when each message carries its sender's rank. */
  method ReceiveLoop(size: nat, rank: nat, loops: nat, incoming: seq<int>) returns (sources: seq<nat>, sum: int)
    requires 1 <= size && rank < size && |incoming| == Total(size, loops)
    ensures |sources| == Total(size, loops)
    ensures forall n :: 0 <= n < |sources| ==> sources[n] == Source(size, rank, n)
    ensures incoming == sources ==> 2 * sum == loops * (size * (size - 1) - 2 * rank)
  {
    sources, sum := [], 0;
    for i := 0 to loops
      invariant |sources| == Total(size, i) <= |incoming|
      invariant forall n :: 0 <= n < |sources| ==> sources[n] == Source(size, rank, n)
      invariant incoming[..|sources|] == sources ==> sum == SumTo(size, rank, |sources|)
    {
      OneMore(i + 1, size - 1);
      MulLe(i + 1, loops, size - 1);
      for j := 1 to size
        invariant |sources| == Total(size, i) + (j - 1) <= |incoming|
        invariant forall n :: 0 <= n < |sources| ==> sources[n] == Source(size, rank, n)
        invariant incoming[..|sources|] == sources ==> sum == SumTo(size, rank, |sources|)
      {
        DivMod(i, j - 1, size - 1);
        assert Shift(size, |sources|) == j;
        var source: nat := (rank + size - j) % size;
        ghost var before := sources;
        sum := sum + incoming[|sources|];
        sources := sources + [source];
        if incoming[..|sources|] == sources {
          TakenNext(incoming, before, source);
        }
      }
    }
    SumRounds(size, rank, loops);
    assert incoming[..|sources|] == incoming;
  }
}
