/** One round of the master/worker job without its messages: pieces are handed out in order, each to one
    free worker, drawn when that worker's result arrives, and workers are stopped when all is handed out.
    Both message-passing schedulers refine this machine. */
module WorkBag {
  import opened Permute

  /** next: pieces handed out so far (the root's k); held: piece of each busy worker;
      drawn: pieces in the order of their drawing; stopped: workers that were told to stop. */
  datatype Bag = Bag(next: nat, held: map<nat, nat>, drawn: seq<nat>, stopped: set<nat>)

  const EMPTY := Bag(0, map[], [], {})

  datatype Event = Give(w: nat) | Draw(w: nat) | Stop(w: nat)

  predicate Enabled(b: Bag, e: Event, pieces: nat, workers: nat) {
    match e
    case Give(w) => w < workers && w !in b.held && w !in b.stopped && b.next < pieces
    case Draw(w) => w in b.held
    case Stop(w) => w < workers && w !in b.held && w !in b.stopped && b.next == pieces
  }

  function After(b: Bag, e: Event): Bag {
    match e
    case Give(w) => b.(next := b.next + 1, held := b.held[w := b.next])
    case Draw(w) => if w in b.held then b.(held := b.held - {w}, drawn := b.drawn + [b.held[w]]) else b
    case Stop(w) => b.(stopped := b.stopped + {w})
  }

  ghost predicate Holds(b: Bag, w: nat, p: nat) { w in b.held && b.held[w] == p }

  ghost predicate HeldOnce(b: Bag, p: nat) {
    exists w :: Holds(b, w, p) && forall v :: Holds(b, v, p) ==> v == w
  }

  ghost predicate Unheld(b: Bag, p: nat) { forall w :: !Holds(b, w, p) }

  /** Piece p is in exactly one place: not handed out, held by exactly one worker, or drawn. */
  ghost predicate OnePlace(b: Bag, p: nat) {
    || (b.next <= p && p !in b.drawn && Unheld(b, p))
    || (p < b.next && p !in b.drawn && HeldOnce(b, p))
    || (p < b.next && p in b.drawn && Unheld(b, p))
  }

  ghost predicate Safe(b: Bag, pieces: nat, workers: nat) {
    && b.next <= pieces
    && Distinct(b.drawn)
    && (forall p: nat :: OnePlace(b, p))
    && (forall w :: w in b.held ==> w < workers && w !in b.stopped)
    && (forall w :: w in b.stopped ==> w < workers)
    && (b.stopped != {} ==> b.next == pieces)
  }

  lemma EmptySafe(pieces: nat, workers: nat)
    ensures Safe(EMPTY, pieces, workers)
  {
  }

  lemma GivePlace(b: Bag, w: nat, p: nat)
    requires w !in b.held && OnePlace(b, p)
    ensures OnePlace(After(b, Give(w)), p)
  {
    var b' := After(b, Give(w));
    forall v | v != w ensures Holds(b', v, p) <==> Holds(b, v, p) {}
    if p == b.next {
      assert Holds(b', w, p);
    }
  }

  lemma DrawPlace(b: Bag, w: nat, p: nat)
    requires w in b.held && OnePlace(b, p)
    ensures OnePlace(After(b, Draw(w)), p)
  {
    var b' := After(b, Draw(w));
    forall v | v != w ensures Holds(b', v, p) <==> Holds(b, v, p) {}
    if p == b.held[w] {
      assert Holds(b, w, p);
      assert p in b'.drawn;
    } else {
      assert p in b'.drawn <==> p in b.drawn;
    }
  }

  /** No event moves a piece to two places, loses one, or draws one twice. */
  lemma StepSafe(b: Bag, e: Event, pieces: nat, workers: nat)
    requires Safe(b, pieces, workers) && Enabled(b, e, pieces, workers)
    ensures Safe(After(b, e), pieces, workers)
  {
    var b' := After(b, e);
    forall p: nat ensures OnePlace(b', p) {
      assert OnePlace(b, p);
      match e {
        case Give(w) => GivePlace(b, w, p);
        case Draw(w) => DrawPlace(b, w, p);
        case Stop(w) =>
          forall v ensures Holds(b', v, p) <==> Holds(b, v, p) {}
      }
    }
    assert Distinct(b'.drawn) by {
      if e.Draw? {
        assert Holds(b, e.w, b.held[e.w]) && OnePlace(b, b.held[e.w]);
      }
    }
  }

  /** 0, 1, ..., n - 1 */
  function Upto(n: nat): (s: seq<nat>)
    ensures |s| == n
  {
    seq(n, i => i)
  }

  lemma {:induction false} DistinctBelow(s: seq<nat>, n: nat)
    requires Distinct(s) && forall p: nat :: p < n <==> p in s
    ensures multiset(s) == multiset(Upto(n))
  {
    forall p: nat ensures multiset(s)[p] == multiset(Upto(n))[p] {
      DistinctCounts(s, p);
      assert Distinct(Upto(n));
      DistinctCounts(Upto(n), p);
      if p < n { assert Upto(n)[p] == p; }
    }
  }

  /** When everything was handed out and nobody holds a piece, every piece was drawn exactly once. */
  lemma AllDrawn(b: Bag, pieces: nat, workers: nat)
    requires Safe(b, pieces, workers) && b.next == pieces && b.held == map[]
    ensures multiset(b.drawn) == multiset(Upto(pieces))
  {
    forall p: nat ensures p < pieces <==> p in b.drawn {
      assert OnePlace(b, p);
    }
    DistinctBelow(b.drawn, pieces);
  }

  // ---- one worker

  /** The only worker draws the pieces in the order they are handed out. */
  ghost predicate OneByOne(b: Bag) {
    && (forall w :: w in b.held ==> w == 0)
    && (0 in b.held ==> b.next == b.held[0] + 1)
    && b.drawn == Upto(if 0 in b.held then b.held[0] else b.next)
  }

  lemma OneByOneStep(b: Bag, e: Event, pieces: nat)
    requires OneByOne(b) && Enabled(b, e, pieces, 1)
    ensures OneByOne(After(b, e))
  {
    if e.Draw? {
      assert Upto(b.next) == Upto(b.held[0]) + [b.held[0]];
    }
  }
}
