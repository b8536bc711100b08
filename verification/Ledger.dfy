/** The root's drawings, related to the pieces they are drawings of. */
module Ledger {
  import opened Rects
  import opened Picture
  import opened Courier
  import opened Permute
  import WorkBag

  /** Entry n of the log is piece drawn[n], with that piece's own data. */
  ghost predicate Logged(f: Point -> int, pieces: seq<Rect>, log: seq<Drawing>, drawn: seq<nat>) {
    && |log| == |drawn|
    && forall n :: 0 <= n < |log| ==>
         drawn[n] < |pieces| && log[n] == Drawing(pieces[drawn[n]], Data(f, pieces[drawn[n]]))
  }

  function PieceAt(pieces: seq<Rect>): nat -> Rect {
    (i: nat) => if i < |pieces| then pieces[i] else STOP.rect
  }

  lemma LogIsMapped(f: Point -> int, pieces: seq<Rect>, log: seq<Drawing>, drawn: seq<nat>)
    requires Logged(f, pieces, log, drawn) && forall r :: r in pieces ==> r.Proper()
    ensures RectsOf(log) == Mapped(PieceAt(pieces), drawn)
    ensures Faithful(log, f)
  {
    forall n | 0 <= n < |log| ensures pieces[drawn[n]] in pieces {}
  }

  /** If each piece was drawn exactly once, the rectangles drawn are the pieces, each as often as it occurs. */
  lemma LogHoldsPieces(f: Point -> int, pieces: seq<Rect>, log: seq<Drawing>, drawn: seq<nat>)
    requires Logged(f, pieces, log, drawn) && forall r :: r in pieces ==> r.Proper()
    requires multiset(drawn) == multiset(WorkBag.Upto(|pieces|))
    ensures multiset(RectsOf(log)) == multiset(pieces) && Faithful(log, f)
  {
    LogIsMapped(f, pieces, log, drawn);
    MappedSame(PieceAt(pieces), drawn, WorkBag.Upto(|pieces|));
    assert Mapped(PieceAt(pieces), WorkBag.Upto(|pieces|)) == pieces;
  }

  /** If the pieces were drawn in their order, the log is that of their drawings. */
  lemma LogInOrder(f: Point -> int, pieces: seq<Rect>, log: seq<Drawing>, drawn: seq<nat>)
    requires Logged(f, pieces, log, drawn) && drawn == WorkBag.Upto(|pieces|)
    ensures log == Drawings(f, pieces)
  {
  }
}
