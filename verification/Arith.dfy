/** Nonlinear facts about rows, columns and fixed steps, used by every index computation. */
module Arith {

  function Min(x: int, y: int): int { if x < y then x else y }

  /** Multiplication by a non-negative factor is monotone. */
  lemma MulLe(a: int, b: int, w: int)
    requires a <= b && 0 <= w
    ensures a * w <= b * w
  {
  }

  /** Quotient and remainder are determined by the equation and the range of the remainder. */
  lemma QuotientUnique(q1: int, r1: int, q2: int, r2: int, w: int)
    requires 0 <= r1 < w && 0 <= r2 < w
    requires q1 * w + r1 == q2 * w + r2
    ensures q1 == q2 && r1 == r2
  {
    assert (q1 + 1) * w == q1 * w + w && (q2 + 1) * w == q2 * w + w;
    if q1 < q2 {
      MulLe(q1 + 1, q2, w);
    } else if q2 < q1 {
      MulLe(q2 + 1, q1, w);
    }
  }

  /** Splitting b * w + a into its row b and column a undoes the flattening. */
  lemma DivMod(b: int, a: int, w: int)
    requires 0 <= a < w
    ensures (b * w + a) / w == b && (b * w + a) % w == a
  {
    var n := b * w + a;
    assert n == (n / w) * w + n % w;
    QuotientUnique(n / w, n % w, b, a, w);
  }

  /** A flat index below h * w has its row below h. */
  lemma RowBelow(k: int, h: int, w: int)
    requires 0 <= k < h * w && 0 < w
    ensures 0 <= k / w < h && 0 <= k % w < w && (k / w) * w + k % w == k
  {
    var q := k / w;
    assert q * w + k % w == k;
    if q >= h {
      MulLe(h, q, w);
    }
    if q < 0 {
      MulLe(q, -1, w);
    }
  }

  /** A flat index made of a row below h and a column below w lies below h * w. */
  lemma FlatBelow(b: int, a: int, h: int, w: int)
    requires 0 <= a < w && 0 <= b < h
    ensures 0 <= b * w + a < h * w
  {
    MulLe(b + 1, h, w);
    MulLe(0, b, w);
  }
}
