/** Small facts of real arithmetic, kept apart so that each is proved in a tiny context. */
module RealArith {

  lemma Distribute(c: real, a: real, b: real)
    ensures c * (a + b) == c * a + c * b
  {}

  lemma ProductPositive(a: real, b: real)
    requires a > 0.0 && b > 0.0
    ensures a * b > 0.0
  {}

  lemma ProductNonNegative(a: real, b: real)
    requires a >= 0.0 && b >= 0.0
    ensures a * b >= 0.0
  {
    if a > 0.0 && b > 0.0 {
      ProductPositive(a, b);
    }
  }

  /** A square is never negative, and positive for a non-zero number. */
  lemma SquareSign(a: real)
    ensures a * a >= 0.0
    ensures a != 0.0 ==> a * a > 0.0
  {
    if a > 0.0 {
      ProductPositive(a, a);
    } else if a < 0.0 {
      ProductPositive(-a, -a);
    }
  }

  /** A non-zero common factor cancels. */
  lemma CancelFactor(c: real, x: real, y: real)
    requires c != 0.0 && c * x == c * y
    ensures x == y
  {
    calc {
      x;
      (c * x) / c;
      (c * y) / c;
      y;
    }
  }

  /** A product with a positive factor is positive only if the other factor is. */
  lemma PositiveFactor(x: real, d: real)
    requires d > 0.0
    ensures x * d > 0.0 ==> x > 0.0
  {
    if x < 0.0 {
      ProductPositive(-x, d);
    }
  }

  lemma MeanTimesWeight(total: real, weight: real, mean: real)
    requires weight != 0.0 && mean == total / weight
    ensures mean * weight == total
  {}

  /** Dividing by a positive weight keeps a strict upper bound. */
  lemma DivBelow(x: real, w: real, l: real)
    requires w > 0.0 && x < l * w
    ensures x / w < l
  {
    var q := x / w;
    MeanTimesWeight(x, w, q);
    if q >= l {
      ProductNonNegative(q - l, w);
    }
  }

  /** Scaling by a positive factor keeps a strict order. */
  lemma ScaleBelow(a: real, b: real, l: real)
    requires l > 0.0 && a < b
    ensures a * l < b * l
  {
    ProductPositive(b - a, l);
  }

  lemma QuotientPositive(a: real, b: real)
    requires a > 0.0 && b > 0.0
    ensures a / b > 0.0
  {
    var q := a / b;
    MeanTimesWeight(a, b, q);
    PositiveFactor(q, b);
  }

  lemma QuotientNonNegative(a: real, b: real)
    requires a >= 0.0 && b > 0.0
    ensures a / b >= 0.0
    ensures a == 0.0 ==> a / b == 0.0
  {
    if a > 0.0 {
      QuotientPositive(a, b);
    }
  }

  /**
   * A share `level * l - r` of a level with `level * w == s`, once `r` is
   * added back and scaled by `w`, is `l * s`: the division-free form of
   * `amt == l * s / w - r`.
   */
  lemma Rescale(amt: real, l: real, r: real, s: real, w: real, level: real)
    requires level * w == s && amt == level * l - r
    ensures (amt + r) * w == l * s
  {
    calc {
      (amt + r) * w;
      (level * l) * w;
      l * (level * w);
      l * s;
    }
  }

  /** Dividing by a positive weight keeps a strict order. */
  lemma QuotientOrder(a: real, b: real, w: real)
    requires w > 0.0 && a < b
    ensures a / w < b / w
  {
    var qa, qb := a / w, b / w;
    MeanTimesWeight(a, w, qa);
    MeanTimesWeight(b, w, qb);
    if qa >= qb {
      ProductNonNegative(qa - qb, w);
    }
  }
}
