/**
 * Facts about products and quotients of reals, each proved on its own so that the proofs that use
 * them stay linear.
 */
module RealArith {

  /** With a positive factor `b`, a product has the sign of `a`. */
  lemma SignOfProduct(a: real, b: real)
    ensures b > 0.0 ==> (a * b > 0.0 <==> a > 0.0)
    ensures b > 0.0 ==> (a * b == 0.0 <==> a == 0.0)
    ensures b > 0.0 ==> (a * b < 0.0 <==> a < 0.0)
  {
    if b > 0.0 {
      if a > 0.0 {
        assert a * b > 0.0;
      } else if a < 0.0 {
        assert a * b < 0.0;
      } else {
        assert a * b == 0.0;
      }
    }
  }

  lemma DistributeDifference(a: real, b: real, n: real)
    ensures (a - b) * n == a * n - b * n
  {
  }

  lemma QuotientTimes(s: real, n: real)
    requires n != 0.0
    ensures (s / n) * n == s
  {
  }

  /** A square is never negative, and is zero exactly when its root is. */
  lemma SquareSign(d: real)
    ensures d * d >= 0.0
    ensures d * d == 0.0 <==> d == 0.0
  {
    if d > 0.0 {
      SignOfProduct(d, d);
    } else if d < 0.0 {
      SignOfProduct(-d, -d);
      NegatedSquare(d);
    }
  }

  lemma ProductCommutes(x: real, y: real)
    ensures x * y == y * x
  {
  }

  lemma NegatedSquare(d: real)
    ensures (-d) * (-d) == d * d
  {
  }

  /** `lo * (k + 1)` is `lo * k + lo`. */
  lemma MultiplySuccessor(lo: real, k: nat, n: nat)
    requires n == k + 1
    ensures lo * (n as real) == lo * (k as real) + lo
  {
    assert n as real == k as real + 1.0;
  }

  /** Bounds on `s` that scale with a positive `n` bound `s / n`. */
  lemma QuotientBounds(s: real, n: real, lo: real, hi: real)
    requires n > 0.0 && lo * n <= s <= hi * n
    ensures lo <= s / n <= hi
  {
    var q := s / n;
    QuotientTimes(s, n);
    DistributeDifference(q, lo, n);
    DistributeDifference(hi, q, n);
    SignOfProduct(q - lo, n);
    SignOfProduct(hi - q, n);
  }

  /** A share `x` of a positive whole `y` lies in [0, 1], and is 1 exactly when it is the whole. */
  lemma RatioBounds(x: real, y: real)
    requires 0.0 <= x <= y && 0.0 < y
    ensures 0.0 <= x / y <= 1.0
    ensures x / y == 1.0 <==> x == y
  {
    var q := x / y;
    QuotientTimes(x, y);
    SignOfProduct(q, y);
    DistributeDifference(1.0, q, y);
    SignOfProduct(1.0 - q, y);
  }

  /** `1 / (1 + d)` for a non-negative `d` lies in (0, 1], and is 1 exactly when `d` is 0. */
  lemma Reciprocal(d: real)
    requires d >= 0.0
    ensures 0.0 < 1.0 / (1.0 + d) <= 1.0
    ensures 1.0 / (1.0 + d) == 1.0 <==> d == 0.0
  {
    var q := 1.0 / (1.0 + d);
    QuotientTimes(1.0, 1.0 + d);
    SignOfProduct(q, 1.0 + d);
    DistributeDifference(1.0, q, 1.0 + d);
    SignOfProduct(1.0 - q, 1.0 + d);
  }

  /** With `n` copies of `c`, the sum of squares equals the squared sum over `n`: their difference is 0. */
  lemma SquaredSumOverCount(n: real, c: real)
    requires n > 0.0
    ensures n * (c * c) - (n * c) * (n * c) / n == 0.0
  {
    var s := n * c;
    assert s * s == (n * (c * c)) * n;
    QuotientTimes(s * s, n);
  }
}
