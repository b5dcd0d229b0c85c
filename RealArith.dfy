/**
 * Small facts of real arithmetic. Each product is passed in as its own
 * argument, so that every non-linear step is proved once, here, from the
 * signs of its factors.
 */
module RealArith {

  /** Ruby's `r ** 2`. */
  function Square(r: real): (sq: real)
    ensures sq >= 0.0
    ensures sq == 0.0 <==> r == 0.0
  {
    var sq := r * r;
    if r > 0.0 then PositiveProduct(r, r, sq); sq
    else if r < 0.0 then NegativeFactors(r, r, sq); sq
    else sq
  }

  lemma PositiveProduct(a: real, b: real, p: real)
    requires a > 0.0 && b > 0.0 && p == a * b
    ensures p > 0.0
  {
  }

  lemma NegativeFactors(a: real, b: real, p: real)
    requires a < 0.0 && b < 0.0 && p == a * b
    ensures p > 0.0
  {
  }

  lemma NonNegativeProduct(a: real, b: real, p: real)
    requires a >= 0.0 && b >= 0.0 && p == a * b
    ensures p >= 0.0
  {
  }

  /** Multiplying `b < c` by a positive factor keeps the order strict. */
  lemma StrictlyMonotone(a: real, b: real, c: real, p: real, q: real)
    requires a > 0.0 && b < c && p == a * b && q == a * c
    ensures p < q
  {
  }

  /** Multiplying `b <= c` by a non-negative factor keeps the order. */
  lemma Monotone(a: real, b: real, c: real, p: real, q: real)
    requires a >= 0.0 && b <= c && p == a * b && q == a * c
    ensures p <= q
  {
  }

  lemma SquareDifference(a: real, b: real)
    ensures Square(a - b) == Square(b - a)
  {
  }

  /** `1 / (1 + d)` for a non-negative `d` lies in (0, 1] and is 1 only for `d == 0`. */
  lemma Reciprocal(d: real)
    requires d >= 0.0
    ensures 0.0 < 1.0 / (1.0 + d) <= 1.0
    ensures 1.0 / (1.0 + d) == 1.0 <==> d == 0.0
  {
  }

  /** Multiplying `lo <= r <= hi` by a non-negative weight. */
  lemma Scale(lo: real, hi: real, r: real, w: real)
    requires w >= 0.0 && lo <= r <= hi
    ensures lo * w <= w * r <= hi * w
  {
    Monotone(w, lo, r, w * lo, w * r);
    Monotone(w, r, hi, w * r, w * hi);
  }

  /** Dividing `lo * w <= s <= hi * w` by a positive weight. */
  lemma Between(lo: real, hi: real, s: real, w: real)
    requires w > 0.0 && lo * w <= s <= hi * w
    ensures lo <= s / w <= hi
  {
  }

  /** The non-negative square root is unique. */
  lemma RootUnique(s: real, v: real)
    requires s >= 0.0 && v >= 0.0 && s * s == v * v
    ensures s == v
  {
    if s < v {
      Monotone(s, s, v, s * s, s * v);
      StrictlyMonotone(v, s, v, v * s, v * v);
    } else if v < s {
      Monotone(v, v, s, v * v, v * s);
      StrictlyMonotone(s, v, s, s * v, s * s);
    }
  }

  lemma Distribute(c: real, x: real, y: real, sum: real)
    requires sum == x + y
    ensures c * x + c * y == c * sum
  {
  }

  /** (u - t·v)(w - r·z) multiplied out. */
  lemma Bilinear(u: real, t: real, v: real, w: real, r: real, z: real)
    ensures (u - t * v) * (w - r * z) == u * w - t * (v * w) - r * (u * z) + t * r * (v * z)
  {
  }

  /** Replacing the three sums of a bilinear expansion by equal values. */
  lemma Substitute(p: real, a: real, b: real, x1: real, y1: real, x2: real, y2: real, x3: real, y3: real)
    requires x1 == y1 && x2 == y2 && x3 == y3
    ensures p - a * x1 - b * x2 + a * b * x3 == p - a * y1 - b * y2 + a * b * y3
  {
  }

  /** Centering both factors at their means: P - mx·Sy - my·Sx + n·mx·my == P - Sx·Sy/n. */
  lemma MeanProducts(sumOfProducts: real, xSum: real, ySum: real, n: real, mx: real, my: real, deviation: real)
    requires n > 0.0 && mx == xSum / n && my == ySum / n
    requires deviation == sumOfProducts - mx * ySum - my * xSum + mx * my * n
    ensures deviation == sumOfProducts - xSum * ySum / n
  {
    assert n * mx == xSum;
    assert n * (mx * my) == xSum * my;
    assert my * xSum == xSum * ySum / n;
    assert mx * ySum == xSum * ySum / n;
  }

  /**
   * A quadratic a - 2·t·b + t²·c that is non-negative at t = b / c, with
   * c > 0, has b² <= a·c.
   */
  lemma Discriminant(a: real, b: real, c: real, t: real)
    requires c > 0.0 && t == b / c
    requires a - t * b - t * b + t * t * c >= 0.0
    ensures b * b <= a * c
  {
    assert t * c == b;
    assert t * t * c == t * b;
    assert a - t * b >= 0.0;
    Monotone(c, t * b, a, c * (t * b), c * a);
    assert c * (t * b) == b * b;
  }

  /** A quotient whose square is at most 1 lies in [-1, 1]. */
  lemma RatioBound(b: real, root: real)
    requires root > 0.0 && b * b <= root * root
    ensures -1.0 <= b / root <= 1.0
  {
    if b > root {
      StrictlyMonotone(b, root, b, b * root, b * b);
      StrictlyMonotone(root, root, b, root * root, root * b);
    } else if b < -root {
      StrictlyMonotone(-b, root, -b, -b * root, b * b);
      StrictlyMonotone(root, root, -b, root * root, -root * b);
    }
    Between(-1.0, 1.0, b, root);
  }
}
