/**
 * The running sums behind Pearson's correlation (Σx, Σx², Σxy over n terms)
 * and what they satisfy: n times a variance is never negative, it is zero only
 * for equal terms, and the covariance is bounded by the variances
 * (Cauchy-Schwarz).
 */
module Moments {
  import opened Sums
  import opened RealArith

  /** The term-by-term product of two term functions. */
  function Times<T>(f: T -> real, g: T -> real): T -> real {
    e => f(e) * g(e)
  }

  /** The term-by-term sum of two term functions. */
  function Plus<T>(f: T -> real, g: T -> real): T -> real {
    e => f(e) + g(e)
  }

  /** The term-by-term difference of two term functions. */
  function Minus<T>(f: T -> real, g: T -> real): T -> real {
    e => f(e) - g(e)
  }

  /** Each term multiplied by `c`. */
  function Scaled<T>(c: real, f: T -> real): T -> real {
    e => c * f(e)
  }

  /** Each term of `u` minus `t` times the matching term of `v`. */
  function Shifted<T>(u: T -> real, t: real, v: T -> real): T -> real {
    e => u(e) - t * v(e)
  }

  /** The same term `c` everywhere. */
  function Constant<T>(c: real): T -> real {
    e => c
  }

  /** Each term minus the constant `m`. */
  function Centered<T>(f: T -> real, m: real): T -> real {
    e => f(e) - m
  }

  /** Σx² - (Σx)²/n from the running sums: n times a variance. */
  function Moment(sumOfSquared: real, sum: real, n: real): real
    requires n > 0.0
  {
    sumOfSquared - sum * sum / n
  }

  /** Σxy - Σx·Σy/n from the running sums: n times a covariance. */
  function CoMoment(sumOfProducts: real, xSum: real, ySum: real, n: real): real
    requires n > 0.0
  {
    sumOfProducts - xSum * ySum / n
  }

  /** Every term of `s` has the same value. */
  ghost predicate Uniform<T>(s: seq<T>, f: T -> real)
    requires s != []
  {
    forall e :: e in s ==> f(e) == f(s[0])
  }

  /** The mean of the terms. */
  function Mean<T>(s: seq<T>, f: T -> real): real
    requires s != []
  {
    Sum(s, f) / (|s| as real)
  }

  lemma {:induction false} SumConstant<T>(s: seq<T>, f: T -> real, c: real)
    requires forall e :: e in s ==> f(e) == c
    ensures Sum(s, f) == (|s| as real) * c
  {
    if s != [] {
      SumConstant(s[..|s| - 1], f, c);
    }
  }

  lemma SumOnes<T>(s: seq<T>, one: T -> real)
    requires forall e :: one(e) == 1.0
    ensures Sum(s, one) == |s| as real
  {
    SumConstant(s, one, 1.0);
  }

  lemma {:induction false} SumPlus<T>(s: seq<T>, f: T -> real, g: T -> real)
    ensures Sum(s, Plus(f, g)) == Sum(s, f) + Sum(s, g)
  {
    if s != [] {
      SumPlus(s[..|s| - 1], f, g);
    }
  }

  lemma {:induction false} SumMinus<T>(s: seq<T>, f: T -> real, g: T -> real)
    ensures Sum(s, Minus(f, g)) == Sum(s, f) - Sum(s, g)
  {
    if s != [] {
      SumMinus(s[..|s| - 1], f, g);
    }
  }

  lemma {:induction false} SumScaled<T>(s: seq<T>, c: real, f: T -> real)
    ensures Sum(s, Scaled(c, f)) == c * Sum(s, f)
  {
    if s != [] {
      var init := s[..|s| - 1];
      SumScaled(init, c, f);
      Distribute(c, Sum(init, f), f(s[|s| - 1]), Sum(s, f));
    }
  }

  lemma ShiftedProductAt<T>(u: T -> real, t: real, v: T -> real, w: T -> real, r: real, z: T -> real, e: T)
    ensures Times(Shifted(u, t, v), Shifted(w, r, z))(e)
         == Plus(Minus(Minus(Times(u, w), Scaled(t, Times(v, w))), Scaled(r, Times(u, z))), Scaled(t * r, Times(v, z)))(e)
  {
    Bilinear(u(e), t, v(e), w(e), r, z(e));
  }

  /** Σ(u - t·v)(w - r·z) == Σuw - t·Σvw - r·Σuz + t·r·Σvz. */
  lemma SumShiftedProduct<T>(s: seq<T>, u: T -> real, t: real, v: T -> real, w: T -> real, r: real, z: T -> real)
    ensures Sum(s, Times(Shifted(u, t, v), Shifted(w, r, z)))
         == Sum(s, Times(u, w)) - t * Sum(s, Times(v, w)) - r * Sum(s, Times(u, z)) + t * r * Sum(s, Times(v, z))
  {
    var first := Minus(Times(u, w), Scaled(t, Times(v, w)));
    var second := Minus(first, Scaled(r, Times(u, z)));
    var expanded := Plus(second, Scaled(t * r, Times(v, z)));
    assert Sum(s, Times(Shifted(u, t, v), Shifted(w, r, z))) == Sum(s, expanded) by {
      forall e | e in s
        ensures Times(Shifted(u, t, v), Shifted(w, r, z))(e) == expanded(e)
      {
        ShiftedProductAt(u, t, v, w, r, z, e);
      }
      SumCongruent(s, Times(Shifted(u, t, v), Shifted(w, r, z)), expanded);
    }
    SumPlus(s, second, Scaled(t * r, Times(v, z)));
    SumMinus(s, first, Scaled(r, Times(u, z)));
    SumMinus(s, Times(u, w), Scaled(t, Times(v, w)));
    SumScaled(s, t, Times(v, w));
    SumScaled(s, r, Times(u, z));
    SumScaled(s, t * r, Times(v, z));
  }

  lemma SumTimesCommutes<T>(s: seq<T>, f: T -> real, g: T -> real)
    ensures Sum(s, Times(f, g)) == Sum(s, Times(g, f))
  {
    SumCongruent(s, Times(f, g), Times(g, f));
  }

  /** A sum of squares is never negative. */
  lemma SumOfSquaresNonNegative<T>(s: seq<T>, f: T -> real)
    ensures Sum(s, Times(f, f)) >= 0.0
  {
    forall e | e in s
      ensures Times(f, f)(e) >= 0.0
    {
      assert Times(f, f)(e) == Square(f(e));
    }
    SumNonNegative(s, Times(f, f));
  }

  /** A sum of squares is zero exactly when every term is. */
  lemma SumOfSquaresZero<T>(s: seq<T>, f: T -> real)
    ensures Sum(s, Times(f, f)) == 0.0 <==> forall e :: e in s ==> f(e) == 0.0
  {
    forall e | e in s
      ensures Times(f, f)(e) >= 0.0 && (Times(f, f)(e) == 0.0 <==> f(e) == 0.0)
    {
      assert Times(f, f)(e) == Square(f(e));
    }
    SumZero(s, Times(f, f));
  }

  /** Cauchy-Schwarz: (Σuv)² <= Σu²·Σv². */
  lemma CauchySchwarz<T>(s: seq<T>, u: T -> real, v: T -> real)
    ensures Square(Sum(s, Times(u, v))) <= Sum(s, Times(u, u)) * Sum(s, Times(v, v))
  {
    var a, b, c := Sum(s, Times(u, u)), Sum(s, Times(u, v)), Sum(s, Times(v, v));
    SumOfSquaresNonNegative(s, u);
    SumOfSquaresNonNegative(s, v);
    if c == 0.0 {
      SumOfSquaresZero(s, v);
      SumConstant(s, Times(u, v), 0.0);
      NonNegativeProduct(a, c, a * c);
    } else {
      var t := b / c;
      SumShiftedProduct(s, u, t, v, u, t, v);
      SumTimesCommutes(s, v, u);
      SumOfSquaresNonNegative(s, Shifted(u, t, v));
      Discriminant(a, b, c, t);
    }
  }

  /** Centering by `a` is shifting by `a` times a term function that is 1 everywhere. */
  lemma SumCenteredProduct<T>(s: seq<T>, f: T -> real, a: real, g: T -> real, b: real, one: T -> real)
    requires forall e :: one(e) == 1.0
    ensures Sum(s, Times(Centered(f, a), Centered(g, b)))
         == Sum(s, Times(f, g)) - a * Sum(s, g) - b * Sum(s, f) + a * b * (|s| as real)
  {
    CenteredExpansion(s, f, a, g, b, one);
    UnitExpansion(s, f, a, g, b, one, Sum(s, Times(Centered(f, a), Centered(g, b))));
  }

  lemma UnitExpansion<T>(s: seq<T>, f: T -> real, a: real, g: T -> real, b: real, one: T -> real, x: real)
    requires forall e :: one(e) == 1.0
    requires x == Sum(s, Times(f, g)) - a * Sum(s, Times(one, g)) - b * Sum(s, Times(f, one)) + a * b * Sum(s, Times(one, one))
    ensures x == Sum(s, Times(f, g)) - a * Sum(s, g) - b * Sum(s, f) + a * b * (|s| as real)
  {
    UnitSums(s, f, g, one);
    Substitute(Sum(s, Times(f, g)), a, b, Sum(s, Times(one, g)), Sum(s, g), Sum(s, Times(f, one)), Sum(s, f),
               Sum(s, Times(one, one)), |s| as real);
  }

  lemma CenteredExpansion<T>(s: seq<T>, f: T -> real, a: real, g: T -> real, b: real, one: T -> real)
    requires forall e :: one(e) == 1.0
    ensures Sum(s, Times(Centered(f, a), Centered(g, b)))
         == Sum(s, Times(f, g)) - a * Sum(s, Times(one, g)) - b * Sum(s, Times(f, one)) + a * b * Sum(s, Times(one, one))
  {
    CenteredIsShifted(s, f, a, g, b, one);
    SumShiftedProduct(s, f, a, one, g, b, one);
  }

  lemma UnitSums<T>(s: seq<T>, f: T -> real, g: T -> real, one: T -> real)
    requires forall e :: one(e) == 1.0
    ensures Sum(s, Times(one, g)) == Sum(s, g) && Sum(s, Times(f, one)) == Sum(s, f)
    ensures Sum(s, Times(one, one)) == |s| as real
  {
    SumTimesOne(s, g, one);
    SumTimesOne(s, f, one);
    SumCongruent(s, Times(one, one), one);
    SumOnes(s, one);
  }

  lemma CenteredIsShifted<T>(s: seq<T>, f: T -> real, a: real, g: T -> real, b: real, one: T -> real)
    requires forall e :: one(e) == 1.0
    ensures Sum(s, Times(Centered(f, a), Centered(g, b))) == Sum(s, Times(Shifted(f, a, one), Shifted(g, b, one)))
  {
    forall e | e in s
      ensures Times(Centered(f, a), Centered(g, b))(e) == Times(Shifted(f, a, one), Shifted(g, b, one))(e)
    {
      assert Centered(f, a)(e) == Shifted(f, a, one)(e);
      assert Centered(g, b)(e) == Shifted(g, b, one)(e);
    }
    SumCongruent(s, Times(Centered(f, a), Centered(g, b)), Times(Shifted(f, a, one), Shifted(g, b, one)));
  }

  /** Multiplying every term by 1 leaves the sum alone. */
  lemma SumTimesOne<T>(s: seq<T>, f: T -> real, one: T -> real)
    requires forall e :: one(e) == 1.0
    ensures Sum(s, Times(one, f)) == Sum(s, f) && Sum(s, Times(f, one)) == Sum(s, f)
  {
    SumCongruent(s, Times(one, f), f);
    SumCongruent(s, Times(f, one), f);
  }

  /** Expanding about the means mx = Sx / n and my = Sy / n gives the co-moment. */
  lemma CoMomentOfMeans(sumOfProducts: real, xSum: real, ySum: real, n: real, mx: real, my: real, deviation: real)
    requires n > 0.0 && mx == xSum / n && my == ySum / n
    requires deviation == sumOfProducts - mx * ySum - my * xSum + mx * my * n
    ensures CoMoment(sumOfProducts, xSum, ySum, n) == deviation
  {
    MeanProducts(sumOfProducts, xSum, ySum, n, mx, my, deviation);
  }

  lemma MeanExpansion<T>(s: seq<T>, f: T -> real, g: T -> real, x: real)
    requires s != []
    requires x == Sum(s, Times(f, g)) - Mean(s, f) * Sum(s, g) - Mean(s, g) * Sum(s, f) + Mean(s, f) * Mean(s, g) * (|s| as real)
    ensures CoMoment(Sum(s, Times(f, g)), Sum(s, f), Sum(s, g), |s| as real) == x
  {
    CoMomentOfMeans(Sum(s, Times(f, g)), Sum(s, f), Sum(s, g), |s| as real, Mean(s, f), Mean(s, g), x);
  }

  /** The co-moment is the sum of products of deviations from the means. */
  lemma CoMomentIsDeviation<T>(s: seq<T>, f: T -> real, g: T -> real)
    requires s != []
    ensures CoMoment(Sum(s, Times(f, g)), Sum(s, f), Sum(s, g), |s| as real)
         == Sum(s, Times(Centered(f, Mean(s, f)), Centered(g, Mean(s, g))))
  {
    SumCenteredProduct(s, f, Mean(s, f), g, Mean(s, g), Constant(1.0));
    MeanExpansion(s, f, g, Sum(s, Times(Centered(f, Mean(s, f)), Centered(g, Mean(s, g)))));
  }

  /** The moment is the sum of squared deviations from the mean. */
  lemma MomentIsDeviation<T>(s: seq<T>, f: T -> real)
    requires s != []
    ensures Moment(Sum(s, Times(f, f)), Sum(s, f), |s| as real)
         == Sum(s, Times(Centered(f, Mean(s, f)), Centered(f, Mean(s, f))))
  {
    CoMomentIsDeviation(s, f, f);
  }

  /** n times a variance is never negative. */
  lemma MomentNonNegative<T>(s: seq<T>, f: T -> real)
    requires s != []
    ensures Moment(Sum(s, Times(f, f)), Sum(s, f), |s| as real) >= 0.0
  {
    MomentIsDeviation(s, f);
    SumOfSquaresNonNegative(s, Centered(f, Mean(s, f)));
  }

  /** The moment is zero exactly when every term is the same. */
  lemma MomentZero<T>(s: seq<T>, f: T -> real)
    requires s != []
    ensures Moment(Sum(s, Times(f, f)), Sum(s, f), |s| as real) == 0.0 <==> Uniform(s, f)
  {
    MomentIsDeviation(s, f);
    SumOfSquaresZero(s, Centered(f, Mean(s, f)));
    CenteredZero(s, f);
  }

  /** Every term equals the mean exactly when every term is the same. */
  lemma CenteredZero<T>(s: seq<T>, f: T -> real)
    requires s != []
    ensures (forall e :: e in s ==> Centered(f, Mean(s, f))(e) == 0.0) <==> Uniform(s, f)
  {
    var m := Mean(s, f);
    if forall e :: e in s ==> Centered(f, m)(e) == 0.0 {
      assert forall e :: e in s ==> f(e) == m;
      assert s[0] in s;
    }
    if Uniform(s, f) {
      SumConstant(s, f, f(s[0]));
      assert m == f(s[0]);
    }
  }

  /** The co-moment squared is at most the product of the moments. */
  lemma CoMomentBound<T>(s: seq<T>, f: T -> real, g: T -> real)
    requires s != []
    ensures Square(CoMoment(Sum(s, Times(f, g)), Sum(s, f), Sum(s, g), |s| as real))
         <= Moment(Sum(s, Times(f, f)), Sum(s, f), |s| as real) * Moment(Sum(s, Times(g, g)), Sum(s, g), |s| as real)
  {
    MomentIsDeviation(s, f);
    MomentIsDeviation(s, g);
    CoMomentIsDeviation(s, f, g);
    CauchySchwarz(s, Centered(f, Mean(s, f)), Centered(g, Mean(s, g)));
  }
}
