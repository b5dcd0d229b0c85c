/**
 * The similarity metrics of lib/ch2/similarity/metrics.rb: each compares two
 * subjects' ratings over the items both of them rated.
 */
module Metrics {
  import opened Hashes
  import opened Sums
  import opened RealArith
  import opened Moments

  type Item = string

  /** One subject's ratings: item => score. */
  type Ratings = Hash<Item, real>

  /**
   * The score `x` gave `item`, read as from a `Hash.new(0)`: a missing item
   * reads as 0. The metrics only consult it for items `x` rated.
   */
  function Rating(x: Ratings, item: Item): real {
    if item in x.entries then x.entries[item] else 0.0
  }

  function ScoreOf(x: Ratings): Item -> real {
    item => Rating(x, item)
  }

  function SquaredDifference(x: Ratings, y: Ratings): Item -> real {
    item => Square(Rating(x, item) - Rating(y, item))
  }

  /** Whether `y` rated an item. */
  function RatedBy(y: Ratings): Item -> bool {
    item => item in y.entries
  }

  /** `common_items`: `x.keys & y.keys`, the items both rated, in `x`'s order. */
  function CommonItems(x: Ratings, y: Ratings): (items: seq<Item>)
    requires Valid(x) && Valid(y)
    ensures forall item :: item in items <==> item in x.entries && item in y.entries
    ensures Subsequence(items, x.keys)
    ensures Distinct(items)
  {
    Filter(x.keys, RatedBy(y))
  }

  /**
   * `ecludiean_distance`: the sum of the squared score differences over the
   * common items (no square root is taken).
   */
  function EuclideanDistance(x: Ratings, y: Ratings): (d: real)
    requires Valid(x) && Valid(y)
    ensures d >= 0.0
    ensures CommonItems(x, y) == [] ==> d == 0.0
  {
    SumNonNegative(CommonItems(x, y), SquaredDifference(x, y));
    Sum(CommonItems(x, y), SquaredDifference(x, y))
  }

  /** `distance_similarity` (alias `sim_distance`): 1 / (1 + distance). */
  function DistanceSimilarity(x: Ratings, y: Ratings): (s: real)
    requires Valid(x) && Valid(y)
    ensures 0.0 < s <= 1.0
  {
    Reciprocal(EuclideanDistance(x, y));
    1.0 / (1.0 + EuclideanDistance(x, y))
  }

  /** The two subjects rated every common item alike. */
  ghost predicate AgreeOnCommonItems(x: Ratings, y: Ratings) {
    forall item :: item in x.entries && item in y.entries ==> x.entries[item] == y.entries[item]
  }

  lemma {:induction false} CommonItemsPermuted(x: Ratings, y: Ratings)
    requires Valid(x) && Valid(y)
    ensures multiset(CommonItems(x, y)) == multiset(CommonItems(y, x))
  {
    DistinctSameElements(CommonItems(x, y), CommonItems(y, x));
  }

  lemma {:induction false} EuclideanDistanceSymmetric(x: Ratings, y: Ratings)
    requires Valid(x) && Valid(y)
    ensures EuclideanDistance(x, y) == EuclideanDistance(y, x)
  {
    CommonItemsPermuted(x, y);
    SumPermutation(CommonItems(x, y), CommonItems(y, x), SquaredDifference(x, y));
    SquaredDifferencesSymmetric(x, y, CommonItems(y, x));
  }

  lemma SquaredDifferencesSymmetric(x: Ratings, y: Ratings, items: seq<Item>)
    ensures Sum(items, SquaredDifference(x, y)) == Sum(items, SquaredDifference(y, x))
  {
    forall item | item in items
      ensures SquaredDifference(x, y)(item) == SquaredDifference(y, x)(item)
    {
      SquareDifference(Rating(x, item), Rating(y, item));
    }
    SumCongruent(items, SquaredDifference(x, y), SquaredDifference(y, x));
  }

  /** The distance is zero exactly when the two agree on every common item. */
  lemma {:induction false} EuclideanDistanceZero(x: Ratings, y: Ratings)
    requires Valid(x) && Valid(y)
    ensures EuclideanDistance(x, y) == 0.0 <==> AgreeOnCommonItems(x, y)
  {
    var items := CommonItems(x, y);
    SumZero(items, SquaredDifference(x, y));
    if EuclideanDistance(x, y) == 0.0 {
      forall item | item in x.entries && item in y.entries
        ensures x.entries[item] == y.entries[item]
      {
        assert item in items;
      }
    }
  }

  lemma {:induction false} DistanceSimilaritySymmetric(x: Ratings, y: Ratings)
    requires Valid(x) && Valid(y)
    ensures DistanceSimilarity(x, y) == DistanceSimilarity(y, x)
  {
    EuclideanDistanceSymmetric(x, y);
  }

  /**
   * The similarity is 1 exactly when the two agree on every common item, which
   * includes the case of no common items at all.
   */
  lemma {:induction false} DistanceSimilarityOne(x: Ratings, y: Ratings)
    requires Valid(x) && Valid(y)
    ensures DistanceSimilarity(x, y) == 1.0 <==> AgreeOnCommonItems(x, y)
  {
    EuclideanDistanceZero(x, y);
    Reciprocal(EuclideanDistance(x, y));
  }

  /*
   * linear_similarity (alias pearson_similarity): Pearson's correlation over
   * the common items. Math.sqrt is the parameter `sqrt`; IsSqrt states what
   * the proofs below need of it.
   */

  ghost predicate IsSqrt(sqrt: real -> real) {
    forall a :: a >= 0.0 ==> sqrt(a) >= 0.0 && sqrt(a) * sqrt(a) == a
  }

  /** The denominator: the root of the product of the two moments. */
  function Denominator(sqrt: real -> real, n: real, xSum: real, ySum: real,
                       xSumOfSquared: real, ySumOfSquared: real): real
    requires n > 0.0
  {
    sqrt(Moment(xSumOfSquared, xSum, n) * Moment(ySumOfSquared, ySum, n))
  }

  /**
   * The correlation formula on the five running sums over n items; 0 when the
   * denominator is 0.
   */
  function Correlation(sqrt: real -> real, n: real, xSum: real, ySum: real,
                       xSumOfSquared: real, ySumOfSquared: real, xySumOfProducts: real): real
    requires n > 0.0
  {
    var root := Denominator(sqrt, n, xSum, ySum, xSumOfSquared, ySumOfSquared);
    if root == 0.0 then 0.0 else CoMoment(xySumOfProducts, xSum, ySum, n) / root
  }

  /**
   * The value linear_similarity returns: 0 when nothing is shared, otherwise
   * Pearson's correlation over the common items, which a true square root
   * keeps within [-1, 1].
   */
  function Pearson(x: Ratings, y: Ratings, sqrt: real -> real): (r: real)
    requires Valid(x) && Valid(y)
    ensures IsSqrt(sqrt) ==> -1.0 <= r <= 1.0
  {
    var items := CommonItems(x, y);
    if items == [] then 0.0
    else
      ScoresCorrelationBounded(x, y, sqrt, items);
      Correlation(sqrt, |items| as real, Sum(items, ScoreOf(x)), Sum(items, ScoreOf(y)),
                  Sum(items, Times(ScoreOf(x), ScoreOf(x))), Sum(items, Times(ScoreOf(y), ScoreOf(y))),
                  Sum(items, Times(ScoreOf(x), ScoreOf(y))))
  }

  /** One more common item, scored `xScore` and `yScore`, extends each of the five sums by its term. */
  lemma RunningSumsStep(x: Ratings, y: Ratings, items: seq<Item>, k: nat, xScore: real, yScore: real)
    requires k < |items| && xScore == Rating(x, items[k]) && yScore == Rating(y, items[k])
    ensures Sum(items[..k + 1], ScoreOf(x)) == Sum(items[..k], ScoreOf(x)) + xScore
    ensures Sum(items[..k + 1], ScoreOf(y)) == Sum(items[..k], ScoreOf(y)) + yScore
    ensures Sum(items[..k + 1], Times(ScoreOf(x), ScoreOf(x))) == Sum(items[..k], Times(ScoreOf(x), ScoreOf(x))) + Square(xScore)
    ensures Sum(items[..k + 1], Times(ScoreOf(y), ScoreOf(y))) == Sum(items[..k], Times(ScoreOf(y), ScoreOf(y))) + Square(yScore)
    ensures Sum(items[..k + 1], Times(ScoreOf(x), ScoreOf(y))) == Sum(items[..k], Times(ScoreOf(x), ScoreOf(y))) + xScore * yScore
  {
    SumStep(items, k, ScoreOf(x));
    SumStep(items, k, ScoreOf(y));
    SumStep(items, k, Times(ScoreOf(x), ScoreOf(x)));
    SumStep(items, k, Times(ScoreOf(y), ScoreOf(y)));
    SumStep(items, k, Times(ScoreOf(x), ScoreOf(y)));
  }

  /** linear_similarity: one pass over the common items keeps five running sums. */
  method LinearSimilarity(x: Ratings, y: Ratings, sqrt: real -> real) returns (r: real)
    requires Valid(x) && Valid(y)
    ensures r == Pearson(x, y, sqrt)
  {
    var items := CommonItems(x, y);
    if items == [] {
      return 0.0;
    }
    var n := |items| as real;
    var xySumOfProducts, xSum, ySum, xSumOfSquared, ySumOfSquared := 0.0, 0.0, 0.0, 0.0, 0.0;
    for k := 0 to |items|
      invariant xSum == Sum(items[..k], ScoreOf(x))
      invariant ySum == Sum(items[..k], ScoreOf(y))
      invariant xSumOfSquared == Sum(items[..k], Times(ScoreOf(x), ScoreOf(x)))
      invariant ySumOfSquared == Sum(items[..k], Times(ScoreOf(y), ScoreOf(y)))
      invariant xySumOfProducts == Sum(items[..k], Times(ScoreOf(x), ScoreOf(y)))
    {
      var xScore, yScore := x.entries[items[k]], y.entries[items[k]];
      RunningSumsStep(x, y, items, k, xScore, yScore);
      xSum := xSum + xScore;
      ySum := ySum + yScore;
      xSumOfSquared := xSumOfSquared + Square(xScore);
      ySumOfSquared := ySumOfSquared + Square(yScore);
      xySumOfProducts := xySumOfProducts + xScore * yScore;
    }
    assert items[..|items|] == items;
    r := Correlation(sqrt, n, xSum, ySum, xSumOfSquared, ySumOfSquared, xySumOfProducts);
  }

  /** Linear similarity is 0 when the two rated nothing in common. */
  lemma PearsonNoCommonItems(x: Ratings, y: Ratings, sqrt: real -> real)
    requires Valid(x) && Valid(y)
    requires forall item :: item in x.entries ==> item !in y.entries
    ensures Pearson(x, y, sqrt) == 0.0
  {
    var items := CommonItems(x, y);
    assert forall item :: item in multiset(items) <==> item in items;
    assert forall item :: item !in multiset(items);
    assert multiset(items) == multiset{};
  }

  /** The root of a product of two non-negative numbers is zero exactly when one of them is. */
  lemma RootZero(sqrt: real -> real, a: real, b: real)
    requires IsSqrt(sqrt) && a >= 0.0 && b >= 0.0
    ensures sqrt(a * b) == 0.0 <==> a == 0.0 || b == 0.0
  {
    NonNegativeProduct(a, b, a * b);
    var root := sqrt(a * b);
    assert Square(root) == a * b;
    if a == 0.0 || b == 0.0 {
      assert a * b == 0.0;
    } else {
      PositiveProduct(a, b, a * b);
    }
  }

  /** On running sums whose moments are non-negative, the guard fires exactly when one moment is 0. */
  lemma DenominatorZero(sqrt: real -> real, n: real, xSum: real, ySum: real, xSumOfSquared: real, ySumOfSquared: real)
    requires n > 0.0 && IsSqrt(sqrt)
    requires Moment(xSumOfSquared, xSum, n) >= 0.0 && Moment(ySumOfSquared, ySum, n) >= 0.0
    ensures Denominator(sqrt, n, xSum, ySum, xSumOfSquared, ySumOfSquared) == 0.0
        <==> Moment(xSumOfSquared, xSum, n) == 0.0 || Moment(ySumOfSquared, ySum, n) == 0.0
  {
    RootZero(sqrt, Moment(xSumOfSquared, xSum, n), Moment(ySumOfSquared, ySum, n));
  }

  /** Where Cauchy-Schwarz holds for the running sums, the correlation lies in [-1, 1]. */
  lemma CorrelationBounded(sqrt: real -> real, n: real, xSum: real, ySum: real,
                           xSumOfSquared: real, ySumOfSquared: real, xySumOfProducts: real)
    requires n > 0.0 && IsSqrt(sqrt)
    requires Moment(xSumOfSquared, xSum, n) >= 0.0 && Moment(ySumOfSquared, ySum, n) >= 0.0
    requires Square(CoMoment(xySumOfProducts, xSum, ySum, n))
          <= Moment(xSumOfSquared, xSum, n) * Moment(ySumOfSquared, ySum, n)
    ensures -1.0 <= Correlation(sqrt, n, xSum, ySum, xSumOfSquared, ySumOfSquared, xySumOfProducts) <= 1.0
  {
    var mx, my := Moment(xSumOfSquared, xSum, n), Moment(ySumOfSquared, ySum, n);
    var root := Denominator(sqrt, n, xSum, ySum, xSumOfSquared, ySumOfSquared);
    if root != 0.0 {
      NonNegativeProduct(mx, my, mx * my);
      assert root * root == mx * my;
      RatioBound(CoMoment(xySumOfProducts, xSum, ySum, n), root);
    }
  }

  /** The correlation formula does not care which subject comes first. */
  lemma CorrelationSymmetric(sqrt: real -> real, n: real, xSum: real, ySum: real,
                             xSumOfSquared: real, ySumOfSquared: real, xySumOfProducts: real)
    requires n > 0.0
    ensures Correlation(sqrt, n, xSum, ySum, xSumOfSquared, ySumOfSquared, xySumOfProducts)
         == Correlation(sqrt, n, ySum, xSum, ySumOfSquared, xSumOfSquared, xySumOfProducts)
  {
    var mx, my := Moment(xSumOfSquared, xSum, n), Moment(ySumOfSquared, ySum, n);
    assert mx * my == my * mx;
    assert xSum * ySum == ySum * xSum;
  }

  /** Identical running sums with a positive moment correlate perfectly. */
  lemma CorrelationOne(sqrt: real -> real, n: real, sum: real, sumOfSquared: real)
    requires n > 0.0 && IsSqrt(sqrt) && Moment(sumOfSquared, sum, n) > 0.0
    ensures Correlation(sqrt, n, sum, sum, sumOfSquared, sumOfSquared, sumOfSquared) == 1.0
  {
    var m := Moment(sumOfSquared, sum, n);
    var root := Denominator(sqrt, n, sum, sum, sumOfSquared, sumOfSquared);
    PositiveProduct(m, m, m * m);
    assert root >= 0.0 && root * root == m * m;
    RootUnique(root, m);
    assert CoMoment(sumOfSquared, sum, sum, n) == m;
    assert m / root == 1.0;
  }

  /**
   * The zero-denominator guard fires exactly when one of the two subjects gave
   * every common item the same score, and linear similarity is then 0.
   */
  lemma PearsonGuard(x: Ratings, y: Ratings, sqrt: real -> real)
    requires Valid(x) && Valid(y) && IsSqrt(sqrt)
    requires CommonItems(x, y) != []
    ensures var items := CommonItems(x, y);
      Denominator(sqrt, |items| as real, Sum(items, ScoreOf(x)), Sum(items, ScoreOf(y)),
                  Sum(items, Times(ScoreOf(x), ScoreOf(x))), Sum(items, Times(ScoreOf(y), ScoreOf(y)))) == 0.0
      <==> Uniform(items, ScoreOf(x)) || Uniform(items, ScoreOf(y))
    ensures Uniform(CommonItems(x, y), ScoreOf(x)) || Uniform(CommonItems(x, y), ScoreOf(y)) ==> Pearson(x, y, sqrt) == 0.0
  {
    var items := CommonItems(x, y);
    MomentNonNegative(items, ScoreOf(x));
    MomentNonNegative(items, ScoreOf(y));
    MomentZero(items, ScoreOf(x));
    MomentZero(items, ScoreOf(y));
    DenominatorZero(sqrt, |items| as real, Sum(items, ScoreOf(x)), Sum(items, ScoreOf(y)),
                    Sum(items, Times(ScoreOf(x), ScoreOf(x))), Sum(items, Times(ScoreOf(y), ScoreOf(y))));
  }

  /**
   * Pearson's correlation over the common items lies in [-1, 1] under a true
   * square root, by the Cauchy-Schwarz bound on the moments.
   */
  lemma ScoresCorrelationBounded(x: Ratings, y: Ratings, sqrt: real -> real, items: seq<Item>)
    requires items != []
    ensures IsSqrt(sqrt) ==> -1.0 <= Correlation(sqrt, |items| as real, Sum(items, ScoreOf(x)), Sum(items, ScoreOf(y)),
                                Sum(items, Times(ScoreOf(x), ScoreOf(x))), Sum(items, Times(ScoreOf(y), ScoreOf(y))),
                                Sum(items, Times(ScoreOf(x), ScoreOf(y)))) <= 1.0
  {
    if IsSqrt(sqrt) {
      MomentNonNegative(items, ScoreOf(x));
      MomentNonNegative(items, ScoreOf(y));
      CoMomentBound(items, ScoreOf(x), ScoreOf(y));
      CorrelationBounded(sqrt, |items| as real, Sum(items, ScoreOf(x)), Sum(items, ScoreOf(y)),
                         Sum(items, Times(ScoreOf(x), ScoreOf(x))), Sum(items, Times(ScoreOf(y), ScoreOf(y))),
                         Sum(items, Times(ScoreOf(x), ScoreOf(y))));
    }
  }

  /** Linear similarity is symmetric in the two subjects. */
  lemma PearsonSymmetric(x: Ratings, y: Ratings, sqrt: real -> real)
    requires Valid(x) && Valid(y)
    ensures Pearson(x, y, sqrt) == Pearson(y, x, sqrt)
  {
    var items, swapped := CommonItems(x, y), CommonItems(y, x);
    CommonItemsPermuted(x, y);
    assert |items| == |multiset(items)| == |multiset(swapped)| == |swapped|;
    if items != [] {
      SumPermutation(items, swapped, ScoreOf(x));
      SumPermutation(items, swapped, ScoreOf(y));
      SumPermutation(items, swapped, Times(ScoreOf(x), ScoreOf(x)));
      SumPermutation(items, swapped, Times(ScoreOf(y), ScoreOf(y)));
      SumPermutation(items, swapped, Times(ScoreOf(x), ScoreOf(y)));
      SumTimesCommutes(swapped, ScoreOf(x), ScoreOf(y));
      CorrelationSymmetric(sqrt, |items| as real, Sum(items, ScoreOf(x)), Sum(items, ScoreOf(y)),
                           Sum(items, Times(ScoreOf(x), ScoreOf(x))), Sum(items, Times(ScoreOf(y), ScoreOf(y))),
                           Sum(items, Times(ScoreOf(x), ScoreOf(y))));
    }
  }

  /**
   * Two subjects who scored every common item alike, and not all the same,
   * have linear similarity 1.
   */
  lemma PearsonIdentical(x: Ratings, y: Ratings, sqrt: real -> real)
    requires Valid(x) && Valid(y) && IsSqrt(sqrt)
    requires CommonItems(x, y) != [] && AgreeOnCommonItems(x, y)
    requires !Uniform(CommonItems(x, y), ScoreOf(x))
    ensures Pearson(x, y, sqrt) == 1.0
  {
    var items := CommonItems(x, y);
    SameScores(x, y, items);
    MomentNonNegative(items, ScoreOf(x));
    MomentZero(items, ScoreOf(x));
    CorrelationOne(sqrt, |items| as real, Sum(items, ScoreOf(x)), Sum(items, Times(ScoreOf(x), ScoreOf(x))));
  }

  /** Where the two agree item by item, their running sums agree. */
  lemma SameScores(x: Ratings, y: Ratings, items: seq<Item>)
    requires forall item :: item in items ==> Rating(x, item) == Rating(y, item)
    ensures Sum(items, ScoreOf(y)) == Sum(items, ScoreOf(x))
    ensures Sum(items, Times(ScoreOf(y), ScoreOf(y))) == Sum(items, Times(ScoreOf(x), ScoreOf(x)))
    ensures Sum(items, Times(ScoreOf(x), ScoreOf(y))) == Sum(items, Times(ScoreOf(x), ScoreOf(x)))
  {
    SumCongruent(items, ScoreOf(y), ScoreOf(x));
    SumCongruent(items, Times(ScoreOf(y), ScoreOf(y)), Times(ScoreOf(x), ScoreOf(x)));
    SumCongruent(items, Times(ScoreOf(x), ScoreOf(y)), Times(ScoreOf(x), ScoreOf(x)));
  }
}
