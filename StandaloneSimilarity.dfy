/**
 * The stand-alone `Similarity` module of similarity.rb: an earlier version
 * of the Euclidean distance that folds over the first subject's items with
 * `inject` and skips the items the second subject did not rate with a
 * trailing `if`.
 *
 * In Ruby a skipped block call still returns a value, `nil`, and `inject`
 * makes it the new accumulator, so the fold as written only sums correctly
 * when every item is shared. The model keeps that behaviour
 * (`EuclideanDistanceAsWritten`) and, beside it, the fold the comments
 * describe (`EuclideanDistance`), proved equal to the metric of
 * lib/ch2/similarity/metrics.rb.
 */
module StandaloneSimilarity {
  import opened Wrappers
  import opened Hashes
  import opened Sums
  import opened RealArith
  import Metrics

  type Item = Metrics.Item
  type Ratings = Metrics.Ratings

  /** A value the `inject` accumulator can hold: a number or `nil`. */
  datatype Value = Num(n: real) | Nil

  /** Every one of `items` was rated by `y` (`y[item]` is truthy). */
  ghost predicate AllShared(y: Ratings, items: seq<Item>) {
    forall item :: item in items ==> item in y.entries
  }

  /** Some item `y` rated comes after one it did not rate. */
  ghost predicate SharedAfterUnshared(y: Ratings, items: seq<Item>) {
    exists i, j :: 0 <= i < j < |items| && items[i] !in y.entries && items[j] in y.entries
  }

  /**
   * One call of the block as written: `sum += (x[item] - y[item]) ** 2 if y[item]`.
   * A skipped call is `nil`; adding to a `nil` accumulator raises.
   */
  function InjectStep(x: Ratings, y: Ratings, sum: Value, item: Item): (r: Result<Value, RubyError>)
    requires item in x.entries
    ensures item !in y.entries <==> r == Success(Nil)
    ensures r.Failure? <==> item in y.entries && sum == Nil
    ensures r.Failure? ==> r.error == NoMethodError
  {
    if item !in y.entries then Success(Nil)
    else match sum
      case Nil => Failure(NoMethodError)
      case Num(total) => Success(Num(total + Square(x.entries[item] - y.entries[item])))
  }

  /** `items.inject(0) { ... }` as written: an exception ends the fold. */
  function InjectAsWritten(x: Ratings, y: Ratings, items: seq<Item>): (r: Result<Value, RubyError>)
    requires forall item :: item in items ==> item in x.entries
    ensures items == [] ==> r == Success(Num(0.0))
    ensures r.Failure? ==> r.error == NoMethodError
  {
    if items == [] then Success(Num(0.0))
    else match InjectAsWritten(x, y, items[..|items| - 1])
      case Failure(e) => Failure(e)
      case Success(sum) => InjectStep(x, y, sum, items[|items| - 1])
  }

  /** `Similarity.ecludiean_distance` as written. */
  function EuclideanDistanceAsWritten(x: Ratings, y: Ratings): (r: Result<Value, RubyError>)
    requires Valid(x)
    ensures x.keys == [] ==> r == Success(Num(0.0))
  {
    InjectAsWritten(x, y, x.keys)
  }

  /**
   * `Similarity.distance_similarity` as written: `1 / (1 + d)`, where a `nil`
   * distance makes `1 + nil` raise.
   */
  function DistanceSimilarityAsWritten(x: Ratings, y: Ratings): (r: Result<real, RubyError>)
    requires Valid(x)
    ensures r.Success? ==> 0.0 < r.value <= 1.0
    ensures EuclideanDistanceAsWritten(x, y) == Success(Nil) <==> r == Failure(TypeError)
  {
    match EuclideanDistanceAsWritten(x, y)
      case Failure(e) => Failure(e)
      case Success(Nil) => Failure(TypeError)
      case Success(Num(d)) =>
        NonNegativeOutcome(x, y, x.keys);
        Reciprocal(d);
        Success(1.0 / (1.0 + d))
  }

  /** The accumulator never holds a negative number. */
  lemma {:induction false} NonNegativeOutcome(x: Ratings, y: Ratings, items: seq<Item>)
    requires forall item :: item in items ==> item in x.entries
    ensures InjectAsWritten(x, y, items).Success? && InjectAsWritten(x, y, items).value.Num? ==>
              InjectAsWritten(x, y, items).value.n >= 0.0
  {
    if items != [] {
      NonNegativeOutcome(x, y, items[..|items| - 1]);
    }
  }

  /** When every item is shared, the fold as written sums the squared differences. */
  lemma {:induction false} InjectAllShared(x: Ratings, y: Ratings, items: seq<Item>)
    requires forall item :: item in items ==> item in x.entries
    requires AllShared(y, items)
    ensures InjectAsWritten(x, y, items) == Success(Num(Sum(items, Metrics.SquaredDifference(x, y))))
  {
    if items != [] {
      InjectAllShared(x, y, items[..|items| - 1]);
    }
  }

  /**
   * What the fold as written returns otherwise: NoMethodError exactly when a
   * shared item follows an unshared one, and `nil` exactly when some item is
   * unshared and none of those comes later.
   */
  lemma {:induction false} InjectOutcome(x: Ratings, y: Ratings, items: seq<Item>)
    requires forall item :: item in items ==> item in x.entries
    ensures InjectAsWritten(x, y, items).Failure? <==> SharedAfterUnshared(y, items)
    ensures InjectAsWritten(x, y, items) == Success(Nil) <==>
              !AllShared(y, items) && !SharedAfterUnshared(y, items)
  {
    if items != [] {
      var front := items[..|items| - 1];
      var last := items[|items| - 1];
      InjectOutcome(x, y, front);
      assert forall item :: item in items <==> item in front || item == last;
      if SharedAfterUnshared(y, front) {
        var i, j :| 0 <= i < j < |front| && front[i] !in y.entries && front[j] in y.entries;
        assert items[i] == front[i] && items[j] == front[j];
      }
      if SharedAfterUnshared(y, items) && !SharedAfterUnshared(y, front) {
        var i, j :| 0 <= i < j < |items| && items[i] !in y.entries && items[j] in y.entries;
        if j < |front| {
          assert false;
        }
        assert front[i] == items[i] && front[i] in front;
      }
      if !AllShared(y, front) && last in y.entries {
        var u :| u in front && u !in y.entries;
        var i :| 0 <= i < |front| && front[i] == u;
        assert items[i] == u && items[|items| - 1] == last;
      }
    }
  }

  /** When every item is shared, the distance as written agrees with metrics.rb. */
  lemma AsWrittenAllShared(x: Ratings, y: Ratings)
    requires Valid(x) && Valid(y)
    requires AllShared(y, x.keys)
    ensures EuclideanDistanceAsWritten(x, y) == Success(Num(Metrics.EuclideanDistance(x, y)))
  {
    InjectAllShared(x, y, x.keys);
    FilterAll(x.keys, Metrics.RatedBy(y));
    assert Metrics.CommonItems(x, y) == x.keys;
  }

  /** When every item is shared, the similarity as written agrees with metrics.rb. */
  lemma AsWrittenSimilarityAllShared(x: Ratings, y: Ratings)
    requires Valid(x) && Valid(y)
    requires AllShared(y, x.keys)
    ensures DistanceSimilarityAsWritten(x, y) == Success(Metrics.DistanceSimilarity(x, y))
  {
    AsWrittenAllShared(x, y);
    assert DistanceSimilarityAsWritten(x, y) ==
           Success(1.0 / (1.0 + Metrics.EuclideanDistance(x, y)));
  }

  /** The second subject of the counterexamples: it rated "a" only. */
  function OnlyA(): Ratings {
    Hash(["a"], map["a" := 4.0])
  }

  /** The first subject of the counterexamples, with its keys in the given order. */
  function BothItems(keys: seq<Item>): Ratings {
    Hash(keys, map["a" := 1.0, "b" := 2.0])
  }

  /** Both counterexample subjects are well-formed Hashes, in either key order. */
  lemma CounterexampleValid(keys: seq<Item>)
    requires keys == ["a", "b"] || keys == ["b", "a"]
    ensures Valid(BothItems(keys)) && Valid(OnlyA())
  {
  }

  /** Whatever the key order, the two subjects share only "a". */
  lemma CounterexampleCommon(keys: seq<Item>)
    requires keys == ["a", "b"] || keys == ["b", "a"]
    requires Valid(BothItems(keys)) && Valid(OnlyA())
    ensures Metrics.CommonItems(BothItems(keys), OnlyA()) == ["a"]
  {
    FilterPair(keys[0], keys[1], Metrics.RatedBy(OnlyA()));
  }

  /** Whatever the key order, metrics.rb puts the two subjects 9.0 apart. */
  lemma CounterexampleDistance(keys: seq<Item>)
    requires keys == ["a", "b"] || keys == ["b", "a"]
    ensures Valid(BothItems(keys)) && Valid(OnlyA())
    ensures Metrics.EuclideanDistance(BothItems(keys), OnlyA()) == 9.0
  {
    CounterexampleValid(keys);
    CounterexampleCommon(keys);
    var x, y := BothItems(keys), OnlyA();
    SumSingle("a", Metrics.SquaredDifference(x, y));
    assert Metrics.SquaredDifference(x, y)("a") == Square(-3.0);
  }

  /** The fold as written over the two orders of the first subject's keys. */
  lemma CounterexampleFolds()
    ensures InjectAsWritten(BothItems(["a", "b"]), OnlyA(), ["a", "b"]) == Success(Nil)
    ensures InjectAsWritten(BothItems(["b", "a"]), OnlyA(), ["b", "a"]) == Failure(NoMethodError)
  {
    assert ["a", "b"][..1] == ["a"] && ["b", "a"][..1] == ["b"];
    assert ["a"][..0] == [] && ["b"][..0] == [];
  }

  /**
   * The discrepancy when the last item is unshared: the subjects share "a",
   * yet the distance as written is `nil` and the similarity raises.
   */
  lemma AsWrittenUnsharedLast()
    ensures Metrics.EuclideanDistance(BothItems(["a", "b"]), OnlyA()) == 9.0
    ensures EuclideanDistanceAsWritten(BothItems(["a", "b"]), OnlyA()) == Success(Nil)
    ensures DistanceSimilarityAsWritten(BothItems(["a", "b"]), OnlyA()) == Failure(TypeError)
  {
    CounterexampleDistance(["a", "b"]);
    CounterexampleFolds();
  }

  /**
   * The discrepancy when an unshared item comes first: the subjects share
   * "a", yet the distance as written raises NoMethodError (`nil + 9`).
   */
  lemma AsWrittenUnsharedFirst()
    ensures Metrics.EuclideanDistance(BothItems(["b", "a"]), OnlyA()) == 9.0
    ensures EuclideanDistanceAsWritten(BothItems(["b", "a"]), OnlyA()) == Failure(NoMethodError)
  {
    CounterexampleDistance(["b", "a"]);
    CounterexampleFolds();
  }

  /** The block as intended: an unshared item leaves the total as it is. */
  function CorrectedStep(x: Ratings, y: Ratings, sum: real, item: Item): real
    requires item in x.entries
  {
    if item in y.entries then sum + Square(x.entries[item] - y.entries[item]) else sum
  }

  /** The intended fold, `next sum unless y[item]` in Ruby terms. */
  function InjectCorrected(x: Ratings, y: Ratings, items: seq<Item>): (r: real)
    requires forall item :: item in items ==> item in x.entries
    ensures r >= 0.0
  {
    if items == [] then 0.0
    else CorrectedStep(x, y, InjectCorrected(x, y, items[..|items| - 1]), items[|items| - 1])
  }

  /** The intended fold sums the squared differences over the shared items. */
  lemma {:induction false} InjectCorrectedSum(x: Ratings, y: Ratings, items: seq<Item>)
    requires forall item :: item in items ==> item in x.entries
    ensures InjectCorrected(x, y, items) ==
            Sum(Filter(items, Metrics.RatedBy(y)), Metrics.SquaredDifference(x, y))
  {
    if items != [] {
      InjectCorrectedSum(x, y, items[..|items| - 1]);
    }
  }

  /** `ecludiean_distance` as intended: the same value as in metrics.rb. */
  function EuclideanDistance(x: Ratings, y: Ratings): (d: real)
    requires Valid(x) && Valid(y)
    ensures d == Metrics.EuclideanDistance(x, y)
    ensures d >= 0.0
  {
    InjectCorrectedSum(x, y, x.keys);
    InjectCorrected(x, y, x.keys)
  }

  /** `distance_similarity` over the intended distance: always in (0, 1]. */
  function DistanceSimilarity(x: Ratings, y: Ratings): (s: real)
    requires Valid(x) && Valid(y)
    ensures 0.0 < s <= 1.0
    ensures s == Metrics.DistanceSimilarity(x, y)
  {
    Reciprocal(EuclideanDistance(x, y));
    1.0 / (1.0 + EuclideanDistance(x, y))
  }
}
