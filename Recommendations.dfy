/**
 * lib/ch2/similarity/recommendations.rb: ranking the other subjects of a
 * dataset by similarity to one subject, and recommending the items that
 * subject has not rated yet.
 */
module Recommendations {
  import opened Wrappers
  import opened Hashes
  import opened Sums
  import opened Ranking
  import opened RealArith
  import Metrics

  type Subject = string
  type Item = Metrics.Item
  type Ratings = Metrics.Ratings

  /** The preferences: subject => (item => score), in insertion order. */
  type Dataset = Hash<Subject, Ratings>

  ghost predicate ValidDataset(d: Dataset) {
    Valid(d) && forall s :: s in d.entries ==> Valid(d.entries[s])
  }

  /** The names `Metrics.send` accepts: the three metrics and their two aliases. */
  datatype MetricName =
    | PearsonSimilarity
    | LinearSimilarity
    | SimDistance
    | DistanceSimilarity
    | EcludieanDistance

  /** The value `Metrics.send(metric, x, y)` returns. */
  function Score(metric: MetricName, sqrt: real -> real, x: Ratings, y: Ratings): (r: real)
    requires Valid(x) && Valid(y)
    ensures metric.SimDistance? || metric.DistanceSimilarity? ==> 0.0 < r <= 1.0
    ensures metric.EcludieanDistance? ==> r >= 0.0
    ensures (metric.PearsonSimilarity? || metric.LinearSimilarity?) && Metrics.IsSqrt(sqrt) ==> -1.0 <= r <= 1.0
  {
    match metric
    case PearsonSimilarity | LinearSimilarity => Metrics.Pearson(x, y, sqrt)
    case SimDistance | DistanceSimilarity => Metrics.DistanceSimilarity(x, y)
    case EcludieanDistance => Metrics.EuclideanDistance(x, y)
  }

  /** `Metrics.send(metric, x, y)`: dispatch to the metric the name stands for. */
  method Measure(metric: MetricName, sqrt: real -> real, x: Ratings, y: Ratings) returns (r: real)
    requires Valid(x) && Valid(y)
    ensures r == Score(metric, sqrt, x, y)
  {
    match metric
    case PearsonSimilarity | LinearSimilarity =>
      r := Metrics.LinearSimilarity(x, y, sqrt);
    case SimDistance | DistanceSimilarity =>
      r := Metrics.DistanceSimilarity(x, y);
    case EcludieanDistance =>
      r := Metrics.EuclideanDistance(x, y);
  }

  /** The aliases name the same metric. */
  lemma {:induction false} AliasesAgree(sqrt: real -> real, x: Ratings, y: Ratings)
    requires Valid(x) && Valid(y)
    ensures Score(PearsonSimilarity, sqrt, x, y) == Score(LinearSimilarity, sqrt, x, y) == Metrics.Pearson(x, y, sqrt)
    ensures Score(SimDistance, sqrt, x, y) == Score(DistanceSimilarity, sqrt, x, y) == Metrics.DistanceSimilarity(x, y)
  {
  }

  function Other(subject: Subject): Subject -> bool {
    other => other != subject
  }

  /**
   * The pairs `subject_matches` collects while enumerating `others`: one per
   * subject other than `subject`, in enumeration order, scored with the
   * target's ratings as the metric's first argument.
   */
  function Matches(d: Dataset, subject: Subject, metric: MetricName, sqrt: real -> real,
                   others: seq<Subject>): (r: seq<Scored<Subject>>)
    requires ValidDataset(d) && subject in d.entries
    requires forall o :: o in others ==> o in d.entries
    ensures |r| == |Filter(others, Other(subject))|
    ensures forall i :: 0 <= i < |r| ==>
              && r[i].key == Filter(others, Other(subject))[i]
              && r[i].score == Score(metric, sqrt, d.entries[subject], d.entries[r[i].key])
  {
    if others == [] then []
    else
      var rest := Matches(d, subject, metric, sqrt, others[..|others| - 1]);
      var other := others[|others| - 1];
      if other != subject then
        rest + [Scored(other, Score(metric, sqrt, d.entries[subject], d.entries[other]))]
      else
        rest
  }

  /**
   * `subject_matches`: `preferences[subject]` is nil for an absent subject, and
   * the first metric call on it raises NoMethodError; with no other subject
   * nothing is called and the empty list comes back.
   */
  method SubjectMatches(d: Dataset, subject: Subject, metric: MetricName := PearsonSimilarity, sqrt: real -> real)
    returns (r: Result<seq<Scored<Subject>>, RubyError>)
    requires ValidDataset(d)
    ensures subject in d.entries ==> r == Success(Matches(d, subject, metric, sqrt, d.keys))
    ensures subject !in d.entries ==> r == if d.keys == [] then Success([]) else Failure(NoMethodError)
  {
    var results := [];
    var target: Option<Ratings> := if subject in d.entries then Some(d.entries[subject]) else None;
    for k := 0 to |d.keys|
      invariant target.Some? ==> target.value == d.entries[subject]
      invariant target.Some? ==> results == Matches(d, subject, metric, sqrt, d.keys[..k])
      invariant target.None? ==> k == 0 && results == []
    {
      var other := d.keys[k];
      if target.Some? {
        MatchesStep(d, subject, metric, sqrt, k);
      }
      if other != subject {
        if target.None? {
          return Failure(NoMethodError);
        }
        var score := Measure(metric, sqrt, target.value, d.entries[other]);
        results := results + [Scored(other, score)];
      }
    }
    assert d.keys[..|d.keys|] == d.keys;
    return Success(results);
  }

  lemma MatchesStep(d: Dataset, subject: Subject, metric: MetricName, sqrt: real -> real, k: nat)
    requires ValidDataset(d) && subject in d.entries && k < |d.keys|
    ensures Matches(d, subject, metric, sqrt, d.keys[..k + 1]) ==
            Matches(d, subject, metric, sqrt, d.keys[..k]) +
            (if d.keys[k] != subject then [Scored(d.keys[k], Score(metric, sqrt, d.entries[subject], d.entries[d.keys[k]]))] else [])
  {
    assert d.keys[..k + 1][..k] == d.keys[..k];
  }

  /**
   * The pairs of `subject_matches` for a subject of the dataset: every other
   * subject exactly once, never the subject itself, each with its score.
   */
  lemma {:induction false} MatchesOfDataset(d: Dataset, subject: Subject, metric: MetricName, sqrt: real -> real)
    requires ValidDataset(d) && subject in d.entries
    ensures |Matches(d, subject, metric, sqrt, d.keys)| == |d.keys| - 1
    ensures forall m: Scored<Subject> :: m in Matches(d, subject, metric, sqrt, d.keys) <==>
              && m.key in d.entries && m.key != subject
              && m.score == Score(metric, sqrt, d.entries[subject], d.entries[m.key])
  {
    var r := Matches(d, subject, metric, sqrt, d.keys);
    var keys := Filter(d.keys, Other(subject));
    FilterOmitsOne(d.keys, Other(subject), subject);
    forall m: Scored<Subject> | m.key in d.entries && m.key != subject
                && m.score == Score(metric, sqrt, d.entries[subject], d.entries[m.key])
      ensures m in r
    {
      assert m.key in keys;
      var i :| 0 <= i < |keys| && keys[i] == m.key;
      assert r[i] == m;
    }
  }

  /** `disjoint_items(x, y)`: `x.keys - y.keys`, the items `x` rated and `y` did not, in `x`'s order. */
  function DisjointItems(x: Ratings, y: Ratings): (items: seq<Item>)
    requires Valid(x) && Valid(y)
    ensures forall item :: item in items <==> item in x.entries && item !in y.entries
    ensures Subsequence(items, x.keys)
    ensures Distinct(items)
  {
    Filter(x.keys, item => item !in y.entries)
  }

  /** Each item `x` rated is either common to `x` and `y` or disjoint from `y`, exactly once. */
  lemma {:induction false} DisjointAndCommonPartition(x: Ratings, y: Ratings)
    requires Valid(x) && Valid(y)
    ensures multiset(Metrics.CommonItems(x, y)) + multiset(DisjointItems(x, y)) == multiset(x.keys)
  {
    var common := Metrics.CommonItems(x, y);
    var disjoint := DisjointItems(x, y);
    forall item
      ensures (multiset(common) + multiset(disjoint))[item] == multiset(x.keys)[item]
    {
      DistinctCount(common, item);
      DistinctCount(disjoint, item);
      DistinctCount(x.keys, item);
    }
  }

  /** The two `Hash.new(0)` accumulators of `item_matches`, indexed by item. */
  datatype Totals = Totals(weighted: Hash<Item, real>, sims: Hash<Item, real>)

  /** `h[item] += v` on a `Hash.new(0)`: the key is stored, appended if new. */
  function AddTo(h: Hash<Item, real>, item: Item, v: real): (r: Hash<Item, real>)
    requires Valid(h)
    ensures Valid(r) && item in r.entries
    ensures Metrics.Rating(r, item) == Metrics.Rating(h, item) + v
    ensures r.keys == if item in h.entries then h.keys else h.keys + [item]
  {
    Put(h, item, Metrics.Rating(h, item) + v)
  }

  /** `h[item] += v` leaves every other key as it was. */
  lemma AddToElsewhere(h: Hash<Item, real>, item: Item, v: real, other: Item)
    requires Valid(h) && other != item
    ensures Metrics.Rating(AddTo(h, item, v), other) == Metrics.Rating(h, other)
    ensures other in AddTo(h, item, v).entries <==> other in h.entries
  {
  }

  /**
   * What the accumulators keep: both hashes have the same keys in the same
   * order, no weight total is negative, and a zero weight total comes with a
   * zero weighted total (so a division by zero can only be 0/0).
   */
  ghost predicate Coherent(t: Totals) {
    && Valid(t.weighted) && Valid(t.sims)
    && t.weighted.keys == t.sims.keys
    && forall item :: item in t.sims.entries ==>
         && t.sims.entries[item] >= 0.0
         && (t.sims.entries[item] == 0.0 ==> Metrics.Rating(t.weighted, item) == 0.0)
  }

  /** The inner loop of `item_matches` for one other subject with similarity `sim`. */
  function AddContributions(t: Totals, other: Ratings, sim: real, items: seq<Item>): (r: Totals)
    requires Coherent(t) && sim >= 0.0
    requires forall item :: item in items ==> item in other.entries
    ensures Coherent(r)
  {
    if items == [] then t
    else
      var u := AddContributions(t, other, sim, items[..|items| - 1]);
      var item := items[|items| - 1];
      AddKeepsCoherent(u, item, WeightedScore(other, sim, item), sim);
      Totals(AddTo(u.weighted, item, WeightedScore(other, sim, item)), AddTo(u.sims, item, sim))
  }

  /** `sim_score * item_score`. */
  function WeightedScore(other: Ratings, sim: real, item: Item): (w: real)
    requires item in other.entries
    ensures sim == 0.0 ==> w == 0.0
  {
    sim * other.entries[item]
  }

  /** Adding a non-negative weight, and a weighted score that is 0 when the weight is, keeps the totals coherent. */
  lemma AddKeepsCoherent(u: Totals, item: Item, weighted: real, sim: real)
    requires Coherent(u) && sim >= 0.0 && (sim == 0.0 ==> weighted == 0.0)
    ensures Coherent(Totals(AddTo(u.weighted, item, weighted), AddTo(u.sims, item, sim)))
  {
    var w := AddTo(u.weighted, item, weighted);
    var s := AddTo(u.sims, item, sim);
    assert item in u.sims.entries <==> item in u.weighted.entries;
    forall i | i in s.entries
      ensures s.entries[i] >= 0.0 && (s.entries[i] == 0.0 ==> Metrics.Rating(w, i) == 0.0)
    {
      if i != item {
        AddToElsewhere(u.sims, item, sim, i);
        AddToElsewhere(u.weighted, item, weighted, i);
      }
    }
  }

  /** The outer loop of `item_matches`: a subject with negative similarity is skipped. */
  function Accumulate(d: Dataset, target: Ratings, scores: seq<Scored<Subject>>): (r: Totals)
    requires ValidDataset(d) && Valid(target)
    requires forall m :: m in scores ==> m.key in d.entries
    ensures Coherent(r)
  {
    if scores == [] then Totals(Empty(), Empty())
    else
      var t := Accumulate(d, target, scores[..|scores| - 1]);
      var m := scores[|scores| - 1];
      if m.score < 0.0 then t
      else AddContributions(t, d.entries[m.key], m.score, DisjointItems(d.entries[m.key], target))
  }

  /** A Ruby Float quotient: 0.0 / 0.0 is NaN (x / 0.0 for x != 0 cannot arise here). */
  datatype Ratio = Defined(value: real) | NotANumber

  function Divide(a: real, b: real): (r: Ratio)
    requires b == 0.0 ==> a == 0.0
    ensures r.NotANumber? <==> b == 0.0
    ensures r.Defined? ==> r.value * b == a
  {
    if b == 0.0 then NotANumber else Defined(a / b)
  }

  /** One `[item, weighted_total / weight_total]` pair of the `item_matches` result. */
  datatype Recommendation = Recommendation(item: Item, ratio: Ratio)

  /** The closing `collect` over the weighted totals, in their key order. */
  function Normalized(t: Totals, items: seq<Item>): (r: seq<Recommendation>)
    requires Coherent(t)
    requires forall item :: item in items ==> item in t.weighted.entries
    ensures |r| == |items|
    ensures forall i :: 0 <= i < |r| ==>
              && r[i].item == items[i]
              && r[i].ratio == Divide(t.weighted.entries[items[i]], t.sims.entries[items[i]])
  {
    if items == [] then []
    else
      var item := items[|items| - 1];
      Normalized(t, items[..|items| - 1]) + [Recommendation(item, Divide(t.weighted.entries[item], t.sims.entries[item]))]
  }

  /** The accumulators after `item_matches`' loops, for a subject of the dataset. */
  function RecommendTotals(d: Dataset, subject: Subject, metric: MetricName, sqrt: real -> real): (t: Totals)
    requires ValidDataset(d) && subject in d.entries
    ensures Coherent(t)
  {
    Accumulate(d, d.entries[subject], Matches(d, subject, metric, sqrt, d.keys))
  }

  /** What `item_matches` returns for a subject of the dataset. */
  function Recommend(d: Dataset, subject: Subject, metric: MetricName, sqrt: real -> real): (r: seq<Recommendation>)
    requires ValidDataset(d) && subject in d.entries
    ensures Items(r) == RecommendTotals(d, subject, metric, sqrt).weighted.keys
  {
    var t := RecommendTotals(d, subject, metric, sqrt);
    NormalizedItems(t, t.weighted.keys);
    Normalized(t, t.weighted.keys)
  }

  /** Whether the pair `m` of `subject_matches` feeds `item`'s totals. */
  predicate Contributes(d: Dataset, target: Ratings, item: Item, m: Scored<Subject>) {
    && m.score >= 0.0
    && m.key in d.entries
    && item in d.entries[m.key].entries
    && item !in target.entries
  }

  /** `m`'s share of `item`'s weight total. */
  function SimTerm(d: Dataset, target: Ratings, item: Item): Scored<Subject> -> real {
    m => if Contributes(d, target, item, m) then m.score else 0.0
  }

  /** `m`'s share of `item`'s weighted total: similarity times the other subject's score. */
  function WeightedTerm(d: Dataset, target: Ratings, item: Item): Scored<Subject> -> real {
    m => if Contributes(d, target, item, m) then WeightedScore(d.entries[m.key], m.score, item) else 0.0
  }

  /** One other subject's pass adds its weighted score to each of its disjoint items, once. */
  lemma {:induction false} ContributionsOfItem(t: Totals, other: Ratings, sim: real, items: seq<Item>, item: Item)
    requires Coherent(t) && sim >= 0.0 && Distinct(items)
    requires forall i :: i in items ==> i in other.entries
    ensures var r := AddContributions(t, other, sim, items);
            && Metrics.Rating(r.weighted, item) == Metrics.Rating(t.weighted, item) + (if item in items then WeightedScore(other, sim, item) else 0.0)
            && Metrics.Rating(r.sims, item) == Metrics.Rating(t.sims, item) + (if item in items then sim else 0.0)
            && (item in r.sims.entries <==> item in t.sims.entries || item in items)
  {
    if items != [] {
      var init := items[..|items| - 1];
      var last := items[|items| - 1];
      assert Distinct(init);
      ContributionsOfItem(t, other, sim, init, item);
      var u := AddContributions(t, other, sim, init);
      assert AddContributions(t, other, sim, items)
          == Totals(AddTo(u.weighted, last, WeightedScore(other, sim, last)), AddTo(u.sims, last, sim));
      assert item in items <==> item in init || item == last;
      assert last !in init;
      if item != last {
        AddToElsewhere(u.weighted, last, WeightedScore(other, sim, last), item);
        AddToElsewhere(u.sims, last, sim, item);
      }
    }
  }

  /**
   * The totals as sums: an item's weighted total is the sum of similarity
   * times score over the contributing subjects, its weight total the sum of
   * their similarities.
   */
  lemma {:induction false} AccumulatedTotals(d: Dataset, target: Ratings, scores: seq<Scored<Subject>>, item: Item)
    requires ValidDataset(d) && Valid(target)
    requires forall m :: m in scores ==> m.key in d.entries
    ensures Metrics.Rating(Accumulate(d, target, scores).weighted, item) == Sum(scores, WeightedTerm(d, target, item))
    ensures Metrics.Rating(Accumulate(d, target, scores).sims, item) == Sum(scores, SimTerm(d, target, item))
  {
    if scores != [] {
      var init := scores[..|scores| - 1];
      var m := scores[|scores| - 1];
      assert scores == init + [m];
      AccumulatedTotals(d, target, init, item);
      AccumulateLast(d, target, init, m, item);
    }
  }

  /** An item gets totals exactly when some pair contributed to it. */
  lemma {:induction false} AccumulatedItems(d: Dataset, target: Ratings, scores: seq<Scored<Subject>>, item: Item)
    requires ValidDataset(d) && Valid(target)
    requires forall m :: m in scores ==> m.key in d.entries
    ensures item in Accumulate(d, target, scores).sims.entries <==>
            exists m :: m in scores && Contributes(d, target, item, m)
  {
    if scores != [] {
      var init := scores[..|scores| - 1];
      var m := scores[|scores| - 1];
      assert scores == init + [m];
      AccumulatedItems(d, target, init, item);
      AccumulateLast(d, target, init, m, item);
      assert forall e :: e in scores <==> e in init || e == m;
    }
  }

  /** The effect of the last pair on one item's totals. */
  lemma AccumulateLast(d: Dataset, target: Ratings, init: seq<Scored<Subject>>, m: Scored<Subject>, item: Item)
    requires ValidDataset(d) && Valid(target)
    requires forall e :: e in init ==> e.key in d.entries
    requires m.key in d.entries
    ensures var t := Accumulate(d, target, init);
            var r := Accumulate(d, target, init + [m]);
            && Metrics.Rating(r.weighted, item) == Metrics.Rating(t.weighted, item) + WeightedTerm(d, target, item)(m)
            && Metrics.Rating(r.sims, item) == Metrics.Rating(t.sims, item) + SimTerm(d, target, item)(m)
            && (item in r.sims.entries <==> item in t.sims.entries || Contributes(d, target, item, m))
  {
    var scores := init + [m];
    assert scores[..|scores| - 1] == init;
    if m.score >= 0.0 {
      ContributionsOfItem(Accumulate(d, target, init), d.entries[m.key], m.score,
                          DisjointItems(d.entries[m.key], target), item);
    }
  }

  /** An item's weight total is 0 exactly when every subject feeding it had similarity 0. */
  lemma ZeroWeight(d: Dataset, target: Ratings, scores: seq<Scored<Subject>>, item: Item)
    requires ValidDataset(d) && Valid(target)
    requires forall m :: m in scores ==> m.key in d.entries
    ensures Metrics.Rating(Accumulate(d, target, scores).sims, item) == 0.0 <==>
            forall m :: m in scores && Contributes(d, target, item, m) ==> m.score == 0.0
  {
    AccumulatedTotals(d, target, scores, item);
    assert forall m :: m in scores ==> SimTerm(d, target, item)(m) >= 0.0;
    SumZero(scores, SimTerm(d, target, item));
  }

  /**
   * A positive weight total makes the quotient a weighted average: it lies
   * between any bounds on the contributing scores.
   */
  lemma WeightedAverageBetween(d: Dataset, target: Ratings, scores: seq<Scored<Subject>>, item: Item, lo: real, hi: real)
    requires ValidDataset(d) && Valid(target)
    requires forall m :: m in scores ==> m.key in d.entries
    requires forall m :: m in scores && Contributes(d, target, item, m) ==> lo <= d.entries[m.key].entries[item] <= hi
    requires Metrics.Rating(Accumulate(d, target, scores).sims, item) > 0.0
    ensures item in Accumulate(d, target, scores).sims.entries
    ensures lo <= Metrics.Rating(Accumulate(d, target, scores).weighted, item) / Metrics.Rating(Accumulate(d, target, scores).sims, item) <= hi
  {
    var t := Accumulate(d, target, scores);
    AccumulatedTotals(d, target, scores, item);
    SumsAverageBetween(d, target, scores, item, lo, hi);
    SameQuotient(Metrics.Rating(t.weighted, item), Metrics.Rating(t.sims, item),
                 Sum(scores, WeightedTerm(d, target, item)), Sum(scores, SimTerm(d, target, item)));
  }

  lemma SumsAverageBetween(d: Dataset, target: Ratings, scores: seq<Scored<Subject>>, item: Item, lo: real, hi: real)
    requires forall m :: m in scores && Contributes(d, target, item, m) ==> lo <= d.entries[m.key].entries[item] <= hi
    requires Sum(scores, SimTerm(d, target, item)) > 0.0
    ensures lo <= Sum(scores, WeightedTerm(d, target, item)) / Sum(scores, SimTerm(d, target, item)) <= hi
  {
    TermsBetween(d, target, scores, item, lo, hi);
    WeightedAverage(scores, WeightedTerm(d, target, item), SimTerm(d, target, item), lo, hi);
  }

  lemma SameQuotient(x: real, y: real, x': real, y': real)
    requires x == x' && y == y' && y != 0.0
    ensures x / y == x' / y'
  {
  }

  lemma TermsBetween(d: Dataset, target: Ratings, scores: seq<Scored<Subject>>, item: Item, lo: real, hi: real)
    requires forall m :: m in scores && Contributes(d, target, item, m) ==> lo <= d.entries[m.key].entries[item] <= hi
    ensures forall m :: m in scores ==>
              lo * SimTerm(d, target, item)(m) <= WeightedTerm(d, target, item)(m) <= hi * SimTerm(d, target, item)(m)
  {
    forall m | m in scores
      ensures lo * SimTerm(d, target, item)(m) <= WeightedTerm(d, target, item)(m) <= hi * SimTerm(d, target, item)(m)
    {
      TermBetween(d, target, item, m, lo, hi);
    }
  }

  /** One pair's weighted share lies between `lo` and `hi` times its weight share. */
  lemma TermBetween(d: Dataset, target: Ratings, item: Item, m: Scored<Subject>, lo: real, hi: real)
    requires Contributes(d, target, item, m) ==> lo <= d.entries[m.key].entries[item] <= hi
    ensures lo * SimTerm(d, target, item)(m) <= WeightedTerm(d, target, item)(m) <= hi * SimTerm(d, target, item)(m)
  {
    if Contributes(d, target, item, m) {
      Scale(lo, hi, d.entries[m.key].entries[item], m.score);
    }
  }

  /** `other`'s ratings feed `item`'s totals when `subject` is the target. */
  predicate Feeds(d: Dataset, subject: Subject, metric: MetricName, sqrt: real -> real, other: Subject, item: Item)
    requires ValidDataset(d) && subject in d.entries
  {
    && other in d.entries && other != subject
    && item in d.entries[other].entries
    && item !in d.entries[subject].entries
    && Score(metric, sqrt, d.entries[subject], d.entries[other]) >= 0.0
  }

  function Items(recs: seq<Recommendation>): (items: seq<Item>)
    ensures |items| == |recs| && forall i :: 0 <= i < |recs| ==> items[i] == recs[i].item
  {
    seq(|recs|, i requires 0 <= i < |recs| => recs[i].item)
  }

  /** The pairs of `subject_matches` that feed an item are exactly the feeding subjects with their scores. */
  lemma MatchContributes(d: Dataset, subject: Subject, metric: MetricName, sqrt: real -> real, item: Item)
    requires ValidDataset(d) && subject in d.entries
    ensures var matches := Matches(d, subject, metric, sqrt, d.keys);
            && (forall m :: m in matches && Contributes(d, d.entries[subject], item, m) ==>
                  Feeds(d, subject, metric, sqrt, m.key, item) && m.score == Score(metric, sqrt, d.entries[subject], d.entries[m.key]))
            && (forall other :: Feeds(d, subject, metric, sqrt, other, item) ==>
                  var m := Scored(other, Score(metric, sqrt, d.entries[subject], d.entries[other]));
                  m in matches && Contributes(d, d.entries[subject], item, m))
  {
    MatchesOfDataset(d, subject, metric, sqrt);
  }

  /** The item and the quotient of each recommendation, read off the totals. */
  lemma RecommendFromTotals(d: Dataset, subject: Subject, metric: MetricName, sqrt: real -> real)
    requires ValidDataset(d) && subject in d.entries
    ensures var t := RecommendTotals(d, subject, metric, sqrt);
            var recs := Recommend(d, subject, metric, sqrt);
            && Items(recs) == t.weighted.keys
            && forall i :: 0 <= i < |recs| ==>
                 && recs[i].item in t.sims.entries
                 && recs[i].ratio == Divide(Metrics.Rating(t.weighted, recs[i].item), Metrics.Rating(t.sims, recs[i].item))
  {
    var t := RecommendTotals(d, subject, metric, sqrt);
    NormalizedItems(t, t.weighted.keys);
  }

  lemma NormalizedItems(t: Totals, items: seq<Item>)
    requires Coherent(t)
    requires forall item :: item in items ==> item in t.weighted.entries
    ensures Items(Normalized(t, items)) == items
  {
    var recs := Normalized(t, items);
    assert forall i :: 0 <= i < |items| ==> Items(recs)[i] == items[i];
  }

  /**
   * The items `item_matches` recommends are exactly those some other subject
   * with non-negative similarity rated and the target did not; each once.
   */
  lemma {:induction false} RecommendedItems(d: Dataset, subject: Subject, metric: MetricName, sqrt: real -> real, item: Item)
    requires ValidDataset(d) && subject in d.entries
    ensures Distinct(Items(Recommend(d, subject, metric, sqrt)))
    ensures item in Items(Recommend(d, subject, metric, sqrt)) <==>
            exists other :: Feeds(d, subject, metric, sqrt, other, item)
  {
    var matches := Matches(d, subject, metric, sqrt, d.keys);
    RecommendFromTotals(d, subject, metric, sqrt);
    AccumulatedItems(d, d.entries[subject], matches, item);
    FedIff(d, subject, metric, sqrt, item);
  }

  lemma FedIff(d: Dataset, subject: Subject, metric: MetricName, sqrt: real -> real, item: Item)
    requires ValidDataset(d) && subject in d.entries
    ensures (exists m :: m in Matches(d, subject, metric, sqrt, d.keys) && Contributes(d, d.entries[subject], item, m))
            <==> exists other :: Feeds(d, subject, metric, sqrt, other, item)
  {
    MatchContributes(d, subject, metric, sqrt, item);
    if exists other :: Feeds(d, subject, metric, sqrt, other, item) {
      var other :| Feeds(d, subject, metric, sqrt, other, item);
      assert Scored(other, Score(metric, sqrt, d.entries[subject], d.entries[other])) in Matches(d, subject, metric, sqrt, d.keys);
    }
  }

  lemma ZeroIff(d: Dataset, subject: Subject, metric: MetricName, sqrt: real -> real, item: Item)
    requires ValidDataset(d) && subject in d.entries
    ensures (forall m :: m in Matches(d, subject, metric, sqrt, d.keys) && Contributes(d, d.entries[subject], item, m) ==> m.score == 0.0)
            <==> forall other :: Feeds(d, subject, metric, sqrt, other, item) ==> Score(metric, sqrt, d.entries[subject], d.entries[other]) == 0.0
  {
    MatchContributes(d, subject, metric, sqrt, item);
  }

  lemma BoundsIff(d: Dataset, subject: Subject, metric: MetricName, sqrt: real -> real, item: Item, lo: real, hi: real)
    requires ValidDataset(d) && subject in d.entries
    requires forall other :: Feeds(d, subject, metric, sqrt, other, item) ==> lo <= d.entries[other].entries[item] <= hi
    ensures forall m :: m in Matches(d, subject, metric, sqrt, d.keys) && Contributes(d, d.entries[subject], item, m) ==>
              lo <= d.entries[m.key].entries[item] <= hi
  {
    MatchContributes(d, subject, metric, sqrt, item);
  }

  /**
   * A recommendation is 0/0 exactly when every subject feeding its item had
   * similarity 0; otherwise it lies between the lowest and highest score those
   * subjects gave the item.
   */
  lemma {:induction false} RecommendedRatio(d: Dataset, subject: Subject, metric: MetricName, sqrt: real -> real,
                                            i: nat, lo: real, hi: real)
    requires ValidDataset(d) && subject in d.entries
    requires i < |Recommend(d, subject, metric, sqrt)|
    ensures var rec := Recommend(d, subject, metric, sqrt)[i];
            rec.ratio.NotANumber? <==>
              forall other :: Feeds(d, subject, metric, sqrt, other, rec.item) ==>
                Score(metric, sqrt, d.entries[subject], d.entries[other]) == 0.0
    ensures var rec := Recommend(d, subject, metric, sqrt)[i];
            && (forall other :: Feeds(d, subject, metric, sqrt, other, rec.item) ==> lo <= d.entries[other].entries[rec.item] <= hi)
            && rec.ratio.Defined?
            ==> lo <= rec.ratio.value <= hi
  {
    var matches := Matches(d, subject, metric, sqrt, d.keys);
    var rec := Recommend(d, subject, metric, sqrt)[i];
    RecommendFromTotals(d, subject, metric, sqrt);
    ZeroWeight(d, d.entries[subject], matches, rec.item);
    ZeroIff(d, subject, metric, sqrt, rec.item);
    if (forall other :: Feeds(d, subject, metric, sqrt, other, rec.item) ==> lo <= d.entries[other].entries[rec.item] <= hi)
       && rec.ratio.Defined? {
      BoundsIff(d, subject, metric, sqrt, rec.item, lo, hi);
      WeightedAverageBetween(d, d.entries[subject], matches, rec.item, lo, hi);
    }
  }

  lemma AccumulateStep(d: Dataset, target: Ratings, scores: seq<Scored<Subject>>, k: nat)
    requires ValidDataset(d) && Valid(target) && k < |scores|
    requires forall m :: m in scores ==> m.key in d.entries
    ensures var m := scores[k];
            Accumulate(d, target, scores[..k + 1]) ==
              if m.score < 0.0 then Accumulate(d, target, scores[..k])
              else AddContributions(Accumulate(d, target, scores[..k]), d.entries[m.key], m.score,
                                    DisjointItems(d.entries[m.key], target))
  {
    assert scores[..k + 1][..k] == scores[..k];
  }

  lemma AddContributionsStep(t: Totals, other: Ratings, sim: real, items: seq<Item>, j: nat)
    requires Coherent(t) && sim >= 0.0 && j < |items|
    requires forall item :: item in items ==> item in other.entries
    ensures var u := AddContributions(t, other, sim, items[..j]);
            AddContributions(t, other, sim, items[..j + 1]) ==
              Totals(AddTo(u.weighted, items[j], WeightedScore(other, sim, items[j])), AddTo(u.sims, items[j], sim))
  {
    assert items[..j + 1][..j] == items[..j];
  }

  /** The inner loop of `item_matches`: one other subject's disjoint items, added into both hashes. */
  method AddItemScores(weighted: Hash<Item, real>, sims: Hash<Item, real>, other: Ratings, sim: real, items: seq<Item>)
    returns (weighted': Hash<Item, real>, sims': Hash<Item, real>)
    requires Coherent(Totals(weighted, sims)) && sim >= 0.0
    requires forall item :: item in items ==> item in other.entries
    ensures Totals(weighted', sims') == AddContributions(Totals(weighted, sims), other, sim, items)
  {
    weighted', sims' := weighted, sims;
    for j := 0 to |items|
      invariant Totals(weighted', sims') == AddContributions(Totals(weighted, sims), other, sim, items[..j])
    {
      AddContributionsStep(Totals(weighted, sims), other, sim, items, j);
      var item := items[j];
      weighted' := AddTo(weighted', item, WeightedScore(other, sim, item));
      sims' := AddTo(sims', item, sim);
    }
    assert items[..|items|] == items;
  }

  /**
   * The outer loop of `item_matches`: every subject scored at least 0 adds
   * its weighted scores for the items the target has not rated.
   */
  method AccumulateScores(d: Dataset, target: Ratings, scores: seq<Scored<Subject>>)
    returns (weighted: Hash<Item, real>, sims: Hash<Item, real>)
    requires ValidDataset(d) && Valid(target)
    requires forall m :: m in scores ==> m.key in d.entries
    ensures Totals(weighted, sims) == Accumulate(d, target, scores)
  {
    weighted, sims := Empty(), Empty();
    for k := 0 to |scores|
      invariant Totals(weighted, sims) == Accumulate(d, target, scores[..k])
    {
      AccumulateStep(d, target, scores, k);
      var other := scores[k].key;
      var sim := scores[k].score;
      if sim >= 0.0 {
        weighted, sims := AddItemScores(weighted, sims, d.entries[other], sim, DisjointItems(d.entries[other], target));
      }
    }
    assert scores[..|scores|] == scores;
  }

  /**
   * `item_matches`: the loop over `subject_matches` fills the two
   * accumulators, skipping negative similarities, then `collect` divides.
   * Failures of `subject_matches` propagate.
   */
  method ItemMatches(d: Dataset, subject: Subject, metric: MetricName := PearsonSimilarity, sqrt: real -> real)
    returns (r: Result<seq<Recommendation>, RubyError>)
    requires ValidDataset(d)
    ensures subject in d.entries ==> r == Success(Recommend(d, subject, metric, sqrt))
    ensures subject !in d.entries ==> r == if d.keys == [] then Success([]) else Failure(NoMethodError)
  {
    // `preferences[subject]` is nil for an absent subject; it is only read
    // inside the loop, which then has nothing to enumerate.
    var target: Ratings := if subject in d.entries then d.entries[subject] else Empty();
    var similarityScores := SubjectMatches(d, subject, metric, sqrt);
    if similarityScores.Failure? {
      return Failure(similarityScores.error);
    }
    var scores := similarityScores.value;
    assert forall m :: m in scores ==> m.key in d.entries;
    var weighted, sims := AccumulateScores(d, target, scores);
    // The closing `collect` is a map over the weighted totals.
    return Success(Normalized(Totals(weighted, sims), weighted.keys));
  }

  /**
   * `top_subject_matches` (alias `top_matches`): `sort_and_trim!` applied to
   * `subject_matches`.
   */
  method TopSubjectMatches(d: Dataset, subject: Subject, n: nat := 5, metric: MetricName := PearsonSimilarity,
                           sqrt: real -> real)
    returns (r: Result<seq<Scored<Subject>>, RubyError>)
    requires ValidDataset(d)
    ensures subject in d.entries ==> r.Success? && TopOf(r.value, Matches(d, subject, metric, sqrt, d.keys), n)
    ensures subject !in d.entries ==> r == if d.keys == [] then Success([]) else Failure(NoMethodError)
  {
    var matches := SubjectMatches(d, subject, metric, sqrt);
    if matches.Failure? {
      return matches;
    }
    var top := Top(matches.value, n);
    if subject !in d.entries {
      TopOfProperties(top, [], n);
    }
    return Success(top);
  }

  /**
   * The top subject matches: `Min(n, |d| - 1)` other subjects, never the
   * subject itself, by non-increasing score, each scored by the metric.
   */
  lemma TopSubjects(d: Dataset, subject: Subject, n: nat, metric: MetricName, sqrt: real -> real, top: seq<Scored<Subject>>)
    requires ValidDataset(d) && subject in d.entries
    requires TopOf(top, Matches(d, subject, metric, sqrt, d.keys), n)
    ensures |top| == Min(n, |d.keys| - 1)
    ensures Descending(top)
    ensures forall m :: m in top ==>
              && m.key in d.entries && m.key != subject
              && m.score == Score(metric, sqrt, d.entries[subject], d.entries[m.key])
  {
    var matches := Matches(d, subject, metric, sqrt, d.keys);
    TopOfProperties(top, matches, n);
    MatchesOfDataset(d, subject, metric, sqrt);
    forall m | m in top
      ensures m in matches
    {
      assert m in multiset(top);
    }
  }

  predicate HasNotANumber(recs: seq<Recommendation>) {
    exists rec :: rec in recs && rec.ratio.NotANumber?
  }

  /** Recommendations with defined quotients as scored pairs, for sorting. */
  function AsScored(recs: seq<Recommendation>): (r: seq<Scored<Item>>)
    requires !HasNotANumber(recs)
    ensures |r| == |recs|
    ensures forall i :: 0 <= i < |r| ==> r[i] == Scored(recs[i].item, recs[i].ratio.value)
  {
    if recs == [] then []
    else AsScored(recs[..|recs| - 1]) + [Scored(recs[|recs| - 1].item, recs[|recs| - 1].ratio.value)]
  }

  function AsRecommendations(scored: seq<Scored<Item>>): (r: seq<Recommendation>)
    ensures |r| == |scored|
    ensures forall i :: 0 <= i < |r| ==> r[i] == Recommendation(scored[i].key, Defined(scored[i].score))
  {
    if scored == [] then []
    else AsRecommendations(scored[..|scored| - 1]) + [Recommendation(scored[|scored| - 1].key, Defined(scored[|scored| - 1].score))]
  }

  /** The pairs of a converted list are the converted pairs. */
  lemma AsRecommendationsMembership(scored: seq<Scored<Item>>, recs: seq<Recommendation>)
    requires !HasNotANumber(recs)
    requires multiset(scored) <= multiset(AsScored(recs))
    ensures forall rec :: rec in AsRecommendations(scored) ==> rec in recs
  {
    forall rec | rec in AsRecommendations(scored)
      ensures rec in recs
    {
      var i :| 0 <= i < |scored| && AsRecommendations(scored)[i] == rec;
      assert scored[i] in multiset(AsScored(recs));
      var j :| 0 <= j < |recs| && AsScored(recs)[j] == scored[i];
      assert recs[j] in recs;
    }
  }

  /**
   * `top_item_matches` (alias `get_recommendations`): `sort_and_trim!` applied
   * to `item_matches`. Comparing a NaN quotient makes `sort!` raise
   * ArgumentError, which needs at least two entries; a lone entry is never
   * compared.
   */
  method TopItemMatches(d: Dataset, subject: Subject, n: nat := 5, metric: MetricName := PearsonSimilarity,
                           sqrt: real -> real)
    returns (r: Result<seq<Recommendation>, RubyError>)
    requires ValidDataset(d)
    ensures subject !in d.entries ==> r == if d.keys == [] then Success([]) else Failure(NoMethodError)
    ensures subject in d.entries && HasNotANumber(Recommend(d, subject, metric, sqrt)) ==>
              r == if |Recommend(d, subject, metric, sqrt)| >= 2 then Failure(ArgumentError)
                   else Success(Recommend(d, subject, metric, sqrt)[..Min(n, 1)])
    ensures subject in d.entries && !HasNotANumber(Recommend(d, subject, metric, sqrt)) ==>
              exists top :: && TopOf(top, AsScored(Recommend(d, subject, metric, sqrt)), n)
                            && r == Success(AsRecommendations(top))
  {
    var matches := ItemMatches(d, subject, metric, sqrt);
    if matches.Failure? {
      return matches;
    }
    var recs := matches.value;
    if HasNotANumber(recs) {
      if |recs| >= 2 {
        return Failure(ArgumentError);
      }
      return Success(recs[..Min(n, 1)]);
    }
    var top := Top(AsScored(recs), n);
    if subject !in d.entries {
      TopOfProperties(top, [], n);
    }
    return Success(AsRecommendations(top));
  }

  /**
   * The top recommendations, when no quotient is NaN: `Min(n, |recs|)` of the
   * `item_matches` pairs, by non-increasing quotient.
   */
  lemma TopItems(recs: seq<Recommendation>, n: nat, top: seq<Scored<Item>>)
    requires !HasNotANumber(recs)
    requires TopOf(top, AsScored(recs), n)
    ensures |AsRecommendations(top)| == Min(n, |recs|)
    ensures forall rec :: rec in AsRecommendations(top) ==> rec in recs
    ensures forall i, j :: 0 <= i < j < |top| ==>
              AsRecommendations(top)[j].ratio.value <= AsRecommendations(top)[i].ratio.value
  {
    TopOfProperties(top, AsScored(recs), n);
    AsRecommendationsMembership(top, recs);
  }
}
