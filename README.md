# Similarity and recommendations, in Dafny

A model of the chapter 2 similarity library of *Programming Collective
Intelligence*, written in Ruby. It covers four parts:

- The metrics that compare two subjects' ratings (`Similarity::Metrics`):
  Euclidean distance, distance similarity and the Pearson correlation, all
  taken over the items both subjects rated.
- The recommender built on them (`Similarity::Recommendations`):
  - it scores every other subject against one subject;
  - it turns those scores into weighted item recommendations;
  - it sorts a result list in descending order and trims it to `n` entries.
- The `Preferences` Hash subclass, which forwards to the recommender and can
  transpose a subject-to-item table into an item-to-subject table.
- The older stand-alone `Similarity` module of `similarity.rb`.

A Ruby Hash is modelled as its insertion-ordered key list plus a map
(`Hashes.Hash`), because the order of `each`, `keys` and `collect` shows up
in results. Ratings are real numbers. Ruby's `nil` results and raised
exceptions are modelled explicitly as `Option`, `Result` and `RubyError`.

| file | models |
|---|---|
| `Wrappers.dfy` | `Option`, `Result` and the Ruby exceptions the code can raise |
| `Hashes.dfy` | insertion-ordered Hashes, `[]=`, `&` and `-` on key lists, the order-insensitive view compared by `==` |
| `Sums.dfy`, `Moments.dfy`, `RealArith.dfy` | left-to-right sums, the moment identities behind Pearson's formula, small real-arithmetic facts |
| `Metrics.dfy` | `lib/ch2/similarity/metrics.rb` |
| `Ranking.dfy` | `sort_and_trim!` |
| `Recommendations.dfy` | the rest of `lib/ch2/similarity/recommendations.rb` |
| `Preferences.dfy` | `lib/ch2/similarity/preferences.rb` |
| `StandaloneSimilarity.dfy` | `similarity.rb` |

Three behaviours of the code worth noting:

- `item_matches` skips only negative similarities (`next if sim_score < 0`).
  A subject with similarity 0 still adds the items it rated, with weight 0.
- `sort!` makes no stability promise. The ranking contracts therefore allow
  any order among equal scores (`Ranking.TopOf`), not the dataset's order.
- The Ruby defaults `n=5` and `similarity_metric='pearson_similarity'` are
  default parameter values (`n: nat := 5`, `metric: MetricName :=
  PearsonSimilarity`) of `Recommendations.TopSubjectMatches`,
  `TopItemMatches`, `SubjectMatches` and `ItemMatches` and of the two
  `Preferences` forwarders. The square root, which Ruby takes from `Math`, is
  always passed.

## Model

| member | source | states |
|---|---|---|
| Hashes.Put | lib/ch2/similarity/preferences.rb:35 | `h[k] = v` stores `v` under `k`, keeps the key order for a present key and appends a new one, and keeps the Hash well formed |
| Hashes.Filter | lib/ch2/similarity/metrics.rb:94-96 | the list behind `&` and `-` on key lists: an element is kept iff it is in the list and passes the test, in the list's order, without introducing duplicates |
| Metrics.CommonItems | lib/ch2/similarity/metrics.rb:94-96 | an item is listed iff both subjects rated it; the list keeps `x`'s key order and has no duplicates |
| Metrics.CommonItemsPermuted | lib/ch2/similarity/metrics.rb:94-96 | `x.keys & y.keys` and `y.keys & x.keys` hold the same items |
| Metrics.EuclideanDistance | lib/ch2/similarity/metrics.rb:18-24 | the distance is never negative, and is 0 when nothing is shared |
| Metrics.EuclideanDistanceSymmetric | lib/ch2/similarity/metrics.rb:18-24 | the distance does not depend on the order of the two subjects |
| Metrics.EuclideanDistanceZero | lib/ch2/similarity/metrics.rb:4-8 | the distance is 0 iff the two subjects gave the same score to every common item |
| Metrics.DistanceSimilarity | lib/ch2/similarity/metrics.rb:37-43 | the similarity always lies in (0, 1] |
| Metrics.DistanceSimilaritySymmetric | lib/ch2/similarity/metrics.rb:39-43 | the similarity does not depend on the order of the two subjects |
| Metrics.DistanceSimilarityOne | lib/ch2/similarity/metrics.rb:39-43 | the similarity is 1 iff the subjects agree on every common item (vacuously so when nothing is shared) |
| Metrics.LinearSimilarity | lib/ch2/similarity/metrics.rb:62-82 | the running sums of the `each` loop and the two guards give exactly Pearson's correlation over the common items |
| Metrics.PearsonNoCommonItems | lib/ch2/similarity/metrics.rb:63-64 | subjects with no common item have correlation 0 |
| Metrics.PearsonGuard | lib/ch2/similarity/metrics.rb:78-79 | the denominator is 0 iff one subject gave the same score to every common item, and then the result is 0 |
| Metrics.DenominatorZero | lib/ch2/similarity/metrics.rb:78 | the root of a product of two non-negative moments is 0 iff one of them is 0 |
| Metrics.CorrelationBounded | lib/ch2/similarity/metrics.rb:78-81 | the closing quotient lies in [-1, 1] whenever the Cauchy-Schwarz bound holds for the sums |
| Metrics.Pearson | lib/ch2/similarity/metrics.rb:57-82 | `linear_similarity` is 0 with no common item and otherwise the correlation formula on the five running sums, 0 when the root is 0; with a true square root it always lies in [-1, 1] |
| Metrics.PearsonSymmetric | lib/ch2/similarity/metrics.rb:62-82 | the correlation does not depend on the order of the two subjects |
| Metrics.PearsonIdentical | lib/ch2/similarity/metrics.rb:60 | subjects whose common scores are identical and not all equal have correlation 1 |
| Recommendations.Score | lib/ch2/similarity/recommendations.rb:27 | the metric chosen by name: the distance-similarity names give a value in (0, 1], `ecludiean_distance` gives a value of at least 0, and the Pearson names give a value in [-1, 1] under a true square root |
| Recommendations.Measure | lib/ch2/similarity/recommendations.rb:27 | `Metrics.send(name, x, y)` computes `Score`, running the Pearson loop for the two Pearson names |
| Recommendations.AliasesAgree | lib/ch2/similarity/metrics.rb:44-83 | `sim_distance` and `distance_similarity` are one metric; `pearson_similarity` and `linear_similarity` are one metric |
| Recommendations.Matches | lib/ch2/similarity/recommendations.rb:21-31 | one pair per other subject, in the dataset's order, scored against the given subject |
| Recommendations.SubjectMatches | lib/ch2/similarity/recommendations.rb:21-31 | the loop builds `Matches` for a known subject; for an unknown subject it returns `[]` on an empty dataset and otherwise raises NoMethodError (a metric reads `nil.keys`) |
| Recommendations.MatchesOfDataset | lib/ch2/similarity/recommendations.rb:21-31 | there are `size - 1` pairs, and a pair is listed iff it is another subject with its metric score |
| Recommendations.DisjointItems | lib/ch2/similarity/recommendations.rb:59-61 | an item is listed iff `x` rated it and `y` did not; the list keeps `x`'s order and has no duplicates |
| Recommendations.DisjointAndCommonPartition | lib/ch2/similarity/recommendations.rb:59-61 | `x.keys & y.keys` and `x.keys - y.keys` split `x.keys` between them |
| Recommendations.AddTo | lib/ch2/similarity/recommendations.rb:43-44 | `h[item] += v` on a `Hash.new(0)`: the item's total grows by `v`, and a new item is appended to the key order |
| Recommendations.AddToElsewhere | lib/ch2/similarity/recommendations.rb:43-44 | `h[item] += v` leaves every other item's total and membership unchanged |
| Recommendations.WeightedScore | lib/ch2/similarity/recommendations.rb:42-43 | a similarity of 0 gives a weighted score of 0 |
| Recommendations.AddContributions | lib/ch2/similarity/recommendations.rb:41-45 | the inner loop keeps both hashes over the same keys, with non-negative weights, and a zero weight only beside a zero weighted sum |
| Recommendations.Accumulate | lib/ch2/similarity/recommendations.rb:39-46 | the outer loop, which skips negative similarities, keeps that same coherence |
| Recommendations.ContributionsOfItem | lib/ch2/similarity/recommendations.rb:41-45 | one other subject adds `sim * score` and `sim` to exactly the disjoint items it rated |
| Recommendations.AccumulatedTotals | lib/ch2/similarity/recommendations.rb:39-46 | each item's two totals are the sums of `sim * score` and of `sim` over the contributing subjects |
| Recommendations.AccumulatedItems | lib/ch2/similarity/recommendations.rb:39-46 | an item has totals iff some subject with similarity at least 0 rated it and the target did not |
| Recommendations.ZeroWeight | lib/ch2/similarity/recommendations.rb:39-46 | an item's weight total is 0 iff every contributor has similarity 0 |
| Recommendations.WeightedAverageBetween | lib/ch2/similarity/recommendations.rb:49 | the normalised score is a weighted average, so it lies between the lowest and highest contributing score |
| Recommendations.Divide | lib/ch2/similarity/recommendations.rb:49 | `0.0 / 0.0` is NaN exactly when the weight total is 0; otherwise the quotient times the weight total gives back the weighted total |
| Recommendations.Normalized | lib/ch2/similarity/recommendations.rb:48-50 | `collect` gives one pair per item, in the weighted hash's order, with that item's quotient |
| Recommendations.RecommendTotals | lib/ch2/similarity/recommendations.rb:34-46 | the two accumulators after both loops, for a subject of the dataset, are coherent: same keys, non-negative weights, a zero weight only beside a zero weighted total |
| Recommendations.Recommend | lib/ch2/similarity/recommendations.rb:33-51 | `item_matches` of a subject of the dataset recommends the weighted hash's keys, in that hash's order |
| Recommendations.RecommendFromTotals | lib/ch2/similarity/recommendations.rb:48-50 | the recommended items are the weighted hash's keys, each paired with its quotient |
| Recommendations.RecommendedItems | lib/ch2/similarity/recommendations.rb:33-51 | each item is recommended at most once, and an item is recommended iff another subject with similarity at least 0 rated it and the subject did not |
| Recommendations.RecommendedRatio | lib/ch2/similarity/recommendations.rb:33-51 | a recommendation is NaN iff every subject feeding it has similarity 0; otherwise it lies within the bounds of the feeding subjects' scores |
| Recommendations.AddItemScores | lib/ch2/similarity/recommendations.rb:41-45 | the inner `each` loop computes `AddContributions` |
| Recommendations.AccumulateScores | lib/ch2/similarity/recommendations.rb:39-46 | the outer `each` loop, with its `next if sim_score < 0`, computes `Accumulate` |
| Recommendations.ItemMatches | lib/ch2/similarity/recommendations.rb:33-51 | a known subject gets `Recommend`; an unknown subject gets the errors of `subject_matches` |
| Recommendations.TopSubjectMatches | lib/ch2/similarity/recommendations.rb:12-14 | the result is `subject_matches` sorted by descending score and trimmed to `n`; errors propagate |
| Recommendations.TopSubjects | lib/ch2/similarity/recommendations.rb:12-14 | the top list has `min(n, size - 1)` entries in descending order, each another subject with its true score |
| Recommendations.TopItemMatches | lib/ch2/similarity/recommendations.rb:16-18 | without NaN, the result is the recommendations sorted and trimmed; with NaN, `sort!` raises ArgumentError for two or more entries, and a single entry is trimmed unsorted |
| Recommendations.TopItems | lib/ch2/similarity/recommendations.rb:16-18 | the top recommendations number `min(n, count)`, come from the recommendations and are in descending order |
| Ranking.SortDescending | lib/ch2/similarity/recommendations.rb:64 | the array ends up in descending order of score and is a permutation of what it held |
| Ranking.SortAndTrim | lib/ch2/similarity/recommendations.rb:63-68 | the array is sorted in place, and the kept entries are its first `min(n, length)` |
| Ranking.TopOf | lib/ch2/similarity/recommendations.rb:63-68 | a result of sorting by descending score with some order among ties and keeping the first `n` has `min(n, size)` entries |
| Ranking.Top | lib/ch2/similarity/recommendations.rb:63-68 | the result is a descending permutation of the list, cut to `n` |
| Ranking.TopOfProperties | lib/ch2/similarity/recommendations.rb:63-68 | a trimmed sort has `min(n, size)` entries in descending order, all taken from the list, and no entry left out scores higher than any entry kept |
| Preferences.Place | lib/ch2/similarity/preferences.rb:32-35 | `prev[item][subject] = score` with an auto-created empty row keeps the table well formed |
| Preferences.PlaceLookup | lib/ch2/similarity/preferences.rb:35 | exactly the one cell `[item][subject]` changes, and only `item` can become a new row |
| Preferences.Transposed | lib/ch2/similarity/preferences.rb:31-39 | the item-to-subject table that `transpose` builds is a well-formed rating table |
| Preferences.TransposedLookup | lib/ch2/similarity/preferences.rb:31-39 | in the transpose, `[item][subject]` is the original `[subject][item]`, and is missing exactly when that is |
| Preferences.TransposedItems | lib/ch2/similarity/preferences.rb:31-39 | the transpose's rows are exactly the items some subject rated |
| Preferences.TransposeTwiceSubjects | lib/ch2/similarity/preferences.rb:31-39 | transposing twice keeps a subject iff it rated something |
| Preferences.TransposeTwiceRatings | lib/ch2/similarity/preferences.rb:31-39 | transposing twice gives back every non-empty rating map |
| Preferences.TransposeTwice | lib/ch2/similarity/preferences.rb:27-39 | when no subject has an empty rating map, transposing twice is the identity under Ruby's order-insensitive `==` |
| Preferences.Preferences.constructor | lib/ch2/similarity/preferences.rb:5-7 | the new object holds the given Hash, or is empty when none is given |
| Preferences.Preferences.TopSubjectMatches | lib/ch2/similarity/preferences.rb:19-21 | the same result as `Recommendations.top_subject_matches` on the object's contents |
| Preferences.Preferences.TopItemMatches | lib/ch2/similarity/preferences.rb:23-25 | the same result as `Recommendations.top_item_matches` on the object's contents |
| Preferences.Preferences.Transpose | lib/ch2/similarity/preferences.rb:31-39 | the nested loops build the transpose in a fresh object and leave the receiver unchanged |
| Preferences.Preferences.TransposeInPlace | lib/ch2/similarity/preferences.rb:42-44 | the receiver's contents become their own transpose |
| StandaloneSimilarity.InjectStep | similarity.rb:7 | a block call is `nil` iff the second subject lacks the item, and raises NoMethodError iff it has the item but the accumulator is `nil` |
| StandaloneSimilarity.InjectAsWritten | similarity.rb:6-8 | an empty fold is 0, and every failure of the fold is NoMethodError |
| StandaloneSimilarity.EuclideanDistanceAsWritten | similarity.rb:5-9 | a subject with no ratings gets distance 0 |
| StandaloneSimilarity.DistanceSimilarityAsWritten | similarity.rb:13-17 | a successful result lies in (0, 1]; TypeError is raised iff the distance was `nil` |
| StandaloneSimilarity.InjectAllShared | similarity.rb:5-9 | when every item is shared, the fold is the sum of squared differences |
| StandaloneSimilarity.InjectOutcome | similarity.rb:5-9 | the fold raises iff a shared item follows an unshared one, and is `nil` iff some item is unshared and no shared item follows one |
| StandaloneSimilarity.AsWrittenAllShared | similarity.rb:5-9 | when every item is shared, the distance as written equals the distance of metrics.rb |
| StandaloneSimilarity.AsWrittenSimilarityAllShared | spec/ch2/similarity_spec.rb:35-43 | for fully overlapping subjects, such as the two critics of the test, the similarity as written is `1 / (1 + sum of squared differences)` |
| StandaloneSimilarity.AsWrittenUnsharedLast | similarity.rb:5-17 | two subjects sharing an item get a `nil` distance and a TypeError similarity when the last item is unshared |
| StandaloneSimilarity.AsWrittenUnsharedFirst | similarity.rb:5-9 | two subjects sharing an item get NoMethodError when an unshared item comes first |
| StandaloneSimilarity.InjectCorrected | similarity.rb:4-9 | the intended fold, which skips items the second subject did not rate, is never negative |
| StandaloneSimilarity.InjectCorrectedSum | similarity.rb:4-9 | the corrected fold sums the squared differences over the shared items |
| StandaloneSimilarity.EuclideanDistance | similarity.rb:4-9 | the corrected distance equals the distance of metrics.rb and is never negative |
| StandaloneSimilarity.DistanceSimilarity | similarity.rb:12-17 | the corrected similarity always lies in (0, 1] and equals the similarity of metrics.rb |

## Left out

- Float and Integer arithmetic: scores are exact reals. Ruby's Integer division (`1 / (1 + d)` with integer scores is 0 or 1), its rounding, and `ZeroDivisionError` for an integer `0 / 0` are not modelled.
- `Math.sqrt` is a parameter `sqrt: real -> real`. Properties that need a true square root assume `IsSqrt(sqrt)`.
- A metric name that `Metrics` does not define (`send` would raise NoMethodError) is excluded by the `MetricName` datatype.
- Negative `n`: `n` is a `nat`. `slice!` with a negative start is not modelled.
- `sort_and_trim!` truncates the caller's array. Dafny arrays have fixed length, so `Ranking.SortAndTrim` sorts the array in place and returns the kept prefix.
- Hash default procs: `transpose` passes a Hash with an auto-vivifying default to `new`, and `replace` copies that default. Reading an absent subject from a transposed object then yields and inserts an empty map instead of `nil`. The model treats every dataset as a plain Hash.
- `Preferences.Preferences.constructor`: accepts only a Hash that is a well-formed rating table; a non-Hash argument is `None`.
- `item_matches` for an absent subject: `preferences[subject]` is `nil` but is only read by `disjoint_items`, which never runs because `subject_matches` has already raised or returned `[]`. The model uses an empty map there.
- Infinity (`x / 0.0` with `x != 0`) cannot occur, because a zero weight total always comes with a zero weighted total. `Recommendations.Divide` requires this, and the coherence that `Recommendations.Accumulate` ensures provides it.
- The commented-out `class_eval` generator in preferences.rb:9-17 is not code and is not modelled.
- The `require` lines of lib/ch2/similarity.rb and the `ruby-debug` dependency have no behaviour to model.

## Findings

| source | as written | input that shows it | evidently intended | confidence | as-written member | corrected member |
|---|---|---|---|---|---|---|
| similarity.rb:5-9 | the `inject` block ends in a trailing `if`, so an item the second subject did not rate makes the block return `nil`, and `inject` carries that `nil` forward | `x = {"a"=>1.0, "b"=>2.0}`, `y = {"a"=>4.0}` gives `nil`, and `distance_similarity` then raises TypeError; with `x`'s keys in the order `b`, `a` it raises NoMethodError (`nil + 9.0`) | the sum of squared differences over the shared items (9.0 here), as the comment on line 4 and metrics.rb:18-24 compute it | not executed | StandaloneSimilarity.AsWrittenUnsharedLast | StandaloneSimilarity.EuclideanDistance |
