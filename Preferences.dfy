/**
 * lib/ch2/similarity/preferences.rb: a dataset object (a Hash subclass)
 * with the two ranking shortcuts and transposition of subjects and items.
 */
module Preferences {
  import opened Wrappers
  import opened Hashes
  import opened Ranking
  import opened Recommendations

  /** The score `d[outer][inner]`, if both keys are present. */
  function Lookup(d: Dataset, outer: string, inner: string): Option<real> {
    if outer in d.entries && inner in d.entries[outer].entries then Some(d.entries[outer].entries[inner]) else None
  }

  /**
   * `prev[item][subject] = score` on the auto-vivifying hash of `transpose`:
   * a missing row is created empty, appended, and then written.
   */
  function Place(t: Dataset, item: Item, subject: Subject, score: real): (r: Dataset)
    requires ValidDataset(t)
    ensures ValidDataset(r)
  {
    var row := if item in t.entries then t.entries[item] else Empty();
    Put(t, item, Put(row, subject, score))
  }

  /** Placing a score changes that one cell, creating its row if needed, and nothing else. */
  lemma PlaceLookup(t: Dataset, item: Item, subject: Subject, score: real, i: Item, s: Subject)
    requires ValidDataset(t)
    ensures Lookup(Place(t, item, subject, score), i, s) == if i == item && s == subject then Some(score) else Lookup(t, i, s)
    ensures i in Place(t, item, subject, score).entries <==> i in t.entries || i == item
  {
  }

  /** The inner loop of `transpose`: one subject's ratings placed under their items. */
  function PlaceRatings(t: Dataset, subject: Subject, ratings: Ratings, items: seq<Item>): (r: Dataset)
    requires ValidDataset(t)
    requires forall i :: i in items ==> i in ratings.entries
    ensures ValidDataset(r)
  {
    if items == [] then t
    else
      var item := items[|items| - 1];
      Place(PlaceRatings(t, subject, ratings, items[..|items| - 1]), item, subject, ratings.entries[item])
  }

  /** The outer loop of `transpose` over `subjects`. */
  function TransposeRows(d: Dataset, subjects: seq<Subject>): (r: Dataset)
    requires ValidDataset(d)
    requires forall s :: s in subjects ==> s in d.entries
    ensures ValidDataset(r)
  {
    if subjects == [] then Empty()
    else
      var subject := subjects[|subjects| - 1];
      PlaceRatings(TransposeRows(d, subjects[..|subjects| - 1]), subject, d.entries[subject], d.entries[subject].keys)
  }

  /** What `transpose` builds: item => (subject => score). */
  function Transposed(d: Dataset): (r: Dataset)
    requires ValidDataset(d)
    ensures ValidDataset(r)
  {
    TransposeRows(d, d.keys)
  }

  lemma {:induction false} PlaceRatingsLookup(t: Dataset, subject: Subject, ratings: Ratings, items: seq<Item>, item: Item, s: Subject)
    requires ValidDataset(t)
    requires forall i :: i in items ==> i in ratings.entries
    ensures Lookup(PlaceRatings(t, subject, ratings, items), item, s) ==
            if s == subject && item in items then Some(ratings.entries[item]) else Lookup(t, item, s)
    ensures item in PlaceRatings(t, subject, ratings, items).entries <==> item in t.entries || item in items
  {
    if items != [] {
      var init := items[..|items| - 1];
      PlaceRatingsLookup(t, subject, ratings, init, item, s);
      PlaceLookup(PlaceRatings(t, subject, ratings, init), items[|items| - 1], subject, ratings.entries[items[|items| - 1]], item, s);
      assert forall i :: i in items <==> i in init || i == items[|items| - 1];
    }
  }

  lemma {:induction false} TransposeRowsLookup(d: Dataset, subjects: seq<Subject>, item: Item, s: Subject)
    requires ValidDataset(d)
    requires forall x :: x in subjects ==> x in d.entries
    ensures Lookup(TransposeRows(d, subjects), item, s) == if s in subjects then Lookup(d, s, item) else None
    ensures item in TransposeRows(d, subjects).entries <==>
            exists x :: x in subjects && item in d.entries[x].entries
  {
    if subjects != [] {
      var init := subjects[..|subjects| - 1];
      var last := subjects[|subjects| - 1];
      TransposeRowsLookup(d, init, item, s);
      PlaceRatingsLookup(TransposeRows(d, init), last, d.entries[last], d.entries[last].keys, item, s);
      assert forall x :: x in subjects <==> x in init || x == last;
    }
  }

  /**
   * `transpose` swaps the two levels: `result[item][subject]` is
   * `self[subject][item]`, and nothing else is in the result.
   */
  lemma TransposedLookup(d: Dataset, item: Item, subject: Subject)
    requires ValidDataset(d)
    ensures Lookup(Transposed(d), item, subject) == Lookup(d, subject, item)
  {
    TransposeRowsLookup(d, d.keys, item, subject);
  }

  /** The items of the transposed dataset are exactly the items somebody rated. */
  lemma TransposedItems(d: Dataset, item: Item)
    requires ValidDataset(d)
    ensures item in Transposed(d).entries <==> exists s :: s in d.entries && item in d.entries[s].entries
  {
    TransposeRowsLookup(d, d.keys, item, item);
  }

  /**
   * Transposing twice keeps exactly the subjects that rated something: a
   * subject with an empty rating map leaves no trace in the transpose.
   */
  lemma TransposeTwiceSubjects(d: Dataset, subject: Subject)
    requires ValidDataset(d)
    ensures subject in Transposed(Transposed(d)).entries <==>
            subject in d.entries && d.entries[subject].keys != []
  {
    if subject in d.entries && d.entries[subject].keys != [] {
      TransposeTwiceKeeps(d, subject);
    }
    if subject in Transposed(Transposed(d)).entries {
      TransposeTwiceFrom(d, subject);
    }
  }

  lemma TransposeTwiceKeeps(d: Dataset, subject: Subject)
    requires ValidDataset(d) && subject in d.entries && d.entries[subject].keys != []
    ensures subject in Transposed(Transposed(d)).entries
  {
    var t := Transposed(d);
    var item := d.entries[subject].keys[0];
    assert Lookup(d, subject, item).Some?;
    TransposedLookup(d, item, subject);
    assert item in t.entries && subject in t.entries[item].entries;
    TransposedItems(t, subject);
  }

  lemma TransposeTwiceFrom(d: Dataset, subject: Subject)
    requires ValidDataset(d) && subject in Transposed(Transposed(d)).entries
    ensures subject in d.entries && d.entries[subject].keys != []
  {
    var t := Transposed(d);
    TransposedItems(t, subject);
    var item :| item in t.entries && subject in t.entries[item].entries;
    assert Lookup(t, item, subject).Some?;
    TransposedLookup(d, item, subject);
    assert item in d.entries[subject].entries;
  }

  /** Transposing twice gives back every rating map. */
  lemma TransposeTwiceRatings(d: Dataset, subject: Subject)
    requires ValidDataset(d) && subject in d.entries && d.entries[subject].keys != []
    ensures subject in Transposed(Transposed(d)).entries
    ensures Transposed(Transposed(d)).entries[subject].entries == d.entries[subject].entries
  {
    var t := Transposed(d);
    var tt := Transposed(t);
    TransposeTwiceKeeps(d, subject);
    forall item
      ensures Lookup(tt, subject, item) == Lookup(d, subject, item)
    {
      TransposedLookup(t, subject, item);
      TransposedLookup(d, item, subject);
    }
    SameRow(tt, d, subject);
  }

  /** Two rows that agree on every lookup are the same map. */
  lemma SameRow(a: Dataset, b: Dataset, subject: Subject)
    requires subject in a.entries && subject in b.entries
    requires forall item :: Lookup(a, subject, item) == Lookup(b, subject, item)
    ensures a.entries[subject].entries == b.entries[subject].entries
  {
    assert forall item :: item in a.entries[subject].entries <==> Lookup(a, subject, item).Some?;
  }

  /**
   * Transposing twice is the identity, as Ruby's order-insensitive `==` sees
   * it, when no subject has an empty rating map.
   */
  lemma TransposeTwice(d: Dataset)
    requires ValidDataset(d)
    requires forall s :: s in d.entries ==> d.entries[s].keys != []
    ensures View(Transposed(Transposed(d))) == View(d)
  {
    var tt := Transposed(Transposed(d));
    forall s
      ensures s in tt.entries <==> s in d.entries
    {
      TransposeTwiceSubjects(d, s);
    }
    forall s | s in d.entries
      ensures tt.entries[s].entries == d.entries[s].entries
    {
      TransposeTwiceRatings(d, s);
    }
    SameView(tt, d);
  }

  /** A dataset object: `class Preferences < Hash`, its contents the Hash it is. */
  class Preferences {
    var contents: Dataset

    ghost predicate Valid()
      reads this
    {
      ValidDataset(contents)
    }

    /** `initialize(hash = nil)`: `replace hash if hash.is_a? Hash`, so anything else leaves it empty. */
    constructor (hash: Option<Dataset>)
      requires hash.Some? ==> ValidDataset(hash.value)
      ensures Valid()
      ensures contents == if hash.Some? then hash.value else Empty()
    {
      contents := if hash.Some? then hash.value else Empty();
    }

    /** `top_subject_matches`: the module function with `self` as the dataset. */
    method TopSubjectMatches(subject: Subject, n: nat := 5, metric: MetricName := PearsonSimilarity,
                             sqrt: real -> real)
      returns (r: Result<seq<Scored<Subject>>, RubyError>)
      requires Valid()
      ensures subject in contents.entries ==>
                r.Success? && TopOf(r.value, Matches(contents, subject, metric, sqrt, contents.keys), n)
      ensures subject !in contents.entries ==>
                r == if contents.keys == [] then Success([]) else Failure(NoMethodError)
    {
      r := Recommendations.TopSubjectMatches(contents, subject, n, metric, sqrt);
    }

    /** `top_item_matches`: the module function with `self` as the dataset. */
    method TopItemMatches(subject: Subject, n: nat := 5, metric: MetricName := PearsonSimilarity,
                             sqrt: real -> real)
      returns (r: Result<seq<Recommendation>, RubyError>)
      requires Valid()
      ensures subject !in contents.entries ==>
                r == if contents.keys == [] then Success([]) else Failure(NoMethodError)
      ensures subject in contents.entries && HasNotANumber(Recommend(contents, subject, metric, sqrt)) ==>
                r == if |Recommend(contents, subject, metric, sqrt)| >= 2 then Failure(ArgumentError)
                     else Success(Recommend(contents, subject, metric, sqrt)[..Min(n, 1)])
      ensures subject in contents.entries && !HasNotANumber(Recommend(contents, subject, metric, sqrt)) ==>
                exists top :: && TopOf(top, AsScored(Recommend(contents, subject, metric, sqrt)), n)
                              && r == Success(AsRecommendations(top))
    {
      r := Recommendations.TopItemMatches(contents, subject, n, metric, sqrt);
    }

    /**
     * `transpose`: nested loops write `prev[item][subject] = item_score`, and
     * the result is a new object; the receiver is left as it was.
     */
    method Transpose() returns (p: Preferences)
      requires Valid()
      ensures fresh(p) && p.Valid()
      ensures p.contents == Transposed(contents)
    {
      var prev: Dataset := Empty();
      for k := 0 to |contents.keys|
        invariant ValidDataset(prev)
        invariant prev == TransposeRows(contents, contents.keys[..k])
      {
        var subject := contents.keys[k];
        var itemScores := contents.entries[subject];
        TransposeRowsStep(contents, contents.keys, k);
        ghost var before := prev;
        for j := 0 to |itemScores.keys|
          invariant ValidDataset(prev)
          invariant prev == PlaceRatings(before, subject, itemScores, itemScores.keys[..j])
        {
          PlaceRatingsStep(before, subject, itemScores, itemScores.keys, j);
          var item := itemScores.keys[j];
          prev := Place(prev, item, subject, itemScores.entries[item]);
        }
        assert itemScores.keys[..|itemScores.keys|] == itemScores.keys;
      }
      assert contents.keys[..|contents.keys|] == contents.keys;
      p := new Preferences(Some(prev));
    }

    /** `transpose!`: `replace transpose`, the receiver becomes its own transpose. */
    method TransposeInPlace()
      requires Valid()
      modifies this
      ensures Valid()
      ensures contents == Transposed(old(contents))
    {
      var t := Transpose();
      contents := t.contents;
    }
  }

  lemma TransposeRowsStep(d: Dataset, subjects: seq<Subject>, k: nat)
    requires ValidDataset(d) && k < |subjects|
    requires forall s :: s in subjects ==> s in d.entries
    ensures TransposeRows(d, subjects[..k + 1]) ==
            PlaceRatings(TransposeRows(d, subjects[..k]), subjects[k], d.entries[subjects[k]], d.entries[subjects[k]].keys)
  {
    assert subjects[..k + 1][..k] == subjects[..k];
  }

  lemma PlaceRatingsStep(t: Dataset, subject: Subject, ratings: Ratings, items: seq<Item>, j: nat)
    requires ValidDataset(t) && j < |items|
    requires forall i :: i in items ==> i in ratings.entries
    ensures PlaceRatings(t, subject, ratings, items[..j + 1]) ==
            Place(PlaceRatings(t, subject, ratings, items[..j]), items[j], subject, ratings.entries[items[j]])
  {
    assert items[..j + 1][..j] == items[..j];
  }
}
