/**
 * Finite sums of real-valued terms, accumulated left to right as Ruby's
 * `inject(0)` and an `each` loop with a running total do.
 */
module Sums {
  import RealArith

  function Sum<T>(s: seq<T>, f: T -> real): real {
    if s == [] then 0.0 else Sum(s[..|s| - 1], f) + f(s[|s| - 1])
  }

  /** A one-term sum. */
  lemma SumSingle<T>(e: T, f: T -> real)
    ensures Sum([e], f) == f(e)
  {
    assert [e][..0] == [];
  }

  /** One more term of a running total. */
  lemma SumStep<T>(s: seq<T>, k: nat, f: T -> real)
    requires k < |s|
    ensures Sum(s[..k + 1], f) == Sum(s[..k], f) + f(s[k])
  {
    assert s[..k + 1][..k] == s[..k];
  }

  lemma {:induction false} SumNonNegative<T>(s: seq<T>, f: T -> real)
    requires forall e :: e in s ==> f(e) >= 0.0
    ensures Sum(s, f) >= 0.0
  {
    if s != [] {
      SumNonNegative(s[..|s| - 1], f);
    }
  }

  /** A sum of non-negative terms is zero exactly when every term is. */
  lemma {:induction false} SumZero<T>(s: seq<T>, f: T -> real)
    requires forall e :: e in s ==> f(e) >= 0.0
    ensures Sum(s, f) == 0.0 <==> forall e :: e in s ==> f(e) == 0.0
  {
    if s != [] {
      var init := s[..|s| - 1];
      SumZero(init, f);
      SumNonNegative(init, f);
      assert forall e :: e in s <==> e in init || e == s[|s| - 1];
    }
  }

  /** Terms that agree on `s` give the same sum. */
  lemma {:induction false} SumCongruent<T>(s: seq<T>, f: T -> real, g: T -> real)
    requires forall e :: e in s ==> f(e) == g(e)
    ensures Sum(s, f) == Sum(s, g)
  {
    if s != [] {
      SumCongruent(s[..|s| - 1], f, g);
    }
  }

  /** Taking out the term at position `j`. */
  lemma {:induction false} SumRemove<T>(s: seq<T>, j: nat, f: T -> real)
    requires j < |s|
    ensures Sum(s, f) == Sum(s[..j] + s[j + 1..], f) + f(s[j])
  {
    var init := s[..|s| - 1];
    if j < |s| - 1 {
      SumRemove(init, j, f);
      assert s[..j] + s[j + 1..] == (init[..j] + init[j + 1..]) + [s[|s| - 1]];
    } else {
      assert s[..j] + s[j + 1..] == init;
    }
  }

  /** The order of the terms does not matter. */
  lemma {:induction false} SumPermutation<T>(s: seq<T>, t: seq<T>, f: T -> real)
    requires multiset(s) == multiset(t)
    ensures Sum(s, f) == Sum(t, f)
  {
    if t == [] {
      assert |s| == |multiset(s)| == 0;
    } else {
      var last := t[|t| - 1];
      var init := t[..|t| - 1];
      assert last in multiset(s) by {
        assert t == init + [last];
      }
      var j :| 0 <= j < |s| && s[j] == last;
      var rest := s[..j] + s[j + 1..];
      assert multiset(rest) == multiset(init) by {
        MultisetRemove(s, j);
        MultisetRemove(t, |t| - 1);
        assert t[..|t| - 1] + t[|t|..] == init;
      }
      SumRemove(s, j, f);
      SumPermutation(rest, init, f);
    }
  }

  lemma MultisetRemove<T>(s: seq<T>, j: nat)
    requires j < |s|
    ensures multiset(s[..j] + s[j + 1..]) == multiset(s) - multiset{s[j]}
  {
    assert s == s[..j] + [s[j]] + s[j + 1..];
  }

  /**
   * If every term lies between `lo` and `hi` times its weight, the sum lies
   * between `lo` and `hi` times the sum of the weights.
   */
  lemma SumBetween<T>(s: seq<T>, f: T -> real, w: T -> real, lo: real, hi: real)
    requires forall e :: e in s ==> lo * w(e) <= f(e) <= hi * w(e)
    ensures lo * Sum(s, w) <= Sum(s, f)
    ensures Sum(s, f) <= hi * Sum(s, w)
  {
    SumAbove(s, f, w, lo);
    SumBelow(s, f, w, hi);
  }

  /** Terms at least `lo` times their weights sum to at least `lo` times the total weight. */
  lemma {:induction false} SumAbove<T>(s: seq<T>, f: T -> real, w: T -> real, lo: real)
    requires forall e :: e in s ==> lo * w(e) <= f(e)
    ensures lo * Sum(s, w) <= Sum(s, f)
  {
    if s != [] {
      var init, e := s[..|s| - 1], s[|s| - 1];
      assert forall x :: x in init ==> x in s;
      SumAbove(init, f, w, lo);
      BoundStep(lo, Sum(s, f), Sum(init, f), f(e), Sum(s, w), Sum(init, w), w(e));
    }
  }

  /** Terms at most `hi` times their weights sum to at most `hi` times the total weight. */
  lemma {:induction false} SumBelow<T>(s: seq<T>, f: T -> real, w: T -> real, hi: real)
    requires forall e :: e in s ==> f(e) <= hi * w(e)
    ensures Sum(s, f) <= hi * Sum(s, w)
  {
    if s != [] {
      var init, e := s[..|s| - 1], s[|s| - 1];
      assert forall x :: x in init ==> x in s;
      SumBelow(init, f, w, hi);
      UpperStep(hi, Sum(s, f), Sum(init, f), f(e), Sum(s, w), Sum(init, w), w(e));
    }
  }

  /** An upper bound `value <= hi * weight` survives adding one more term to both. */
  lemma UpperStep(hi: real, total: real, front: real, last: real, wTotal: real, wFront: real, wLast: real)
    requires total == front + last && wTotal == wFront + wLast
    requires front <= hi * wFront && last <= hi * wLast
    ensures total <= hi * wTotal
  {
  }

  /** A lower bound `lo * weight <= value` survives adding one more term to both. */
  lemma BoundStep(lo: real, total: real, front: real, last: real, wTotal: real, wFront: real, wLast: real)
    requires total == front + last && wTotal == wFront + wLast
    requires lo * wFront <= front && lo * wLast <= last
    ensures lo * wTotal <= total
  {
  }

  /**
   * With non-negative weights of positive total, the weighted average lies
   * between `lo` and `hi` when every term does.
   */
  lemma WeightedAverage<T>(s: seq<T>, f: T -> real, w: T -> real, lo: real, hi: real)
    requires forall e :: e in s ==> lo * w(e) <= f(e) <= hi * w(e)
    requires Sum(s, w) > 0.0
    ensures lo <= Sum(s, f) / Sum(s, w) <= hi
  {
    SumBetween(s, f, w, lo, hi);
    RealArith.Between(lo, hi, Sum(s, f), Sum(s, w));
  }
}
