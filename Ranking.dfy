/**
 * `sort_and_trim!` of lib/ch2/similarity/recommendations.rb: sort a list of
 * scored pairs by descending score, in place, and keep the first `n`.
 */
module Ranking {

  /** A `[key, score]` pair of the result lists. */
  datatype Scored<K> = Scored(key: K, score: real)

  function Min(a: int, b: int): int {
    if a <= b then a else b
  }

  /** Non-increasing by score: what `sort! { |x, y| y.last <=> x.last }` establishes. */
  ghost predicate Descending<K>(s: seq<Scored<K>>) {
    forall i, j :: 0 <= i < j < |s| ==> s[i].score >= s[j].score
  }

  /**
   * `r` is what sorting `all` by descending score and keeping the first `n`
   * gives, for some order among equal scores.
   */
  ghost predicate TopOf<K(!new)>(r: seq<Scored<K>>, all: seq<Scored<K>>, n: nat)
    ensures TopOf(r, all, n) ==> |r| == Min(n, |all|)
  {
    exists sorted: seq<Scored<K>> ::
      && multiset(sorted) == multiset(all)
      && Descending(sorted)
      && r == sorted[..Min(n, |sorted|)]
  }

  method Swap<K>(a: array<Scored<K>>, i: int, j: int)
    requires 0 <= i < j < a.Length
    modifies a
    ensures a[i] == old(a[j]) && a[j] == old(a[i])
    ensures forall m :: 0 <= m < a.Length && m != i && m != j ==> a[m] == old(a[m])
    ensures multiset(a[..]) == old(multiset(a[..]))
  {
    a[i], a[j] := a[j], a[i];
  }

  /** `sort!` with the descending comparison block, as an insertion sort. */
  method SortDescending<K>(a: array<Scored<K>>)
    modifies a
    ensures Descending(a[..])
    ensures multiset(a[..]) == old(multiset(a[..]))
  {
    var i := 0;
    while i < a.Length
      invariant 0 <= i <= a.Length
      invariant forall p, q :: 0 <= p < q < i ==> a[p].score >= a[q].score
      invariant multiset(a[..]) == old(multiset(a[..]))
    {
      var j := i;
      while j > 0 && a[j - 1].score < a[j].score
        invariant 0 <= j <= i
        invariant forall p, q :: 0 <= p < q <= i && p != j && q != j ==> a[p].score >= a[q].score
        invariant forall q :: j < q <= i ==> a[q].score < a[j].score
        invariant multiset(a[..]) == old(multiset(a[..]))
      {
        Swap(a, j - 1, j);
        j := j - 1;
      }
      i := i + 1;
    }
  }

  /**
   * `sort_and_trim!(array, n)`: sorts `a` in place, then `slice!(n, length - n)`
   * drops everything after the first `n` entries when there are more than `n`.
   * The kept entries are returned; the array's own length is fixed here.
   */
  method SortAndTrim<K>(a: array<Scored<K>>, n: nat) returns (kept: seq<Scored<K>>)
    modifies a
    ensures Descending(a[..])
    ensures multiset(a[..]) == old(multiset(a[..]))
    ensures kept == a[..Min(n, a.Length)]
  {
    SortDescending(a);
    var truncateLength := a.Length - n;
    if truncateLength >= 0 {
      kept := a[..n];
    } else {
      kept := a[..];
    }
  }

  /** Sorting and trimming a list held in a fresh array. */
  method Top<K(!new)>(all: seq<Scored<K>>, n: nat) returns (r: seq<Scored<K>>)
    ensures TopOf(r, all, n)
  {
    var a := new Scored<K>[|all|](i requires 0 <= i < |all| => all[i]);
    assert a[..] == all;
    r := SortAndTrim(a, n);
  }

  /**
   * What a trimmed sort promises: `Min(n, |all|)` entries, non-increasing,
   * taken from `all`, and every entry left out scores no higher than any kept.
   */
  lemma TopOfProperties<K(!new)>(r: seq<Scored<K>>, all: seq<Scored<K>>, n: nat)
    requires TopOf(r, all, n)
    ensures |r| == Min(n, |all|)
    ensures Descending(r)
    ensures multiset(r) <= multiset(all)
    ensures forall x, y :: x in r && y in multiset(all) - multiset(r) ==> y.score <= x.score
    ensures n == 0 ==> r == []
  {
    var sorted: seq<Scored<K>> :| multiset(sorted) == multiset(all) && Descending(sorted)
                                  && r == sorted[..Min(n, |sorted|)];
    assert |sorted| == |multiset(sorted)| == |all|;
    SortedPrefix(sorted, all, Min(n, |sorted|));
  }

  /** A prefix of a sorted permutation of `all` holds the highest scores of `all`. */
  lemma SortedPrefix<K>(sorted: seq<Scored<K>>, all: seq<Scored<K>>, k: nat)
    requires multiset(sorted) == multiset(all) && Descending(sorted) && k <= |sorted|
    ensures Descending(sorted[..k])
    ensures multiset(sorted[..k]) <= multiset(all)
    ensures forall x, y :: x in sorted[..k] && y in multiset(all) - multiset(sorted[..k]) ==> y.score <= x.score
  {
    var front, rest := sorted[..k], sorted[k..];
    assert sorted == front + rest;
    SplitDescending(sorted, front, rest);
    assert multiset(all) == multiset(front) + multiset(rest);
    forall x, y | x in front && y in multiset(all) - multiset(front)
      ensures y.score <= x.score
    {
      assert y in multiset(rest);
    }
  }

  /** Cutting a non-increasing list in two: both halves are non-increasing, the second below the first. */
  lemma SplitDescending<K>(sorted: seq<Scored<K>>, front: seq<Scored<K>>, back: seq<Scored<K>>)
    requires Descending(sorted) && sorted == front + back
    ensures Descending(front)
    ensures forall x, y :: x in front && y in back ==> y.score <= x.score
  {
    assert forall i :: 0 <= i < |front| ==> front[i] == sorted[i];
    forall x, y | x in front && y in back
      ensures y.score <= x.score
    {
      var p :| 0 <= p < |front| && front[p] == x;
      var q :| 0 <= q < |back| && back[q] == y;
      assert sorted[p] == x && sorted[|front| + q] == y;
    }
  }
}
