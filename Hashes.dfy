/**
 * A Ruby Hash as the model sees it: the keys in insertion order (which is the
 * order `each`, `keys` and `collect` enumerate them in) together with the value
 * stored under each key.
 */
module Hashes {

  datatype Hash<K, V> = Hash(keys: seq<K>, entries: map<K, V>)

  function Empty<K, V>(): (h: Hash<K, V>)
    ensures Valid(h)
  {
    Hash([], map[])
  }

  /** No key occurs twice. */
  ghost predicate Distinct<K>(s: seq<K>) {
    forall i, j :: 0 <= i < j < |s| ==> s[i] != s[j]
  }

  /** The invariant every Ruby Hash keeps: each key is enumerated exactly once. */
  ghost predicate Valid<K, V>(h: Hash<K, V>) {
    && Distinct(h.keys)
    && (forall k :: k in h.keys ==> k in h.entries)
    && (forall k :: k in h.entries ==> k in h.keys)
  }

  /** `h[k] = v`: an existing key keeps its place, a new key is appended. */
  function Put<K, V>(h: Hash<K, V>, k: K, v: V): (r: Hash<K, V>)
    requires Valid(h)
    ensures Valid(r)
    ensures r.entries == h.entries[k := v]
    ensures k in h.entries ==> r.keys == h.keys
    ensures k !in h.entries ==> r.keys == h.keys + [k]
  {
    Hash(if k in h.entries then h.keys else h.keys + [k], h.entries[k := v])
  }

  /** The order-insensitive view of a nested Hash, which is what Ruby's `==` compares. */
  function View<K, K2, V>(h: Hash<K, Hash<K2, V>>): map<K, map<K2, V>> {
    map k | k in h.entries :: h.entries[k].entries
  }

  /** Nested Hashes with the same keys and the same inner entries have the same view. */
  lemma SameView<K, K2, V>(a: Hash<K, Hash<K2, V>>, b: Hash<K, Hash<K2, V>>)
    requires forall k :: k in a.entries <==> k in b.entries
    requires forall k :: k in a.entries ==> a.entries[k].entries == b.entries[k].entries
    ensures View(a) == View(b)
  {
  }

  /** `r` keeps some of the elements of `s`, in the order `s` has them. */
  ghost predicate Subsequence<K>(r: seq<K>, s: seq<K>)
    decreases |s|
  {
    || r == []
    || (&& s != []
        && (|| (r[|r| - 1] == s[|s| - 1] && Subsequence(r[..|r| - 1], s[..|s| - 1]))
            || Subsequence(r, s[..|s| - 1])))
  }

  /**
   * The elements of `s` that `keep` accepts, in order: Ruby's `a & b` when
   * `keep` tests membership in `b`, and `a - b` when it tests absence.
   */
  function Filter<K(!new)>(s: seq<K>, keep: K -> bool): (r: seq<K>)
    ensures forall e :: e in r <==> e in s && keep(e)
    ensures Subsequence(r, s)
    ensures Distinct(s) ==> Distinct(r)
    ensures |r| <= |s|
  {
    if s == [] then []
    else
      var rest := Filter(s[..|s| - 1], keep);
      if keep(s[|s| - 1]) then rest + [s[|s| - 1]] else rest
  }

  /** Distinct sequences with the same elements are permutations of each other. */
  lemma {:induction false} DistinctSameElements<K>(s: seq<K>, t: seq<K>)
    requires Distinct(s) && Distinct(t)
    requires forall e :: e in s <==> e in t
    ensures multiset(s) == multiset(t)
  {
    forall e ensures multiset(s)[e] == multiset(t)[e] {
      DistinctCount(s, e);
      DistinctCount(t, e);
    }
  }

  lemma {:induction false} DistinctCount<K>(s: seq<K>, e: K)
    requires Distinct(s)
    ensures multiset(s)[e] == if e in s then 1 else 0
  {
    if s != [] {
      var init := s[..|s| - 1];
      assert s == init + [s[|s| - 1]];
      assert Distinct(init);
      DistinctCount(init, e);
      assert s[|s| - 1] !in init;
    }
  }

  /** A non-empty sequence is its front followed by its last element. */
  lemma Snoc<K>(s: seq<K>)
    requires s != []
    ensures s[..|s| - 1] + [s[|s| - 1]] == s
  {
  }

  /** A kept last element ends the filtered sequence. */
  lemma FilterKeepsLast<K(!new)>(s: seq<K>, keep: K -> bool)
    requires s != [] && keep(s[|s| - 1])
    ensures Filter(s, keep) == Filter(s[..|s| - 1], keep) + [s[|s| - 1]]
  {
  }

  /** Filtering a two-element sequence. */
  lemma FilterPair<K(!new)>(a: K, b: K, keep: K -> bool)
    ensures Filter([a, b], keep) == (if keep(a) then [a] else []) + (if keep(b) then [b] else [])
  {
    assert [a, b][..1] == [a];
    assert [a][..0] == [];
  }

  /** Filtering out nothing gives the sequence back. */
  lemma {:induction false} FilterAll<K(!new)>(s: seq<K>, keep: K -> bool)
    requires forall e :: e in s ==> keep(e)
    ensures Filter(s, keep) == s
  {
    if s != [] {
      var init := s[..|s| - 1];
      assert forall e :: e in init ==> e in s;
      FilterAll(init, keep);
      FilterKeepsLast(s, keep);
      Snoc(s);
    }
  }

  /** Filtering one element out of a distinct sequence that holds it shortens it by one. */
  lemma {:induction false} FilterOmitsOne<K(!new)>(s: seq<K>, keep: K -> bool, x: K)
    requires Distinct(s) && x in s
    requires forall e :: keep(e) <==> e != x
    ensures |Filter(s, keep)| == |s| - 1
  {
    var init := s[..|s| - 1];
    assert Distinct(init);
    if s[|s| - 1] == x {
      assert x !in init;
      FilterAll(init, keep);
    } else {
      assert x in init;
      FilterOmitsOne(init, keep, x);
    }
  }
}
