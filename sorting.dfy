/** Python's `sorted(items, key=lambda i: -len(i[1]))`: a stable sort into
    non-increasing weight. Stability is stated as "for every weight, the
    elements of that weight appear in the same order as before". */
module Sorting {
  import opened Seqs
  import opened Dicts

  /** `x` goes in front of the first element that does not outweigh it, so it
      stays ahead of the elements of equal weight that followed it. */
  function Insert<T(!new)>(x: T, s: seq<T>, w: T -> int): (r: seq<T>)
    ensures multiset(r) == multiset{x} + multiset(s)
    decreases |s|
  {
    if s == [] || w(x) >= w(s[0]) then [x] + s
    else
      assert s == [s[0]] + s[1..];
      [s[0]] + Insert(x, s[1..], w)
  }

  function SortDesc<T(!new)>(s: seq<T>, w: T -> int): (r: seq<T>)
    ensures multiset(r) == multiset(s)
    decreases |s|
  {
    if s == [] then []
    else
      assert s == [s[0]] + s[1..];
      Insert(s[0], SortDesc(s[1..], w), w)
  }

  predicate NonIncreasing<T(!new)>(s: seq<T>, w: T -> int) {
    forall i, j :: 0 <= i < j < |s| ==> w(s[i]) >= w(s[j])
  }

  /** Inserting under a bound keeps every weight under it. */
  lemma {:induction false} InsertBelow<T(!new)>(x: T, s: seq<T>, w: T -> int, m: int)
    requires w(x) <= m && forall i :: 0 <= i < |s| ==> w(s[i]) <= m
    ensures forall i :: 0 <= i < |Insert(x, s, w)| ==> w(Insert(x, s, w)[i]) <= m
    decreases |s|
  {
    if s != [] && w(x) < w(s[0]) {
      InsertBelow(x, s[1..], w, m);
    }
  }

  lemma {:induction false} InsertNonIncreasing<T(!new)>(x: T, s: seq<T>, w: T -> int)
    requires NonIncreasing(s, w)
    ensures NonIncreasing(Insert(x, s, w), w)
    ensures Insert(x, s, w) != [] && (Insert(x, s, w)[0] == x || (s != [] && Insert(x, s, w)[0] == s[0]))
    decreases |s|
  {
    if s != [] && w(x) < w(s[0]) {
      InsertNonIncreasing(x, s[1..], w);
      InsertBelow(x, s[1..], w, w(s[0]));
    }
  }

  /** The sort's result is in non-increasing weight. */
  lemma {:induction false} SortNonIncreasing<T(!new)>(s: seq<T>, w: T -> int)
    ensures NonIncreasing(SortDesc(s, w), w)
    decreases |s|
  {
    if s != [] {
      SortNonIncreasing(s[1..], w);
      InsertNonIncreasing(s[0], SortDesc(s[1..], w), w);
    }
  }

  /** The elements of weight `k`, in order. */
  function OfWeight<T(!new)>(s: seq<T>, w: T -> int, k: int): seq<T> {
    Filter(s, x => w(x) == k)
  }

  /** Two fronts of which one is empty commute. */
  lemma SwapFronts<T>(a: seq<T>, b: seq<T>, rest: seq<T>)
    requires a == [] || b == []
    ensures a + (b + rest) == b + (a + rest)
  {
    if a == [] {
      assert a + (b + rest) == b + rest;
    } else {
      assert b + (a + rest) == a + rest;
    }
  }

  lemma {:induction false} InsertStable<T(!new)>(x: T, s: seq<T>, w: T -> int, k: int)
    ensures OfWeight(Insert(x, s, w), w, k) == (if w(x) == k then [x] else []) + OfWeight(s, w, k)
    decreases |s|
  {
    var p := (y: T) => w(y) == k;
    if s == [] || w(x) >= w(s[0]) {
      FilterCons(x, s, p);
    } else {
      var r := Insert(x, s[1..], w);
      InsertStable(x, s[1..], w, k);
      FilterCons(s[0], r, p);
      FilterCons(s[0], s[1..], p);
      assert [s[0]] + s[1..] == s;
      SwapFronts(if w(s[0]) == k then [s[0]] else [], if w(x) == k then [x] else [], OfWeight(s[1..], w, k));
    }
  }

  /** Stability: for every weight, its elements keep their relative order. */
  lemma {:induction false} SortStable<T(!new)>(s: seq<T>, w: T -> int, k: int)
    ensures OfWeight(SortDesc(s, w), w, k) == OfWeight(s, w, k)
    decreases |s|
  {
    if s != [] {
      SortStable(s[1..], w, k);
      InsertStable(s[0], SortDesc(s[1..], w), w, k);
      FilterCons(s[0], s[1..], y => w(y) == k);
      assert [s[0]] + s[1..] == s;
    }
  }

  /** A permutation of a list without repeats has no repeats. */
  lemma DistinctPermutation<T(!new)>(a: seq<T>, b: seq<T>)
    requires multiset(a) == multiset(b) && Distinct(a)
    ensures Distinct(b)
  {
    forall i, j | 0 <= i < j < |b|
      ensures b[i] != b[j]
    {
      TwoOccurrences(b, i, j);
      AtMostOnce(a, b[i]);
    }
  }

  lemma TwoOccurrences<T>(s: seq<T>, i: nat, j: nat)
    requires i < j < |s|
    ensures s[i] == s[j] ==> multiset(s)[s[i]] >= 2
  {
    assert s == s[..i] + [s[i]] + s[i + 1..j] + [s[j]] + s[j + 1..];
  }

  lemma {:induction false} AtMostOnce<T>(s: seq<T>, x: T)
    requires Distinct(s)
    ensures multiset(s)[x] <= 1
    decreases |s|
  {
    if s != [] {
      assert s == [s[0]] + s[1..];
      AtMostOnce(s[1..], x);
      assert s[0] !in s[1..];
    }
  }

  /** `dict(sorted(d.items(), key=...))`: the same mapping, its keys reordered
      by the stable sort into non-increasing weight. */
  function SortByWeight<K(!new), V>(d: Dict<K, V>, w: K -> int): (r: Dict<K, V>)
    requires d.Valid()
    ensures r.Valid() && r.vals == d.vals
    ensures multiset(r.keys) == multiset(d.keys)
    ensures NonIncreasing(r.keys, w)
    ensures forall k :: OfWeight(r.keys, w, k) == OfWeight(d.keys, w, k)
  {
    var keys := SortDesc(d.keys, w);
    DistinctPermutation(d.keys, keys);
    SortNonIncreasing(d.keys, w);
    SortStableAll(d.keys, w);
    PermutationMembers(d.keys, keys);
    Dict(keys, d.vals)
  }

  lemma SortStableAll<T(!new)>(s: seq<T>, w: T -> int)
    ensures forall k :: OfWeight(SortDesc(s, w), w, k) == OfWeight(s, w, k)
  {
    forall k {
      SortStable(s, w, k);
    }
  }

  lemma PermutationMembers<T>(a: seq<T>, b: seq<T>)
    requires multiset(a) == multiset(b)
    ensures forall x :: x in a <==> x in b
  {
    forall x
      ensures x in a <==> x in b
    {
      assert x in a <==> x in multiset(a);
      assert x in b <==> x in multiset(b);
    }
  }
}
