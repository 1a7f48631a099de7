/** Python dictionaries as values: the keys in insertion order beside the
    mapping. Counting dictionaries (`d[k] += 1` loops) are specified here once,
    by `Counts`, together with `sum(d.values())`. */
module Dicts {
  import opened Seqs

  /** A Python dict: its keys in insertion order and the mapping itself. */
  datatype Dict<K, V> = Dict(keys: seq<K>, vals: map<K, V>) {
    ghost predicate Valid() {
      && Distinct(keys)
      && (forall k :: k in keys ==> k in vals)
      && (forall k :: k in vals ==> k in keys)
    }
  }

  function Empty<K, V>(): (d: Dict<K, V>)
    ensures d.Valid() && d.keys == [] && d.vals == map[]
  {
    Dict([], map[])
  }

  /** `d[k] = v`: an existing key keeps its place, a new key goes last. */
  function Put<K(==), V>(d: Dict<K, V>, k: K, v: V): (r: Dict<K, V>)
    requires d.Valid()
    ensures r.Valid()
    ensures r.vals == d.vals[k := v]
    ensures r.keys == if k in d.vals then d.keys else d.keys + [k]
  {
    if k in d.vals then Dict(d.keys, d.vals[k := v]) else Dict(d.keys + [k], d.vals[k := v])
  }

  /** `del d[k]` for a present key; the other keys keep their order. */
  function Delete<K(==, !new), V>(d: Dict<K, V>, k: K): (r: Dict<K, V>)
    requires d.Valid()
    ensures r.Valid()
    ensures r.vals == d.vals - {k}
    ensures r.keys == RemoveAll(d.keys, {k})
  {
    RemoveAllDistinct(d.keys, {k});
    Dict(RemoveAll(d.keys, {k}), d.vals - {k})
  }

  /** Sum of `vals[k]` over the listed keys. */
  function SumOver<K>(keys: seq<K>, vals: map<K, nat>): nat
    requires forall k :: k in keys ==> k in vals
    decreases |keys|
  {
    if keys == [] then 0 else SumOver(DropLast(keys), vals) + vals[Last(keys)]
  }

  /** `sum(d.values())`. */
  function SumValues<K>(d: Dict<K, nat>): nat
    requires d.Valid()
  {
    SumOver(d.keys, d.vals)
  }

  lemma {:induction false} SumOverPointwise<K>(keys: seq<K>, a: map<K, nat>, b: map<K, nat>)
    requires forall k :: k in keys ==> k in a && k in b && a[k] == b[k]
    ensures SumOver(keys, a) == SumOver(keys, b)
    decreases |keys|
  {
    if keys != [] {
      SumOverPointwise(DropLast(keys), a, b);
    }
  }

  /** Every listed value is at most the sum. */
  lemma {:induction false} SumOverBound<K>(keys: seq<K>, vals: map<K, nat>, x: K)
    requires x in keys
    requires forall k :: k in keys ==> k in vals
    ensures vals[x] <= SumOver(keys, vals)
    decreases |keys|
  {
    if Last(keys) != x {
      assert x in DropLast(keys);
      SumOverBound(DropLast(keys), vals, x);
    }
  }

  /** One pass of the counting loop body: `d[k] += 1` for a present key,
      `d[k] = 1` (a new last key) otherwise. */
  function Increment<K(==)>(d: Dict<K, nat>, k: K): (r: Dict<K, nat>)
    requires d.Valid()
    ensures r.Valid()
    ensures r.vals == d.vals[k := (if k in d.vals then d.vals[k] else 0) + 1]
    ensures r.keys == if k in d.vals then d.keys else d.keys + [k]
  {
    if k in d.vals then Put(d, k, d.vals[k] + 1) else Put(d, k, 1)
  }

  /** The dictionary a counting loop builds from `s`: keys in order of first
      occurrence, each mapped to a positive count. */
  function Counts<K(==, !new)>(s: seq<K>): (d: Dict<K, nat>)
    ensures d.Valid()
    ensures forall k :: k in d.vals <==> k in s
    ensures forall k :: k in d.vals ==> d.vals[k] >= 1
    decreases |s|
  {
    if s == [] then Empty()
    else
      DropLastLast(s);
      Increment(Counts(DropLast(s)), Last(s))
  }

  /** Each count is the number of occurrences, and the keys are the distinct
      elements in order of first occurrence. */
  lemma {:induction false} CountsAre<K(!new)>(s: seq<K>)
    ensures Counts(s).keys == Dedup(s)
    ensures forall k :: k in s ==> Counts(s).vals[k] == Count(s, k)
    decreases |s|
  {
    if s != [] {
      CountsAre(DropLast(s));
    }
  }

  /** The counts of a sequence add up to its length. */
  lemma {:induction false} CountsSum<K(!new)>(s: seq<K>)
    ensures SumValues(Counts(s)) == |s|
    decreases |s|
  {
    if s != [] {
      var p, x := DropLast(s), Last(s);
      CountsSum(p);
      var c := Counts(p);
      if x in c.vals {
        SumOverUpdate(c.keys, c.vals, x, c.vals[x] + 1);
      } else {
        var keys' := c.keys + [x];
        assert DropLast(keys') == c.keys;
        SumOverPointwise(c.keys, c.vals, c.vals[x := 1]);
      }
    }
  }

  /** The counts of one more element of `s`. */
  lemma CountsPrefix<K(!new)>(s: seq<K>, k: nat)
    requires k < |s|
    ensures Counts(s[..k + 1]) == Increment(Counts(s[..k]), s[k])
  {
    assert DropLast(s[..k + 1]) == s[..k] && Last(s[..k + 1]) == s[k];
  }

  /** The two cases of the counting loop body. */
  lemma IncrementCases<K>(d: Dict<K, nat>, k: K)
    requires d.Valid()
    ensures k in d.vals ==> Increment(d, k) == Put(d, k, d.vals[k] + 1)
    ensures k !in d.vals ==> Increment(d, k) == Put(d, k, 1)
  {
  }

  /** Setting one listed value to `v` moves the sum by the difference. */
  lemma {:induction false} SumOverUpdate<K>(keys: seq<K>, vals: map<K, nat>, x: K, v: nat)
    requires Distinct(keys) && x in keys
    requires forall k :: k in keys ==> k in vals
    ensures SumOver(keys, vals[x := v]) + vals[x] == SumOver(keys, vals) + v
    decreases |keys|
  {
    var vals' := vals[x := v];
    if Last(keys) == x {
      assert x !in DropLast(keys);
      SumOverPointwise(DropLast(keys), vals, vals');
    } else {
      assert x in DropLast(keys);
      SumOverUpdate(DropLast(keys), vals, x, v);
    }
  }

  /** A counting loop: a known element's count goes up by one, a new element
      is added with count 1. */
  method CountOccurrences<K(==, !new)>(s: seq<K>) returns (counts: Dict<K, nat>)
    ensures counts == Counts(s)
  {
    counts := Empty();
    for k := 0 to |s|
      invariant counts == Counts(s[..k])
    {
      var x := s[k];
      CountsPrefix(s, k);
      IncrementCases(counts, x);
      if x in counts.vals {
        counts := Put(counts, x, counts.vals[x] + 1);
      } else {
        counts := Put(counts, x, 1);
      }
    }
    assert s[..|s|] == s;
  }
}
