/** Sequence vocabulary shared by every stage: last element, reversal,
    filtering, duplicate removal, occurrence counting and first index
    (Python's `list.index`). */
module Seqs {

  function Last<T>(s: seq<T>): T
    requires |s| > 0
  {
    s[|s| - 1]
  }

  function DropLast<T>(s: seq<T>): seq<T>
    requires |s| > 0
  {
    s[..|s| - 1]
  }

  lemma DropLastLast<T>(s: seq<T>)
    requires |s| > 0
    ensures s == DropLast(s) + [Last(s)]
  {
  }

  ghost predicate Distinct<T>(s: seq<T>) {
    forall i, j :: 0 <= i < j < |s| ==> s[i] != s[j]
  }

  /** The order in which a Python list used as a stack is drained by
      repeated `pop()`: last element first. */
  function Reverse<T>(s: seq<T>): (r: seq<T>)
    ensures |r| == |s|
    ensures forall i :: 0 <= i < |s| ==> r[i] == s[|s| - 1 - i]
    decreases |s|
  {
    if s == [] then [] else [Last(s)] + Reverse(DropLast(s))
  }

  /** The last element of a concatenation with a non-empty right side, and
      what comes before it. */
  lemma ConcatLast<T>(a: seq<T>, b: seq<T>)
    requires |b| > 0
    ensures DropLast(a + b) == a + DropLast(b) && Last(a + b) == Last(b)
  {
    assert (a + b)[|a + b| - 1] == b[|b| - 1];
  }

  lemma ConcatAssoc<T>(p: seq<T>, q: seq<T>, r: seq<T>)
    ensures (p + q) + r == p + (q + r)
  {
  }

  lemma ReverseMembers<T>(s: seq<T>)
    ensures forall x :: x in Reverse(s) <==> x in s
  {
    var r := Reverse(s);
    forall x | x in s ensures x in r {
      var i :| 0 <= i < |s| && s[i] == x;
      assert r[|s| - 1 - i] == x;
    }
  }

  lemma {:induction false} ReverseMultiset<T>(s: seq<T>)
    ensures multiset(Reverse(s)) == multiset(s)
    decreases |s|
  {
    if s != [] {
      ReverseMultiset(DropLast(s));
      DropLastLast(s);
    }
  }

  /** The elements of `s` that satisfy `p`, in their original order. */
  function Filter<T(!new)>(s: seq<T>, p: T -> bool): (r: seq<T>)
    ensures |r| <= |s|
    ensures forall x :: x in r <==> x in s && p(x)
    decreases |s|
  {
    if s == [] then []
    else (if p(s[0]) then [s[0]] else []) + Filter(s[1..], p)
  }

  /** Nothing passes the filter when no element satisfies `p`. */
  lemma FilterNone<T(!new)>(s: seq<T>, p: T -> bool)
    requires forall x :: x in s ==> !p(x)
    ensures Filter(s, p) == []
  {
    if Filter(s, p) != [] {
      assert Filter(s, p)[0] in Filter(s, p);
    }
  }

  /** One element in front: it is kept or dropped, and the rest is filtered. */
  lemma FilterCons<T(!new)>(y: T, t: seq<T>, p: T -> bool)
    ensures Filter([y] + t, p) == (if p(y) then [y] else []) + Filter(t, p)
  {
    assert ([y] + t)[0] == y && ([y] + t)[1..] == t;
  }

  lemma {:induction false} FilterAppend<T(!new)>(a: seq<T>, b: seq<T>, p: T -> bool)
    ensures Filter(a + b, p) == Filter(a, p) + Filter(b, p)
    decreases |a|
  {
    if a == [] {
      assert a + b == b;
    } else {
      assert (a + b)[1..] == a[1..] + b;
      FilterAppend(a[1..], b, p);
    }
  }

  /** Number of occurrences of `x` in `s`. */
  function Count<T(==)>(s: seq<T>, x: T): (n: nat)
    ensures n > 0 <==> x in s
    ensures n <= |s|
    decreases |s|
  {
    if s == [] then 0
    else Count(DropLast(s), x) + (if Last(s) == x then 1 else 0)
  }

  /** The distinct elements of `s`, in order of first occurrence. */
  function Dedup<T(==, !new)>(s: seq<T>): (r: seq<T>)
    ensures Distinct(r)
    ensures forall x :: x in r <==> x in s
    ensures |r| <= |s|
    decreases |s|
  {
    if s == [] then []
    else
      var p := Dedup(DropLast(s));
      assert s == DropLast(s) + [Last(s)];
      if Last(s) in DropLast(s) then p else p + [Last(s)]
  }

  /** Python's `list.index(x)`: the position of the first occurrence. */
  function FirstIndex<T(==)>(s: seq<T>, x: T): (i: nat)
    requires x in s
    ensures i < |s| && s[i] == x
    ensures forall k :: 0 <= k < i ==> s[k] != x
    decreases |s|
  {
    if s[0] == x then 0 else 1 + FirstIndex(s[1..], x)
  }

  /** `s` with every element of `drop` removed, the rest in order. */
  function RemoveAll<T(==, !new)>(s: seq<T>, drop: set<T>): (r: seq<T>)
    ensures forall x :: x in r <==> x in s && x !in drop
    decreases |s|
  {
    if s == [] then []
    else (if s[0] in drop then [] else [s[0]]) + RemoveAll(s[1..], drop)
  }

  lemma {:induction false} RemoveAllDistinct<T(!new)>(s: seq<T>, drop: set<T>)
    requires Distinct(s)
    ensures Distinct(RemoveAll(s, drop))
    decreases |s|
  {
    if s != [] {
      RemoveAllDistinct(s[1..], drop);
      assert s[0] !in s[1..];
    }
  }

  lemma {:induction false} RemoveAllMore<T(!new)>(s: seq<T>, drop: set<T>, x: T)
    ensures RemoveAll(RemoveAll(s, drop), {x}) == RemoveAll(s, drop + {x})
    decreases |s|
  {
    if s != [] {
      RemoveAllMore(s[1..], drop, x);
      var r := RemoveAll(s, drop);
      if s[0] !in drop {
        assert r == [s[0]] + RemoveAll(s[1..], drop);
        assert r[1..] == RemoveAll(s[1..], drop);
      } else {
        assert r == RemoveAll(s[1..], drop);
      }
    }
  }

  /** Removing elements that do not occur changes nothing. */
  lemma {:induction false} RemoveAllNone<T(!new)>(s: seq<T>, drop: set<T>)
    requires forall x :: x in s ==> x !in drop
    ensures RemoveAll(s, drop) == s
    decreases |s|
  {
    if s != [] {
      RemoveAllNone(s[1..], drop);
      assert [s[0]] + s[1..] == s;
    }
  }

  /** Appending an element extends the distinct elements only when it is new. */
  lemma DedupSnoc<T(!new)>(s: seq<T>, x: T)
    ensures Dedup(s + [x]) == if x in s then Dedup(s) else Dedup(s) + [x]
  {
    assert DropLast(s + [x]) == s && Last(s + [x]) == x;
  }

  /** Appending keeps the first index of an element already present. */
  lemma {:induction false} FirstIndexSnoc<T>(s: seq<T>, x: T, y: T)
    requires x in s
    ensures FirstIndex(s + [y], x) == FirstIndex(s, x)
    decreases |s|
  {
    if s[0] != x {
      assert (s + [y])[1..] == s[1..] + [y];
      FirstIndexSnoc(s[1..], x, y);
    }
  }

  /** One element of a non-empty set, in Python's unspecified iteration order. */
  method Pick<T>(s: set<T>) returns (x: T)
    requires s != {}
    ensures x in s
  {
    x :| x in s;
  }

  /** `list(s)`: the elements of a set, once each, in an arbitrary order. */
  method SetToList<T>(s: set<T>) returns (r: seq<T>)
    ensures Distinct(r) && |r| == |s|
    ensures forall x :: x in r <==> x in s
  {
    r := [];
    var rest := s;
    while rest != {}
      invariant rest <= s && |r| + |rest| == |s| && Distinct(r)
      invariant forall x :: x in r <==> x in s && x !in rest
      decreases |rest|
    {
      var x := Pick(rest);
      r := r + [x];
      rest := rest - {x};
    }
  }

  /** Extending a prefix of `b` by one element. */
  lemma PrefixSnoc<T>(a: seq<T>, b: seq<T>, j: nat)
    requires j < |b|
    ensures a + b[..j + 1] == a + b[..j] + [b[j]]
  {
    assert b[..j + 1] == b[..j] + [b[j]];
  }

  /** The union of a list of sets. */
  function Union<T>(sets: seq<set<T>>): set<T>
    decreases |sets|
  {
    if sets == [] then {} else Union(DropLast(sets)) + Last(sets)
  }

  /** An element is in the union exactly when it is in one of the sets. */
  lemma {:induction false} UnionMembers<T>(sets: seq<set<T>>, x: T)
    ensures x in Union(sets) <==> exists i :: 0 <= i < |sets| && x in sets[i]
    decreases |sets|
  {
    if sets != [] {
      UnionMembers(DropLast(sets), x);
      if x in Union(DropLast(sets)) {
        var i :| 0 <= i < |DropLast(sets)| && x in DropLast(sets)[i];
        assert x in sets[i];
      }
      if exists i :: 0 <= i < |sets| && x in sets[i] {
        var i :| 0 <= i < |sets| && x in sets[i];
        if i < |sets| - 1 {
          assert x in DropLast(sets)[i];
        }
      }
    }
  }

  /** The union of one more set. */
  lemma UnionPrefix<T>(sets: seq<set<T>>, i: nat)
    requires i < |sets|
    ensures Union(sets[..i + 1]) == Union(sets[..i]) + sets[i]
  {
    assert DropLast(sets[..i + 1]) == sets[..i] && Last(sets[..i + 1]) == sets[i];
  }
}
