/** The search stage: the query lemmatized against the lemma vocabulary, its
    tf-idf weights, the weight vector over the vocabulary, and the ten best
    pages for a list of similarity scores. */
module Ranking {
  import opened Wrappers
  import opened Seqs
  import opened Dicts
  import opened Normalize
  import opened Loaders

  /** The number of pages a search returns. */
  const TopCount: nat := 10

  /** The lemma kept for a token when the parts of speech are tried from
      the `j`-th on: the first lemma found in the vocabulary, if any. */
  function FirstKnown(token: string, lemmatize: (string, string) -> string, known: set<string>, j: nat): Option<string>
    decreases |PartsOfSpeech| - j
  {
    if j >= |PartsOfSpeech| then None
    else if lemmatize(token, PartsOfSpeech[j]) in known then Some(lemmatize(token, PartsOfSpeech[j]))
    else FirstKnown(token, lemmatize, known, j + 1)
  }

  /** The lemma `lemmatize_query` keeps for one token. */
  function QueryLemma(token: string, lemmatize: (string, string) -> string, known: set<string>): Option<string> {
    FirstKnown(token, lemmatize, known, 0)
  }

  /** Trying the parts of speech from the `j`-th on finds nothing exactly
      when none of their lemmas is known, and otherwise finds the lemma of
      the first part of speech whose lemma is known. */
  lemma {:induction false} FirstKnownIsFirst(token: string, lemmatize: (string, string) -> string, known: set<string>, j: nat)
    requires j <= |PartsOfSpeech|
    ensures FirstKnown(token, lemmatize, known, j).None? <==>
      forall p :: j <= p < |PartsOfSpeech| ==> lemmatize(token, PartsOfSpeech[p]) !in known
    ensures FirstKnown(token, lemmatize, known, j).Some? ==>
      exists p :: j <= p < |PartsOfSpeech| && FirstKnown(token, lemmatize, known, j).value == lemmatize(token, PartsOfSpeech[p])
        && lemmatize(token, PartsOfSpeech[p]) in known
        && forall q :: j <= q < p ==> lemmatize(token, PartsOfSpeech[q]) !in known
    decreases |PartsOfSpeech| - j
  {
    if j < |PartsOfSpeech| && lemmatize(token, PartsOfSpeech[j]) !in known {
      FirstKnownIsFirst(token, lemmatize, known, j + 1);
    }
  }

  /** The query lemma of a token is the lemma, for the first part of speech
      in the order a, s, r, n, v, that is in the vocabulary; the token is
      dropped when no part of speech gives one. */
  lemma QueryLemmaIsFirst(token: string, lemmatize: (string, string) -> string, known: set<string>)
    ensures QueryLemma(token, lemmatize, known).None? <==>
      forall p :: 0 <= p < |PartsOfSpeech| ==> lemmatize(token, PartsOfSpeech[p]) !in known
    ensures QueryLemma(token, lemmatize, known).Some? ==>
      exists p :: 0 <= p < |PartsOfSpeech| && QueryLemma(token, lemmatize, known).value == lemmatize(token, PartsOfSpeech[p])
        && lemmatize(token, PartsOfSpeech[p]) in known
        && forall q :: 0 <= q < p ==> lemmatize(token, PartsOfSpeech[q]) !in known
  {
    FirstKnownIsFirst(token, lemmatize, known, 0);
  }

  function Listed(o: Option<string>): seq<string> {
    if o.Some? then [o.value] else []
  }

  /** The lemmatized query: the query lemma of every token that has one, in
      token order. */
  function LemmatizedQuery(query: seq<string>, lemmatize: (string, string) -> string, known: set<string>): seq<string>
    decreases |query|
  {
    if query == [] then []
    else LemmatizedQuery(DropLast(query), lemmatize, known) + Listed(QueryLemma(Last(query), lemmatize, known))
  }

  lemma LemmatizedQueryPrefix(query: seq<string>, i: nat, lemmatize: (string, string) -> string, known: set<string>)
    requires i < |query|
    ensures LemmatizedQuery(query[..i + 1], lemmatize, known) ==
      LemmatizedQuery(query[..i], lemmatize, known) + Listed(QueryLemma(query[i], lemmatize, known))
  {
    assert DropLast(query[..i + 1]) == query[..i] && Last(query[..i + 1]) == query[i];
  }

  /** The lemmatized query is no longer than the query, and every lemma in it
      is in the vocabulary. */
  lemma {:induction false} LemmatizedQueryBounds(query: seq<string>, lemmatize: (string, string) -> string, known: set<string>)
    ensures |LemmatizedQuery(query, lemmatize, known)| <= |query|
    ensures forall l :: l in LemmatizedQuery(query, lemmatize, known) ==> l in known
    decreases |query|
  {
    if query != [] {
      LemmatizedQueryBounds(DropLast(query), lemmatize, known);
      FirstKnownIsFirst(Last(query), lemmatize, known, 0);
    }
  }

  /** Lemmatization keeps the order of the query: lemmatizing two parts one
      after the other gives the lemmas of the first part, then those of the
      second. */
  lemma {:induction false} LemmatizedQueryAppend(a: seq<string>, b: seq<string>, lemmatize: (string, string) -> string, known: set<string>)
    ensures LemmatizedQuery(a + b, lemmatize, known) == LemmatizedQuery(a, lemmatize, known) + LemmatizedQuery(b, lemmatize, known)
    decreases |b|
  {
    if b == [] {
      assert a + b == a;
    } else {
      var front := DropLast(b);
      var x := Listed(QueryLemma(Last(b), lemmatize, known));
      LemmatizedQueryAppend(a, front, lemmatize, known);
      ConcatLast(a, b);
      assert LemmatizedQuery(a + b, lemmatize, known) == LemmatizedQuery(a + front, lemmatize, known) + x;
      assert LemmatizedQuery(b, lemmatize, known) == LemmatizedQuery(front, lemmatize, known) + x;
      ConcatAssoc(LemmatizedQuery(a, lemmatize, known), LemmatizedQuery(front, lemmatize, known), x);
    }
  }

  /** `lemmatize_query`: for each token the parts of speech are tried in
      turn, and the first lemma found in the vocabulary is appended before
      moving on to the next token. */
  method LemmatizeQuery(query: seq<string>, lemmatize: (string, string) -> string, vocabulary: seq<string>)
    returns (lemmatized: seq<string>)
    ensures lemmatized == LemmatizedQuery(query, lemmatize, set l | l in vocabulary)
  {
    var lemmaSet := set l | l in vocabulary;
    lemmatized := [];
    for i := 0 to |query|
      invariant lemmatized == LemmatizedQuery(query[..i], lemmatize, lemmaSet)
    {
      var token := query[i];
      LemmatizedQueryPrefix(query, i, lemmatize, lemmaSet);
      ghost var before := lemmatized;
      for j := 0 to |PartsOfSpeech|
        invariant lemmatized == before
        invariant FirstKnown(token, lemmatize, lemmaSet, j) == QueryLemma(token, lemmatize, lemmaSet)
      {
        var lem := lemmatize(token, PartsOfSpeech[j]);
        if lem in lemmaSet {
          lemmatized := lemmatized + [lem];
          break;
        }
      }
      assert lemmatized == before + Listed(QueryLemma(token, lemmatize, lemmaSet));
    }
    assert query[..|query|] == query;
  }

  /** `sum(1 for s in lemmas_in_docs if lemma in s)`: the number of
      documents whose lemma set holds `l`. */
  function DocFrequency(docs: seq<set<string>>, l: string): (n: nat)
    ensures n <= |docs|
    decreases |docs|
  {
    if docs == [] then 0 else DocFrequency(DropLast(docs), l) + (if l in Last(docs) then 1 else 0)
  }

  /** The document frequency is zero exactly when no document holds the lemma. */
  lemma {:induction false} DocFrequencyZero(docs: seq<set<string>>, l: string)
    ensures DocFrequency(docs, l) == 0 <==> forall i :: 0 <= i < |docs| ==> l !in docs[i]
    decreases |docs|
  {
    if docs != [] {
      DocFrequencyZero(DropLast(docs), l);
      assert forall i :: 0 <= i < |docs| - 1 ==> docs[i] == DropLast(docs)[i];
    }
  }

  /** The term frequency of a query lemma: its count over the query length. */
  function Tf(query: seq<string>, l: string): real
    requires |query| > 0
  {
    Count(query, l) as real / |query| as real
  }

  /** The inverse document frequency of a query lemma: the logarithm of
      the number of pages over the document frequency. */
  function Idf(docs: seq<set<string>>, log: real -> real, l: string): real
    requires DocFrequency(docs, l) > 0
  {
    log(PageCount as real / DocFrequency(docs, l) as real)
  }

  /** The weight of a query lemma: tf times idf. */
  function Weight(query: seq<string>, docs: seq<set<string>>, log: real -> real, l: string): real
    requires l in query && DocFrequency(docs, l) > 0
  {
    Tf(query, l) * Idf(docs, log, l)
  }

  /** The lemmas of the query all occur in some document. */
  ghost predicate AllSeen(query: seq<string>, docs: seq<set<string>>) {
    forall l :: l in query ==> DocFrequency(docs, l) > 0
  }

  /** The weights can be computed exactly when every query lemma occurs in
      some document; otherwise the idf divides by zero. */
  lemma AllSeenMeaning(query: seq<string>, docs: seq<set<string>>)
    ensures AllSeen(query, docs) <==> forall l :: l in query ==> exists i :: 0 <= i < |docs| && l in docs[i]
  {
    forall l | l in query
      ensures DocFrequency(docs, l) > 0 <==> exists i :: 0 <= i < |docs| && l in docs[i]
    {
      DocFrequencyZero(docs, l);
    }
  }

  /** Every lemma of the weight dictionary is a query lemma that some
      document holds, mapped to its weight. */
  ghost predicate Weighted(weights: Dict<string, real>, query: seq<string>, docs: seq<set<string>>, log: real -> real) {
    && weights.Valid()
    && forall l :: l in weights.vals ==>
      (l in query && DocFrequency(docs, l) > 0 && weights.vals[l] == Weight(query, docs, log, l))
  }

  /** One pass of the weighting loop. */
  lemma WeightedPut(weights: Dict<string, real>, query: seq<string>, docs: seq<set<string>>, log: real -> real,
                    l: string, tf: real, idf: real)
    requires Weighted(weights, query, docs, log)
    requires l in query && DocFrequency(docs, l) > 0
    requires tf == Tf(query, l) && idf == Idf(docs, log, l)
    ensures Weighted(Put(weights, l, tf * idf), query, docs, log)
  {
    var r := Put(weights, l, tf * idf);
    forall k | k in r.vals
      ensures k in query && DocFrequency(docs, k) > 0 && r.vals[k] == Weight(query, docs, log, k)
    {
      if k == l {
        assert r.vals[k] == Tf(query, l) * Idf(docs, log, l);
      } else {
        assert r.vals[k] == weights.vals[k];
      }
    }
  }

  /** The `k`-th key of a dictionary is not among the keys before it. */
  lemma KeyStep<V>(d: Dict<string, V>, k: nat)
    requires d.Valid() && k < |d.keys|
    ensures d.keys[k] !in d.keys[..k] && d.keys[..k + 1] == d.keys[..k] + [d.keys[k]]
  {
  }

  /** A key of the query's counting dictionary is a query lemma mapped to
      its count. */
  lemma CountedKey(query: seq<string>, lem: string)
    requires lem in Counts(query).keys
    ensures lem in query && Counts(query).vals[lem] == Count(query, lem)
  {
    CountsAre(query);
  }

  /** Weights for every key of the counting dictionary: every query lemma
      occurs in some document, and the weights are keyed by the distinct
      lemmas in first-occurrence order. */
  lemma AllWeighted(query: seq<string>, docs: seq<set<string>>, log: real -> real, weights: Dict<string, real>)
    requires Weighted(weights, query, docs, log) && weights.keys == Counts(query).keys
    ensures AllSeen(query, docs) && weights.keys == Dedup(query)
  {
    CountsAre(query);
    assert forall l :: l in query ==> l in weights.vals;
  }

  /** One pass of the weighting loop: the lemma's tf over the query and
      its idf over the documents, stored under the lemma; a lemma no
      document holds makes the idf a division by zero. */
  method WeighLemma(weights: Dict<string, real>, query: seq<string>, lemmasInDocs: seq<set<string>>, log: real -> real,
                    lem: string, count: nat)
    returns (r: Result<Dict<string, real>, string>)
    requires Weighted(weights, query, lemmasInDocs, log)
    requires lem in query && count == Count(query, lem)
    ensures r.Ok? <==> DocFrequency(lemmasInDocs, lem) > 0
    ensures r.Err? ==> !AllSeen(query, lemmasInDocs)
    ensures r.Ok? ==> Weighted(r.value, query, lemmasInDocs, log)
    ensures r.Ok? ==> r.value.keys == if lem in weights.vals then weights.keys else weights.keys + [lem]
  {
    var tf := count as real / |query| as real;
    var df := DocFrequency(lemmasInDocs, lem);
    if df == 0 {
      return Err("division by zero");
    }
    var idf := log(PageCount as real / df as real);
    WeightedPut(weights, query, lemmasInDocs, log, lem, tf, idf);
    r := Ok(Put(weights, lem, tf * idf));
  }

  /** `calculate_query_tfidf`: the lemmas of the query counted in a
      dictionary, then each distinct lemma weighted; a lemma no document
      holds makes the idf a division by zero. The number of pages is the
      constant 100, not the number of lemma sets. */
  method CalculateQueryTfIdf(query: seq<string>, lemmasInDocs: seq<set<string>>, log: real -> real)
    returns (r: Result<Dict<string, real>, string>)
    ensures r.Ok? <==> AllSeen(query, lemmasInDocs)
    ensures r.Ok? ==> r.value.keys == Dedup(query) && Weighted(r.value, query, lemmasInDocs, log)
  {
    var counts := CountOccurrences(query);
    var weights: Dict<string, real> := Empty();
    for k := 0 to |counts.keys|
      invariant weights.keys == counts.keys[..k]
      invariant Weighted(weights, query, lemmasInDocs, log)
    {
      var lem := counts.keys[k];
      KeyStep(counts, k);
      CountedKey(query, lem);
      var next := WeighLemma(weights, query, lemmasInDocs, log, lem, counts.vals[lem]);
      if next.Err? {
        return next;
      }
      weights := next.value;
    }
    assert counts.keys[..|counts.keys|] == counts.keys;
    AllWeighted(query, lemmasInDocs, log, weights);
    r := Ok(weights);
  }

  /** The sum of the term frequencies of the listed lemmas. */
  function TfSum(keys: seq<string>, query: seq<string>): real
    requires |query| > 0
    decreases |keys|
  {
    if keys == [] then 0.0 else TfSum(DropLast(keys), query) + Tf(query, Last(keys))
  }

  /** The sum of the counts of the listed lemmas. */
  function CountSum(keys: seq<string>, query: seq<string>): nat
    decreases |keys|
  {
    if keys == [] then 0 else CountSum(DropLast(keys), query) + Count(query, Last(keys))
  }

  lemma DivAdd(a: real, b: real, n: real)
    requires n != 0.0
    ensures a / n + b / n == (a + b) / n
  {
  }

  /** Summing term frequencies is summing counts and dividing by the length. */
  lemma {:induction false} TfSumCounts(keys: seq<string>, query: seq<string>)
    requires |query| > 0
    ensures TfSum(keys, query) == CountSum(keys, query) as real / |query| as real
    decreases |keys|
  {
    if keys != [] {
      TfSumCounts(DropLast(keys), query);
      DivAdd(CountSum(DropLast(keys), query) as real, Count(query, Last(keys)) as real, |query| as real);
    }
  }

  /** Over query lemmas, the count sum is the sum of the counting dictionary. */
  lemma {:induction false} CountSumOver(keys: seq<string>, query: seq<string>)
    requires forall k :: k in keys ==> k in query
    ensures forall k :: k in keys ==> k in Counts(query).vals
    ensures CountSum(keys, query) == SumOver(keys, Counts(query).vals)
    decreases |keys|
  {
    CountsAre(query);
    if keys != [] {
      CountSumOver(DropLast(keys), query);
    }
  }

  /** The term frequencies of the distinct lemmas of a non-empty query add
      up to 1. */
  lemma TfSumOne(query: seq<string>)
    requires |query| > 0
    ensures TfSum(Dedup(query), query) == 1.0
  {
    var keys := Dedup(query);
    TfSumCounts(keys, query);
    CountSumOver(keys, query);
    CountsAre(query);
    CountsSum(query);
    assert CountSum(keys, query) == |query|;
    DivSelf(|query| as real);
  }

  lemma DivSelf(n: real)
    requires n != 0.0
    ensures n / n == 1.0
  {
  }

  /** The entry at position `j` of the query vector before normalisation:
      the weight of the lemma at `j` when `j` is its first position in the
      vocabulary, 0 otherwise. */
  function Entry(weights: map<string, real>, vocabulary: seq<string>, j: nat): real
    requires j < |vocabulary|
  {
    var l := vocabulary[j];
    if l in weights && FirstIndex(vocabulary, l) == j then weights[l] else 0.0
  }

  /** `convert_query_to_vector` before normalisation: a zero vector over the
      vocabulary, and each weighted lemma of the vocabulary written at its
      first position. */
  method ConvertQueryToVector(queryTfIdf: Dict<string, real>, vocabulary: seq<string>) returns (vector: array<real>)
    requires queryTfIdf.Valid()
    ensures fresh(vector) && vector.Length == |vocabulary|
    ensures forall j :: 0 <= j < |vocabulary| ==> vector[j] == Entry(queryTfIdf.vals, vocabulary, j)
  {
    vector := new real[|vocabulary|](_ => 0.0);
    var keys := queryTfIdf.keys;
    for k := 0 to |keys|
      invariant forall j :: 0 <= j < |vocabulary| ==>
        (vector[j] == if vocabulary[j] in keys[..k] && FirstIndex(vocabulary, vocabulary[j]) == j then queryTfIdf.vals[vocabulary[j]] else 0.0)
    {
      var lem := keys[k];
      var tfidf := queryTfIdf.vals[lem];
      assert lem !in keys[..k];
      assert keys[..k + 1] == keys[..k] + [lem];
      if lem in vocabulary {
        var i := FirstIndex(vocabulary, lem);
        vector[i] := tfidf;
      }
    }
    assert keys[..|keys|] == keys;
  }

  /** The vector holds every weight of a vocabulary lemma at the lemma's
      first position, and nothing anywhere else. */
  lemma VectorEntries(weights: map<string, real>, vocabulary: seq<string>)
    ensures forall l :: l in weights && l in vocabulary ==> Entry(weights, vocabulary, FirstIndex(vocabulary, l)) == weights[l]
    ensures forall j :: 0 <= j < |vocabulary| && Entry(weights, vocabulary, j) != 0.0 ==>
      vocabulary[j] in weights && j == FirstIndex(vocabulary, vocabulary[j])
  {
  }

  /** Every listed position is a position of `scores`. */
  predicate Within(rest: seq<nat>, n: nat) {
    forall i :: 0 <= i < |rest| ==> rest[i] < n
  }

  /** Position in `rest` of a largest score, the earliest among equals. */
  function MaxAt(scores: seq<real>, rest: seq<nat>): (m: nat)
    requires |rest| > 0 && Within(rest, |scores|)
    ensures m < |rest|
    ensures forall i :: 0 <= i < |rest| ==> scores[rest[i]] <= scores[rest[m]]
    decreases |rest|
  {
    if |rest| == 1 then 0
    else
      var m := MaxAt(scores, DropLast(rest));
      if scores[Last(rest)] > scores[rest[m]] then |rest| - 1 else m
  }

  /** `s` without its element at `m`. */
  function RemoveAt(s: seq<nat>, m: nat): (r: seq<nat>)
    requires m < |s| && Distinct(s)
    ensures |r| == |s| - 1 && Distinct(r)
    ensures forall x :: x in r <==> x in s && x != s[m]
  {
    var r := s[..m] + s[m + 1..];
    assert forall i :: 0 <= i < |r| ==> r[i] == if i < m then s[i] else s[i + 1];
    assert s == s[..m] + [s[m]] + s[m + 1..];
    r
  }

  /** The positions of `rest`, a largest score first, then the others in
      the same way. */
  function SelectDesc(scores: seq<real>, rest: seq<nat>): (r: seq<nat>)
    requires Distinct(rest) && Within(rest, |scores|)
    ensures |r| == |rest| && Distinct(r) && Within(r, |scores|)
    ensures forall x :: x in r <==> x in rest
    decreases |rest|
  {
    if rest == [] then []
    else
      var m := MaxAt(scores, rest);
      var others := RemoveAt(rest, m);
      var tail := SelectDesc(scores, others);
      assert rest[m] !in tail;
      assert forall i :: 0 < i <= |tail| ==> ([rest[m]] + tail)[i] == tail[i - 1];
      [rest[m]] + tail
  }

  /** The scores along `order` never increase. */
  predicate Descending(scores: seq<real>, order: seq<nat>)
    requires Within(order, |scores|)
  {
    forall a, b :: 0 <= a < b < |order| ==> scores[order[a]] >= scores[order[b]]
  }

  /** The selected positions are by non-increasing score. */
  lemma {:induction false} SelectDescSorted(scores: seq<real>, rest: seq<nat>)
    requires Distinct(rest) && Within(rest, |scores|)
    ensures Descending(scores, SelectDesc(scores, rest))
    decreases |rest|
  {
    if rest != [] {
      var m := MaxAt(scores, rest);
      var others := RemoveAt(rest, m);
      var tail := SelectDesc(scores, others);
      SelectDescSorted(scores, others);
      var r := [rest[m]] + tail;
      assert SelectDesc(scores, rest) == r;
      forall a, b | 0 <= a < b < |r|
        ensures scores[r[a]] >= scores[r[b]]
      {
        assert r[b] == tail[b - 1];
        if a == 0 {
          assert tail[b - 1] in rest;
          var j :| 0 <= j < |rest| && rest[j] == tail[b - 1];
          assert r[0] == rest[m] && scores[rest[j]] <= scores[rest[m]];
        } else {
          assert r[a] == tail[a - 1];
          assert 0 <= a - 1 < b - 1 < |tail|;
          assert scores[tail[a - 1]] >= scores[tail[b - 1]];
        }
      }
    }
  }

  /** The positions `0 .. n - 1` in order. */
  function Range(n: nat): (r: seq<nat>)
    ensures |r| == n && Distinct(r) && Within(r, n)
    ensures forall i :: 0 <= i < n ==> r[i] == i
  {
    seq(n, i requires 0 <= i < n => i as nat)
  }

  /** `order` lists every position of `scores` exactly once, by
      non-increasing score: what `scores.argsort()[::-1]` promises, whatever
      order it gives to equal scores. */
  predicate SortedPositions(scores: seq<real>, order: seq<nat>) {
    && |order| == |scores| && Within(order, |scores|)
    && (forall a, b :: 0 <= a < b < |order| ==> order[a] != order[b])
    && (forall j :: 0 <= j < |scores| ==> j in order)
    && Descending(scores, order)
  }

  /** One listing of the positions by non-increasing score, the earliest
      position first among equal scores. The sort the search uses does not
      specify that order; this definition only shows that such a listing
      always exists. */
  function ArgsortDesc(scores: seq<real>): (r: seq<nat>)
    ensures |r| == |scores| && Distinct(r) && Within(r, |scores|)
  {
    SelectDesc(scores, Range(|scores|))
  }

  /** Every position of the scores appears, and the scores are
      non-increasing along the order. */
  lemma ArgsortDescOrder(scores: seq<real>)
    ensures forall j :: 0 <= j < |scores| ==> j in ArgsortDesc(scores)
    ensures Descending(scores, ArgsortDesc(scores))
    ensures SortedPositions(scores, ArgsortDesc(scores))
  {
    var all := Range(|scores|);
    SelectDescSorted(scores, all);
    assert ArgsortDesc(scores) == SelectDesc(scores, all);
    forall j | 0 <= j < |scores|
      ensures j in ArgsortDesc(scores)
    {
      assert all[j] == j;
    }
  }

  /** `top` are the first positions of a ranking: different positions of
      `scores`, by non-increasing score, and no position left out scores
      higher than any of them. */
  ghost predicate BestFirst(scores: seq<real>, top: seq<nat>) {
    && Distinct(top)
    && (forall k :: 0 <= k < |top| ==> top[k] < |scores|)
    && (forall a, b :: 0 <= a < b < |top| ==> scores[top[a]] >= scores[top[b]])
    && (forall j, k :: 0 <= j < |scores| && j !in top && 0 <= k < |top| ==> scores[top[k]] >= scores[j])
  }

  /** `search` after the similarity scores: `indices` is an arbitrary
      listing of the positions by non-increasing score (ties in any order),
      and the result holds the labels of its first ten positions; fewer than
      ten scores, or a position past the end of the index, raise
      `IndexError`. */
  method Search(scores: seq<real>, index: seq<string>) returns (indices: seq<nat>, r: Result<seq<string>, string>)
    ensures SortedPositions(scores, indices)
    ensures r.Ok? <==> |scores| >= TopCount && forall k :: 0 <= k < TopCount ==> indices[k] < |index|
    ensures r.Ok? ==> |r.value| == TopCount && forall k :: 0 <= k < TopCount ==> r.value[k] == index[indices[k]]
    ensures r.Ok? ==> BestFirst(scores, indices[..TopCount])
  {
    ArgsortDescOrder(scores);
    indices :| SortedPositions(scores, indices);
    var docs := [];
    for i := 0 to TopCount
      invariant |docs| == i && i <= |indices|
      invariant forall k :: 0 <= k < i ==> indices[k] < |index| && docs[k] == index[indices[k]]
    {
      if i >= |indices| {
        return indices, Err("index out of bounds");
      }
      if indices[i] >= |index| {
        return indices, Err("list index out of range");
      }
      docs := docs + [index[indices[i]]];
    }
    TopPages(scores, indices);
    r := Ok(docs);
  }

  /** The first ten positions of any ranking by non-increasing score are ten
      different pages, by non-increasing score, and none of the pages left
      out scores higher than any of them. */
  lemma TopPages(scores: seq<real>, order: seq<nat>)
    requires SortedPositions(scores, order) && |scores| >= TopCount
    ensures BestFirst(scores, order[..TopCount])
  {
    var top := order[..TopCount];
    forall j, k | 0 <= j < |scores| && j !in top && 0 <= k < TopCount
      ensures scores[top[k]] >= scores[j]
    {
      assert j in order;
      var p :| 0 <= p < |order| && order[p] == j;
      assert p >= TopCount;
    }
  }
}
