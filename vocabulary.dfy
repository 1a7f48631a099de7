/** The vocabulary stage: the set of dictionary words found in the page
    texts, the stop-word filter, and the grouping of the surviving tokens
    under their lemmas, each lemma with the list of its distinct forms. */
module Vocabulary {
  import opened Wrappers
  import opened Seqs
  import opened Dicts
  import opened Normalize
  import opened Sorting
  import opened LemmaGroups

  /** The token set of each page; a page without a body (`None`) has none. */
  function PageTokens(texts: seq<Option<string>>, words: set<string>): (docs: seq<set<string>>)
    ensures |docs| == |texts|
    ensures forall i :: 0 <= i < |texts| ==> docs[i] == if texts[i].Some? then Tokenize(texts[i].value, words) else {}
  {
    seq(|texts|, i requires 0 <= i < |texts| => if texts[i].Some? then Tokenize(texts[i].value, words) else {})
  }

  /** `tokenize_collection`: the union of the token sets of the pages, in
      page order; a page whose text is `None` is skipped. */
  method TokenizeCollection(texts: seq<Option<string>>, words: set<string>) returns (tokens: set<string>)
    ensures tokens == Union(PageTokens(texts, words))
  {
    ghost var docs := PageTokens(texts, words);
    tokens := {};
    for i := 0 to |texts|
      invariant tokens == Union(docs[..i])
    {
      if texts[i].Some? {
        tokens := tokens + Tokenize(texts[i].value, words);
      }
      UnionPrefix(docs, i);
    }
    assert docs[..|texts|] == docs;
  }

  /** A token is collected exactly when some page with a text yields it. */
  lemma CollectionTokens(texts: seq<Option<string>>, words: set<string>, t: string)
    ensures t in Union(PageTokens(texts, words)) <==>
      exists i :: 0 <= i < |texts| && texts[i].Some? && t in Tokenize(texts[i].value, words)
  {
    var docs := PageTokens(texts, words);
    UnionMembers(docs, t);
    if t in Union(docs) {
      var i :| 0 <= i < |docs| && t in docs[i];
      assert texts[i].Some?;
    }
    if exists i :: 0 <= i < |texts| && texts[i].Some? && t in Tokenize(texts[i].value, words) {
      var i :| 0 <= i < |texts| && texts[i].Some? && t in Tokenize(texts[i].value, words);
      assert t in docs[i];
    }
  }

  /** The stop-word test of the vocabulary stage: a token is kept when it is
      not a stop word and is longer than one character. */
  predicate NotStopword(stopwords: seq<string>, w: string) {
    w !in stopwords && |w| > 1
  }

  /** `remove_stopwords`: the tokens of the set, listed once each in the
      set's iteration order, without the stop words and the one-letter words. */
  method RemoveStopwords(tokens: set<string>, stopwords: seq<string>) returns (r: seq<string>)
    ensures Distinct(r)
    ensures forall w :: w in r <==> w in tokens && w !in stopwords && |w| > 1
  {
    var order := SetToList(tokens);
    r := Filter(order, w => NotStopword(stopwords, w));
    FilterDistinct(order, w => NotStopword(stopwords, w));
  }

  /** Filtering a list without repeats leaves a list without repeats. */
  lemma {:induction false} FilterDistinct<T(!new)>(s: seq<T>, p: T -> bool)
    requires Distinct(s)
    ensures Distinct(Filter(s, p))
    decreases |s|
  {
    if s != [] {
      FilterDistinct(s[1..], p);
      assert s[0] !in s[1..];
    }
  }

  /** What the grouping loop has built after visiting `done`: the lemmas in
      order of first appearance, each with its forms in order of first
      appearance and without repeats. */
  ghost predicate ListsSoFar(lemmas: Dict<string, seq<string>>, done: seq<Pair>) {
    && lemmas.Valid()
    && lemmas.keys == Dedup(Bases(done))
    && (forall l :: l in lemmas.vals ==> lemmas.vals[l] == Dedup(Producers(done, l)))
  }

  lemma DedupSingle(x: string)
    ensures Dedup([x]) == [x]
  {
    assert DropLast([x]) == [];
  }

  /** One pass of the inner loop of `get_lemmas` for a lemma not seen before. */
  lemma ListsStepNew(lemmas: Dict<string, seq<string>>, done: seq<Pair>, p: Pair)
    requires ListsSoFar(lemmas, done) && p.base !in lemmas.vals
    ensures ListsSoFar(Put(lemmas, p.base, [p.token]), done + [p])
  {
    var r := Put(lemmas, p.base, [p.token]);
    BasesSnoc(done, p);
    DedupSnoc(Bases(done), p.base);
    forall l | l in r.vals
      ensures r.vals[l] == Dedup(Producers(done + [p], l))
    {
      ProducersSnoc(done, p, l);
      if l == p.base {
        ProducersMembers(done, p.base);
        assert Producers(done + [p], l) == [p.token];
        DedupSingle(p.token);
      } else {
        assert Producers(done + [p], l) == Producers(done, l);
        assert r.vals[l] == lemmas.vals[l];
      }
    }
  }

  /** One pass of the inner loop of `get_lemmas` for a known lemma whose
      forms already hold the token: nothing changes. */
  lemma ListsStepSeen(lemmas: Dict<string, seq<string>>, done: seq<Pair>, p: Pair)
    requires ListsSoFar(lemmas, done) && p.base in lemmas.vals && p.token in lemmas.vals[p.base]
    ensures ListsSoFar(lemmas, done + [p])
  {
    BasesSnoc(done, p);
    DedupSnoc(Bases(done), p.base);
    DedupSnoc(Producers(done, p.base), p.token);
    forall l | l in lemmas.vals
      ensures lemmas.vals[l] == Dedup(Producers(done + [p], l))
    {
      ProducersSnoc(done, p, l);
      if l != p.base {
        assert Producers(done + [p], l) == Producers(done, l);
      }
    }
  }

  /** One pass of the inner loop of `get_lemmas` for a known lemma whose
      forms do not hold the token yet: the token is appended. */
  lemma ListsStepAppend(lemmas: Dict<string, seq<string>>, done: seq<Pair>, p: Pair)
    requires ListsSoFar(lemmas, done) && p.base in lemmas.vals && p.token !in lemmas.vals[p.base]
    ensures ListsSoFar(Put(lemmas, p.base, lemmas.vals[p.base] + [p.token]), done + [p])
  {
    var r := Put(lemmas, p.base, lemmas.vals[p.base] + [p.token]);
    BasesSnoc(done, p);
    DedupSnoc(Bases(done), p.base);
    forall l | l in r.vals
      ensures r.vals[l] == Dedup(Producers(done + [p], l))
    {
      FormsStepAppend(lemmas, done, p, l);
    }
  }

  /** The forms of one lemma after the token of `p` is appended to the forms
      of its lemma. */
  lemma FormsStepAppend(lemmas: Dict<string, seq<string>>, done: seq<Pair>, p: Pair, l: string)
    requires ListsSoFar(lemmas, done) && p.base in lemmas.vals && p.token !in lemmas.vals[p.base]
    requires l in lemmas.vals
    ensures lemmas.vals[p.base := lemmas.vals[p.base] + [p.token]][l] == Dedup(Producers(done + [p], l))
  {
    ProducersSnoc(done, p, l);
    if l == p.base {
      DedupSnoc(Producers(done, p.base), p.token);
    } else {
      assert Producers(done + [p], l) == Producers(done, l);
    }
  }

  /** The weight the lemma dictionary is sorted by: the number of forms. */
  function FormCount(lemmas: Dict<string, seq<string>>): string -> int {
    l => if l in lemmas.vals then |lemmas.vals[l]| else 0
  }

  /** `get_lemmas`: each token, in list order, is lemmatized for the five
      parts of speech in turn; a new lemma gets the token as its only form, a
      known one gets the token appended unless it is already there. The
      dictionary is then sorted stably by non-increasing number of forms. */
  method GetLemmas(tokens: seq<string>, lemmatize: (string, string) -> string) returns (lemmas: Dict<string, seq<string>>)
    ensures lemmas.Valid()
    ensures multiset(lemmas.keys) == multiset(Dedup(Bases(PairsOf(tokens, lemmatize))))
    ensures forall l :: l in lemmas.vals ==> lemmas.vals[l] == Dedup(Producers(PairsOf(tokens, lemmatize), l))
    ensures NonIncreasing(lemmas.keys, FormCount(lemmas))
    ensures forall k :: OfWeight(lemmas.keys, FormCount(lemmas), k) == OfWeight(Dedup(Bases(PairsOf(tokens, lemmatize))), FormCount(lemmas), k)
  {
    var groups: Dict<string, seq<string>> := Empty();
    for i := 0 to |tokens|
      invariant ListsSoFar(groups, PairsOf(tokens[..i], lemmatize))
    {
      groups := GroupToken(groups, PairsOf(tokens[..i], lemmatize), tokens[i], lemmatize);
      PairsOfSnoc(tokens, i, lemmatize);
    }
    assert tokens[..|tokens|] == tokens;
    lemmas := SortByWeight(groups, FormCount(groups));
  }

  /** The inner loop of `get_lemmas` for one token: its five lemmas in turn. */
  method GroupToken(groups: Dict<string, seq<string>>, ghost done: seq<Pair>, token: string, lemmatize: (string, string) -> string)
    returns (groups': Dict<string, seq<string>>)
    requires ListsSoFar(groups, done)
    ensures ListsSoFar(groups', done + TokenPairs(token, lemmatize))
  {
    groups' := groups;
    ghost var visited := done;
    for j := 0 to |PartsOfSpeech|
      invariant visited == done + TokenPairs(token, lemmatize)[..j]
      invariant ListsSoFar(groups', visited)
    {
      var tokenLemma := lemmatize(token, PartsOfSpeech[j]);
      if tokenLemma !in groups'.vals {
        ListsStepNew(groups', visited, Pair(token, tokenLemma));
        groups' := Put(groups', tokenLemma, [token]);
      } else {
        if token !in groups'.vals[tokenLemma] {
          ListsStepAppend(groups', visited, Pair(token, tokenLemma));
          groups' := Put(groups', tokenLemma, groups'.vals[tokenLemma] + [token]);
        } else {
          ListsStepSeen(groups', visited, Pair(token, tokenLemma));
        }
      }
      PrefixSnoc(done, TokenPairs(token, lemmatize), j);
      visited := visited + [Pair(token, tokenLemma)];
    }
    assert TokenPairs(token, lemmatize)[..|PartsOfSpeech|] == TokenPairs(token, lemmatize);
  }

  /** The forms listed for a lemma are exactly the tokens that the
      lemmatizer maps to it for some part of speech, each listed once; a
      lemma is listed exactly when some token produces it. */
  lemma LemmaForms(tokens: seq<string>, lemmatize: (string, string) -> string, t: string, l: string)
    ensures t in Dedup(Producers(PairsOf(tokens, lemmatize), l)) <==>
      t in tokens && exists j :: 0 <= j < |PartsOfSpeech| && l == lemmatize(t, PartsOfSpeech[j])
    ensures Distinct(Dedup(Producers(PairsOf(tokens, lemmatize), l)))
    ensures l in Dedup(Bases(PairsOf(tokens, lemmatize))) <==>
      exists t :: t in tokens && exists j :: 0 <= j < |PartsOfSpeech| && l == lemmatize(t, PartsOfSpeech[j])
  {
    var pairs := PairsOf(tokens, lemmatize);
    ProducedBy(tokens, lemmatize, t, l);
    ProducersMembers(pairs, l);
    if l in Bases(pairs) {
      var t' := Producers(pairs, l)[0];
      ProducedBy(tokens, lemmatize, t', l);
    }
    forall t' | t' in tokens && exists j :: 0 <= j < |PartsOfSpeech| && l == lemmatize(t', PartsOfSpeech[j])
      ensures l in Bases(pairs)
    {
      ProducedBy(tokens, lemmatize, t', l);
    }
  }
}
