/** The index stage: the documents' token sets become a dictionary from token
    to the numbers (from 1) of the documents holding it; stopwords are
    deleted from it; tokens are grouped under their lemmas, each lemma
    taking the document set of the first token that produced it; and one
    index record is built per lemma. */
module InvertedIndex {
  import opened Wrappers
  import opened Seqs
  import opened Dicts
  import opened Normalize
  import opened Sorting
  import opened LemmaGroups

  /** The token set of each document, in document order. */
  function TokenSets(texts: seq<string>, words: set<string>): (docs: seq<set<string>>)
    ensures |docs| == |texts|
    ensures forall i :: 0 <= i < |texts| ==> docs[i] == Tokenize(texts[i], words)
  {
    seq(|texts|, i requires 0 <= i < |texts| => Tokenize(texts[i], words))
  }

  /** The numbers (from 1) of the documents whose token set holds `t`. */
  function Postings(docs: seq<set<string>>, t: string): set<int>
    decreases |docs|
  {
    if docs == [] then {}
    else Postings(DropLast(docs), t) + (if t in Last(docs) then {|docs|} else {})
  }

  /** The index the collection stage is meant to build. */
  function Index(docs: seq<set<string>>): map<string, set<int>> {
    map t | t in Union(docs) :: Postings(docs, t)
  }

  /** Document `d` is a posting of `t` exactly when it is one of the documents
      and its token set holds `t`. */
  lemma {:induction false} PostingsIff(docs: seq<set<string>>, t: string, d: int)
    ensures d in Postings(docs, t) <==> 1 <= d <= |docs| && t in docs[d - 1]
    decreases |docs|
  {
    if docs != [] {
      var p := DropLast(docs);
      PostingsIff(p, t, d);
      if 1 <= d < |docs| {
        assert p[d - 1] == docs[d - 1];
      }
    }
  }

  /** A token is in the index exactly when its posting set is non-empty. */
  lemma {:induction false} PostingsNonEmpty(docs: seq<set<string>>, t: string)
    ensures t in Union(docs) <==> Postings(docs, t) != {}
    decreases |docs|
  {
    if docs != [] {
      PostingsNonEmpty(DropLast(docs), t);
    }
  }

  /** The index after adding document `d` whose tokens are `ts`. */
  function AddDocument(m: map<string, set<int>>, ts: set<string>, d: int): map<string, set<int>> {
    map t | t in m.Keys + ts :: (if t in m then m[t] else {}) + (if t in ts then {d} else {})
  }

  /** Reading one more text adds its number to the posting sets of its tokens. */
  lemma IndexSnoc(docs: seq<set<string>>, ts: set<string>)
    ensures Index(docs + [ts]) == AddDocument(Index(docs), ts, |docs| + 1)
  {
    var docs' := docs + [ts];
    assert DropLast(docs') == docs && Last(docs') == ts;
    forall t | t !in Union(docs)
      ensures Postings(docs, t) == {}
    {
      PostingsNonEmpty(docs, t);
    }
  }

  lemma IndexPrefix(docs: seq<set<string>>, i: nat)
    requires i < |docs|
    ensures Index(docs[..i + 1]) == AddDocument(Index(docs[..i]), docs[i], i + 1)
  {
    IndexSnoc(docs[..i], docs[i]);
    assert docs[..i + 1] == docs[..i] + [docs[i]];
  }

  lemma AddNothing(m: map<string, set<int>>, d: int)
    ensures AddDocument(m, {}, d) == m
  {
    var a := AddDocument(m, {}, d);
    assert a.Keys == m.Keys;
    forall t | t in m
      ensures a[t] == m[t]
    {
      assert m[t] + {} == m[t];
    }
  }

  /** `{d}` for a token seen for the first time, its set with `d` added otherwise. */
  function NewPostings(tokens: Dict<string, set<int>>, token: string, d: int): set<int> {
    if token !in tokens.vals then {d} else tokens.vals[token] + {d}
  }

  /** The collection dictionary after the tokens in `done` of document `d`
      have been added to `m`. */
  ghost predicate Collected(tokens: Dict<string, set<int>>, m: map<string, set<int>>, done: set<string>, d: int) {
    tokens.Valid() && tokens.vals == AddDocument(m, done, d)
  }

  /** One pass of the inner loop of `tokenize_collection`: a token seen for
      the first time gets the set holding only the document's number; a known
      token gets the number added to its set. */
  lemma CollectStep(tokens: Dict<string, set<int>>, m: map<string, set<int>>, done: set<string>, token: string, d: int)
    requires Collected(tokens, m, done, d) && token !in done
    ensures Collected(Put(tokens, token, NewPostings(tokens, token, d)), m, done + {token}, d)
  {
    AddDocumentPut(tokens.vals, m, done, token, d);
  }

  lemma AddDocumentPut(a: map<string, set<int>>, m: map<string, set<int>>, done: set<string>, token: string, d: int)
    requires a == AddDocument(m, done, d) && token !in done
    ensures token !in a ==> a[token := {d}] == AddDocument(m, done + {token}, d)
    ensures token in a ==> a[token := a[token] + {d}] == AddDocument(m, done + {token}, d)
  {
    var b := AddDocument(m, done + {token}, d);
    var v := if token in a then a[token] + {d} else {d};
    assert b.Keys == a[token := v].Keys;
    forall t | t in b.Keys
      ensures b[t] == a[token := v][t]
    {
      AddDocumentEntry(m, done, token, d, t);
    }
    assert a[token := v] == b;
  }

  /** One key of the index after one more token of document `d`. */
  lemma AddDocumentEntry(m: map<string, set<int>>, done: set<string>, token: string, d: int, t: string)
    requires token !in done && t in m.Keys + (done + {token})
    ensures var a, b := AddDocument(m, done, d), AddDocument(m, done + {token}, d);
      && (t != token ==> t in a && b[t] == a[t])
      && (t == token && token in a ==> b[t] == a[token] + {d})
      && (t == token && token !in a ==> b[t] == {d})
  {
  }

  /** Every page has a text: `clean_html` found a `<body>` in each. */
  predicate AllBodies(texts: seq<Option<string>>) {
    forall i :: 0 <= i < |texts| ==> texts[i].Some?
  }

  /** The texts of pages that all have one, in page order. */
  function Bodies(texts: seq<Option<string>>): (r: seq<string>)
    requires AllBodies(texts)
    ensures |r| == |texts|
    ensures forall i :: 0 <= i < |texts| ==> texts[i] == Some(r[i])
  {
    seq(|texts|, i requires 0 <= i < |texts| => texts[i].value)
  }

  /** Token sets computed page by page are the token sets of the texts. */
  lemma TokenSetsOf(texts: seq<Option<string>>, docs: seq<set<string>>, words: set<string>)
    requires |docs| == |texts| && MappedSoFar(texts, docs, t => Tokenize(t, words))
    ensures AllBodies(texts) && docs == TokenSets(Bodies(texts), words)
  {
  }

  /** `docs` holds `f` of the text of each of the first pages, and those pages have one. */
  ghost predicate MappedSoFar<T>(texts: seq<Option<string>>, docs: seq<T>, f: string -> T) {
    |docs| <= |texts| && forall k :: 0 <= k < |docs| ==> texts[k].Some? && docs[k] == f(texts[k].value)
  }

  lemma MappedSoFarSnoc<T>(texts: seq<Option<string>>, docs: seq<T>, f: string -> T, x: T)
    requires MappedSoFar(texts, docs, f) && |docs| < |texts|
    requires texts[|docs|].Some? && x == f(texts[|docs|].value)
    ensures MappedSoFar(texts, docs + [x], f)
  {
    var more := docs + [x];
    forall k | 0 <= k < |more|
      ensures texts[k].Some? && more[k] == f(texts[k].value)
    {
      if k < |docs| {
        assert more[k] == docs[k];
      }
    }
  }

  /** `tokenize_collection`: each document's token set, visited in an
      arbitrary order, adds the document's number to the posting set of each
      of its tokens; a new token gets a set of its own. A page without a
      `<body>` has the text `None`, on which `tokenize` raises, so the whole
      run fails. */
  method TokenizeCollection(texts: seq<Option<string>>, words: set<string>) returns (r: Result<Dict<string, set<int>>, string>)
    ensures r.Ok? <==> AllBodies(texts)
    ensures r.Ok? ==> r.value.Valid() && r.value.vals == Index(TokenSets(Bodies(texts), words))
  {
    var tokens := Empty();
    ghost var docs: seq<set<string>> := [];
    for i := 0 to |texts|
      invariant |docs| == i && MappedSoFar(texts, docs, t => Tokenize(t, words))
      invariant tokens.Valid() && tokens.vals == Index(docs)
    {
      if texts[i].None? {
        return Err("'NoneType' object has no attribute 'lower'");
      }
      var tokenSet := Tokenize(texts[i].value, words);
      tokens := AddTokens(tokens, tokenSet, i + 1);
      IndexSnoc(docs, tokenSet);
      MappedSoFarSnoc(texts, docs, t => Tokenize(t, words), tokenSet);
      docs := docs + [tokenSet];
    }
    TokenSetsOf(texts, docs, words);
    return Ok(tokens);
  }

  /** The inner loop of `tokenize_collection` for document `d`. */
  method AddTokens(tokens: Dict<string, set<int>>, tokenSet: set<string>, d: int) returns (r: Dict<string, set<int>>)
    requires tokens.Valid()
    ensures Collected(r, tokens.vals, tokenSet, d)
  {
    var order := SetToList(tokenSet);
    r := tokens;
    AddNothing(tokens.vals, d);
    for k := 0 to |order|
      invariant Collected(r, tokens.vals, Members(order[..k]), d)
    {
      var token := order[k];
      MembersSnoc(order, k);
      assert token !in Members(order[..k]);
      CollectStep(r, tokens.vals, Members(order[..k]), token, d);
      r := Put(r, token, NewPostings(r, token, d));
    }
    assert order[..|order|] == order;
    assert Members(order) == tokenSet;
  }

  /** The elements of a list, as a set. */
  function Members(s: seq<string>): set<string> {
    set w | w in s
  }

  lemma MembersSnoc(s: seq<string>, k: nat)
    requires k < |s|
    ensures Members(s[..k + 1]) == Members(s[..k]) + {s[k]}
  {
    assert s[..k + 1] == s[..k] + [s[k]];
  }

  /** `r` is `tokens` with the keys in `drop` deleted. */
  ghost predicate Removed<V>(tokens: Dict<string, V>, r: Dict<string, V>, drop: set<string>) {
    && r.Valid()
    && r.keys == RemoveAll(tokens.keys, drop)
    && r.vals == tokens.vals - drop
  }

  /** One pass of the deletion loop. */
  lemma RemoveStep<V>(tokens: Dict<string, V>, r: Dict<string, V>, drop: set<string>, word: string)
    requires tokens.Valid() && Removed(tokens, r, drop)
    ensures word in r.vals ==> Removed(tokens, Delete(r, word), drop + {word})
    ensures word !in r.vals ==> Removed(tokens, r, drop + {word})
  {
    RemoveAllMore(tokens.keys, drop, word);
    MinusMore(tokens.vals, drop, word);
    if word !in r.vals {
      RemoveAllNone(r.keys, {word});
      assert r.vals - {word} == r.vals;
    }
  }

  /** Deleting one more key from a map with keys already deleted. */
  lemma MinusMore<V>(m: map<string, V>, drop: set<string>, word: string)
    ensures (m - drop) - {word} == m - (drop + {word})
  {
  }

  /** `remove_stopwords`: every stopword that is a key is deleted; the other
      keys keep their order and their posting sets. */
  method RemoveStopwords<V>(tokens: Dict<string, V>, stopwords: seq<string>) returns (r: Dict<string, V>)
    requires tokens.Valid()
    ensures r.Valid()
    ensures r.keys == RemoveAll(tokens.keys, Members(stopwords))
    ensures r.vals == tokens.vals - Members(stopwords)
  {
    r := tokens;
    RemoveAllNone(tokens.keys, {});
    assert Members(stopwords[..0]) == {};
    for k := 0 to |stopwords|
      invariant Removed(tokens, r, Members(stopwords[..k]))
    {
      var word := stopwords[k];
      RemoveStep(tokens, r, Members(stopwords[..k]), word);
      MembersSnoc(stopwords, k);
      if word in r.vals {
        r := Delete(r, word);
      }
    }
    assert stopwords[..|stopwords|] == stopwords;
  }

  /** What the grouping loop has built in `lemmas` after visiting `done`:
      the lemmas in order of first appearance, each with the set of tokens
      that produced it. */
  ghost predicate FormsSoFar(lemmas: Dict<string, set<string>>, done: seq<Pair>) {
    && lemmas.Valid()
    && lemmas.keys == Dedup(Bases(done))
    && (forall l :: l in lemmas.vals ==> lemmas.vals[l] == Forms(done, l))
  }

  /** What the grouping loop has built in `pages` after visiting `done`: the
      same lemmas, each with the posting set of its first producer. */
  ghost predicate PagesSoFar(tokens: Dict<string, set<int>>, pages: Dict<string, set<int>>, done: seq<Pair>) {
    && pages.Valid()
    && pages.keys == Dedup(Bases(done))
    && (forall l :: l in pages.vals ==>
          l in Bases(done) && FirstProducer(done, l) in tokens.vals && pages.vals[l] == tokens.vals[FirstProducer(done, l)])
  }

  /** One pass of the inner loop of `get_lemmas`, on the forms. */
  lemma FormsStep(lemmas: Dict<string, set<string>>, done: seq<Pair>, p: Pair)
    requires FormsSoFar(lemmas, done)
    ensures p.base !in lemmas.vals ==> FormsSoFar(Put(lemmas, p.base, {p.token}), done + [p])
    ensures p.base in lemmas.vals ==> FormsSoFar(Put(lemmas, p.base, lemmas.vals[p.base] + {p.token}), done + [p])
  {
    BasesSnoc(done, p);
    DedupSnoc(Bases(done), p.base);
    var r := Put(lemmas, p.base, FormsAdded(lemmas, p));
    forall l | l in r.vals
      ensures r.vals[l] == Forms(done + [p], l)
    {
      FormsEntry(lemmas, done, p, l);
    }
  }

  /** The forms of `p`'s lemma once `p`'s token is added to them. */
  function FormsAdded(lemmas: Dict<string, set<string>>, p: Pair): set<string> {
    if p.base in lemmas.vals then lemmas.vals[p.base] + {p.token} else {p.token}
  }

  /** The forms of one lemma after one more pair. */
  lemma FormsEntry(lemmas: Dict<string, set<string>>, done: seq<Pair>, p: Pair, l: string)
    requires FormsSoFar(lemmas, done) && (l in lemmas.vals || l == p.base)
    ensures lemmas.vals[p.base := FormsAdded(lemmas, p)][l] == Forms(done + [p], l)
  {
    FormsSnoc(done, p, l);
    if l != p.base {
      assert lemmas.vals[p.base := FormsAdded(lemmas, p)][l] == lemmas.vals[l];
    } else if p.base in lemmas.vals {
      assert FormsAdded(lemmas, p) == Forms(done, l) + {p.token};
    } else {
      FormsNone(lemmas, done, l);
      assert FormsAdded(lemmas, p) == {p.token};
    }
  }

  /** A lemma not built yet has no forms so far. */
  lemma FormsNone(lemmas: Dict<string, set<string>>, done: seq<Pair>, l: string)
    requires FormsSoFar(lemmas, done) && l !in lemmas.vals
    ensures Forms(done, l) == {}
  {
    FormsProducers(done, l);
    ProducersMembers(done, l);
    assert l !in Bases(done);
  }

  /** The first producers of the lemmas seen so far stay what they were. */
  lemma PagesKept(tokens: Dict<string, set<int>>, pages: Dict<string, set<int>>, done: seq<Pair>, p: Pair)
    requires PagesSoFar(tokens, pages, done)
    ensures forall l :: l in pages.vals ==>
      l in Bases(done + [p]) && FirstProducer(done + [p], l) == FirstProducer(done, l)
  {
    forall l | l in pages.vals
      ensures l in Bases(done + [p]) && FirstProducer(done + [p], l) == FirstProducer(done, l)
    {
      FirstProducerSnoc(done, p, l);
    }
  }

  /** A pair with a new lemma: the lemma gets the posting set of the token. */
  lemma PagesStepNew(tokens: Dict<string, set<int>>, pages: Dict<string, set<int>>, done: seq<Pair>, p: Pair)
    requires PagesSoFar(tokens, pages, done) && p.token in tokens.vals && p.base !in pages.vals
    ensures PagesSoFar(tokens, Put(pages, p.base, tokens.vals[p.token]), done + [p])
  {
    BasesSnoc(done, p);
    DedupSnoc(Bases(done), p.base);
    var r := Put(pages, p.base, tokens.vals[p.token]);
    forall l | l in r.vals
      ensures l in Bases(done + [p]) && FirstProducer(done + [p], l) in tokens.vals
      ensures r.vals[l] == tokens.vals[FirstProducer(done + [p], l)]
    {
      PagesEntryNew(tokens, pages, done, p, l);
    }
  }

  /** The posting set of one lemma after a pair with a new lemma. */
  lemma PagesEntryNew(tokens: Dict<string, set<int>>, pages: Dict<string, set<int>>, done: seq<Pair>, p: Pair, l: string)
    requires PagesSoFar(tokens, pages, done) && p.token in tokens.vals && p.base !in pages.vals
    requires l in pages.vals || l == p.base
    ensures l in Bases(done + [p]) && FirstProducer(done + [p], l) in tokens.vals
    ensures pages.vals[p.base := tokens.vals[p.token]][l] == tokens.vals[FirstProducer(done + [p], l)]
  {
    BasesSnoc(done, p);
    if l == p.base {
      ProducersMembers(done, p.base);
      ProducersSnoc(done, p, p.base);
      assert Producers(done + [p], p.base) == [p.token];
    } else {
      FirstProducerSnoc(done, p, l);
    }
  }

  /** A pair with a known lemma leaves the posting sets as they are. */
  lemma PagesStepKnown(tokens: Dict<string, set<int>>, pages: Dict<string, set<int>>, done: seq<Pair>, p: Pair)
    requires PagesSoFar(tokens, pages, done) && p.base in pages.vals
    ensures PagesSoFar(tokens, pages, done + [p])
  {
    BasesSnoc(done, p);
    DedupSnoc(Bases(done), p.base);
    PagesKept(tokens, pages, done, p);
  }

  /** The weight the lemma dictionary is sorted by: the number of forms. */
  function FormCount(lemmas: Dict<string, set<string>>): string -> int {
    l => if l in lemmas.vals then |lemmas.vals[l]| else 0
  }

  /** `get_lemmas`: each token, in key order, is lemmatized for the five parts
      of speech in turn. A new lemma gets the token as its only form and the
      token's own posting set; a known lemma gains the token as a form, while
      its posting set stays that of its first producer, since the result of
      the `union` is discarded. The lemma dictionary is then sorted stably by
      non-increasing number of forms. */
  method GetLemmas(tokens: Dict<string, set<int>>, lemmatize: (string, string) -> string)
    returns (lemmas: Dict<string, set<string>>, lemmaPages: Dict<string, set<int>>)
    requires tokens.Valid()
    ensures var pairs := PairsOf(tokens.keys, lemmatize);
      && lemmas.Valid() && lemmaPages.Valid()
      && lemmaPages.keys == Dedup(Bases(pairs))
      && multiset(lemmas.keys) == multiset(lemmaPages.keys)
      && (forall l :: l in lemmas.vals ==> lemmas.vals[l] == Forms(pairs, l))
      && (forall l :: l in lemmaPages.vals ==>
            l in Bases(pairs) && FirstProducer(pairs, l) in tokens.vals && lemmaPages.vals[l] == tokens.vals[FirstProducer(pairs, l)])
    ensures NonIncreasing(lemmas.keys, FormCount(lemmas))
    ensures forall k :: OfWeight(lemmas.keys, FormCount(lemmas), k) == OfWeight(lemmaPages.keys, FormCount(lemmas), k)
  {
    var groups: Dict<string, set<string>> := Empty();
    lemmaPages := Empty();
    for i := 0 to |tokens.keys|
      invariant FormsSoFar(groups, PairsOf(tokens.keys[..i], lemmatize))
      invariant PagesSoFar(tokens, lemmaPages, PairsOf(tokens.keys[..i], lemmatize))
    {
      groups, lemmaPages := GroupToken(tokens, groups, lemmaPages, PairsOf(tokens.keys[..i], lemmatize), tokens.keys[i], lemmatize);
      PairsOfSnoc(tokens.keys, i, lemmatize);
    }
    assert tokens.keys[..|tokens.keys|] == tokens.keys;
    lemmas := SortByWeight(groups, FormCount(groups));
  }

  /** The inner loop of `get_lemmas` for one token: its five lemmas in turn. */
  method GroupToken(tokens: Dict<string, set<int>>, groups: Dict<string, set<string>>, pages: Dict<string, set<int>>,
                    ghost done: seq<Pair>, token: string, lemmatize: (string, string) -> string)
    returns (groups': Dict<string, set<string>>, pages': Dict<string, set<int>>)
    requires FormsSoFar(groups, done) && PagesSoFar(tokens, pages, done) && token in tokens.vals
    ensures FormsSoFar(groups', done + TokenPairs(token, lemmatize))
    ensures PagesSoFar(tokens, pages', done + TokenPairs(token, lemmatize))
  {
    groups', pages' := groups, pages;
    var tokenPages := tokens.vals[token];
    ghost var visited := done;
    for j := 0 to |PartsOfSpeech|
      invariant visited == done + TokenPairs(token, lemmatize)[..j]
      invariant FormsSoFar(groups', visited) && PagesSoFar(tokens, pages', visited)
    {
      var tokenLemma := lemmatize(token, PartsOfSpeech[j]);
      FormsStep(groups', visited, Pair(token, tokenLemma));
      if tokenLemma !in groups'.vals {
        PagesStepNew(tokens, pages', visited, Pair(token, tokenLemma));
        groups' := Put(groups', tokenLemma, {token});
        pages' := Put(pages', tokenLemma, tokenPages);
      } else {
        PagesStepKnown(tokens, pages', visited, Pair(token, tokenLemma));
        groups' := Put(groups', tokenLemma, groups'.vals[tokenLemma] + {token});
      }
      PrefixSnoc(done, TokenPairs(token, lemmatize), j);
      visited := visited + [Pair(token, tokenLemma)];
    }
    assert TokenPairs(token, lemmatize)[..|PartsOfSpeech|] == TokenPairs(token, lemmatize);
  }

  /** Every token is among the forms of each of its five lemmas, and a lemma
      is in the dictionary exactly when some token produces it. */
  lemma LemmaForms(tokens: Dict<string, set<int>>, lemmatize: (string, string) -> string, t: string, l: string)
    ensures t in Forms(PairsOf(tokens.keys, lemmatize), l) <==>
      t in tokens.keys && exists j :: 0 <= j < |PartsOfSpeech| && l == lemmatize(t, PartsOfSpeech[j])
    ensures l in Bases(PairsOf(tokens.keys, lemmatize)) <==>
      exists t :: t in tokens.keys && exists j :: 0 <= j < |PartsOfSpeech| && l == lemmatize(t, PartsOfSpeech[j])
  {
    var pairs := PairsOf(tokens.keys, lemmatize);
    ProducedBy(tokens.keys, lemmatize, t, l);
    FormsProducers(pairs, l);
    ProducersMembers(pairs, l);
    if l in Bases(pairs) {
      var t' := Producers(pairs, l)[0];
      ProducedBy(tokens.keys, lemmatize, t', l);
    }
    forall t' | t' in tokens.keys && exists j :: 0 <= j < |PartsOfSpeech| && l == lemmatize(t', PartsOfSpeech[j])
      ensures l in Bases(pairs)
    {
      ProducedBy(tokens.keys, lemmatize, t', l);
    }
  }

  /** The first producer of a lemma is the earliest token, in key order, that
      the lemmatizer maps to it: whenever token `k` produces `l` for some part
      of speech, the first producer sits at position `k` or before, so the
      pages of later tokens never reach the lemma. */
  lemma FirstProducerEarliest(tokens: seq<string>, lemmatize: (string, string) -> string, l: string, k: nat, j: nat)
    requires k < |tokens| && j < |PartsOfSpeech| && lemmatize(tokens[k], PartsOfSpeech[j]) == l
    ensures l in Bases(PairsOf(tokens, lemmatize))
    ensures FirstProducer(PairsOf(tokens, lemmatize), l) in tokens
    ensures FirstIndex(tokens, FirstProducer(PairsOf(tokens, lemmatize), l)) <= k
  {
    EarlierProducer(tokens, lemmatize, l, k, j);
    var f := FirstProducer(PairsOf(tokens, lemmatize), l);
    var m :| 0 <= m <= k && tokens[..k + 1][m] == f;
    assert tokens[m] == f;
  }

  /** If token `k` produces `l`, the first producer is at position `k` or before. */
  lemma {:induction false} EarlierProducer(tokens: seq<string>, lemmatize: (string, string) -> string, l: string, k: nat, j: nat)
    requires k < |tokens| && j < |PartsOfSpeech| && lemmatize(tokens[k], PartsOfSpeech[j]) == l
    ensures l in Bases(PairsOf(tokens, lemmatize))
    ensures FirstProducer(PairsOf(tokens, lemmatize), l) in tokens[..k + 1]
    decreases |tokens|
  {
    var pairs := PairsOf(tokens, lemmatize);
    var q := DropLast(tokens);
    PairsOfMembers(tokens, lemmatize, Pair(tokens[k], l));
    assert tokens[k] in tokens;
    ProducersMembers(pairs, l);
    assert PairsOf(tokens, lemmatize) == PairsOf(q, lemmatize) + TokenPairs(Last(tokens), lemmatize);
    if k < |q| {
      assert q[k] == tokens[k];
      EarlierProducer(q, lemmatize, l, k, j);
      FirstProducerAppend(PairsOf(q, lemmatize), TokenPairs(Last(tokens), lemmatize), l);
      assert q[..k + 1] == tokens[..k + 1];
    } else {
      var f := FirstProducer(pairs, l);
      PairsOfMembers(tokens, lemmatize, Pair(f, l));
      assert tokens[..k + 1] == tokens;
    }
  }

  /** Appending pairs keeps the first producer of a lemma already present. */
  lemma {:induction false} FirstProducerAppend(pairs: seq<Pair>, more: seq<Pair>, l: string)
    requires l in Bases(pairs)
    ensures l in Bases(pairs + more) && FirstProducer(pairs + more, l) == FirstProducer(pairs, l)
    decreases |more|
  {
    if more == [] {
      assert pairs + more == pairs;
    } else {
      FirstProducerAppend(pairs, DropLast(more), l);
      FirstProducerSnoc(pairs + DropLast(more), Last(more), l);
      assert pairs + DropLast(more) + [Last(more)] == pairs + more;
    }
  }

  /** One record of the index file. */
  datatype Record = Record(count: nat, invertedArray: seq<int>, word: string)

  /** `create_index`: one record per lemma, in dictionary order, listing
      exactly the lemma's posting set, with `count` its length. */
  method CreateIndex(lemmaPages: Dict<string, set<int>>) returns (records: seq<Record>)
    requires lemmaPages.Valid()
    ensures |records| == |lemmaPages.keys|
    ensures forall i :: 0 <= i < |records| ==>
      var r, pages := records[i], lemmaPages.vals[lemmaPages.keys[i]];
      && r.word == lemmaPages.keys[i]
      && r.count == |r.invertedArray| == |pages|
      && Distinct(r.invertedArray)
      && (forall d :: d in r.invertedArray <==> d in pages)
  {
    records := [];
    for i := 0 to |lemmaPages.keys|
      invariant |records| == i
      invariant forall k :: 0 <= k < i ==>
        var r, pages := records[k], lemmaPages.vals[lemmaPages.keys[k]];
        && r.word == lemmaPages.keys[k]
        && r.count == |r.invertedArray| == |pages|
        && Distinct(r.invertedArray)
        && (forall d :: d in r.invertedArray <==> d in pages)
    {
      var key := lemmaPages.keys[i];
      var value := lemmaPages.vals[key];
      var invertedArray := SetToList(value);
      records := records + [Record(|value|, invertedArray, key)];
    }
  }
}
