/** What the lemma-grouping loops of the vocabulary and index stages compute
    from the (token, lemma) pairs they visit: which lemmas appear, in which
    order, and which tokens produced each of them. */
module LemmaGroups {
  import opened Seqs
  import opened Normalize

  /** The lemma of each visited pair, in visiting order. */
  function Bases(pairs: seq<Pair>): (r: seq<string>)
    ensures |r| == |pairs|
    ensures forall i :: 0 <= i < |pairs| ==> r[i] == pairs[i].base
  {
    seq(|pairs|, i requires 0 <= i < |pairs| => pairs[i].base)
  }

  lemma BasesSnoc(pairs: seq<Pair>, p: Pair)
    ensures Bases(pairs + [p]) == Bases(pairs) + [p.base]
  {
  }

  /** The tokens whose pairs produced lemma `l`, in visiting order and with repeats. */
  function Producers(pairs: seq<Pair>, l: string): (r: seq<string>)
    ensures |r| <= |pairs|
    decreases |pairs|
  {
    if pairs == [] then []
    else Producers(DropLast(pairs), l) + (if Last(pairs).base == l then [Last(pairs).token] else [])
  }

  lemma ProducersSnoc(pairs: seq<Pair>, p: Pair, l: string)
    ensures Producers(pairs + [p], l) == Producers(pairs, l) + (if p.base == l then [p.token] else [])
  {
    assert DropLast(pairs + [p]) == pairs && Last(pairs + [p]) == p;
  }

  /** A token produced `l` exactly when the pair (token, `l`) was visited,
      and `l` was produced at all exactly when it is one of the lemmas. */
  lemma {:induction false} ProducersMembers(pairs: seq<Pair>, l: string)
    ensures forall t :: t in Producers(pairs, l) <==> Pair(t, l) in pairs
    ensures Producers(pairs, l) != [] <==> l in Bases(pairs)
    decreases |pairs|
  {
    if pairs != [] {
      var q, p := DropLast(pairs), Last(pairs);
      ProducersMembers(q, l);
      DropLastLast(pairs);
      BasesSnoc(q, p);
      assert forall x :: x in pairs <==> x in q || x == p;
      if Producers(q, l) != [] {
        var i :| 0 <= i < |Bases(q)| && Bases(q)[i] == l;
        assert Bases(pairs)[i] == l;
      }
    }
  }

  /** The set of forms of `l`, as the index stage keeps them. */
  function Forms(pairs: seq<Pair>, l: string): set<string>
    decreases |pairs|
  {
    if pairs == [] then {}
    else Forms(DropLast(pairs), l) + (if Last(pairs).base == l then {Last(pairs).token} else {})
  }

  lemma FormsSnoc(pairs: seq<Pair>, p: Pair, l: string)
    ensures Forms(pairs + [p], l) == Forms(pairs, l) + (if p.base == l then {p.token} else {})
  {
    assert DropLast(pairs + [p]) == pairs && Last(pairs + [p]) == p;
  }

  /** The forms of `l` are the tokens that produced it. */
  lemma {:induction false} FormsProducers(pairs: seq<Pair>, l: string)
    ensures forall t :: t in Forms(pairs, l) <==> t in Producers(pairs, l)
    decreases |pairs|
  {
    if pairs != [] {
      FormsProducers(DropLast(pairs), l);
    }
  }

  /** The token of the first visited pair that produced `l`. */
  function FirstProducer(pairs: seq<Pair>, l: string): (t: string)
    requires l in Bases(pairs)
    ensures Pair(t, l) in pairs
  {
    ProducersMembers(pairs, l);
    var t := Producers(pairs, l)[0];
    assert t in Producers(pairs, l);
    t
  }

  /** The first producer of a lemma does not change once it exists. */
  lemma FirstProducerSnoc(pairs: seq<Pair>, p: Pair, l: string)
    requires l in Bases(pairs)
    ensures l in Bases(pairs + [p]) && FirstProducer(pairs + [p], l) == FirstProducer(pairs, l)
  {
    BasesSnoc(pairs, p);
    ProducersSnoc(pairs, p, l);
    ProducersMembers(pairs, l);
  }

  /** Over the pairs of a token list, a token produced `l` exactly when it is
      one of the tokens and the lemmatizer maps it to `l` for one of the five
      parts of speech. */
  lemma ProducedBy(tokens: seq<string>, lemmatize: (string, string) -> string, t: string, l: string)
    ensures t in Producers(PairsOf(tokens, lemmatize), l) <==>
      t in tokens && exists j :: 0 <= j < |PartsOfSpeech| && l == lemmatize(t, PartsOfSpeech[j])
  {
    ProducersMembers(PairsOf(tokens, lemmatize), l);
    PairsOfMembers(tokens, lemmatize, Pair(t, l));
  }

  /** The pairs of one more token are those of the earlier tokens followed by its five. */
  lemma PairsOfSnoc(tokens: seq<string>, i: nat, lemmatize: (string, string) -> string)
    requires i < |tokens|
    ensures PairsOf(tokens[..i + 1], lemmatize) == PairsOf(tokens[..i], lemmatize) + TokenPairs(tokens[i], lemmatize)
  {
    assert DropLast(tokens[..i + 1]) == tokens[..i] && Last(tokens[..i + 1]) == tokens[i];
  }
}
