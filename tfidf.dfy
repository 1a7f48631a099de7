/** The weighting stage: per-document token counts, per-document lemma
    counts (a lemma counts the occurrences of its forms), the number of
    retained words of each document, and the tf-idf lines written for every
    document, once from the token counts and once from the lemma counts. */
module TfIdf {
  import opened Wrappers
  import opened Seqs
  import opened Dicts
  import opened Normalize

  /** `tokenize_with_count`: the retained chunks of the text counted in a
      dictionary, keys in order of first occurrence. */
  method TokenizeWithCount(text: string, words: set<string>) returns (counts: Dict<string, nat>)
    ensures counts == Counts(Retained(text, words))
  {
    var chunks := Retained(text, words);
    counts := CountOccurrences(chunks);
  }

  /** The token counts of a text: its retained chunks once each, in order of
      first occurrence, each a dictionary word of two or more characters
      mapped to its number of occurrences; the counts add up to the number
      of retained chunks. */
  lemma TokenCountsMeaning(text: string, words: set<string>)
    ensures var counts := Counts(Retained(text, words));
      && counts.Valid() && counts.keys == Dedup(Retained(text, words))
      && (forall k :: k in counts.vals ==> k in words && |k| > 1)
      && (forall k :: k in counts.vals ==> counts.vals[k] == Count(Retained(text, words), k) && counts.vals[k] >= 1)
      && SumValues(counts) == |Retained(text, words)|
  {
    CountsAre(Retained(text, words));
    CountsSum(Retained(text, words));
  }

  /** The token counts of every document, as the counting stage builds them. */
  function TokenCounts(texts: seq<string>, words: set<string>): (r: seq<Dict<string, nat>>)
    ensures |r| == |texts|
    ensures forall i :: 0 <= i < |texts| ==> r[i] == Counts(Retained(texts[i], words))
  {
    seq(|texts|, i requires 0 <= i < |texts| => Counts(Retained(texts[i], words)))
  }

  /** `count_tokens`: one count dictionary per text, in text order. */
  method CountTokens(texts: seq<string>, words: set<string>) returns (dicts: seq<Dict<string, nat>>)
    ensures dicts == TokenCounts(texts, words)
  {
    dicts := [];
    for i := 0 to |texts|
      invariant dicts == TokenCounts(texts[..i], words)
    {
      var counts := TokenizeWithCount(texts[i], words);
      TokenCountsPrefix(texts, words, i);
      dicts := dicts + [counts];
    }
    assert texts[..|texts|] == texts;
  }

  lemma TokenCountsPrefix(texts: seq<string>, words: set<string>, i: nat)
    requires i < |texts|
    ensures TokenCounts(texts[..i + 1], words) == TokenCounts(texts[..i], words) + [Counts(Retained(texts[i], words))]
  {
    var a := TokenCounts(texts[..i + 1], words);
    var b := TokenCounts(texts[..i], words) + [Counts(Retained(texts[i], words))];
    assert |a| == |b|;
    forall k | 0 <= k < |a|
      ensures a[k] == b[k]
    {
      assert texts[..i + 1][k] == texts[k];
    }
  }

  /** The occurrences of a lemma's forms in one document: the counts of the
      forms present, a form listed twice counted twice. */
  function FormSum(forms: seq<string>, counts: map<string, nat>): nat
    decreases |forms|
  {
    if forms == [] then 0
    else FormSum(DropLast(forms), counts) + (if Last(forms) in counts then counts[Last(forms)] else 0)
  }

  /** With positive counts, a lemma scores zero exactly when none of its forms occurs. */
  lemma {:induction false} FormSumZero(forms: seq<string>, counts: map<string, nat>)
    requires forall k :: k in counts ==> counts[k] >= 1
    ensures FormSum(forms, counts) == 0 <==> forall f :: f in forms ==> f !in counts
    decreases |forms|
  {
    if forms != [] {
      FormSumZero(DropLast(forms), counts);
      DropLastLast(forms);
    }
  }

  /** Counts of forms that are not listed do not matter. */
  lemma {:induction false} FormSumPointwise(forms: seq<string>, a: map<string, nat>, b: map<string, nat>)
    requires forall f :: f in forms ==> (f in a <==> f in b) && (f in a ==> a[f] == b[f])
    ensures FormSum(forms, a) == FormSum(forms, b)
    decreases |forms|
  {
    if forms != [] {
      FormSumPointwise(DropLast(forms), a, b);
    }
  }

  /** Forms listed without repeats count at most all the words of the document. */
  lemma {:induction false} FormSumBound(forms: seq<string>, keys: seq<string>, vals: map<string, nat>)
    requires Distinct(forms) && Distinct(keys)
    requires forall k :: k in keys ==> k in vals
    requires forall f :: f in forms && f in vals ==> f in keys
    ensures FormSum(forms, vals) <= SumOver(keys, vals)
    decreases |forms|
  {
    if forms != [] {
      var f, rest := Last(forms), DropLast(forms);
      DropLastLast(forms);
      assert f !in rest;
      if f in vals {
        var vals' := vals[f := 0];
        FormSumBound(rest, keys, vals');
        FormSumPointwise(rest, vals, vals');
        SumOverUpdate(keys, vals, f, 0);
      } else {
        FormSumBound(rest, keys, vals);
      }
    }
  }

  /** The inner loop of `count_lemma_forms` over one lemma's forms. */
  method CountForms(forms: seq<string>, counts: Dict<string, nat>) returns (count: nat)
    ensures count == FormSum(forms, counts.vals)
  {
    count := 0;
    for k := 0 to |forms|
      invariant count == FormSum(forms[..k], counts.vals)
    {
      assert DropLast(forms[..k + 1]) == forms[..k] && Last(forms[..k + 1]) == forms[k];
      if forms[k] in counts.vals {
        count := count + counts.vals[forms[k]];
      }
    }
    assert forms[..|forms|] == forms;
  }

  /** The test a lemma passes to be counted in a document: it scores. */
  function Scores(forms: map<string, seq<string>>, counts: map<string, nat>): string -> bool {
    l => l in forms && FormSum(forms[l], counts) != 0
  }

  /** The lemma counts of one document for the lemmas listed in `lemmas`, in
      that order, leaving out the lemmas that score zero. */
  function LemmaCounts(lemmas: seq<string>, forms: map<string, seq<string>>, counts: map<string, nat>): (r: Dict<string, nat>)
    requires forall l :: l in lemmas ==> l in forms
    ensures r.Valid()
    ensures forall l :: l in r.vals <==> l in lemmas && FormSum(forms[l], counts) != 0
    ensures forall l :: l in r.vals ==> r.vals[l] == FormSum(forms[l], counts)
    decreases |lemmas|
  {
    if lemmas == [] then Empty()
    else
      var l := Last(lemmas);
      var prev := LemmaCounts(DropLast(lemmas), forms, counts);
      DropLastLast(lemmas);
      var c := FormSum(forms[l], counts);
      if c != 0 then Put(prev, l, c) else prev
  }

  /** For a lemma list without repeats, the counted lemmas keep the list's order. */
  lemma {:induction false} LemmaCountsOrder(lemmas: seq<string>, forms: map<string, seq<string>>, counts: map<string, nat>)
    requires forall l :: l in lemmas ==> l in forms
    requires Distinct(lemmas)
    ensures LemmaCounts(lemmas, forms, counts).keys == Filter(lemmas, Scores(forms, counts))
    decreases |lemmas|
  {
    if lemmas != [] {
      var l := Last(lemmas);
      DropLastLast(lemmas);
      LemmaCountsOrder(DropLast(lemmas), forms, counts);
      FilterSnoc(DropLast(lemmas), l, Scores(forms, counts));
    }
  }

  lemma FilterSnoc<T(!new)>(s: seq<T>, x: T, p: T -> bool)
    ensures Filter(s + [x], p) == Filter(s, p) + (if p(x) then [x] else [])
  {
    FilterAppend(s, [x], p);
    assert Filter([x], p) == (if p(x) then [x] else []) + Filter([], p);
  }

  /** The lemma counts of one document, for a lemma dictionary. */
  method LemmaCountsOf(lemmaForms: Dict<string, seq<string>>, counts: Dict<string, nat>) returns (r: Dict<string, nat>)
    requires lemmaForms.Valid()
    ensures r == LemmaCounts(lemmaForms.keys, lemmaForms.vals, counts.vals)
  {
    r := Empty();
    for k := 0 to |lemmaForms.keys|
      invariant r == LemmaCounts(lemmaForms.keys[..k], lemmaForms.vals, counts.vals)
    {
      var l := lemmaForms.keys[k];
      var count := CountForms(lemmaForms.vals[l], counts);
      assert DropLast(lemmaForms.keys[..k + 1]) == lemmaForms.keys[..k] && Last(lemmaForms.keys[..k + 1]) == l;
      if count != 0 {
        r := Put(r, l, count);
      }
    }
    assert lemmaForms.keys[..|lemmaForms.keys|] == lemmaForms.keys;
  }

  /** The lemma counts of every document, as the counting stage builds them. */
  function AllLemmaCounts(lemmaForms: Dict<string, seq<string>>, tokenCounts: seq<Dict<string, nat>>): (r: seq<Dict<string, nat>>)
    requires lemmaForms.Valid()
    ensures |r| == |tokenCounts|
    ensures forall i :: 0 <= i < |r| ==> r[i] == LemmaCounts(lemmaForms.keys, lemmaForms.vals, tokenCounts[i].vals)
  {
    seq(|tokenCounts|, i requires 0 <= i < |tokenCounts| => LemmaCounts(lemmaForms.keys, lemmaForms.vals, tokenCounts[i].vals))
  }

  /** `count_lemma_forms`: one lemma count dictionary per token count dictionary. */
  method CountLemmaForms(lemmaForms: Dict<string, seq<string>>, tokenCounts: seq<Dict<string, nat>>) returns (lemmaCounts: seq<Dict<string, nat>>)
    requires lemmaForms.Valid()
    ensures lemmaCounts == AllLemmaCounts(lemmaForms, tokenCounts)
  {
    lemmaCounts := [];
    for i := 0 to |tokenCounts|
      invariant lemmaCounts == AllLemmaCounts(lemmaForms, tokenCounts[..i])
    {
      var counts := LemmaCountsOf(lemmaForms, tokenCounts[i]);
      AllLemmaCountsPrefix(lemmaForms, tokenCounts, i);
      lemmaCounts := lemmaCounts + [counts];
    }
    assert tokenCounts[..|tokenCounts|] == tokenCounts;
  }

  lemma AllLemmaCountsPrefix(lemmaForms: Dict<string, seq<string>>, tokenCounts: seq<Dict<string, nat>>, i: nat)
    requires lemmaForms.Valid() && i < |tokenCounts|
    ensures AllLemmaCounts(lemmaForms, tokenCounts[..i + 1]) ==
      AllLemmaCounts(lemmaForms, tokenCounts[..i]) + [LemmaCounts(lemmaForms.keys, lemmaForms.vals, tokenCounts[i].vals)]
  {
    var a := AllLemmaCounts(lemmaForms, tokenCounts[..i + 1]);
    var b := AllLemmaCounts(lemmaForms, tokenCounts[..i]) + [LemmaCounts(lemmaForms.keys, lemmaForms.vals, tokenCounts[i].vals)];
    assert |a| == |b|;
    forall k | 0 <= k < |a|
      ensures a[k] == b[k]
    {
      assert tokenCounts[..i + 1][k] == tokenCounts[k];
    }
  }

  /** The number of words of every document. */
  function WordSums(dicts: seq<Dict<string, nat>>): (r: seq<nat>)
    requires forall i :: 0 <= i < |dicts| ==> dicts[i].Valid()
    ensures |r| == |dicts|
    ensures forall i :: 0 <= i < |dicts| ==> r[i] == SumValues(dicts[i])
  {
    seq(|dicts|, i requires 0 <= i < |dicts| => SumValues(dicts[i]))
  }

  /** `calculate_doc_word_sums`: the sum of the counts of each dictionary. */
  method CalculateDocWordSums(dicts: seq<Dict<string, nat>>) returns (sums: seq<nat>)
    requires forall i :: 0 <= i < |dicts| ==> dicts[i].Valid()
    ensures sums == WordSums(dicts)
  {
    sums := [];
    for i := 0 to |dicts|
      invariant |sums| == i
      invariant forall k :: 0 <= k < i ==> sums[k] == SumValues(dicts[k])
    {
      sums := sums + [SumValues(dicts[i])];
    }
  }

  /** The word sum of a text's token counts is the number of its retained chunks. */
  lemma TokenSums(texts: seq<string>, words: set<string>, i: nat)
    requires i < |texts|
    ensures WordSums(TokenCounts(texts, words))[i] == |Retained(texts[i], words)|
  {
    CountsSum(Retained(texts[i], words));
  }

  /** `sum(1 for d in dicts if word in d)`: the number of documents holding `word`. */
  function DocFreq(dicts: seq<Dict<string, nat>>, word: string): nat
    decreases |dicts|
  {
    if dicts == [] then 0
    else DocFreq(DropLast(dicts), word) + (if word in Last(dicts).vals then 1 else 0)
  }

  /** The document frequency of a word of document `i` lies between 1 and the
      number of documents, and reaches it exactly when every document holds
      the word. */
  lemma {:induction false} DocFreqBounds(dicts: seq<Dict<string, nat>>, word: string, i: nat)
    requires i < |dicts| && word in dicts[i].vals
    ensures 1 <= DocFreq(dicts, word) <= |dicts|
    ensures DocFreq(dicts, word) == |dicts| <==> forall k :: 0 <= k < |dicts| ==> word in dicts[k].vals
    decreases |dicts|
  {
    DocFreqAll(dicts, word);
    if i < |dicts| - 1 {
      DocFreqBounds(DropLast(dicts), word, i);
    }
  }

  lemma {:induction false} DocFreqAll(dicts: seq<Dict<string, nat>>, word: string)
    ensures DocFreq(dicts, word) <= |dicts|
    ensures DocFreq(dicts, word) == |dicts| <==> forall k :: 0 <= k < |dicts| ==> word in dicts[k].vals
    decreases |dicts|
  {
    if dicts != [] {
      var p := DropLast(dicts);
      DocFreqAll(p, word);
      assert forall k :: 0 <= k < |p| ==> p[k] == dicts[k];
    }
  }

  /** One line of a result file. `Saturated` is `word 0.0 0.0`, written when
      the idf is zero. `Weighted` is `word idf tf-idf` with
      tf = `count` / `total` and idf = ln(`docCount` / `df`). */
  datatype Line =
    | Saturated(word: string)
    | Weighted(word: string, count: nat, total: nat, df: nat, docCount: nat)

  /** The line of `word`, with `count` occurrences in a document of `total` words. */
  function LineFor(dicts: seq<Dict<string, nat>>, word: string, count: nat, total: nat): Line {
    if DocFreq(dicts, word) == |dicts| then Saturated(word)
    else Weighted(word, count, total, DocFreq(dicts, word), |dicts|)
  }

  /** A document has a word that gets a line. */
  predicate HasTermin(d: Dict<string, nat>, termins: set<string>) {
    exists w :: w in d.vals && w in termins
  }

  /** The lines written for the listed words of a document whose counts are
      `counts` and whose word sum is `total`: one per word in `termins`, in
      list order. */
  function Lines(dicts: seq<Dict<string, nat>>, keys: seq<string>, counts: map<string, nat>, termins: set<string>, total: nat): seq<Line>
    requires forall w :: w in keys ==> w in counts
    decreases |keys|
  {
    if keys == [] then []
    else
      var w := Last(keys);
      Lines(dicts, DropLast(keys), counts, termins, total) + (if w in termins then [LineFor(dicts, w, counts[w], total)] else [])
  }

  /** The lines of document `i`, for a document of `total` words. */
  function DocLines(dicts: seq<Dict<string, nat>>, i: nat, termins: set<string>, total: nat): seq<Line>
    requires i < |dicts| && dicts[i].Valid()
  {
    Lines(dicts, dicts[i].keys, dicts[i].vals, termins, total)
  }

  /** The division by a document's word sum can be carried out for every
      document that gets a line: the sum exists and is not zero. */
  predicate Divisible(dicts: seq<Dict<string, nat>>, termins: set<string>, sums: seq<nat>) {
    forall i :: 0 <= i < |dicts| && HasTermin(dicts[i], termins) ==> i < |sums| && sums[i] != 0
  }

  /** The lines of one document, or the failure the division raises. */
  method DocLinesOf(dicts: seq<Dict<string, nat>>, i: nat, termins: set<string>, sums: seq<nat>) returns (r: Result<seq<Line>, string>)
    requires i < |dicts| && dicts[i].Valid()
    ensures r.Ok? <==> !HasTermin(dicts[i], termins) || (i < |sums| && sums[i] != 0)
    ensures r.Ok? ==> r.value == DocLines(dicts, i, termins, if i < |sums| then sums[i] else 0)
  {
    var d := dicts[i];
    var lines: seq<Line> := [];
    ghost var total := if i < |sums| then sums[i] else 0;
    for k := 0 to |d.keys|
      invariant lines == Lines(dicts, d.keys[..k], d.vals, termins, total)
      invariant (exists w :: w in d.keys[..k] && w in termins) ==> i < |sums| && sums[i] != 0
    {
      var word := d.keys[k];
      var count := d.vals[word];
      assert DropLast(d.keys[..k + 1]) == d.keys[..k] && Last(d.keys[..k + 1]) == word;
      if word in termins {
        if i >= |sums| {
          return Err("list index out of range");
        }
        if sums[i] == 0 {
          return Err("division by zero");
        }
        lines := lines + [LineFor(dicts, word, count, sums[i])];
      }
    }
    assert d.keys[..|d.keys|] == d.keys;
    r := Ok(lines);
  }

  /** Every line is the line of a listed word in `termins`. */
  lemma {:induction false} LinesWords(dicts: seq<Dict<string, nat>>, keys: seq<string>, counts: map<string, nat>, termins: set<string>, total: nat, line: Line)
    requires forall w :: w in keys ==> w in counts
    requires line in Lines(dicts, keys, counts, termins, total)
    ensures line.word in keys && line.word in termins
    ensures line == LineFor(dicts, line.word, counts[line.word], total)
    decreases |keys|
  {
    var prev := Lines(dicts, DropLast(keys), counts, termins, total);
    if line in prev {
      LinesWords(dicts, DropLast(keys), counts, termins, total, line);
      assert line.word in keys;
    }
  }

  /** The words of the lines, in order, are the listed words in `termins`. */
  lemma {:induction false} LinesOrder(dicts: seq<Dict<string, nat>>, keys: seq<string>, counts: map<string, nat>, termins: set<string>, total: nat)
    requires forall w :: w in keys ==> w in counts
    ensures Words(Lines(dicts, keys, counts, termins, total)) == Filter(keys, InTermins(termins))
    decreases |keys|
  {
    if keys != [] {
      var w := Last(keys);
      LinesOrder(dicts, DropLast(keys), counts, termins, total);
      FilterSnoc(DropLast(keys), w, InTermins(termins));
      DropLastLast(keys);
      var prev := Lines(dicts, DropLast(keys), counts, termins, total);
      var more := if w in termins then [LineFor(dicts, w, counts[w], total)] else [];
      WordsAppend(prev, more);
    }
  }

  /** The word of each line. */
  function Words(lines: seq<Line>): (r: seq<string>)
    ensures |r| == |lines|
    ensures forall j :: 0 <= j < |lines| ==> r[j] == lines[j].word
  {
    seq(|lines|, j requires 0 <= j < |lines| => lines[j].word)
  }

  lemma WordsAppend(a: seq<Line>, b: seq<Line>)
    ensures Words(a + b) == Words(a) + Words(b)
  {
  }

  /** The test a word passes to get a line. */
  function InTermins(termins: set<string>): string -> bool {
    w => w in termins
  }

  /** The lines of every document. */
  function AllLines(dicts: seq<Dict<string, nat>>, termins: set<string>, sums: seq<nat>): (r: seq<seq<Line>>)
    requires forall i :: 0 <= i < |dicts| ==> dicts[i].Valid()
    ensures |r| == |dicts|
    ensures forall i :: 0 <= i < |dicts| ==> r[i] == DocLines(dicts, i, termins, if i < |sums| then sums[i] else 0)
  {
    seq(|dicts|, i requires 0 <= i < |dicts| => DocLines(dicts, i, termins, if i < |sums| then sums[i] else 0))
  }

  /** `calculate_tf_idf`: the lines of every document, in document order; it
      fails at the first document that gets a line but whose word sum is
      missing or zero. */
  method CalculateTfIdf(dicts: seq<Dict<string, nat>>, termins: set<string>, sums: seq<nat>) returns (r: Result<seq<seq<Line>>, string>)
    requires forall i :: 0 <= i < |dicts| ==> dicts[i].Valid()
    ensures r.Ok? <==> Divisible(dicts, termins, sums)
    ensures r.Ok? ==> r.value == AllLines(dicts, termins, sums)
  {
    var files: seq<seq<Line>> := [];
    for i := 0 to |dicts|
      invariant |files| == i
      invariant forall k :: 0 <= k < i ==> files[k] == AllLines(dicts, termins, sums)[k]
      invariant forall k :: 0 <= k < i && HasTermin(dicts[k], termins) ==> k < |sums| && sums[k] != 0
    {
      var lines := DocLinesOf(dicts, i, termins, sums);
      if lines.Err? {
        return Err(lines.error);
      }
      files := files + [lines.value];
    }
    r := Ok(files);
  }

  /** What every line states: its word is a word of the document that gets a
      line; the line is `word 0.0 0.0` exactly when every document holds the
      word; otherwise its tf is the word's count over the document's word
      sum and its document frequency lies strictly between 0 and the number
      of documents. */
  lemma LineMeaning(dicts: seq<Dict<string, nat>>, i: nat, termins: set<string>, total: nat, line: Line)
    requires i < |dicts| && dicts[i].Valid()
    requires line in DocLines(dicts, i, termins, total)
    ensures line.word in dicts[i].vals && line.word in termins
    ensures line.Saturated? <==> forall k :: 0 <= k < |dicts| ==> line.word in dicts[k].vals
    ensures line.Weighted? ==>
      && line.count == dicts[i].vals[line.word] && line.total == total
      && line.docCount == |dicts| && 1 <= line.df < line.docCount
      && line.df == DocFreq(dicts, line.word)
  {
    LinesWords(dicts, dicts[i].keys, dicts[i].vals, termins, total, line);
    DocFreqBounds(dicts, line.word, i);
  }

  /** The token run never divides by zero: a document with a word has a
      positive word sum. */
  lemma TokenRunDivisible(texts: seq<string>, words: set<string>, termins: set<string>)
    ensures Divisible(TokenCounts(texts, words), termins, WordSums(TokenCounts(texts, words)))
  {
    var dicts := TokenCounts(texts, words);
    forall i | 0 <= i < |dicts| && HasTermin(dicts[i], termins)
      ensures WordSums(dicts)[i] != 0
    {
      var w :| w in dicts[i].vals && w in termins;
      CountsAre(Retained(texts[i], words));
      SumOverBound(dicts[i].keys, dicts[i].vals, w);
    }
  }

  /** The lemma run divides by the token word sums, and never by zero: a
      lemma that scores in a document has a form that occurs there. */
  lemma LemmaRunDivisible(texts: seq<string>, words: set<string>, lemmaForms: Dict<string, seq<string>>, termins: set<string>)
    requires lemmaForms.Valid()
    ensures var tokenCounts := TokenCounts(texts, words);
      Divisible(AllLemmaCounts(lemmaForms, tokenCounts), termins, WordSums(tokenCounts))
  {
    var tokenCounts := TokenCounts(texts, words);
    var lemmaCounts := AllLemmaCounts(lemmaForms, tokenCounts);
    forall i | 0 <= i < |lemmaCounts| && HasTermin(lemmaCounts[i], termins)
      ensures WordSums(tokenCounts)[i] != 0
    {
      var l :| l in lemmaCounts[i].vals && l in termins;
      var counts := tokenCounts[i];
      FormSumZero(lemmaForms.vals[l], counts.vals);
      var f :| f in lemmaForms.vals[l] && f in counts.vals;
      SumOverBound(counts.keys, counts.vals, f);
    }
  }

  /** With form lists without repeats, as the vocabulary stage writes them, a
      lemma never counts more occurrences than the document has words, so
      the tf of the lemma run is at most 1. */
  lemma LemmaCountBound(texts: seq<string>, words: set<string>, lemmaForms: Dict<string, seq<string>>, i: nat, l: string)
    requires lemmaForms.Valid() && i < |texts|
    requires forall m :: m in lemmaForms.vals ==> Distinct(lemmaForms.vals[m])
    requires l in AllLemmaCounts(lemmaForms, TokenCounts(texts, words))[i].vals
    ensures AllLemmaCounts(lemmaForms, TokenCounts(texts, words))[i].vals[l] <= WordSums(TokenCounts(texts, words))[i]
  {
    var counts := TokenCounts(texts, words)[i];
    FormSumBound(lemmaForms.vals[l], counts.keys, counts.vals);
  }
}
