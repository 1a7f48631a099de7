# infosearch core, modelled in Dafny

This project models the core of a small batch retrieval engine for a
collection of 100 downloaded web pages. The stages are:

- **Vocabulary** (`task2/main.py`): normalise the page texts into dictionary
  tokens. Drop stop words. Group the tokens under their lemmas, each lemma
  with the distinct forms that produce it. Sort by number of forms.
- **Boolean index and search** (`task3/main.py`, `task3/search.py`):
  - build the inverted index (token → set of 1-based page numbers) and delete
    stop-word keys in place;
  - give each lemma the posting set of its first token, and emit one record
    per lemma;
  - answer boolean queries (`AND`, `OR`, `NOT`, parentheses) with a
    shunting-yard conversion to postfix, then a stack evaluation against the
    universe of pages 1..100.
- **Weighting** (`task4/main.py`): count tokens per page and fold the token
  counts into lemma counts. Sum the words of each page. Decide which lines a
  page's tf-idf file gets, including the literal `word 0.0 0.0` line of a word
  that every page holds.
- **Ranking** (`task5/main.py`, `task5/create_vector_matrix.py`):
  - read the page index and the lemma file;
  - lemmatize a query against the vocabulary and weight its lemmas;
  - place the weights into a vocabulary-indexed vector, and place the tf-idf
    files into a 100 × vocabulary matrix;
  - pick the ten best pages from a vector of similarity scores.

Modules, one per stage plus shared vocabulary:

| file | module | models |
|---|---|---|
| `wrappers.dfy` | `Wrappers` | `Option`, `Result` |
| `seqs.dfy` | `Seqs` | last element, reversal (a list drained as a stack), filter, counting, first-occurrence dedup, `list.index`, `list(set)` |
| `text.dfy` | `Text` | `str.lower` (ASCII), `str.replace`, `str.split(sep)`, `' '.join`, `str.strip`, `str.split()` |
| `dicts.dfy` | `Dicts` | insertion-ordered `dict` as keys + map; assignment, deletion, counting loops, `sum(d.values())` |
| `normalize.dfy` | `Normalize` | `tokenize`: lower-case, the two regex substitutions, `split(' ')`, the dictionary filter |
| `lemma_groups.dfy` | `LemmaGroups` | the (token, lemma) pairs the lemmatizing loops visit |
| `sorting.dfy` | `Sorting` | `sorted(..., key=-weight)`: stable sort by non-increasing weight |
| `vocabulary.dfy` | `Vocabulary` | `task2/main.py` |
| `inverted_index.dfy` | `InvertedIndex` | `task3/main.py` |
| `boolean_search.dfy` | `BooleanSearch` | `task3/search.py` |
| `query_examples.dfy` | `QueryExamples` | worked queries, among them the example in the comment at `task3/search.py:71` |
| `tfidf.dfy` | `TfIdf` | `task4/main.py` |
| `loaders.dfy` | `Loaders` | `load_index` and `load_lemmas` of the ranking stage, and the line formats they read |
| `ranking.dfy` | `Ranking` | `task5/main.py` |
| `vector_matrix.dfy` | `VectorMatrix` | `task5/create_vector_matrix.py` |

Loops that update variables are methods with loop invariants. Each method is
proved equal to a recursive specification function, and the properties are
lemmas about those functions. A Python `dict` is a value `Dict(keys, vals)`:
the keys in insertion order plus the mapping. The NumPy arrays the ranking
stage writes cell by cell are Dafny arrays (`array<real>`, `array2<real>`).

External collaborators become parameters:

- the WordNet lemmatizer is a function `(token, part of speech) -> lemma`;
- the English word list is a `set<string>`, and the stop-word list a
  `seq<string>`;
- `math.log` is a function `real -> real`;
- `float(text)` is a function `string -> real`;
- the contents of files are sequences of lines.

Behaviour of the code that the model keeps:

- A page without `<body>` has no text. The vocabulary stage skips such a
  page, but the index stage passes it to `tokenize`, which raises, so
  `InvertedIndex.TokenizeCollection` fails on it.
- The number of pages is hard-coded to 100, not taken from the collection.
  It appears in three places:
  - the `NOT` universe (`BooleanSearch.AllPages`);
  - the numerator of the query idf (`Loaders.PageCount`);
  - the number of matrix rows.
- The ranking stage recomputes a query lemma's idf from the per-page lemma
  sets rather than reusing the weighting stage's idf. A lemma that no page
  holds makes that division fail.
- An unmatched `)` raises inside `convert_to_postfix`, which is called before
  the `try`. The script crashes rather than reporting an invalid query
  (`BooleanSearch.Answer`).
- In `task3/main.py` the posting set of a lemma is that of its first token
  only: the result of `union` is discarded.
- In `task4/main.py` a line is written only for the words in the token list.
  This holds in the lemma run too: a lemma that is not itself a kept token
  gets no line. The lemma run divides by the token word sum.
- Ties in the final ranking are not broken by page order. NumPy's `argsort`
  followed by a reversal leaves their order unspecified. `Ranking.Search`
  therefore takes an arbitrary listing of the positions by non-increasing
  score (`Ranking.SortedPositions`), and all its results hold for every such
  listing. `Ranking.ArgsortDesc` is one such listing and shows that one always
  exists.

## Model

| member | source | states |
|---|---|---|
| BooleanSearch.TokenizeQueryJoin | task3/search.py:16-20 | no token holds a space, and joining the tokens with one space gives back the query with a space after every `(` and before every `)` |
| BooleanSearch.TokenizePlain | task3/search.py:16-20 | a query without parentheses is cut exactly at its single spaces |
| BooleanSearch.TokenizeDoubledSpace | task3/search.py:19 | two spaces in a row give an empty token between the two sides |
| BooleanSearch.PopHigherPops | task3/search.py:42-49 | an incoming operator pops a suffix of the stack, emitted top first; everything popped has precedence strictly above the operator's, and what is left on top does not, so equal precedences and `(` are never popped |
| BooleanSearch.PopToParenPops | task3/search.py:37-41 | a `)` succeeds exactly when a `(` is on the stack; it emits what lies above the nearest `(` top first and discards that `(` |
| BooleanSearch.PopHigherLoop | task3/search.py:43-49 | the operator branch's loop over a list used as a stack computes the pop-while-higher specification |
| BooleanSearch.PopToParenLoop | task3/search.py:37-41 | the `)` branch's loop computes the pop-to-parenthesis specification, failing on an empty stack |
| BooleanSearch.ConvertToPostfix | task3/search.py:23-55 | the converter with its mutable output and stack computes the postfix specification, including the final drain in stack order |
| BooleanSearch.RunParens | task3/search.py:34-51 | the loop succeeds exactly when no prefix closes more parentheses than it opened; the stack then holds one `(` per open parenthesis and the operator counts are conserved |
| BooleanSearch.PostfixRaisesIff | task3/search.py:37-41 | the conversion raises exactly on an unmatched `)` |
| BooleanSearch.OperandsInOrder | task3/search.py:50-51 | operand tokens come out lower-cased and in their original relative order |
| BooleanSearch.LowerOperand | task3/search.py:51 | lower-casing an operand never turns it into an operator or a parenthesis |
| BooleanSearch.BalancedPostfix | task3/search.py:53-55 | for balanced input the conversion succeeds, no parenthesis reaches the output, and each operator occurs as often as in the input |
| BooleanSearch.BoolAnd | task3/search.py:58-59 | intersection |
| BooleanSearch.BoolOr | task3/search.py:62-63 | union |
| BooleanSearch.BoolNot | task3/search.py:66-67 | the pages of the universe 1..100 (line 4) not in the argument; the result lies within the universe |
| BooleanSearch.NotNot | task3/search.py:66-67 | negating twice gives the argument intersected with 1..100 |
| BooleanSearch.DeMorgan | task3/search.py:58-67 | De Morgan's laws for the three set operators |
| BooleanSearch.EvaluatePostfix | task3/search.py:75-93 | the queue-and-stack evaluation loop computes the evaluation specification: operands push, `AND`/`OR` pop two and push one, `NOT` pops one, a failed pop is an invalid query, the top is the answer |
| BooleanSearch.EvalHeight | task3/search.py:78-92 | whether evaluation fails depends only on the tokens, never on the index, and the stack height is fixed by the tokens |
| BooleanSearch.InvalidIff | task3/search.py:93-96 | the query is invalid exactly when an operator lacks operands or the final pop finds an empty stack |
| BooleanSearch.EvalWithinUniverse | task3/search.py:78-93 | when every posting set lies in 1..100, so does every stack entry and the answer |
| BooleanSearch.SearchQuery | task3/search.py:72-96 | the script's tokenize-convert-evaluate run computes the answer specification; it crashes exactly on an unmatched `)` |
| BooleanSearch.AnswerCases | task3/search.py:72-96 | the three outcomes in terms of the tokens: crash on an unmatched `)`, invalid on underflow, otherwise pages within the universe |
| QueryExamples.ExampleQuery | task3/search.py:71 | `(hello OR world) AND NOT often` is cut into eight tokens and becomes `hello world OR often NOT AND` |
| QueryExamples.GroupedAnswer | task3/search.py:71-96 | the answer to `(a OR b) AND NOT c` is the pages of `a` or `b` that are in 1..100 and not pages of `c` |
| QueryExamples.LeftoversIgnored | task3/search.py:93 | `a b` answers with the pages of `b`: entries below the top are ignored |
| QueryExamples.MissingOperand | task3/search.py:82-85 | `AND a` pops from a one-entry stack, so the query is invalid |
| QueryExamples.UnmatchedClose | task3/search.py:37-41 | `a)` pops an empty stack during the conversion, which runs before the `try`, so the script crashes |
| QueryExamples.ChainedAnd | task3/search.py:45 | with the strict comparison, `a AND b AND c` becomes `a b c AND AND` |
| QueryExamples.AndBeforeOr | task3/search.py:42-49 | `a AND b OR c` becomes `a b AND c OR` |
| QueryExamples.PlainTokens | task3/search.py:16-20 | a query of plain words separated by single spaces is cut at the spaces |
| QueryExamples.FiveTokens | task3/search.py:16-20 | `a op b op' c` of plain words is cut into its five words |
| Normalize.RemoveDigitsNoDigits | task3/main.py:56 | after the letter substitution there is no digit left, so the digit deletion changes nothing |
| Normalize.NormalizedChars | task3/main.py:54-56 | only lower-case letters, `-` and spaces remain after the two substitutions |
| Normalize.ChunkChars | task3/main.py:57 | every chunk is made of lower-case letters and `-` only |
| Normalize.Tokenize | task3/main.py:53-59 | a token is a chunk of the normalised text that is a dictionary word longer than one character, made of ASCII letters and `-` only |
| Normalize.PairsOfMembers | task3/main.py:95-97 | a pair is visited exactly when its token is one of the tokens and its lemma is the lemmatizer's for one of the five parts of speech |
| InvertedIndex.PostingsIff | task3/main.py:43-49 | page `d` is a posting of `t` exactly when `1 <= d <= N` and `t` is in the token set of page `d` |
| InvertedIndex.PostingsNonEmpty | task3/main.py:43-49 | a token is a key exactly when its posting set is non-empty |
| InvertedIndex.IndexSnoc | task3/main.py:43-49 | reading one more page adds its number to the postings of its tokens |
| InvertedIndex.CollectStep | task3/main.py:46-49 | a token seen for the first time gets `{d}`; a known one gets `d` added |
| InvertedIndex.TokenizeCollection | task3/main.py:40-50 | fails exactly when some page has no text (a page without `<body>`, on which `tokenize` raises); otherwise the dictionary built by the loops is the inverted index of the pages' token sets, whatever order each set is visited in |
| InvertedIndex.AddTokens | task3/main.py:45-49 | the inner loop adds page `d` to the postings of exactly the page's tokens |
| InvertedIndex.RemoveStopwords | task3/main.py:62-67 | every stop-word key is deleted; the other keys keep their order and their posting sets |
| InvertedIndex.RemoveStep | task3/main.py:64-66 | one deletion keeps the remaining keys and values as they were |
| InvertedIndex.GetLemmas | task3/main.py:90-104 | each lemma maps to the set of tokens producing it, and its posting set is that of its first producer; the dictionary is sorted stably by non-increasing number of forms |
| InvertedIndex.GroupToken | task3/main.py:96-103 | the inner loop over the five parts of speech keeps the forms and first-producer posting sets |
| InvertedIndex.FormsStep | task3/main.py:98-102 | one pass adds the token to its lemma's forms, creating the lemma when new |
| InvertedIndex.PagesStepNew | task3/main.py:98-100 | a new lemma gets the token's own posting set |
| InvertedIndex.PagesStepKnown | task3/main.py:101-103 | a known lemma's posting set is left as it is: the union is discarded |
| InvertedIndex.LemmaForms | task3/main.py:92-102 | every token is among the forms of each of its five lemmas, and a lemma is present exactly when some token produces it |
| InvertedIndex.FirstProducerEarliest | task3/main.py:98-103 | the token whose posting set a lemma keeps is the earliest token, in key order, that produces it |
| InvertedIndex.FirstProducerAppend | task3/main.py:98-103 | later tokens never change the first producer of a lemma already present |
| InvertedIndex.CreateIndex | task3/main.py:114-123 | one record per lemma in dictionary order, whose id list holds exactly the lemma's pages once each and whose count is its length |
| LemmaGroups.ProducersMembers | task3/main.py:95-97 | a token produced a lemma exactly when that pair was visited |
| LemmaGroups.FormsProducers | task3/main.py:98-102 | the set of forms of a lemma is the set of tokens that produced it |
| LemmaGroups.FirstProducerSnoc | task3/main.py:98-100 | the first producer of a lemma does not change once it exists |
| LemmaGroups.ProducedBy | task2/main.py:87-89 | a token produced a lemma exactly when it is one of the tokens and the lemmatizer maps it to that lemma for one of the five parts of speech |
| Sorting.SortNonIncreasing | task2/main.py:95 | the sorted keys have non-increasing weight |
| Sorting.SortStable | task2/main.py:95 | the sort is stable: the keys of each weight keep their relative order |
| Sorting.SortByWeight | task2/main.py:95 | the same mapping, keys permuted into non-increasing stable order |
| Sorting.SortStableAll | task3/main.py:104 | for every weight, the sort keeps the input's order among the keys of that weight |
| Vocabulary.TokenizeCollection | task2/main.py:40-46 | the collected set is the union of the token sets of the pages that have a text |
| Vocabulary.CollectionTokens | task2/main.py:40-46 | a token is collected exactly when some page with a text yields it |
| Vocabulary.RemoveStopwords | task2/main.py:58-60 | exactly the tokens that are not stop words and are longer than one character, each once |
| Vocabulary.FilterDistinct | task2/main.py:60 | filtering a list without repeats leaves a list without repeats |
| Vocabulary.ListsStepNew | task2/main.py:90-91 | a new lemma gets the token as its only form |
| Vocabulary.ListsStepSeen | task2/main.py:92-93 | a form already listed is not listed twice |
| Vocabulary.ListsStepAppend | task2/main.py:92-94 | a new form is appended to its lemma's list |
| Vocabulary.GetLemmas | task2/main.py:83-95 | each lemma lists the distinct tokens producing it in order of first appearance; the lemmas are exactly the produced ones, sorted stably by non-increasing number of forms |
| Vocabulary.GroupToken | task2/main.py:88-94 | the inner loop over the five parts of speech keeps the grouping invariant |
| Vocabulary.LemmaForms | task2/main.py:85-94 | a token is a form of a lemma exactly when the lemmatizer maps it there for some part of speech; forms are without repeats |
| Dicts.Put | task4/main.py:76-79 | assignment keeps an existing key's place and appends a new key |
| Dicts.Delete | task3/main.py:66 | deletion removes the key and keeps the order of the others |
| Dicts.Increment | task4/main.py:76-79 | `+= 1` on a present key, which keeps its place; otherwise a new last key with count 1; the dictionary stays valid |
| Dicts.Counts | task4/main.py:74-79 | the counting loop's result has every count positive and the distinct elements as keys |
| Dicts.CountsAre | task5/main.py:54-59 | each count is the number of occurrences, and the keys are the distinct elements in order of first occurrence |
| Dicts.CountsSum | task5/main.py:54-59 | the counts add up to the number of elements |
| Dicts.CountOccurrences | task4/main.py:74-79 | the counting loop computes the counting specification |
| Dicts.SumOverBound | task4/main.py:132 | every listed value is at most the sum |
| TfIdf.TokenizeWithCount | task4/main.py:68-80 | the loop counts the retained chunks of the text |
| TfIdf.TokenCountsMeaning | task4/main.py:68-80 | every key is a dictionary word of two or more characters, every count is at least 1, and the counts add up to the number of retained chunks |
| TfIdf.CountTokens | task4/main.py:83-88 | one count dictionary per text, in text order |
| TfIdf.CountForms | task4/main.py:118-121 | the inner loop sums the counts of the lemma's forms present in the page |
| TfIdf.FormSumZero | task4/main.py:122 | a lemma scores zero exactly when none of its forms occurs |
| TfIdf.LemmaCounts | task4/main.py:116-123 | a lemma is a key exactly when its forms score, and it maps to the sum of their counts |
| TfIdf.LemmaCountsOrder | task4/main.py:117 | the counted lemmas keep the lemma dictionary's order |
| TfIdf.LemmaCountsOf | task4/main.py:116-124 | one page's loop computes its lemma counts |
| TfIdf.CountLemmaForms | task4/main.py:112-125 | one lemma count dictionary per token count dictionary |
| TfIdf.CalculateDocWordSums | task4/main.py:128-133 | one sum per dictionary, the sum of its values |
| TfIdf.TokenSums | task4/main.py:128-133 | a page's word sum is its number of retained chunks |
| TfIdf.DocFreqBounds | task4/main.py:148 | for a word of a page, `1 <= df <= N`, with `df == N` exactly when every page holds it |
| TfIdf.DocLinesOf | task4/main.py:144-153 | one page's lines, or the failure of the division when the page has a word to write but no positive word sum |
| TfIdf.LinesWords | task4/main.py:144-146 | every line is that of a word of the page that is in the token list |
| TfIdf.LinesOrder | task4/main.py:144-146 | the lines are exactly the page's words in the token list, one each, in dictionary order |
| TfIdf.CalculateTfIdf | task4/main.py:136-153 | the lines of every page in page order, failing at the first page whose division fails |
| TfIdf.LineMeaning | task4/main.py:147-153 | the line is `word 0.0 0.0` exactly when every page holds the word; otherwise it holds tf = count / word sum and df |
| TfIdf.TokenRunDivisible | task4/main.py:147 | the token run never divides by zero |
| TfIdf.LemmaRunDivisible | task4/main.py:166 | the lemma run, dividing by the token word sums, never divides by zero |
| TfIdf.LemmaCountBound | task4/main.py:118-123 | with form lists without repeats, a lemma count never exceeds the page's word sum |
| Loaders.IndexLineFields | task1/main.py:26 | an index line's fields are the numbered label and the URL |
| Loaders.LoadIndex | task5/main.py:10-16 | the second field of every stripped line in order, or `IndexError` exactly when some line has fewer than two fields |
| Loaders.IndexRoundTrip | task5/main.py:10-16 | reading back the index file the download stage writes for a list of URLs gives the URLs |
| Loaders.LemmaOfLine | task5/main.py:23-24 | a line's lemma is the stripped text before the first `:` of the stripped line; it holds no `:` and has no surrounding whitespace |
| Loaders.LoadLemmas | task5/main.py:19-26 | one lemma per line, in file order (task5/create_vector_matrix.py:4-12 repeats the same loader) |
| Loaders.LemmaLineRoundTrip | task5/main.py:23-24 | the lemma read back from a written line is the lemma, whatever its forms |
| Loaders.LoadLemmasRoundTrip | task5/main.py:19-26 | reading back the lemma file the vocabulary stage writes gives the lemmas in order |
| Ranking.FirstKnownIsFirst | task5/main.py:45-49 | trying the parts of speech from one on finds the lemma of the first one whose lemma is in the vocabulary, or nothing exactly when none is |
| Ranking.QueryLemmaIsFirst | task5/main.py:43-49 | a token's query lemma is that of the first part of speech, in the order a, s, r, n, v, whose lemma is in the vocabulary; the token is dropped when there is none |
| Ranking.LemmatizedQueryBounds | task5/main.py:40-50 | the lemmatized query is no longer than the query, and all its lemmas are in the vocabulary |
| Ranking.LemmatizedQueryAppend | task5/main.py:44-49 | lemmatizing keeps the query's order: each part's lemmas follow those of the part before |
| Ranking.LemmatizeQuery | task5/main.py:40-50 | the nested loop with `break` computes the lemmatized query |
| Ranking.DocFrequencyZero | task5/main.py:63 | the document frequency is zero exactly when no page holds the lemma |
| Ranking.AllSeenMeaning | task5/main.py:63 | the weights can be computed exactly when every query lemma occurs in some page |
| Ranking.WeightedPut | task5/main.py:61-64 | one pass stores tf × idf for the lemma |
| Ranking.WeighLemma | task5/main.py:62-64 | one pass fails exactly when no page holds the lemma (then not every query lemma is seen); otherwise the invariant is kept and a lemma new to the dictionary is appended last, a known one keeps its place |
| Ranking.CalculateQueryTfIdf | task5/main.py:53-65 | the keys are the distinct query lemmas in order of first occurrence, each weighted count / length × log(100 / df); a division by zero exactly when some query lemma is in no page |
| Ranking.TfSumCounts | task5/main.py:62 | summing term frequencies is summing counts and dividing by the query length |
| Ranking.TfSumOne | task5/main.py:54-62 | the term frequencies of a non-empty query add up to 1 |
| Ranking.ConvertQueryToVector | task5/main.py:68-73 | a new vector of the vocabulary's length whose every entry is the weight of the lemma at its first position, 0 elsewhere |
| Ranking.VectorEntries | task5/main.py:69-73 | each weighted vocabulary lemma's weight sits at its first position, and an entry is non-zero only at such a position |
| Ranking.SelectDesc | task5/main.py:80 | every position once, without repeats |
| Ranking.SelectDescSorted | task5/main.py:80 | the selected positions are by non-increasing score |
| Ranking.ArgsortDesc | task5/main.py:80 | one listing of all positions without repeats (the earliest position first among equal scores, one of the orders the sort may give) |
| Ranking.ArgsortDescOrder | task5/main.py:80 | every position appears and the scores along the order never increase, so a listing of the kind `argsort()[::-1]` returns always exists |
| Ranking.Search | task5/main.py:78-84 | for the listing of the positions by non-increasing score that the sort gives, with ties in any order: ten labels `index[j]` for its first ten positions, or `IndexError` exactly when there are fewer than ten scores or one of those positions is past the index; on success the ten are different pages by non-increasing score, and no page left out scores higher |
| Ranking.TopPages | task5/main.py:80-83 | for every listing by non-increasing score, whatever its tie order, the first ten are different positions by non-increasing score, and none left out scores higher than any of them |
| VectorMatrix.Column | task5/create_vector_matrix.py:24 | the lemma's first position in the vocabulary |
| VectorMatrix.LastWriteWins | task5/create_vector_matrix.py:25 | a later line for the same lemma overwrites the earlier value |
| VectorMatrix.UnknownLemmaIgnored | task5/create_vector_matrix.py:23 | a line whose lemma is not in the vocabulary changes no cell |
| VectorMatrix.UnwrittenCellZero | task5/create_vector_matrix.py:17-25 | a cell no line writes stays 0 |
| VectorMatrix.WrittenCell | task5/create_vector_matrix.py:21-25 | with distinct lemmas per file, each vocabulary lemma's cell holds its tf-idf |
| VectorMatrix.ApplyEntry | task5/create_vector_matrix.py:23-25 | one line writes its own cell of row `i` and changes no other row |
| VectorMatrix.FillRow | task5/create_vector_matrix.py:20-25 | one file fills row `i` as its lines dictate, fails exactly when a line has fewer than three fields, and changes no other row |
| VectorMatrix.CalculateVectorMatrix | task5/create_vector_matrix.py:15-26 | a new 100 × vocabulary matrix, zero at the start, each row filled from its page's file; `IndexError` exactly when some line has fewer than three fields |
| VectorMatrix.TfIdfLineEntry | task5/create_vector_matrix.py:21-22 | a line written by the weighting stage reads back as its word and its tf-idf text |
| VectorMatrix.TfIdfFileEntries | task5/create_vector_matrix.py:20-22 | a written tf-idf file reads back as one entry per line, in order |
| Text.FieldsStrip | task5/main.py:14 | `s.strip().split()` is `s.split()` |
| Text.SplitJoin | task3/search.py:19 | splitting a join of separator-free parts gives the parts back |
| Text.JoinSplit | task3/search.py:19 | joining the pieces of a split with the separator gives the string back |
| Text.FieldsJoin | task2/main.py:102 | splitting a space-joined list of space-free words gives the words back |
| Seqs.FirstIndex | task5/main.py:72 | `list.index`: the first position holding the element |
| Seqs.SetToList | task3/main.py:121 | `list(set)`: each element once, in some order |

## Left out

- Downloading (`task1/main.py`) and all file, directory and JSON I/O. File
  contents are sequences of lines. The JSON formatting at
  `task3/main.py:124-125` is not modelled.
- HTML cleaning (`clean_html`, `extract_text`, `dir_reader`, `file_reader`,
  `save_cleaned_htmls_if_needed`), and the writers `save_tokens`,
  `save_lemmas` and the file half of `calculate_tf_idf`. The line formats they
  write are modelled as functions (`Loaders.IndexLine`, `Loaders.LemmaLine`,
  `VectorMatrix.TfIdfLine`) for the round-trip lemmas.
- `load_termins`, `load_lemmas` of `task4/main.py` and
  `load_lemmas_in_docs_list`: the token set, the lemma dictionary and the
  per-page lemma sets are parameters.
- NLTK:
  - the lemmatizer is a function parameter;
  - the word list is a set parameter;
  - the stop-word list is a sequence parameter.
- Full Unicode `str.lower()` and regular-expression semantics: only ASCII
  letters are lowered, and the two substitutions are written out character by
  character.
- Text.IsSpace: only the ASCII whitespace characters count as whitespace.
  The whitespace-based `str.strip()` and `str.split()` therefore do not
  treat Python's other Unicode whitespace (U+0085, U+00A0, U+2000 to U+200A,
  U+3000, and others) as separators. This affects `Loaders.LoadIndex`,
  `Loaders.LemmaOfLine`, `VectorMatrix.FillRow` and `Text.FieldsStrip`.
- Floating point:
  - `math.log` is a parameter;
  - the weights are unbounded reals;
  - the `:.20f` rendering of numbers is not modelled, and
    `VectorMatrix.TfIdfLine` takes the rendered texts as given;
  - `float(text)` for a matrix cell is a parameter, and its `ValueError` on a
    malformed number is not modelled.
- Normalisation of the query vector (`task5/main.py:74`) and of the matrix
  rows (`task5/create_vector_matrix.py:32`), `np.linalg.norm`, and
  `cosine_similarity`. `Ranking.Search` takes the similarity scores as input.
- The Flask service (`task5/main.py:87-113`).
- Python's set iteration order is an arbitrary listing, chosen
  nondeterministically (`Seqs.SetToList`, `Seqs.Pick`).
