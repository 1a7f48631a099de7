/** The document matrix of the search stage: one row per page, one column
    per lemma of the vocabulary, each cell the tf-idf the weighting stage
    wrote for that lemma in that page's file, zero where it wrote none. */
module VectorMatrix {
  import opened Wrappers
  import opened Seqs
  import opened Text
  import opened Loaders

  /** What the matrix stage takes from a line of a tf-idf file: the lemma
      (first field) and the text of its tf-idf (third field). */
  datatype Entry = Entry(lem: string, tfidf: string)

  /** The entry of a line, or `None` when the line has fewer than three
      fields (indexing `values[2]` raises `IndexError`). */
  function EntryOf(line: string): (r: Option<Entry>)
    ensures r.Some? <==> |Fields(line)| >= 3
    ensures r.Some? ==> r.value.lem == Fields(line)[0] && r.value.tfidf == Fields(line)[2]
  {
    var values := Fields(line);
    if |values| < 3 then None else Some(Entry(values[0], values[2]))
  }

  /** The column a lemma of the vocabulary is stored in: `list.index`. */
  function Column(vocabulary: seq<string>, lem: string): (j: nat)
    requires lem in vocabulary
    ensures j < |vocabulary| && vocabulary[j] == lem
    ensures forall k :: 0 <= k < j ==> vocabulary[k] != lem
  {
    FirstIndex(vocabulary, lem)
  }

  /** Whether an entry writes column `j`. */
  predicate Writes(vocabulary: seq<string>, e: Entry, j: nat) {
    e.lem in vocabulary && Column(vocabulary, e.lem) == j
  }

  /** The value column `j` holds after the entries of one page were applied
      in order to a zero row: the last entry writing it wins. */
  function CellValue(entries: seq<Entry>, vocabulary: seq<string>, j: nat, toReal: string -> real): real
    decreases |entries|
  {
    if entries == [] then 0.0
    else if Writes(vocabulary, Last(entries), j) then toReal(Last(entries).tfidf)
    else CellValue(DropLast(entries), vocabulary, j, toReal)
  }

  /** One more entry: it writes its own column, the others keep their value. */
  lemma CellValueSnoc(entries: seq<Entry>, e: Entry, vocabulary: seq<string>, j: nat, toReal: string -> real)
    ensures CellValue(entries + [e], vocabulary, j, toReal) ==
      if Writes(vocabulary, e, j) then toReal(e.tfidf) else CellValue(entries, vocabulary, j, toReal)
  {
    assert DropLast(entries + [e]) == entries && Last(entries + [e]) == e;
  }

  /** A later line for the same lemma overwrites the earlier value: the
      cell of `e`'s lemma holds `e`'s tf-idf when no later entry names it. */
  lemma {:induction false} LastWriteWins(a: seq<Entry>, e: Entry, b: seq<Entry>, vocabulary: seq<string>, toReal: string -> real)
    requires e.lem in vocabulary
    requires forall k :: 0 <= k < |b| ==> b[k].lem != e.lem
    ensures CellValue(a + [e] + b, vocabulary, Column(vocabulary, e.lem), toReal) == toReal(e.tfidf)
    decreases |b|
  {
    var j := Column(vocabulary, e.lem);
    if b == [] {
      assert a + [e] + b == a + [e];
      CellValueSnoc(a, e, vocabulary, j, toReal);
    } else {
      LastWriteWins(a, e, DropLast(b), vocabulary, toReal);
      assert a + [e] + b == (a + [e] + DropLast(b)) + [Last(b)];
      CellValueSnoc(a + [e] + DropLast(b), Last(b), vocabulary, j, toReal);
      assert Last(b).lem != e.lem;
    }
  }

  /** A line whose lemma is not in the vocabulary leaves every cell as it was. */
  lemma {:induction false} UnknownLemmaIgnored(a: seq<Entry>, e: Entry, b: seq<Entry>, vocabulary: seq<string>, j: nat, toReal: string -> real)
    requires e.lem !in vocabulary
    ensures CellValue(a + [e] + b, vocabulary, j, toReal) == CellValue(a + b, vocabulary, j, toReal)
    decreases |b|
  {
    if b == [] {
      assert a + [e] + b == a + [e] && a + b == a;
      CellValueSnoc(a, e, vocabulary, j, toReal);
    } else {
      UnknownLemmaIgnored(a, e, DropLast(b), vocabulary, j, toReal);
      assert a + [e] + b == (a + [e] + DropLast(b)) + [Last(b)];
      assert a + b == (a + DropLast(b)) + [Last(b)];
      CellValueSnoc(a + [e] + DropLast(b), Last(b), vocabulary, j, toReal);
      CellValueSnoc(a + DropLast(b), Last(b), vocabulary, j, toReal);
    }
  }

  /** A column no entry writes stays zero. */
  lemma {:induction false} UnwrittenCellZero(entries: seq<Entry>, vocabulary: seq<string>, j: nat, toReal: string -> real)
    requires forall k :: 0 <= k < |entries| ==> !Writes(vocabulary, entries[k], j)
    ensures CellValue(entries, vocabulary, j, toReal) == 0.0
    decreases |entries|
  {
    if entries != [] {
      UnwrittenCellZero(DropLast(entries), vocabulary, j, toReal);
    }
  }

  /** When the lemmas of a page's entries are distinct, as the weighting
      stage writes them, each lemma of the vocabulary finds its own tf-idf
      in its column. */
  lemma WrittenCell(entries: seq<Entry>, k: nat, vocabulary: seq<string>, toReal: string -> real)
    requires k < |entries| && entries[k].lem in vocabulary
    requires forall m, n :: 0 <= m < n < |entries| ==> entries[m].lem != entries[n].lem
    ensures CellValue(entries, vocabulary, Column(vocabulary, entries[k].lem), toReal) == toReal(entries[k].tfidf)
  {
    var b := entries[k + 1..];
    forall m | 0 <= m < |b|
      ensures b[m].lem != entries[k].lem
    {
      assert b[m] == entries[k + 1 + m];
    }
    assert entries == entries[..k] + [entries[k]] + b;
    LastWriteWins(entries[..k], entries[k], b, vocabulary, toReal);
  }

  /** The entries of every line of a page's tf-idf file, or `None` when a
      line has fewer than three fields. */
  function PageEntries(lines: seq<string>): Option<seq<Entry>> {
    ParseAll(lines, EntryOf)
  }

  /** Row `i` of the matrix holds the values the entries give it. */
  ghost predicate RowIs(matrix: array2<real>, i: nat, entries: seq<Entry>, vocabulary: seq<string>, toReal: string -> real)
    requires i < matrix.Length0
    reads matrix
  {
    forall j :: 0 <= j < matrix.Length1 ==> matrix[i, j] == CellValue(entries, vocabulary, j, toReal)
  }

  /** Every line of `lines` parses and row `i` holds the values they give it. */
  ghost predicate RowOf(matrix: array2<real>, i: nat, lines: seq<string>, vocabulary: seq<string>, toReal: string -> real)
    requires i < matrix.Length0
    reads matrix
  {
    PageEntries(lines).Some? && RowIs(matrix, i, PageEntries(lines).value, vocabulary, toReal)
  }

  /** The body of the inner loop of `calculate_vector_matrix` once a line is
      split: when the lemma is in the vocabulary its tf-idf goes to row `i`
      at the lemma's first position in the vocabulary. */
  method ApplyEntry(matrix: array2<real>, i: nat, e: Entry, vocabulary: seq<string>, toReal: string -> real, ghost entries: seq<Entry>)
    requires i < matrix.Length0 && matrix.Length1 == |vocabulary|
    requires RowIs(matrix, i, entries, vocabulary, toReal)
    modifies matrix
    ensures RowIs(matrix, i, entries + [e], vocabulary, toReal)
    ensures forall m, j :: 0 <= m < matrix.Length0 && m != i && 0 <= j < matrix.Length1 ==> matrix[m, j] == old(matrix[m, j])
  {
    if e.lem in vocabulary {
      var j := FirstIndex(vocabulary, e.lem);
      matrix[i, j] := toReal(e.tfidf);
    }
    forall j | 0 <= j < matrix.Length1
      ensures matrix[i, j] == CellValue(entries + [e], vocabulary, j, toReal)
    {
      CellValueSnoc(entries, e, vocabulary, j, toReal);
    }
  }

  /** The inner loop of `calculate_vector_matrix` for page `i`: each line,
      stripped and split, is applied to row `i` in file order. A line with
      fewer than three fields stops the stage with `IndexError`. Only row
      `i` changes. */
  method FillRow(matrix: array2<real>, i: nat, lines: seq<string>, vocabulary: seq<string>, toReal: string -> real)
    returns (ok: bool)
    requires i < matrix.Length0 && matrix.Length1 == |vocabulary|
    requires RowIs(matrix, i, [], vocabulary, toReal)
    modifies matrix
    ensures ok <==> PageEntries(lines).Some?
    ensures ok ==> RowIs(matrix, i, PageEntries(lines).value, vocabulary, toReal)
    ensures forall m, j :: 0 <= m < matrix.Length0 && m != i && 0 <= j < matrix.Length1 ==> matrix[m, j] == old(matrix[m, j])
  {
    ghost var entries: seq<Entry> := [];
    for k := 0 to |lines|
      invariant PageEntries(lines[..k]) == Some(entries)
      invariant RowIs(matrix, i, entries, vocabulary, toReal)
      invariant forall m, j :: 0 <= m < matrix.Length0 && m != i && 0 <= j < matrix.Length1 ==> matrix[m, j] == old(matrix[m, j])
    {
      var values := Fields(Strip(lines[k]));
      FieldsStrip(lines[k]);
      ParseAllPrefix(lines, k, EntryOf);
      if |values| < 3 {
        ParseAllNone(lines, k + 1, EntryOf);
        return false;
      }
      var e := Entry(values[0], values[2]);
      ApplyEntry(matrix, i, e, vocabulary, toReal, entries);
      entries := entries + [e];
    }
    assert lines[..|lines|] == lines;
    return true;
  }

  /** Whether the file of every one of the first `PageCount` pages parses. */
  ghost predicate AllParse(files: seq<seq<string>>)
    requires |files| >= PageCount
  {
    forall m :: 0 <= m < PageCount ==> PageEntries(files[m]).Some?
  }

  /** `rows` holds the entries of the first `|rows|` files. */
  ghost predicate Parsed(files: seq<seq<string>>, rows: seq<seq<Entry>>) {
    |rows| <= |files| && forall m :: 0 <= m < |rows| ==> PageEntries(files[m]) == Some(rows[m])
  }

  lemma ParsedSnoc(files: seq<seq<string>>, rows: seq<seq<Entry>>, row: seq<Entry>)
    requires Parsed(files, rows) && |rows| < |files| && PageEntries(files[|rows|]) == Some(row)
    ensures Parsed(files, rows + [row])
  {
    forall m | 0 <= m < |rows| + 1
      ensures PageEntries(files[m]) == Some((rows + [row])[m])
    {
      ParsedAt(files, rows, row, m);
    }
  }

  lemma ParsedAt(files: seq<seq<string>>, rows: seq<seq<Entry>>, row: seq<Entry>, m: nat)
    requires Parsed(files, rows) && |rows| < |files| && PageEntries(files[|rows|]) == Some(row)
    requires m <= |rows|
    ensures PageEntries(files[m]) == Some((rows + [row])[m])
  {
    if m < |rows| {
      assert (rows + [row])[m] == rows[m];
    }
  }

  lemma ParsedAll(files: seq<seq<string>>, rows: seq<seq<Entry>>)
    requires |files| >= PageCount && |rows| == PageCount && Parsed(files, rows)
    ensures AllParse(files)
    ensures forall m :: 0 <= m < PageCount ==> PageEntries(files[m]).value == rows[m]
  {
  }

  /** `calculate_vector_matrix`: a `PageCount` × vocabulary zero matrix whose
      row `i` is then filled from the tf-idf file of page `i + 1`; `files[i]`
      holds that file's lines. The text of a tf-idf becomes a number through
      `toReal`. */
  method CalculateVectorMatrix(vocabulary: seq<string>, files: seq<seq<string>>, toReal: string -> real)
    returns (r: Result<array2<real>, string>)
    requires |files| >= PageCount
    ensures r.Ok? <==> AllParse(files)
    ensures r.Ok? ==> fresh(r.value) && r.value.Length0 == PageCount && r.value.Length1 == |vocabulary|
    ensures r.Ok? ==> forall i :: 0 <= i < PageCount ==> RowOf(r.value, i, files[i], vocabulary, toReal)
  {
    var matrix := new real[PageCount, |vocabulary|]((_, _) => 0.0);
    ghost var rows: seq<seq<Entry>> := [];
    for i := 0 to PageCount
      invariant |rows| == i && Parsed(files, rows)
      invariant forall m :: 0 <= m < i ==> RowIs(matrix, m, rows[m], vocabulary, toReal)
      invariant forall m :: i <= m < PageCount ==> RowIs(matrix, m, [], vocabulary, toReal)
    {
      label before:
      var ok := FillRow(matrix, i, files[i], vocabulary, toReal);
      if !ok {
        return Err("list index out of range");
      }
      forall m | 0 <= m < i
        ensures RowIs(matrix, m, rows[m], vocabulary, toReal)
      {
        assert old@before(RowIs(matrix, m, rows[m], vocabulary, toReal));
      }
      forall m | i < m < PageCount
        ensures RowIs(matrix, m, [], vocabulary, toReal)
      {
        assert old@before(RowIs(matrix, m, [], vocabulary, toReal));
      }
      ParsedSnoc(files, rows, PageEntries(files[i]).value);
      rows := rows + [PageEntries(files[i]).value];
    }
    ParsedAll(files, rows);
    return Ok(matrix);
  }

  /** A line of a tf-idf file as the weighting stage writes it, its two
      numbers already rendered as text. */
  function TfIdfLine(word: string, idf: string, tfidf: string): string {
    word + " " + idf + " " + tfidf + "\n"
  }

  /** A word or a rendered number: non-empty and without whitespace. */
  predicate Token(s: string) {
    |s| > 0 && forall c :: c in s ==> !IsSpace(c)
  }

  /** Reading a written line back gives its word and its tf-idf text. */
  lemma TfIdfLineEntry(word: string, idf: string, tfidf: string)
    requires Token(word) && Token(idf) && Token(tfidf)
    ensures EntryOf(TfIdfLine(word, idf, tfidf)) == Some(Entry(word, tfidf))
  {
    var parts := [word, idf, tfidf];
    FieldsJoin(parts);
    TfIdfLineJoin(word, idf, tfidf);
    FieldsTrailing(Join(parts, ' '), "\n");
  }

  lemma TfIdfLineJoin(word: string, idf: string, tfidf: string)
    ensures TfIdfLine(word, idf, tfidf) == Join([word, idf, tfidf], ' ') + "\n"
  {
    var parts := [word, idf, tfidf];
    assert parts[1..] == [idf, tfidf] && parts[1..][1..] == [tfidf];
    assert Join([tfidf], ' ') == tfidf;
    assert Join([idf, tfidf], ' ') == idf + [' '] + tfidf;
    assert Join(parts, ' ') == word + [' '] + Join([idf, tfidf], ' ');
  }

  /** The tf-idf file written for lists of words, idf texts and tf-idf texts. */
  function TfIdfFile(words: seq<string>, idfs: seq<string>, tfidfs: seq<string>): (r: seq<string>)
    requires |idfs| == |words| && |tfidfs| == |words|
    ensures |r| == |words|
    decreases |words|
  {
    if words == [] then []
    else TfIdfFile(DropLast(words), DropLast(idfs), DropLast(tfidfs)) + [TfIdfLine(Last(words), Last(idfs), Last(tfidfs))]
  }

  /** Three texts a line can be written from. */
  predicate Writable3(word: string, idf: string, tfidf: string) {
    Token(word) && Token(idf) && Token(tfidf)
  }

  /** The entries a file written from `words` and `tfidfs` should give. */
  function Entries(words: seq<string>, tfidfs: seq<string>): (r: seq<Entry>)
    requires |tfidfs| == |words|
    ensures |r| == |words|
    ensures forall k :: 0 <= k < |words| ==> r[k] == Entry(words[k], tfidfs[k])
  {
    seq(|words|, k requires 0 <= k < |words| => Entry(words[k], tfidfs[k]))
  }

  lemma EntriesSnoc(words: seq<string>, tfidfs: seq<string>)
    requires |tfidfs| == |words| > 0
    ensures Entries(words, tfidfs) == Entries(DropLast(words), DropLast(tfidfs)) + [Entry(Last(words), Last(tfidfs))]
  {
    var a := Entries(words, tfidfs);
    var b := Entries(DropLast(words), DropLast(tfidfs)) + [Entry(Last(words), Last(tfidfs))];
    assert |a| == |b|;
    forall k | 0 <= k < |a|
      ensures a[k] == b[k]
    {
      if k < |a| - 1 {
        assert b[k] == Entries(DropLast(words), DropLast(tfidfs))[k];
      }
    }
  }

  /** Reading a written tf-idf file gives one entry per line, in order,
      holding the word and the tf-idf text of that line. */
  lemma {:induction false} TfIdfFileEntries(words: seq<string>, idfs: seq<string>, tfidfs: seq<string>)
    requires |idfs| == |words| && |tfidfs| == |words|
    requires forall k :: 0 <= k < |words| ==> Writable3(words[k], idfs[k], tfidfs[k])
    ensures ParseAll(TfIdfFile(words, idfs, tfidfs), EntryOf) == Some(Entries(words, tfidfs))
    decreases |words|
  {
    if words != [] {
      var n := |words| - 1;
      var lines := TfIdfFile(words, idfs, tfidfs);
      TfIdfFileEntries(DropLast(words), DropLast(idfs), DropLast(tfidfs));
      TfIdfLineEntry(words[n], idfs[n], tfidfs[n]);
      var e := Entry(words[n], tfidfs[n]);
      assert DropLast(lines) == TfIdfFile(DropLast(words), DropLast(idfs), DropLast(tfidfs));
      assert EntryOf(Last(lines)) == Some(e);
      EntriesSnoc(words, tfidfs);
    }
  }
}
