/** The readers of the search stage for the text files written by earlier
    stages: the page index (one `number. url` line per page) and the lemma
    file (one `lemma: form form …` line per lemma). */
module Loaders {
  import opened Wrappers
  import opened Seqs
  import opened Text

  /** The number of pages the pipeline works on; the search stage assumes it
      instead of counting its inputs. */
  const PageCount: nat := 100

  /** A line of the page index as the download stage writes it. */
  function IndexLine(number: string, url: string): string {
    number + ". " + url + "\n"
  }

  /** The fields of an index line are the numbered label and the URL. */
  lemma IndexLineFields(number: string, url: string)
    requires forall c :: c in number ==> !IsSpace(c)
    requires |url| > 0 && forall c :: c in url ==> !IsSpace(c)
    ensures Fields(IndexLine(number, url)) == [number + ".", url]
  {
    var parts := [number + ".", url];
    LabelNoSpace(number);
    FieldsJoin(parts);
    IndexLineJoin(number, url);
    FieldsTrailing(Join(parts, ' '), "\n");
  }

  /** The numbered label holds no whitespace when the number holds none. */
  lemma LabelNoSpace(number: string)
    requires forall c :: c in number ==> !IsSpace(c)
    ensures forall c :: c in number + "." ==> !IsSpace(c)
  {
    assert forall c :: c in number + "." ==> c in number || c == '.';
  }

  /** An index line is its two fields joined by a space, then a newline. */
  lemma IndexLineJoin(number: string, url: string)
    ensures IndexLine(number, url) == Join([number + ".", url], ' ') + "\n"
  {
    var parts := [number + ".", url];
    assert parts[1..] == [url];
    assert Join(parts, ' ') == number + "." + [' '] + url;
  }

  /** The second whitespace-separated field of a line, if it has one. */
  function SecondField(line: string): (r: Option<string>)
    ensures r.Some? <==> |Fields(line)| >= 2
    ensures r.Some? ==> r.value in Fields(line)
  {
    var parts := Fields(line);
    if |parts| < 2 then None else Some(parts[1])
  }

  /** Every line parsed in order, or `None` as soon as one line does not parse. */
  function ParseAll<T>(lines: seq<string>, parse: string -> Option<T>): (r: Option<seq<T>>)
    ensures r.Some? ==> |r.value| == |lines|
    decreases |lines|
  {
    if lines == [] then Some([])
    else match (ParseAll(DropLast(lines), parse), parse(Last(lines)))
      case (Some(front), Some(x)) => Some(front + [x])
      case _ => None
  }

  /** One more line: its parse is appended, or the whole file fails. */
  lemma ParseAllPrefix<T>(lines: seq<string>, k: nat, parse: string -> Option<T>)
    requires k < |lines|
    ensures ParseAll(lines[..k + 1], parse) ==
      match (ParseAll(lines[..k], parse), parse(lines[k]))
        case (Some(front), Some(x)) => Some(front + [x])
        case _ => None
  {
    assert DropLast(lines[..k + 1]) == lines[..k] && Last(lines[..k + 1]) == lines[k];
  }

  /** A line that does not parse spoils every longer file. */
  lemma {:induction false} ParseAllNone<T>(lines: seq<string>, k: nat, parse: string -> Option<T>)
    requires k <= |lines| && ParseAll(lines[..k], parse) == None
    ensures ParseAll(lines, parse) == None
    decreases |lines|
  {
    if k < |lines| {
      assert DropLast(lines)[..k] == lines[..k];
      ParseAllNone(DropLast(lines), k, parse);
    } else {
      assert lines[..k] == lines;
    }
  }

  /** The second field of every line, in order, or `None` when some line
      has fewer than two fields. */
  function Labels(lines: seq<string>): Option<seq<string>> {
    ParseAll(lines, SecondField)
  }

  /** `load_index`: the second whitespace-separated field of every line,
      the line stripped first; a line with fewer than two fields raises
      `IndexError`. */
  method LoadIndex(lines: seq<string>) returns (r: Result<seq<string>, string>)
    ensures r.Ok? <==> Labels(lines).Some?
    ensures r.Ok? ==> r.value == Labels(lines).value
  {
    var index := [];
    for i := 0 to |lines|
      invariant Labels(lines[..i]) == Some(index)
    {
      var parts := Fields(Strip(lines[i]));
      FieldsStrip(lines[i]);
      ParseAllPrefix(lines, i, SecondField);
      if |parts| < 2 {
        ParseAllNone(lines, i + 1, SecondField);
        return Err("list index out of range");
      }
      index := index + [parts[1]];
    }
    assert lines[..|lines|] == lines;
    return Ok(index);
  }

  /** The index file the download stage writes for numbered URLs. */
  function IndexFile(numbers: seq<string>, urls: seq<string>): seq<string>
    requires |numbers| == |urls|
    decreases |urls|
  {
    if urls == [] then [] else IndexFile(DropLast(numbers), DropLast(urls)) + [IndexLine(Last(numbers), Last(urls))]
  }

  /** A number and a URL without whitespace, as the download stage writes them. */
  predicate Writable(number: string, url: string) {
    && (forall c :: c in number ==> !IsSpace(c))
    && |url| > 0 && (forall c :: c in url ==> !IsSpace(c))
  }

  /** The label read back from an index line is its URL. */
  lemma IndexLineLabel(number: string, url: string)
    requires Writable(number, url)
    ensures SecondField(IndexLine(number, url)) == Some(url)
  {
    IndexLineFields(number, url);
  }

  /** Loading the index file written for a list of URLs gives the URLs back,
      in order, when neither the numbers nor the URLs hold whitespace. */
  lemma {:induction false} IndexRoundTrip(numbers: seq<string>, urls: seq<string>)
    requires |numbers| == |urls|
    requires forall i :: 0 <= i < |urls| ==> Writable(numbers[i], urls[i])
    ensures Labels(IndexFile(numbers, urls)) == Some(urls)
    decreases |urls|
  {
    if urls != [] {
      var lines := IndexFile(numbers, urls);
      var n := |urls| - 1;
      IndexRoundTrip(DropLast(numbers), DropLast(urls));
      IndexLineLabel(numbers[n], urls[n]);
      assert DropLast(lines) == IndexFile(DropLast(numbers), DropLast(urls));
      DropLastLast(urls);
    }
  }

  /** The lemma of one line of the lemma file: the text before the first
      `:` of the stripped line, stripped again. */
  function LemmaOfLine(line: string): (r: string)
    ensures ':' !in r
    ensures |r| > 0 ==> !IsSpace(r[0]) && !IsSpace(r[|r| - 1])
    ensures var s := Strip(line); r == Strip(s[..IndexOf(s, ':')])
  {
    var s := Strip(line);
    SplitFirst(s, ':');
    StripInside(Split(s, ':')[0]);
    Strip(Split(s, ':')[0])
  }

  /** Stripping keeps only characters of the string. */
  lemma StripInside(s: string)
    ensures forall c :: c in Strip(s) ==> c in s
  {
    var l := LStrip(s);
    assert forall c :: c in l ==> c in s;
    assert forall c :: c in RStrip(l) ==> c in l;
  }

  /** A line of the lemma file as the vocabulary stage writes it. */
  function LemmaLine(lem: string, forms: seq<string>): string {
    lem + ": " + Join(forms, ' ') + "\n"
  }

  /** Reading the lemma back from the line written for it gives the lemma,
      whatever its forms are, when the lemma holds no `:` and no whitespace. */
  lemma LemmaLineRoundTrip(lem: string, forms: seq<string>)
    requires ':' !in lem
    requires forall c :: c in lem ==> !IsSpace(c)
    ensures LemmaOfLine(LemmaLine(lem, forms)) == lem
  {
    var line := LemmaLine(lem, forms);
    var n := |lem|;
    assert line[n] == ':';
    if n > 0 {
      assert lem[0] in lem;
    }
    assert !IsSpace(line[0]);
    assert LStrip(line) == line;
    var x := RStrip(line);
    assert n < |x|;
    assert x[..n] == lem && x[n] == ':';
    assert x == lem + x[n..];
    IndexOfConcat(lem, x[n..], ':');
    assert IndexOf(x, ':') == n;
    StripNoSpace(lem);
  }

  /** The lemma of every line, in order. */
  function LemmasOf(lines: seq<string>): (r: seq<string>)
    ensures |r| == |lines|
    decreases |lines|
  {
    if lines == [] then [] else LemmasOf(DropLast(lines)) + [LemmaOfLine(Last(lines))]
  }

  lemma LemmasOfSnoc(lines: seq<string>, i: nat)
    requires i < |lines|
    ensures LemmasOf(lines[..i + 1]) == LemmasOf(lines[..i]) + [LemmaOfLine(lines[i])]
  {
    assert DropLast(lines[..i + 1]) == lines[..i] && Last(lines[..i + 1]) == lines[i];
  }

  /** `load_lemmas`: the lemma of every line, in file order. */
  method LoadLemmas(lines: seq<string>) returns (lemmas: seq<string>)
    ensures lemmas == LemmasOf(lines)
  {
    lemmas := [];
    for i := 0 to |lines|
      invariant lemmas == LemmasOf(lines[..i])
    {
      var parts := Split(Strip(lines[i]), ':');
      var lem := Strip(parts[0]);
      assert lem == LemmaOfLine(lines[i]);
      LemmasOfSnoc(lines, i);
      lemmas := lemmas + [lem];
    }
    assert lines[..|lines|] == lines;
  }

  /** The lemma file the vocabulary stage writes: one line per lemma. */
  function LemmaFile(lemmas: seq<string>, forms: seq<seq<string>>): seq<string>
    requires |forms| == |lemmas|
    decreases |lemmas|
  {
    if lemmas == [] then [] else LemmaFile(DropLast(lemmas), DropLast(forms)) + [LemmaLine(Last(lemmas), Last(forms))]
  }

  /** Loading the lemma file written for a list of lemmas gives the list
      back, whatever the forms written beside them. */
  lemma {:induction false} LoadLemmasRoundTrip(lemmas: seq<string>, forms: seq<seq<string>>)
    requires |forms| == |lemmas|
    requires forall l :: l in lemmas ==> ':' !in l && forall c :: c in l ==> !IsSpace(c)
    ensures LemmasOf(LemmaFile(lemmas, forms)) == lemmas
    decreases |lemmas|
  {
    if lemmas != [] {
      var lines := LemmaFile(lemmas, forms);
      assert Last(lemmas) in lemmas;
      LoadLemmasRoundTrip(DropLast(lemmas), DropLast(forms));
      LemmaLineRoundTrip(Last(lemmas), Last(forms));
      assert DropLast(lines) == LemmaFile(DropLast(lemmas), DropLast(forms));
      DropLastLast(lemmas);
    }
  }
}
