/** The text normalisation shared by the vocabulary, index and counting
    stages: lower-case the text, turn everything that is not an ASCII letter
    or `-` into a space, drop digits, cut at single spaces and keep the
    chunks that are dictionary words of at least two characters. Also the
    five WordNet parts of speech the lemma stages try in turn. */
module Normalize {
  import opened Seqs
  import opened Text

  predicate IsAsciiLetter(c: char) {
    IsLowerLetter(c) || IsUpper(c)
  }

  predicate IsDigit(c: char) {
    '0' <= c <= '9'
  }

  /** A character that can survive normalisation inside a chunk. */
  predicate IsTokenChar(c: char) {
    IsLowerLetter(c) || c == '-'
  }

  /** The substitution of `[^A-Za-z-]` by a space. */
  function LettersOnly(s: string): (r: string)
    ensures |r| == |s|
    ensures forall i :: 0 <= i < |s| ==> r[i] == if IsAsciiLetter(s[i]) || s[i] == '-' then s[i] else ' '
  {
    seq(|s|, i requires 0 <= i < |s| => if IsAsciiLetter(s[i]) || s[i] == '-' then s[i] else ' ')
  }

  /** The deletion of `\d`. */
  function RemoveDigits(s: string): string {
    Filter(s, c => !IsDigit(c))
  }

  /** Once only letters, `-` and spaces are left, there is no digit to delete. */
  lemma {:induction false} RemoveDigitsNoDigits(s: string)
    requires forall c :: c in s ==> !IsDigit(c)
    ensures RemoveDigits(s) == s
    decreases |s|
  {
    if s != [] {
      RemoveDigitsNoDigits(s[1..]);
      assert [s[0]] + s[1..] == s;
    }
  }

  /** The text after lower-casing and both substitutions. */
  function Normalized(text: string): string {
    RemoveDigits(LettersOnly(Lower(text)))
  }

  /** Only lower-case letters, `-` and spaces remain, and the digit deletion
      leaves the string as the letter substitution made it. */
  lemma NormalizedChars(text: string)
    ensures Normalized(text) == LettersOnly(Lower(text))
    ensures forall c :: c in Normalized(text) ==> IsTokenChar(c) || c == ' '
  {
    var s := LettersOnly(Lower(text));
    forall c | c in s
      ensures IsTokenChar(c) || c == ' '
    {
      var i :| 0 <= i < |s| && s[i] == c;
      assert !IsUpper(Lower(text)[i]);
    }
    RemoveDigitsNoDigits(s);
  }

  /** `t.split(' ')` on the normalised text. */
  function Chunks(text: string): seq<string> {
    Split(Normalized(text), ' ')
  }

  /** Every chunk is made of lower-case letters and `-` only. */
  lemma ChunkChars(text: string)
    ensures forall w, c :: w in Chunks(text) && c in w ==> IsTokenChar(c)
  {
    NormalizedChars(text);
    SplitParts(Normalized(text), ' ');
  }

  /** The filter's test: a dictionary word longer than one character. */
  predicate Keep(words: set<string>, chunk: string) {
    chunk in words && |chunk| > 1
  }

  /** The chunks the filter lets through, in text order and with repeats:
      what the counting stage iterates over. */
  function Retained(text: string, words: set<string>): seq<string> {
    Filter(Chunks(text), chunk => Keep(words, chunk))
  }

  /** `tokenize(text)`: the set of retained chunks. */
  function Tokenize(text: string, words: set<string>): (r: set<string>)
    ensures forall t :: t in r <==> t in Chunks(text) && t in words && |t| > 1
    ensures forall t, c :: t in r && c in t ==> IsTokenChar(c)
  {
    ChunkChars(text);
    set t | t in Retained(text, words)
  }

  /** The parts of speech handed to the lemmatizer, in the order tried. */
  const PartsOfSpeech: seq<string> := ["a", "s", "r", "n", "v"]

  /** A (token, lemma) pair; `base` is the lemma produced by one call of the lemmatizer. */
  datatype Pair = Pair(token: string, base: string)

  /** The five pairs of one token, in part-of-speech order. */
  function TokenPairs(token: string, lemmatize: (string, string) -> string): (r: seq<Pair>)
    ensures |r| == |PartsOfSpeech|
    ensures forall j :: 0 <= j < |r| ==> r[j] == Pair(token, lemmatize(token, PartsOfSpeech[j]))
  {
    seq(|PartsOfSpeech|, j requires 0 <= j < |PartsOfSpeech| => Pair(token, lemmatize(token, PartsOfSpeech[j])))
  }

  /** The pairs the nested token/part-of-speech loops visit, in visiting order. */
  function PairsOf(tokens: seq<string>, lemmatize: (string, string) -> string): seq<Pair>
    decreases |tokens|
  {
    if tokens == [] then [] else PairsOf(DropLast(tokens), lemmatize) + TokenPairs(Last(tokens), lemmatize)
  }

  /** A pair is visited exactly when its token is one of the tokens and its
      lemma is what the lemmatizer gives that token for one of the parts of speech. */
  lemma {:induction false} PairsOfMembers(tokens: seq<string>, lemmatize: (string, string) -> string, p: Pair)
    ensures p in PairsOf(tokens, lemmatize) <==>
      p.token in tokens && exists j :: 0 <= j < |PartsOfSpeech| && p.base == lemmatize(p.token, PartsOfSpeech[j])
    decreases |tokens|
  {
    if tokens != [] {
      PairsOfMembers(DropLast(tokens), lemmatize, p);
      DropLastLast(tokens);
      var tp := TokenPairs(Last(tokens), lemmatize);
      if p in tp {
        var j :| 0 <= j < |tp| && tp[j] == p;
        assert p.base == lemmatize(p.token, PartsOfSpeech[j]);
      }
      if p.token == Last(tokens) && exists j :: 0 <= j < |PartsOfSpeech| && p.base == lemmatize(p.token, PartsOfSpeech[j]) {
        var j :| 0 <= j < |PartsOfSpeech| && p.base == lemmatize(p.token, PartsOfSpeech[j]);
        assert tp[j] == p;
      }
    }
  }
}
