/** Python string operations the pipeline relies on, over ASCII:
    `lower()`, `replace()`, `split(sep)`, `split()`, `strip()` and `join`. */
module Text {

  predicate IsUpper(c: char) {
    'A' <= c <= 'Z'
  }

  predicate IsLowerLetter(c: char) {
    'a' <= c <= 'z'
  }

  /** `str.lower()` on one ASCII character. */
  function LowerChar(c: char): (d: char)
    ensures !IsUpper(d)
    ensures IsUpper(c) ==> IsLowerLetter(d)
    ensures !IsUpper(c) ==> d == c
  {
    if IsUpper(c) then (c as int + 32) as char else c
  }

  function Lower(s: string): string {
    seq(|s|, i requires 0 <= i < |s| => LowerChar(s[i]))
  }

  /** `s.replace(c, rep)` for a one-character pattern. */
  function ReplaceChar(s: string, c: char, rep: string): string
    decreases |s|
  {
    if s == [] then []
    else (if s[0] == c then rep else [s[0]]) + ReplaceChar(s[1..], c, rep)
  }

  /** Position of the first `c` in `s`, or `|s|` when there is none. */
  function IndexOf(s: string, c: char): (i: nat)
    ensures i <= |s|
    ensures i < |s| ==> s[i] == c
    decreases |s|
  {
    if |s| == 0 then 0 else if s[0] == c then 0 else 1 + IndexOf(s[1..], c)
  }

  /** No `c` occurs before `IndexOf(s, c)`. */
  lemma {:induction false} IndexOfFirst(s: string, c: char)
    ensures c !in s[..IndexOf(s, c)]
    decreases |s|
  {
    if |s| > 0 && s[0] != c {
      IndexOfFirst(s[1..], c);
      assert s[..IndexOf(s, c)] == [s[0]] + s[1..][..IndexOf(s[1..], c)];
    }
  }

  /** `s.split(sep)` for a one-character separator: every separator ends a
      part, so adjacent separators give empty parts and the result is never
      empty. */
  function Split(s: string, sep: char): (r: seq<string>)
    ensures |r| >= 1
    decreases |s|
  {
    var i := IndexOf(s, sep);
    if i == |s| then [s] else [s[..i]] + Split(s[i + 1..], sep)
  }

  /** No part holds the separator, and every character of a part comes from `s`. */
  lemma {:induction false} SplitParts(s: string, sep: char)
    ensures forall p :: p in Split(s, sep) ==> sep !in p && forall c :: c in p ==> c in s
    decreases |s|
  {
    var i := IndexOf(s, sep);
    IndexOfFirst(s, sep);
    if i < |s| {
      SplitParts(s[i + 1..], sep);
      assert forall c :: c in s[i + 1..] ==> c in s;
      assert forall c :: c in s[..i] ==> c in s;
    }
  }

  /** The first part is the text before the first separator. */
  lemma SplitFirst(s: string, sep: char)
    ensures Split(s, sep)[0] == s[..IndexOf(s, sep)]
    ensures sep !in Split(s, sep)[0]
  {
    IndexOfFirst(s, sep);
  }

  /** `sep.join(parts)`. */
  function Join(parts: seq<string>, sep: char): string
    decreases |parts|
  {
    if |parts| == 0 then ""
    else if |parts| == 1 then parts[0]
    else parts[0] + [sep] + Join(parts[1..], sep)
  }

  /** Joining the parts of a split with the same separator gives the string back. */
  lemma {:induction false} JoinSplit(s: string, sep: char)
    ensures Join(Split(s, sep), sep) == s
    decreases |s|
  {
    var i := IndexOf(s, sep);
    if i < |s| {
      var rest := s[i + 1..];
      JoinSplit(rest, sep);
      SplitUnfold(s, sep, i);
      JoinCons(s[..i], Split(rest, sep), sep);
      CutAt(s, i);
    } else {
      assert Split(s, sep) == [s];
    }
  }

  /** A string is its part before `i`, its character at `i` and its part after. */
  lemma CutAt(s: string, i: nat)
    requires i < |s|
    ensures s == s[..i] + [s[i]] + s[i + 1..]
  {
  }

  /** A separator splits a string into the parts of its two sides;
      parts are never merged across it. */
  lemma {:induction false} SplitConcat(a: string, b: string, sep: char)
    ensures Split(a + [sep] + b, sep) == Split(a, sep) + Split(b, sep)
    decreases |a|
  {
    var s, i := a + [sep] + b, IndexOf(a, sep);
    SeparatorSlices(a, b, sep, i);
    SplitUnfold(s, sep, i);
    if i < |a| {
      var a' := a[i + 1..];
      var left, right := Split(a', sep), Split(b, sep);
      SplitConcat(a', b, sep);
      SplitUnfold(a, sep, i);
      ConsAppend(a[..i], left, right);
    } else {
      assert a[..i] == a;
      assert Split(a, sep) == [a];
    }
  }

  /** One step of `Split` when there is a separator. */
  lemma SplitUnfold(s: string, sep: char, i: nat)
    requires i == IndexOf(s, sep) && i < |s|
    ensures Split(s, sep) == [s[..i]] + Split(s[i + 1..], sep)
  {
  }

  lemma JoinCons(x: string, p: seq<string>, sep: char)
    requires |p| >= 1
    ensures Join([x] + p, sep) == x + [sep] + Join(p, sep)
  {
    assert ([x] + p)[1..] == p;
  }

  /** Joining two non-empty lists is joining each and putting a separator between. */
  lemma {:induction false} JoinAppend(x: seq<string>, y: seq<string>, sep: char)
    requires |x| >= 1 && |y| >= 1
    ensures Join(x + y, sep) == Join(x, sep) + [sep] + Join(y, sep)
    decreases |x|
  {
    if |x| == 1 {
      assert (x + y)[0] == x[0] && (x + y)[1..] == y;
    } else {
      JoinAppend(x[1..], y, sep);
      assert (x + y)[1..] == x[1..] + y;
      assert (x + y)[0] == x[0];
    }
  }

  lemma JoinSnoc(p: seq<string>, w: string, sep: char)
    requires |p| >= 1
    ensures Join(p + [w], sep) == Join(p, sep) + [sep] + w
  {
    JoinAppend(p, [w], sep);
  }

  lemma ConsAppend<T>(x: T, p: seq<T>, q: seq<T>)
    ensures [x] + (p + q) == ([x] + p) + q
  {
  }

  /** Two separators in a row give an empty part between the parts of the two sides. */
  lemma SplitDoubleSeparator(a: string, b: string, sep: char)
    ensures Split(a + [sep, sep] + b, sep) == Split(a, sep) + [""] + Split(b, sep)
  {
    var t := [sep] + b;
    SplitConcat(a, t, sep);
    SplitConcat([], b, sep);
    assert [] + [sep] + b == t;
    assert a + [sep] + t == a + [sep, sep] + b;
    var x, y := Split(a, sep), Split(b, sep);
    assert Split([], sep) == [""];
    assert x + ([""] + y) == x + [""] + y;
  }

  /** Where the first separator of `a + [sep] + b` sits, and what lies on either side. */
  lemma SeparatorSlices(a: string, b: string, sep: char, i: nat)
    requires i == IndexOf(a, sep)
    ensures IndexOf(a + [sep] + b, sep) == i
    ensures (a + [sep] + b)[..i] == a[..i]
    ensures i == |a| ==> (a + [sep] + b)[i + 1..] == b
    ensures i < |a| ==> (a + [sep] + b)[i + 1..] == a[i + 1..] + [sep] + b
  {
    var s := a + [sep] + b;
    IndexOfConcat(a, [sep] + b, sep);
    assert s == a + ([sep] + b);
    if i < |a| {
      assert a == a[..i + 1] + a[i + 1..];
      assert s == a[..i + 1] + (a[i + 1..] + [sep] + b);
    }
  }

  lemma {:induction false} IndexOfConcat(a: string, b: string, sep: char)
    ensures IndexOf(a + b, sep) == if IndexOf(a, sep) < |a| then IndexOf(a, sep) else |a| + IndexOf(b, sep)
    decreases |a|
  {
    if |a| > 0 {
      assert (a + b)[1..] == a[1..] + b;
      IndexOfConcat(a[1..], b, sep);
    } else {
      assert a + b == b;
    }
  }

  /** A string without the separator is a single part. */
  lemma SplitNoSeparator(s: string, sep: char)
    requires sep !in s
    ensures Split(s, sep) == [s]
  {
    assert forall k :: 0 <= k < |s| ==> s[k] != sep;
  }

  /** Replacement works piece by piece. */
  lemma {:induction false} ReplaceCharAppend(a: string, b: string, c: char, rep: string)
    ensures ReplaceChar(a + b, c, rep) == ReplaceChar(a, c, rep) + ReplaceChar(b, c, rep)
    decreases |a|
  {
    if a == [] {
      assert a + b == b;
    } else {
      assert (a + b)[1..] == a[1..] + b;
      ReplaceCharAppend(a[1..], b, c, rep);
    }
  }

  /** Splitting parts joined by a separator they do not hold gives the parts back. */
  lemma {:induction false} SplitJoin(parts: seq<string>, sep: char)
    requires |parts| >= 1 && forall p :: p in parts ==> sep !in p
    ensures Split(Join(parts, sep), sep) == parts
    decreases |parts|
  {
    if |parts| == 1 {
      SplitNoSeparator(parts[0], sep);
    } else {
      SplitJoin(parts[1..], sep);
      SplitPart(parts[0], Join(parts[1..], sep), sep);
      assert [parts[0]] + parts[1..] == parts;
    }
  }

  /** A last part without the separator adds one part. */
  lemma SplitSnoc(x: string, w: string, sep: char)
    requires sep !in w
    ensures Split(x + [sep] + w, sep) == Split(x, sep) + [w]
  {
    SplitConcat(x, w, sep);
    SplitNoSeparator(w, sep);
  }

  /** A part without the separator, followed by the separator, is one part. */
  lemma SplitPart(w: string, rest: string, sep: char)
    requires sep !in w
    ensures Split(w + [sep] + rest, sep) == [w] + Split(rest, sep)
  {
    SplitConcat(w, rest, sep);
    SplitNoSeparator(w, sep);
  }

  /** Replacing a character that does not occur changes nothing. */
  lemma {:induction false} ReplaceAbsent(s: string, c: char, rep: string)
    requires c !in s
    ensures ReplaceChar(s, c, rep) == s
    decreases |s|
  {
    if s != [] {
      ReplaceAbsent(s[1..], c, rep);
      assert [s[0]] + s[1..] == s;
    }
  }

  /** Python's whitespace class, restricted to ASCII. */
  predicate IsSpace(c: char) {
    (9 <= c as int <= 13) || (28 <= c as int <= 32)
  }

  function LStrip(s: string): (r: string)
    ensures |r| <= |s| && r == s[|s| - |r|..]
    ensures forall k :: 0 <= k < |s| - |r| ==> IsSpace(s[k])
    ensures |r| > 0 ==> !IsSpace(r[0])
    decreases |s|
  {
    if |s| > 0 && IsSpace(s[0]) then LStrip(s[1..]) else s
  }

  function RStrip(s: string): (r: string)
    ensures |r| <= |s| && r == s[..|r|]
    ensures forall k :: |r| <= k < |s| ==> IsSpace(s[k])
    ensures |r| > 0 ==> !IsSpace(r[|r| - 1])
    ensures |r| > 0 && |s| > 0 ==> r[0] == s[0]
    decreases |s|
  {
    if |s| > 0 && IsSpace(s[|s| - 1]) then RStrip(s[..|s| - 1]) else s
  }

  /** `s.strip()`: no whitespace left at either end. */
  function Strip(s: string): (r: string)
    ensures |r| > 0 ==> !IsSpace(r[0]) && !IsSpace(r[|r| - 1])
  {
    RStrip(LStrip(s))
  }

  /** The longest prefix of `s` holding no whitespace. */
  function Word(s: string): (w: string)
    ensures |w| <= |s| && w == s[..|w|]
    ensures forall c :: c in w ==> !IsSpace(c)
    ensures |w| < |s| ==> IsSpace(s[|w|])
    decreases |s|
  {
    if |s| == 0 || IsSpace(s[0]) then "" else [s[0]] + Word(s[1..])
  }

  /** `s.split()`: the maximal runs of non-whitespace, never an empty one. */
  function Fields(s: string): (r: seq<string>)
    ensures forall w :: w in r ==> |w| > 0 && forall c :: c in w ==> !IsSpace(c)
    decreases |s|
  {
    if |s| == 0 then []
    else if IsSpace(s[0]) then Fields(s[1..])
    else
      var w := Word(s);
      [w] + Fields(s[|w|..])
  }

  /** Leading whitespace makes no field. */
  lemma {:induction false} FieldsLeading(sp: string, a: string)
    requires forall c :: c in sp ==> IsSpace(c)
    ensures Fields(sp + a) == Fields(a)
    decreases |sp|
  {
    if sp != [] {
      assert sp[0] in sp;
      assert (sp + a)[1..] == sp[1..] + a;
      FieldsLeading(sp[1..], a);
    } else {
      assert sp + a == a;
    }
  }

  /** Whitespace after a string does not lengthen its first word. */
  lemma {:induction false} WordTrailing(a: string, sp: string)
    requires forall c :: c in sp ==> IsSpace(c)
    ensures Word(a + sp) == Word(a)
    decreases |a|
  {
    if a == [] {
      assert a + sp == sp;
    } else if !IsSpace(a[0]) {
      assert (a + sp)[1..] == a[1..] + sp;
      WordTrailing(a[1..], sp);
    }
  }

  /** Trailing whitespace makes no field. */
  lemma {:induction false} FieldsTrailing(a: string, sp: string)
    requires forall c :: c in sp ==> IsSpace(c)
    ensures Fields(a + sp) == Fields(a)
    decreases |a|
  {
    if a == [] {
      FieldsLeading(sp, []);
      assert a + sp == sp + [];
    } else if IsSpace(a[0]) {
      assert (a + sp)[1..] == a[1..] + sp;
      FieldsTrailing(a[1..], sp);
    } else {
      var w := Word(a);
      WordTrailing(a, sp);
      assert (a + sp)[|w|..] == a[|w|..] + sp;
      FieldsTrailing(a[|w|..], sp);
    }
  }

  /** `s.strip().split()` is `s.split()`: stripping first changes nothing. */
  lemma FieldsStrip(s: string)
    ensures Fields(Strip(s)) == Fields(s)
  {
    FieldsLStrip(s);
    FieldsRStrip(LStrip(s));
  }

  lemma FieldsLStrip(s: string)
    ensures Fields(LStrip(s)) == Fields(s)
  {
    var l := LStrip(s);
    var sp := s[..|s| - |l|];
    assert s == sp + l;
    assert forall c :: c in sp ==> IsSpace(c);
    FieldsLeading(sp, l);
  }

  lemma FieldsRStrip(s: string)
    ensures Fields(RStrip(s)) == Fields(s)
  {
    var r := RStrip(s);
    var sp := s[|r|..];
    assert s == r + sp;
    assert forall c :: c in sp ==> IsSpace(c);
    FieldsTrailing(r, sp);
  }

  /** A word followed by whitespace, or by nothing, is the first word. */
  lemma {:induction false} WordOf(w: string, rest: string)
    requires forall c :: c in w ==> !IsSpace(c)
    requires |rest| > 0 ==> IsSpace(rest[0])
    ensures Word(w + rest) == w
    decreases |w|
  {
    if w == [] {
      assert w + rest == rest;
    } else {
      assert (w + rest)[1..] == w[1..] + rest;
      WordOf(w[1..], rest);
    }
  }

  /** Splitting non-empty words joined by single spaces gives the words back. */
  lemma {:induction false} FieldsJoin(parts: seq<string>)
    requires forall p :: p in parts ==> |p| > 0 && forall c :: c in p ==> !IsSpace(c)
    ensures Fields(Join(parts, ' ')) == parts
    decreases |parts|
  {
    if |parts| == 1 {
      WordOf(parts[0], []);
      assert parts[0] + [] == parts[0];
      assert parts[0][|parts[0]|..] == [];
    } else if |parts| > 1 {
      var s, rest := Join(parts, ' '), Join(parts[1..], ' ');
      assert s == parts[0] + ([' '] + rest);
      WordOf(parts[0], [' '] + rest);
      assert s[|parts[0]|..] == [' '] + rest;
      FieldsJoin(parts[1..]);
      assert Fields([' '] + rest) == Fields(rest);
      assert [parts[0]] + parts[1..] == parts;
    }
  }

  /** Stripping a string with no whitespace in it changes nothing. */
  lemma StripNoSpace(s: string)
    requires forall c :: c in s ==> !IsSpace(c)
    ensures Strip(s) == s
  {
    if |s| > 0 {
      assert s[0] in s && s[|s| - 1] in s;
    }
  }
}
