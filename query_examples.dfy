/** The example query of the query script's comment, traced through the
    tokenizer and the conversion. */
module QueryExamples {
  import opened Wrappers
  import opened Seqs
  import opened Text
  import opened BooleanSearch


  lemma RunSnoc(p: seq<string>, t: string, sh: Shunt)
    requires Run(p) == Some(sh)
    ensures Run(p + [t]) == Step(sh, t)
  {
    assert DropLast(p + [t]) == p && Last(p + [t]) == t;
  }

  /** A non-empty word of lower-case letters: never an operator or a
      parenthesis, and unchanged by lower-casing. */
  predicate PlainWord(w: string) {
    |w| > 0 && forall c :: c in w ==> IsLowerLetter(c)
  }

  lemma PlainWordOperand(w: string)
    requires PlainWord(w)
    ensures IsOperand(w) && Lower(w) == w
  {
    assert w[0] in w;
    assert w[0] != "NOT"[0] && w[0] != "AND"[0] && w[0] != "OR"[0] && w[0] != "("[0] && w[0] != ")"[0];
    assert forall i :: 0 <= i < |w| ==> w[i] in w;
    assert Lower(w) == w;
  }

  lemma RunWord(p: seq<string>, sh: Shunt, w: string)
    requires Run(p) == Some(sh) && PlainWord(w)
    ensures Run(p + [w]) == Some(Shunt(sh.output + [w], sh.stack))
  {
    RunSnoc(p, w, sh);
    PlainWordOperand(w);
  }

  lemma RunOpen(p: seq<string>, sh: Shunt)
    requires Run(p) == Some(sh)
    ensures Run(p + ["("]) == Some(Shunt(sh.output, sh.stack + ["("]))
  {
    RunSnoc(p, "(", sh);
  }

  /** An operator that pops nothing is pushed. */
  lemma RunPush(p: seq<string>, sh: Shunt, t: string)
    requires Run(p) == Some(sh) && IsOperator(t)
    requires sh.stack == [] || Precedence(Last(sh.stack)) <= Precedence(t)
    ensures Run(p + [t]) == Some(Shunt(sh.output, sh.stack + [t]))
  {
    RunSnoc(p, t, sh);
  }

  /** A `)` with one operator above its `(`. */
  lemma RunCloseOne(p: seq<string>, sh: Shunt, below: seq<string>, op: string)
    requires Run(p) == Some(sh) && sh.stack == below + ["(", op] && op != "("
    ensures Run(p + [")"]) == Some(Shunt(sh.output + [op], below))
  {
    RunSnoc(p, ")", sh);
    assert Last(sh.stack) == op && DropLast(sh.stack) == below + ["("];
    var next := Shunt(sh.output + [op], below + ["("]);
    assert Last(next.stack) == "(" && DropLast(next.stack) == below;
    assert PopToParen(next) == Some(Shunt(next.output, below));
    assert PopToParen(sh) == PopToParen(next);
  }

  lemma ReverseTwo<T>(x: T, y: T)
    ensures Reverse([x, y]) == [y, x]
  {
  }

  lemma RunSingle(t: string)
    ensures Run([t]) == Step(Shunt([], []), t)
  {
    assert DropLast([t]) == [] && Last([t]) == t;
  }

  lemma RunA(a: string)
    requires PlainWord(a)
    ensures Run([a]) == Some(Shunt([a], []))
  {
    RunSingle(a);
    PlainWordOperand(a);
    assert [] + [a] == [a];
  }

  lemma GroupedRunA(a: string)
    requires PlainWord(a)
    ensures Run(["(", a]) == Some(Shunt([a], ["("]))
  {
    RunSingle("(");
    assert [] + ["("] == ["("];
    RunWord(["("], Shunt([], ["("]), a);
    assert ["("] + [a] == ["(", a] && [] + [a] == [a];
  }

  lemma GroupedRunOr(a: string)
    requires PlainWord(a)
    ensures Run(["(", a, "OR"]) == Some(Shunt([a], ["(", "OR"]))
  {
    GroupedRunA(a);
    RunPush(["(", a], Shunt([a], ["("]), "OR");
    assert ["(", a] + ["OR"] == ["(", a, "OR"] && ["("] + ["OR"] == ["(", "OR"];
  }

  lemma GroupedRunB(a: string, b: string)
    requires PlainWord(a) && PlainWord(b)
    ensures Run(["(", a, "OR", b]) == Some(Shunt([a, b], ["(", "OR"]))
  {
    GroupedRunOr(a);
    RunWord(["(", a, "OR"], Shunt([a], ["(", "OR"]), b);
    assert ["(", a, "OR"] + [b] == ["(", a, "OR", b] && [a] + [b] == [a, b];
  }

  /** `( a OR b )` leaves `a b OR` in the output and an empty stack. */
  lemma GroupedRun(a: string, b: string)
    requires PlainWord(a) && PlainWord(b)
    ensures Run(["(", a, "OR", b, ")"]) == Some(Shunt([a, b, "OR"], []))
  {
    GroupedRunB(a, b);
    assert ["(", "OR"] == [] + ["(", "OR"];
    RunCloseOne(["(", a, "OR", b], Shunt([a, b], ["(", "OR"]), [], "OR");
    assert [a, b] + ["OR"] == [a, b, "OR"];
    assert ["(", a, "OR", b] + [")"] == ["(", a, "OR", b, ")"];
  }

  lemma GroupedRunAnd(a: string, b: string)
    requires PlainWord(a) && PlainWord(b)
    ensures Run(["(", a, "OR", b, ")", "AND"]) == Some(Shunt([a, b, "OR"], ["AND"]))
  {
    GroupedRun(a, b);
    RunPush(["(", a, "OR", b, ")"], Shunt([a, b, "OR"], []), "AND");
    assert ["(", a, "OR", b, ")"] + ["AND"] == ["(", a, "OR", b, ")", "AND"] && [] + ["AND"] == ["AND"];
  }

  lemma GroupedRunNot(a: string, b: string)
    requires PlainWord(a) && PlainWord(b)
    ensures Run(["(", a, "OR", b, ")", "AND", "NOT"]) == Some(Shunt([a, b, "OR"], ["AND", "NOT"]))
  {
    GroupedRunAnd(a, b);
    RunPush(["(", a, "OR", b, ")", "AND"], Shunt([a, b, "OR"], ["AND"]), "NOT");
    assert ["(", a, "OR", b, ")", "AND"] + ["NOT"] == ["(", a, "OR", b, ")", "AND", "NOT"];
    assert ["AND"] + ["NOT"] == ["AND", "NOT"];
  }

  lemma GroupedRunAll(a: string, b: string, c: string)
    requires PlainWord(a) && PlainWord(b) && PlainWord(c)
    ensures Run(["(", a, "OR", b, ")", "AND", "NOT", c]) == Some(Shunt([a, b, "OR", c], ["AND", "NOT"]))
  {
    GroupedRunNot(a, b);
    RunWord(["(", a, "OR", b, ")", "AND", "NOT"], Shunt([a, b, "OR"], ["AND", "NOT"]), c);
    assert ["(", a, "OR", b, ")", "AND", "NOT"] + [c] == ["(", a, "OR", b, ")", "AND", "NOT", c];
    assert [a, b, "OR"] + [c] == [a, b, "OR", c];
  }

  /** `( a OR b ) AND NOT c` becomes `a b OR c NOT AND`. */
  lemma GroupedPostfix(a: string, b: string, c: string)
    requires PlainWord(a) && PlainWord(b) && PlainWord(c)
    ensures ToPostfix(["(", a, "OR", b, ")", "AND", "NOT", c]) == Some([a, b, "OR", c, "NOT", "AND"])
  {
    GroupedRunAll(a, b, c);
    ReverseTwo("AND", "NOT");
    assert [a, b, "OR", c] + ["NOT", "AND"] == [a, b, "OR", c, "NOT", "AND"];
  }

  /** The rewrites work piece by piece. */
  lemma SpaceParensAppend(x: string, y: string)
    ensures SpaceParens(x + y) == SpaceParens(x) + SpaceParens(y)
  {
    ReplaceCharAppend(x, y, '(', "( ");
    ReplaceCharAppend(ReplaceChar(x, '(', "( "), ReplaceChar(y, '(', "( "), ')', " )");
  }

  lemma SpaceParensPlain(x: string)
    requires '(' !in x && ')' !in x
    ensures SpaceParens(x) == x
  {
    ReplaceAbsent(x, '(', "( ");
    ReplaceAbsent(x, ')', " )");
  }

  lemma SpaceParensSingle()
    ensures SpaceParens("(") == "(" + " " && SpaceParens(")") == " " + ")"
  {
    assert ReplaceChar(" )", '(', "( ") == " )" by {
      ReplaceAbsent(" )", '(', "( ");
    }
    assert ReplaceChar("( ", ')', " )") == "( " by {
      ReplaceAbsent("( ", ')', " )");
    }
  }

  /** A plain word between spaces and an operator holds no parenthesis. */
  lemma NoParensBetween(w: string, op: string, left: bool)
    requires PlainWord(w) && op in ["OR", "AND", "NOT"]
    ensures var x := if left then w + " " + op + " " else " " + op + " " + w;
      '(' !in x && ')' !in x
  {
    NoSpecialChars(w);
  }

  lemma NoParensOr(a: string, b: string)
    requires PlainWord(a) && PlainWord(b)
    ensures '(' !in a + " " + "OR" + " " + b && ')' !in a + " " + "OR" + " " + b
  {
    NoSpecialChars(a);
    NoSpecialChars(b);
  }

  /** The group, regrouped around its middle. */
  lemma GroupedPieces(a: string, b: string)
    ensures var mid := a + " " + "OR" + " " + b;
      && "(" + a + " " + "OR" + " " + b + ")" == ("(" + mid) + ")"
      && "(" + " " + a + " " + "OR" + " " + b + " " + ")" == (("(" + " ") + mid) + (" " + ")")
  {
  }

  /** The parenthesised half of the grouped query. */
  lemma GroupedLeft(a: string, b: string)
    requires PlainWord(a) && PlainWord(b)
    ensures SpaceParens("(" + a + " " + "OR" + " " + b + ")") == "(" + " " + a + " " + "OR" + " " + b + " " + ")"
  {
    var mid := a + " " + "OR" + " " + b;
    NoParensOr(a, b);
    SpaceParensPlain(mid);
    SpaceParensSingle();
    SpaceParensAppend("(", mid);
    SpaceParensAppend("(" + mid, ")");
    GroupedPieces(a, b);
  }

  /** The operators after the group. */
  lemma GroupedRight(c: string)
    requires PlainWord(c)
    ensures SpaceParens(" " + "AND" + " " + "NOT" + " " + c) == " " + "AND" + " " + "NOT" + " " + c
  {
    NoParensBetween(c, "NOT", false);
    assert " " + "AND" + " " + "NOT" + " " + c == " AND" + (" " + "NOT" + " " + c);
    SpaceParensPlain(" AND");
    SpaceParensPlain(" " + "NOT" + " " + c);
    SpaceParensAppend(" AND", " " + "NOT" + " " + c);
  }

  /** `(a OR b) AND NOT c`, written out piece by piece, is cut into its
      eight tokens. */
  lemma GroupedTokens(a: string, b: string, c: string)
    requires PlainWord(a) && PlainWord(b) && PlainWord(c)
    ensures TokenizeQuery("(" + a + " " + "OR" + " " + b + ")" + " " + "AND" + " " + "NOT" + " " + c)
      == ["(", a, "OR", b, ")", "AND", "NOT", c]
  {
    var left := "(" + a + " " + "OR" + " " + b + ")";
    var right := " " + "AND" + " " + "NOT" + " " + c;
    GroupedLeft(a, b);
    GroupedRight(c);
    SpaceParensAppend(left, right);
    assert left + right == "(" + a + " " + "OR" + " " + b + ")" + " " + "AND" + " " + "NOT" + " " + c;
    assert SpaceParens(left) + right
      == "(" + " " + a + " " + "OR" + " " + b + " " + ")" + " " + "AND" + " " + "NOT" + " " + c;
    SplitGrouped(a, b, c);
  }

  lemma SplitGrouped(a: string, b: string, c: string)
    requires PlainWord(a) && PlainWord(b) && PlainWord(c)
    ensures Split("(" + " " + a + " " + "OR" + " " + b + " " + ")" + " " + "AND" + " " + "NOT" + " " + c, ' ')
      == ["(", a, "OR", b, ")", "AND", "NOT", c]
  {
    var l1 := ["("];
    var l2 := l1 + [a];
    JoinSnoc(l1, a, ' ');
    var l3 := l2 + ["OR"];
    JoinSnoc(l2, "OR", ' ');
    var l4 := l3 + [b];
    JoinSnoc(l3, b, ' ');
    var l5 := l4 + [")"];
    JoinSnoc(l4, ")", ' ');
    var l6 := l5 + ["AND"];
    JoinSnoc(l5, "AND", ' ');
    var l7 := l6 + ["NOT"];
    JoinSnoc(l6, "NOT", ' ');
    var l8 := l7 + [c];
    JoinSnoc(l7, c, ' ');
    assert l8 == ["(", a, "OR", b, ")", "AND", "NOT", c];
    assert forall w :: w in l8 ==> ' ' !in w by {
      assert IsLowerLetter('a');
    }
    SplitJoin(l8, ' ');
  }

  /** The query of the script's comment, written out piece by piece. */
  lemma ExamplePieces()
    ensures "(hello OR world) AND NOT often"
      == "(" + "hello" + " " + "OR" + " " + "world" + ")" + " " + "AND" + " " + "NOT" + " " + "often"
  {
  }

  /** The example query of the script's comment: `(hello OR world) AND NOT
      often` is cut into eight tokens and becomes `hello world OR often NOT AND`. */
  lemma ExampleQuery(q: string)
    requires q == "(hello OR world) AND NOT often"
    ensures TokenizeQuery(q) == ["(", "hello", "OR", "world", ")", "AND", "NOT", "often"]
    ensures ToPostfix(TokenizeQuery(q)) == Some(["hello", "world", "OR", "often", "NOT", "AND"])
  {
    ExamplePieces();
    GroupedTokens("hello", "world", "often");
    GroupedPostfix("hello", "world", "often");
  }

  /** A query of plain words separated by single spaces is cut at the spaces. */
  lemma PlainTokens(words: seq<string>)
    requires |words| >= 1 && forall w :: w in words ==> ' ' !in w && '(' !in w && ')' !in w
    ensures TokenizeQuery(Join(words, ' ')) == words
  {
    JoinChars(words);
    TokenizePlain(Join(words, ' '));
    SplitJoin(words, ' ');
  }

  lemma {:induction false} JoinChars(words: seq<string>)
    requires forall w :: w in words ==> '(' !in w && ')' !in w
    ensures '(' !in Join(words, ' ') && ')' !in Join(words, ' ')
    decreases |words|
  {
    if |words| > 1 {
      JoinChars(words[1..]);
    }
  }

  lemma EvalSnoc(p: seq<string>, t: string, stack: seq<set<int>>, index: map<string, set<int>>)
    requires EvalStack(p, index) == Some(stack)
    ensures EvalStack(p + [t], index) == Apply(stack, t, index)
  {
    assert DropLast(p + [t]) == p && Last(p + [t]) == t;
  }

  /** Only the top of the stack is reported: `a b` answers with the pages of `b`. */
  lemma LeftoversIgnored(a: string, b: string, index: map<string, set<int>>)
    requires PlainWord(a) && PlainWord(b)
    ensures Answer(a + " " + b, index) == Results(Lookup(index, b))
  {
    JoinSnoc([a], b, ' ');
    assert [a] + [b] == [a, b];
    NoSpecialChars(a);
    NoSpecialChars(b);
    PlainTokens([a, b]);
    RunA(a);
    RunWord([a], Shunt([a], []), b);
    assert [a] + [b] == [a, b];
    assert [a, b] + Reverse([]) == [a, b];
    EvalAB(a, b, index);
  }

  /** `AND a`: the operator finds one operand only, so the query is invalid. */
  lemma MissingOperand(a: string, index: map<string, set<int>>)
    requires PlainWord(a)
    ensures Answer("AND" + " " + a, index) == InvalidQuery
  {
    JoinSnoc(["AND"], a, ' ');
    assert ["AND"] + [a] == ["AND", a];
    NoSpecialChars(a);
    PlainTokens(["AND", a]);
    RunSingle("AND");
    assert [] + ["AND"] == ["AND"];
    RunWord(["AND"], Shunt([], ["AND"]), a);
    assert ["AND"] + [a] == ["AND", a] && [] + [a] == [a];
    assert [a] + Reverse(["AND"]) == [a, "AND"];
    EvalA(a, index);
    EvalSnoc([a], "AND", [Lookup(index, a)], index);
    assert [a] + ["AND"] == [a, "AND"];
  }

  /** `a)`: the `)` finds no `(` and the conversion raises before the
      `try`, so the script crashes. */
  lemma UnmatchedClose(a: string, index: map<string, set<int>>)
    requires PlainWord(a)
    ensures Answer(a + ")", index) == Crash
  {
    NoSpecialChars(a);
    SpaceParensSingle();
    SpaceParensAppend(a, ")");
    SpaceParensPlain(a);
    assert SpaceParens(a + ")") == a + " " + ")";
    JoinSnoc([a], ")", ' ');
    assert [a] + [")"] == [a, ")"];
    SplitJoin([a, ")"], ' ');
    RunA(a);
    RunSnoc([a], ")", Shunt([a], []));
  }

  lemma NoSpecialChars(w: string)
    requires PlainWord(w)
    ensures ' ' !in w && '(' !in w && ')' !in w
  {
    assert IsLowerLetter('a');
  }

  /** An operator whose precedence is below that of the lone operator on the
      stack pops it first. */
  lemma RunPopOne(p: seq<string>, sh: Shunt, top: string, t: string)
    requires Run(p) == Some(sh) && sh.stack == [top] && IsOperator(t) && Precedence(top) > Precedence(t)
    ensures Run(p + [t]) == Some(Shunt(sh.output + [top], [t]))
  {
    RunSnoc(p, t, sh);
    assert Last(sh.stack) == top && DropLast(sh.stack) == [];
    var popped := Shunt(sh.output + [top], []);
    assert PopHigher(popped, Precedence(t)) == popped;
    assert PopHigher(sh, Precedence(t)) == popped;
    assert [] + [t] == [t];
  }

  /** `a op b op' c` for plain words is cut at the spaces. */
  lemma FiveTokens(a: string, op: string, b: string, op': string, c: string)
    requires PlainWord(a) && PlainWord(b) && PlainWord(c) && IsOperator(op) && IsOperator(op')
    ensures TokenizeQuery(a + " " + op + " " + b + " " + op' + " " + c) == [a, op, b, op', c]
  {
    var l1 := [a];
    var l2 := l1 + [op];
    JoinSnoc(l1, op, ' ');
    var l3 := l2 + [b];
    JoinSnoc(l2, b, ' ');
    var l4 := l3 + [op'];
    JoinSnoc(l3, op', ' ');
    var l5 := l4 + [c];
    JoinSnoc(l4, c, ' ');
    assert l5 == [a, op, b, op', c];
    NoSpecialChars(a);
    NoSpecialChars(b);
    NoSpecialChars(c);
    PlainTokens(l5);
  }

  /** Equal precedences do not pop (the comparison is strict), so
      `a AND b AND c` becomes `a b c AND AND`. */
  lemma ChainedAnd(a: string, b: string, c: string)
    requires PlainWord(a) && PlainWord(b) && PlainWord(c)
    ensures ToPostfix(TokenizeQuery(a + " " + "AND" + " " + b + " " + "AND" + " " + c)) == Some([a, b, c, "AND", "AND"])
  {
    FiveTokens(a, "AND", b, "AND", c);
    ChainedAndRun(a, b, c);
    assert [a, b, c] + Reverse(["AND", "AND"]) == [a, b, c, "AND", "AND"];
  }

  lemma AndRun(a: string, b: string)
    requires PlainWord(a) && PlainWord(b)
    ensures Run([a, "AND", b]) == Some(Shunt([a, b], ["AND"]))
  {
    RunA(a);
    var p1, sh1 := [a], Shunt([a], []);
    RunPush(p1, sh1, "AND");
    var p2, sh2 := p1 + ["AND"], Shunt([a], ["AND"]);
    assert sh1.stack + ["AND"] == sh2.stack;
    RunWord(p2, sh2, b);
    var p3, sh3 := p2 + [b], Shunt([a, b], ["AND"]);
    assert sh2.output + [b] == sh3.output && p3 == [a, "AND", b];
  }

  lemma ChainedAndRun(a: string, b: string, c: string)
    requires PlainWord(a) && PlainWord(b) && PlainWord(c)
    ensures Run([a, "AND", b, "AND", c]) == Some(Shunt([a, b, c], ["AND", "AND"]))
  {
    var p3, sh3 := [a, "AND", b], Shunt([a, b], ["AND"]);
    AndRun(a, b);
    assert Last(sh3.stack) == "AND";
    RunPush(p3, sh3, "AND");
    var p4, sh4 := p3 + ["AND"], Shunt([a, b], ["AND", "AND"]);
    assert sh3.stack + ["AND"] == sh4.stack;
    RunWord(p4, sh4, c);
    var p5 := p4 + [c];
    assert sh4.output + [c] == [a, b, c];
    assert p5 == [a, "AND", b, "AND", c];
  }

  /** `AND` binds tighter than `OR`: `a AND b OR c` becomes `a b AND c OR`. */
  lemma AndBeforeOr(a: string, b: string, c: string)
    requires PlainWord(a) && PlainWord(b) && PlainWord(c)
    ensures ToPostfix(TokenizeQuery(a + " " + "AND" + " " + b + " " + "OR" + " " + c)) == Some([a, b, "AND", c, "OR"])
  {
    FiveTokens(a, "AND", b, "OR", c);
    AndBeforeOrRun(a, b, c);
    assert [a, b, "AND", c] + Reverse(["OR"]) == [a, b, "AND", c, "OR"];
  }

  lemma AndBeforeOrRun(a: string, b: string, c: string)
    requires PlainWord(a) && PlainWord(b) && PlainWord(c)
    ensures Run([a, "AND", b, "OR", c]) == Some(Shunt([a, b, "AND", c], ["OR"]))
  {
    AndOrRun(a, b);
    RunWord([a, "AND", b, "OR"], Shunt([a, b, "AND"], ["OR"]), c);
    assert [a, b, "AND"] + [c] == [a, b, "AND", c];
    assert [a, "AND", b, "OR"] + [c] == [a, "AND", b, "OR", c];
  }

  lemma AndOrRun(a: string, b: string)
    requires PlainWord(a) && PlainWord(b)
    ensures Run([a, "AND", b, "OR"]) == Some(Shunt([a, b, "AND"], ["OR"]))
  {
    AndRun(a, b);
    assert Precedence("AND") == 2 && Precedence("OR") == 1;
    RunPopOne([a, "AND", b], Shunt([a, b], ["AND"]), "AND", "OR");
    assert [a, b] + ["AND"] == [a, b, "AND"];
    assert [a, "AND", b] + ["OR"] == [a, "AND", b, "OR"];
  }

  /** The answer to `(a OR b) AND NOT c`: the pages of `a` or `b` that are in
      the universe and not pages of `c`. */
  lemma GroupedAnswer(a: string, b: string, c: string, index: map<string, set<int>>)
    requires PlainWord(a) && PlainWord(b) && PlainWord(c)
    ensures Answer("(" + a + " " + "OR" + " " + b + ")" + " " + "AND" + " " + "NOT" + " " + c, index)
      == Results(BoolAnd(BoolNot(Lookup(index, c)), BoolOr(Lookup(index, b), Lookup(index, a))))
  {
    GroupedTokens(a, b, c);
    GroupedPostfix(a, b, c);
    GroupedEval(a, b, c, index);
  }

  lemma EvalSingle(t: string, index: map<string, set<int>>)
    ensures EvalStack([t], index) == Apply([], t, index)
  {
    assert DropLast([t]) == [] && Last([t]) == t;
  }

  lemma EvalA(a: string, index: map<string, set<int>>)
    requires PlainWord(a)
    ensures EvalStack([a], index) == Some([Lookup(index, a)])
  {
    PlainWordOperand(a);
    EvalSingle(a, index);
    assert [] + [Lookup(index, a)] == [Lookup(index, a)];
  }

  lemma EvalAB(a: string, b: string, index: map<string, set<int>>)
    requires PlainWord(a) && PlainWord(b)
    ensures EvalStack([a, b], index) == Some([Lookup(index, a), Lookup(index, b)])
  {
    PlainWordOperand(b);
    var sa, sb := Lookup(index, a), Lookup(index, b);
    EvalA(a, index);
    EvalSnoc([a], b, [sa], index);
    assert [a] + [b] == [a, b] && [sa] + [sb] == [sa, sb];
  }

  lemma OrEval(a: string, b: string, index: map<string, set<int>>)
    requires PlainWord(a) && PlainWord(b)
    ensures EvalStack([a, b, "OR"], index) == Some([BoolOr(Lookup(index, b), Lookup(index, a))])
  {
    var sa, sb := Lookup(index, a), Lookup(index, b);
    EvalAB(a, b, index);
    EvalSnoc([a, b], "OR", [sa, sb], index);
    assert [a, b] + ["OR"] == [a, b, "OR"];
    assert [sa, sb][..0] + [BoolOr(sb, sa)] == [BoolOr(sb, sa)];
  }

  lemma OrThenWordEval(a: string, b: string, c: string, index: map<string, set<int>>)
    requires PlainWord(a) && PlainWord(b) && PlainWord(c)
    ensures EvalStack([a, b, "OR", c], index) == Some([BoolOr(Lookup(index, b), Lookup(index, a)), Lookup(index, c)])
  {
    PlainWordOperand(c);
    var or := BoolOr(Lookup(index, b), Lookup(index, a));
    OrEval(a, b, index);
    EvalSnoc([a, b, "OR"], c, [or], index);
    assert [a, b, "OR"] + [c] == [a, b, "OR", c] && [or] + [Lookup(index, c)] == [or, Lookup(index, c)];
  }

  lemma OrThenNotEval(a: string, b: string, c: string, index: map<string, set<int>>)
    requires PlainWord(a) && PlainWord(b) && PlainWord(c)
    ensures EvalStack([a, b, "OR", c, "NOT"], index) == Some([BoolOr(Lookup(index, b), Lookup(index, a)), BoolNot(Lookup(index, c))])
  {
    var sc := Lookup(index, c);
    var or := BoolOr(Lookup(index, b), Lookup(index, a));
    OrThenWordEval(a, b, c, index);
    EvalSnoc([a, b, "OR", c], "NOT", [or, sc], index);
    assert [a, b, "OR", c] + ["NOT"] == [a, b, "OR", c, "NOT"];
    assert DropLast([or, sc]) + [BoolNot(sc)] == [or, BoolNot(sc)];
  }

  lemma GroupedEval(a: string, b: string, c: string, index: map<string, set<int>>)
    requires PlainWord(a) && PlainWord(b) && PlainWord(c)
    ensures EvalStack([a, b, "OR", c, "NOT", "AND"], index)
      == Some([BoolAnd(BoolNot(Lookup(index, c)), BoolOr(Lookup(index, b), Lookup(index, a)))])
  {
    var or := BoolOr(Lookup(index, b), Lookup(index, a));
    var not := BoolNot(Lookup(index, c));
    OrThenNotEval(a, b, c, index);
    EvalSnoc([a, b, "OR", c, "NOT"], "AND", [or, not], index);
    assert [a, b, "OR", c, "NOT"] + ["AND"] == [a, b, "OR", c, "NOT", "AND"];
    assert [or, not][..0] + [BoolAnd(not, or)] == [BoolAnd(not, or)];
  }
}
