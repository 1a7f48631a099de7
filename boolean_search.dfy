/** The boolean query engine: the query tokenizer, the shunting-yard
    conversion to postfix with the engine's own precedence table, the three
    set operators over the page universe 1..100 and the stack evaluation of
    the postfix form against an inverted index. */
module BooleanSearch {
  import opened Wrappers
  import opened Seqs
  import opened Text

  /** `all_pages`: the universe that `NOT` complements against. */
  const AllPages: set<int> := set n | 1 <= n <= 100

  // ---------------------------------------------------------------- tokenizer

  /** The two rewrites before splitting: a space after every `(` and before
      every `)`. */
  function SpaceParens(query: string): string {
    ReplaceChar(ReplaceChar(query, '(', "( "), ')', " )")
  }

  /** `tokenize_query`: the rewritten query cut at every single space. */
  function TokenizeQuery(query: string): seq<string> {
    Split(SpaceParens(query), ' ')
  }

  /** The tokens hold no space, and joining them with one space gives the
      rewritten query back. */
  lemma TokenizeQueryJoin(query: string)
    ensures forall t :: t in TokenizeQuery(query) ==> ' ' !in t
    ensures Join(TokenizeQuery(query), ' ') == SpaceParens(query)
  {
    SplitParts(SpaceParens(query), ' ');
    JoinSplit(SpaceParens(query), ' ');
  }

  /** A query without parentheses is cut as it stands. */
  lemma TokenizePlain(query: string)
    requires '(' !in query && ')' !in query
    ensures TokenizeQuery(query) == Split(query, ' ')
  {
    ReplaceAbsent(query, '(', "( ");
    ReplaceAbsent(query, ')', " )");
  }

  /** Two spaces in a row yield an empty token between the tokens of the two
      sides. */
  lemma TokenizeDoubledSpace(a: string, b: string)
    requires '(' !in a && ')' !in a && '(' !in b && ')' !in b
    ensures TokenizeQuery(a + "  " + b) == Split(a, ' ') + [""] + Split(b, ' ')
  {
    var s := a + "  " + b;
    assert s == a + [' ', ' '] + b;
    TokenizePlain(s);
    SplitDoubleSeparator(a, b, ' ');
  }

  // ------------------------------------------------------- infix to postfix

  predicate IsOperator(t: string) {
    t == "NOT" || t == "AND" || t == "OR"
  }

  /** The keys of the precedence table of `convert_to_postfix`. */
  predicate InTable(t: string) {
    IsOperator(t) || t == "(" || t == ")"
  }

  /** The precedence table: `NOT` 3, `AND` 2, `OR` 1, both parentheses 0.
      Only `(` and operators are ever looked up. */
  function Precedence(t: string): nat {
    if t == "NOT" then 3 else if t == "AND" then 2 else if t == "OR" then 1 else 0
  }

  /** `(` has the lowest precedence, so no operator pops it. */
  lemma ParenPrecedence()
    ensures Precedence("(") == 0
  {
    assert "(" != "NOT" && "(" != "AND" && "(" != "OR";
  }

  /** A token the converter copies to the output (lower-cased). */
  predicate IsOperand(t: string) {
    !InTable(t)
  }

  /** The converter's state: the output list and the operator stack, whose
      top is its last element. */
  datatype Shunt = Shunt(output: seq<string>, stack: seq<string>)

  /** The inner loop for an incoming operator of precedence `p`: pop and emit
      while the top of the stack has a precedence strictly greater than `p`. */
  function PopHigher(sh: Shunt, p: nat): Shunt
    decreases |sh.stack|
  {
    if sh.stack != [] && Precedence(Last(sh.stack)) > p then
      PopHigher(Shunt(sh.output + [Last(sh.stack)], DropLast(sh.stack)), p)
    else
      sh
  }

  /** What `PopHigher` pops is a suffix of the stack, emitted top first;
      everything popped has a precedence strictly above `p`, and the entry
      left on top (if any) does not. */
  lemma {:induction false} PopHigherPops(sh: Shunt, p: nat)
    ensures var r := PopHigher(sh, p);
      && |r.stack| <= |sh.stack| && r.stack == sh.stack[..|r.stack|]
      && r.output == sh.output + Reverse(sh.stack[|r.stack|..])
      && (forall k :: |r.stack| <= k < |sh.stack| ==> Precedence(sh.stack[k]) > p)
      && (r.stack != [] ==> Precedence(Last(r.stack)) <= p)
    decreases |sh.stack|
  {
    if sh.stack != [] && Precedence(Last(sh.stack)) > p {
      var next := Shunt(sh.output + [Last(sh.stack)], DropLast(sh.stack));
      PopHigherPops(next, p);
      var r := PopHigher(next, p);
      PopsStep(sh.stack, sh.output, r.stack, r.output, p);
    } else {
      assert sh.stack[|sh.stack|..] == [];
    }
  }

  /** One more pop: what holds of the popped run below the top also holds
      once the top, which outranks `p`, is added to it. */
  lemma PopsStep(stack: seq<string>, output: seq<string>, kept: seq<string>, out: seq<string>, p: nat)
    requires stack != [] && Precedence(Last(stack)) > p
    requires var s := DropLast(stack);
      && |kept| <= |s| && kept == s[..|kept|]
      && out == output + [Last(stack)] + Reverse(s[|kept|..])
      && (forall k :: |kept| <= k < |s| ==> Precedence(s[k]) > p)
    ensures |kept| <= |stack| && kept == stack[..|kept|]
    ensures out == output + Reverse(stack[|kept|..])
    ensures forall k :: |kept| <= k < |stack| ==> Precedence(stack[k]) > p
  {
    var n := |kept|;
    PopSuffix(stack, n);
    assert out == output + ([Last(stack)] + Reverse(DropLast(stack)[n..]));
  }

  /** Popping the top of a stack whose first `n` entries stay: the popped
      suffix, reversed, is the top followed by the rest reversed. */
  lemma PopSuffix(stack: seq<string>, n: nat)
    requires n < |stack|
    ensures [Last(stack)] + Reverse(DropLast(stack)[n..]) == Reverse(stack[n..])
    ensures stack[..n] == DropLast(stack)[..n]
    ensures forall k :: n <= k < |stack| - 1 ==> DropLast(stack)[k] == stack[k]
  {
    var t := stack[n..];
    assert Last(t) == Last(stack) && DropLast(t) == DropLast(stack)[n..];
  }

  /** The loop for `)`: pop and emit down to the nearest `(`, which is
      dropped. `None` when the stack runs out first (the `pop` from an
      empty list). */
  function PopToParen(sh: Shunt): Option<Shunt>
    decreases |sh.stack|
  {
    if sh.stack == [] then None
    else if Last(sh.stack) == "(" then Some(Shunt(sh.output, DropLast(sh.stack)))
    else PopToParen(Shunt(sh.output + [Last(sh.stack)], DropLast(sh.stack)))
  }

  /** `PopToParen` succeeds exactly when a `(` is on the stack; it then stops
      at the nearest one, emits what lay above it top first, and drops it. */
  lemma {:induction false} PopToParenPops(sh: Shunt)
    ensures PopToParen(sh).Some? <==> "(" in sh.stack
    ensures PopToParen(sh).Some? ==>
      var r, n := PopToParen(sh).value, |PopToParen(sh).value.stack|;
      && n < |sh.stack| && r.stack == sh.stack[..n] && sh.stack[n] == "("
      && "(" !in sh.stack[n + 1..]
      && r.output == sh.output + Reverse(sh.stack[n + 1..])
    decreases |sh.stack|
  {
    if sh.stack == [] {
    } else if Last(sh.stack) == "(" {
      assert sh.stack[|sh.stack|..] == [];
    } else {
      var top, rest := Last(sh.stack), DropLast(sh.stack);
      var next := Shunt(sh.output + [top], rest);
      DropLastLast(sh.stack);
      PopToParenPops(next);
      assert PopToParen(sh) == PopToParen(next);
      if PopToParen(next).Some? {
        var r := PopToParen(next).value;
        ParenStep(sh.stack, sh.output, r.stack, r.output);
      }
    }
  }

  /** One more pop on the way down to `(`: the top, which is not `(`, joins
      the emitted run. */
  lemma ParenStep(stack: seq<string>, output: seq<string>, kept: seq<string>, out: seq<string>)
    requires stack != [] && Last(stack) != "("
    requires var s, n := DropLast(stack), |kept|;
      && n < |s| && kept == s[..n] && s[n] == "("
      && "(" !in s[n + 1..]
      && out == output + [Last(stack)] + Reverse(s[n + 1..])
    ensures var n := |kept|;
      && n < |stack| && kept == stack[..n] && stack[n] == "("
      && "(" !in stack[n + 1..]
      && out == output + Reverse(stack[n + 1..])
  {
    var n := |kept|;
    PopSuffix(stack, n + 1);
    assert stack[n + 1..] == DropLast(stack)[n + 1..] + [Last(stack)];
    assert out == output + ([Last(stack)] + Reverse(DropLast(stack)[n + 1..]));
  }

  /** One pass of the conversion loop; `None` when the token raises. */
  function Step(sh: Shunt, token: string): Option<Shunt> {
    if token == "(" then Some(Shunt(sh.output, sh.stack + [token]))
    else if token == ")" then PopToParen(sh)
    else if InTable(token) then
      var s := PopHigher(sh, Precedence(token));
      Some(Shunt(s.output, s.stack + [token]))
    else Some(Shunt(sh.output + [Lower(token)], sh.stack))
  }

  /** The conversion loop over `tokens`, before the final drain. */
  function Run(tokens: seq<string>): Option<Shunt>
    decreases |tokens|
  {
    if tokens == [] then Some(Shunt([], []))
    else
      match Run(DropLast(tokens))
      case None => None
      case Some(sh) => Step(sh, Last(tokens))
  }

  /** `convert_to_postfix`: the loop, then the stack emitted top first.
      `None` stands for the IndexError of an unmatched `)`. */
  function ToPostfix(tokens: seq<string>): Option<seq<string>> {
    match Run(tokens)
    case None => None
    case Some(sh) => Some(sh.output + Reverse(sh.stack))
  }

  /** Once the loop has raised, it stays raised. */
  lemma {:induction false} RunNoneExtends(tokens: seq<string>, i: nat)
    requires i <= |tokens| && Run(tokens[..i]) == None
    ensures Run(tokens) == None
    decreases |tokens| - i
  {
    if i < |tokens| {
      assert DropLast(tokens[..i + 1]) == tokens[..i];
      RunNoneExtends(tokens, i + 1);
    } else {
      assert tokens[..i] == tokens;
    }
  }

  /** The inner loop of the operator branch. */
  method PopHigherLoop(output: seq<string>, stack: seq<string>, p: nat) returns (output': seq<string>, stack': seq<string>)
    ensures Shunt(output', stack') == PopHigher(Shunt(output, stack), p)
  {
    output', stack' := output, stack;
    if stack' != [] {
      var current := Last(stack');
      while stack' != [] && Precedence(current) > p
        invariant stack' != [] ==> current == Last(stack')
        invariant PopHigher(Shunt(output', stack'), p) == PopHigher(Shunt(output, stack), p)
        decreases |stack'|
      {
        output' := output' + [Last(stack')];
        stack' := DropLast(stack');
        if stack' != [] {
          current := Last(stack');
        }
      }
    }
  }

  /** The branch for `)`; `None` when a `pop` meets an empty stack. */
  method PopToParenLoop(output: seq<string>, stack: seq<string>) returns (r: Option<Shunt>)
    ensures r == PopToParen(Shunt(output, stack))
  {
    if stack == [] {
      return None;
    }
    var output', stack' := output, DropLast(stack);
    var operator := Last(stack);
    DropLastLast(stack);
    while operator != "("
      invariant PopToParen(Shunt(output, stack)) == PopToParen(Shunt(output', stack' + [operator]))
      decreases |stack'|
    {
      assert DropLast(stack' + [operator]) == stack';
      output' := output' + [operator];
      if stack' == [] {
        return None;
      }
      operator := Last(stack');
      stack' := DropLast(stack');
    }
    assert DropLast(stack' + [operator]) == stack';
    return Some(Shunt(output', stack'));
  }

  /** `convert_to_postfix` as the source runs it, over a list used as a
      stack. */
  method ConvertToPostfix(infix: seq<string>) returns (postfix: Option<seq<string>>)
    ensures postfix == ToPostfix(infix)
  {
    var output: seq<string> := [];
    var stack: seq<string> := [];
    var i := 0;
    while i < |infix|
      invariant i <= |infix|
      invariant Run(infix[..i]) == Some(Shunt(output, stack))
    {
      var token := infix[i];
      assert DropLast(infix[..i + 1]) == infix[..i] && Last(infix[..i + 1]) == token;
      if token == "(" {
        stack := stack + [token];
      } else if token == ")" {
        var popped := PopToParenLoop(output, stack);
        if popped == None {
          RunNoneExtends(infix, i + 1);
          return None;
        }
        output, stack := popped.value.output, popped.value.stack;
      } else if InTable(token) {
        output, stack := PopHigherLoop(output, stack, Precedence(token));
        stack := stack + [token];
      } else {
        output := output + [Lower(token)];
      }
      i := i + 1;
    }
    assert infix[..i] == infix;
    ghost var final := output + Reverse(stack);
    while stack != []
      invariant output + Reverse(stack) == final
      decreases |stack|
    {
      DropLastLast(stack);
      assert Reverse(stack) == [Last(stack)] + Reverse(DropLast(stack));
      output := output + [Last(stack)];
      stack := DropLast(stack);
    }
    assert output + Reverse([]) == output;
    return Some(output);
  }

  // ---------------------------------------------- what the conversion keeps

  /** `str.lower()` applied to each token. */
  function LowerAll(ts: seq<string>): seq<string>
    decreases |ts|
  {
    if ts == [] then [] else LowerAll(DropLast(ts)) + [Lower(Last(ts))]
  }

  /** The operand tokens of `s`, in order. */
  function Operands(s: seq<string>): seq<string>
    decreases |s|
  {
    if s == [] then [] else Operands(DropLast(s)) + (if IsOperand(Last(s)) then [Last(s)] else [])
  }

  lemma {:induction false} OperandsAppend(a: seq<string>, b: seq<string>)
    ensures Operands(a + b) == Operands(a) + Operands(b)
    decreases |b|
  {
    if b == [] {
      assert a + b == a;
    } else {
      OperandsAppend(a, DropLast(b));
      assert DropLast(a + b) == a + DropLast(b) && Last(a + b) == Last(b);
    }
  }

  lemma {:induction false} OperandsNone(s: seq<string>)
    requires forall e :: e in s ==> !IsOperand(e)
    ensures Operands(s) == []
    decreases |s|
  {
    if s != [] {
      assert Last(s) in s;
      assert forall e :: e in DropLast(s) ==> e in s;
      OperandsNone(DropLast(s));
    }
  }

  /** Lower-casing never turns an operand into an operator or a parenthesis:
      the three operators are upper case, and only `(`/`)` lower to `(`/`)`. */
  lemma LowerOperand(t: string)
    requires IsOperand(t)
    ensures IsOperand(Lower(t))
  {
    if |t| > 0 {
      assert Lower(t)[0] == LowerChar(t[0]);
    }
  }

  /** Nesting depth after `tokens`: each `(` opens, each `)` closes. */
  function Delta(t: string): int {
    if t == "(" then 1 else if t == ")" then -1 else 0
  }

  function Depth(tokens: seq<string>): int
    decreases |tokens|
  {
    if tokens == [] then 0 else Depth(DropLast(tokens)) + Delta(Last(tokens))
  }

  /** No prefix of `tokens` closes more parentheses than it opened. */
  predicate NeverNegative(tokens: seq<string>)
    decreases |tokens|
  {
    tokens == [] || (NeverNegative(DropLast(tokens)) && Depth(tokens) >= 0)
  }

  predicate Balanced(tokens: seq<string>) {
    NeverNegative(tokens) && Depth(tokens) == 0
  }

  /** `NeverNegative` is the statement about every prefix. */
  lemma {:induction false} NeverNegativePrefixes(tokens: seq<string>)
    ensures NeverNegative(tokens) <==> forall i :: 0 <= i <= |tokens| ==> Depth(tokens[..i]) >= 0
    decreases |tokens|
  {
    if tokens != [] {
      var p := DropLast(tokens);
      NeverNegativePrefixes(p);
      assert tokens[..|tokens|] == tokens;
      forall i | 0 <= i <= |p|
        ensures tokens[..i] == p[..i]
      {
      }
    } else {
      assert tokens[..0] == tokens;
    }
  }

  lemma NeverNegativeSnoc(p: seq<string>, t: string)
    ensures NeverNegative(p + [t]) <==> NeverNegative(p) && Depth(p) + Delta(t) >= 0
  {
    var q := p + [t];
    assert DropLast(q) == p && Last(q) == t;
  }

  /** Only `(` and the three operators are ever pushed. */
  ghost predicate StackOk(sh: Shunt) {
    forall e :: e in sh.stack ==> e == "(" || IsOperator(e)
  }

  /** How many times `NOT`, `AND` and `OR` occur. */
  function OperatorCounts(s: seq<string>): (nat, nat, nat) {
    (multiset(s)["NOT"], multiset(s)["AND"], multiset(s)["OR"])
  }

  /** What holds after the loop has read `tokens` without raising: the stack
      holds one `(` per open parenthesis, no parenthesis has reached the
      output, and output and stack together hold each operator as often as
      the tokens do. */
  ghost predicate ParensOk(sh: Shunt, tokens: seq<string>) {
    && StackOk(sh)
    && multiset(sh.stack)["("] == Depth(tokens)
    && multiset(sh.output)["("] == 0 && multiset(sh.output)[")"] == 0
    && OperatorCounts(sh.output + sh.stack) == OperatorCounts(tokens)
  }

  lemma TokensSnoc(p: seq<string>, t: string)
    ensures Depth(p + [t]) == Depth(p) + Delta(t)
    ensures multiset(p + [t]) == multiset(p) + multiset{t}
    ensures Operands(p + [t]) == Operands(p) + (if IsOperand(t) then [t] else [])
  {
    var q := p + [t];
    assert DropLast(q) == p && Last(q) == t;
  }

  /** A multiset holding none of the three operators. */
  ghost predicate NoOperator(m: multiset<string>) {
    m["NOT"] == 0 && m["AND"] == 0 && m["OR"] == 0
  }

  /** Adding or removing non-operators leaves the operator counts alone. */
  lemma CountsUnchanged(a: seq<string>, a': seq<string>, x: multiset<string>, y: multiset<string>)
    requires multiset(a') + x == multiset(a) + y && NoOperator(x) && NoOperator(y)
    ensures OperatorCounts(a') == OperatorCounts(a)
  {
    assert (multiset(a') + x)["NOT"] == (multiset(a) + y)["NOT"];
    assert (multiset(a') + x)["AND"] == (multiset(a) + y)["AND"];
    assert (multiset(a') + x)["OR"] == (multiset(a) + y)["OR"];
  }

  /** Adding the same entry on both sides keeps the operator counts equal. */
  lemma CountsAddSame(a: seq<string>, b: seq<string>, a': seq<string>, b': seq<string>, x: string)
    requires OperatorCounts(a) == OperatorCounts(b)
    requires multiset(a') == multiset(a) + multiset{x} && multiset(b') == multiset(b) + multiset{x}
    ensures OperatorCounts(a') == OperatorCounts(b')
  {
  }

  lemma NoOperatorSingle(x: string)
    requires !IsOperator(x)
    ensures NoOperator(multiset{x})
  {
  }

  /** Moving a run of entries without `(` from the top of the stack to the
      output, top first. */
  lemma Transfer(sh: Shunt, p: seq<string>, kept: seq<string>, moved: seq<string>)
    requires ParensOk(sh, p) && sh.stack == kept + moved && "(" !in moved
    ensures ParensOk(Shunt(sh.output + Reverse(moved), kept), p)
  {
    var out' := sh.output + Reverse(moved);
    MovedRun(sh.stack, kept, moved);
    ReverseMultiset(moved);
    assert multiset(out') == multiset(sh.output) + multiset(moved);
    assert multiset(out' + kept) == multiset(sh.output + sh.stack);
  }

  /** A run without `(` split off the top of a stack of `(` and operators
      holds no parenthesis at all, and what stays is still such a stack. */
  lemma MovedRun(stack: seq<string>, kept: seq<string>, moved: seq<string>)
    requires StackOk(Shunt([], stack)) && stack == kept + moved && "(" !in moved
    ensures StackOk(Shunt([], kept))
    ensures multiset(moved)["("] == 0 && multiset(moved)[")"] == 0
    ensures multiset(stack) == multiset(kept) + multiset(moved)
  {
    assert forall e :: e in kept ==> e in stack;
    assert forall e :: e in moved ==> e in stack;
    assert ")" !in moved;
  }

  /** Dropping the `(` on top of the stack for a `)`. */
  lemma DropParen(sh: Shunt, p: seq<string>, kept: seq<string>)
    requires ParensOk(sh, p) && sh.stack == kept + ["("]
    ensures ParensOk(Shunt(sh.output, kept), p + [")"])
  {
    TokensSnoc(p, ")");
    assert forall e :: e in kept ==> e in sh.stack;
    assert multiset(sh.output + kept) + multiset{"("} == multiset(sh.output + sh.stack);
    NoOperatorSingle("(");
    NoOperatorSingle(")");
    CountsUnchanged(sh.output + sh.stack, sh.output + kept, multiset{"("}, multiset{});
    CountsUnchanged(p, p + [")"], multiset{}, multiset{")"});
  }

  /** Pushing an operator. */
  lemma PushOperator(sh: Shunt, p: seq<string>, t: string)
    requires ParensOk(sh, p) && IsOperator(t)
    ensures ParensOk(Shunt(sh.output, sh.stack + [t]), p + [t])
  {
    TokensSnoc(p, t);
    var out, st := sh.output, sh.stack;
    assert t != "(" && Delta(t) == 0;
    assert multiset(st + [t]) == multiset(st) + multiset{t};
    assert multiset(out + (st + [t])) == multiset(out + st) + multiset{t};
    CountsAddSame(out + st, p, out + (st + [t]), p + [t], t);
  }

  lemma StepParensClose(sh: Shunt, p: seq<string>)
    requires ParensOk(sh, p) && Depth(p) >= 0
    ensures Step(sh, ")").Some? <==> Depth(p) + Delta(")") >= 0
    ensures Step(sh, ")").Some? ==> ParensOk(Step(sh, ")").value, p + [")"])
  {
    TokensSnoc(p, ")");
    PopToParenMoves(sh);
    if PopToParen(sh).Some? {
      var r := PopToParen(sh).value;
      var kept := r.stack + ["("];
      Transfer(sh, p, kept, sh.stack[|kept|..]);
      DropParen(Shunt(r.output, kept), p, r.stack);
    } else {
      assert multiset(sh.stack)["("] == 0;
    }
  }

  /** `PopToParen` splits the stack at the nearest `(`: what lies above it
      goes to the output top first, and the `(` itself is dropped. */
  lemma PopToParenMoves(sh: Shunt)
    ensures PopToParen(sh).None? ==> "(" !in sh.stack
    ensures PopToParen(sh).Some? ==> |PopToParen(sh).value.stack| < |sh.stack|
    ensures PopToParen(sh).Some? ==>
      var r := PopToParen(sh).value; var kept := r.stack + ["("]; var moved := sh.stack[|kept|..];
      && sh.stack == kept + moved && "(" !in moved
      && r.output == sh.output + Reverse(moved)
  {
    PopToParenPops(sh);
    if PopToParen(sh).Some? {
      var r := PopToParen(sh).value;
      var n := |r.stack|;
      assert sh.stack[..n + 1] == r.stack + ["("];
      assert sh.stack == sh.stack[..n + 1] + sh.stack[n + 1..];
    }
  }

  /** For an operator's precedence, `PopHigher` moves a run without `(`
      from the top of the stack to the output. */
  lemma PopHigherMoves(sh: Shunt, p: nat)
    requires p >= 1
    ensures |PopHigher(sh, p).stack| <= |sh.stack|
    ensures var r := PopHigher(sh, p); var moved := sh.stack[|r.stack|..];
      && sh.stack == r.stack + moved && "(" !in moved
      && r.output == sh.output + Reverse(moved)
  {
    PopHigherPops(sh, p);
    var r := PopHigher(sh, p);
    NoParenAbove(sh.stack, r.stack, p);
  }

  /** Entries that outrank an operator's precedence are not `(`. */
  lemma NoParenAbove(s: seq<string>, kept: seq<string>, p: nat)
    requires p >= 1 && |kept| <= |s| && kept == s[..|kept|]
    requires forall k :: |kept| <= k < |s| ==> Precedence(s[k]) > p
    ensures s == kept + s[|kept|..] && "(" !in s[|kept|..]
  {
    var n := |kept|;
    ParenPrecedence();
    forall j | 0 <= j < |s| - n
      ensures s[n..][j] != "("
    {
      assert s[n..][j] == s[n + j];
    }
  }

  lemma StepParensOperator(sh: Shunt, p: seq<string>, t: string)
    requires ParensOk(sh, p) && IsOperator(t)
    ensures Step(sh, t).Some? && ParensOk(Step(sh, t).value, p + [t])
  {
    var r := PopHigher(sh, Precedence(t));
    PopHigherMoves(sh, Precedence(t));
    Transfer(sh, p, r.stack, sh.stack[|r.stack|..]);
    PushOperator(r, p, t);
  }

  /** Pushing `(`: one more open parenthesis on the stack. */
  lemma PushParen(sh: Shunt, p: seq<string>)
    requires ParensOk(sh, p)
    ensures ParensOk(Shunt(sh.output, sh.stack + ["("]), p + ["("])
  {
    TokensSnoc(p, "(");
    var out, st := sh.output, sh.stack;
    var st' := st + ["("];
    assert multiset(st') == multiset(st) + multiset{"("};
    assert multiset(out + st') == multiset(out + st) + multiset{"("};
    CountsAddSame(out + st, p, out + st', p + ["("], "(");
    assert forall e :: e in st' ==> e in st || e == "(";
  }

  /** Emitting an operand `l` for the token `t`. */
  lemma EmitOperand(sh: Shunt, p: seq<string>, t: string, l: string)
    requires ParensOk(sh, p) && IsOperand(t) && IsOperand(l)
    ensures ParensOk(Shunt(sh.output + [l], sh.stack), p + [t])
  {
    TokensSnoc(p, t);
    var out, st := sh.output, sh.stack;
    assert multiset(out + [l]) == multiset(out) + multiset{l};
    assert multiset(out + [l] + st) == multiset(out + st) + multiset{l};
    NoOperatorSingle(l);
    NoOperatorSingle(t);
    CountsUnchanged(out + st, out + [l] + st, multiset{}, multiset{l});
    CountsUnchanged(p, p + [t], multiset{}, multiset{t});
  }

  lemma StepParensOthers(sh: Shunt, p: seq<string>, t: string)
    requires ParensOk(sh, p) && !IsOperator(t) && t != ")"
    ensures Step(sh, t).Some? && ParensOk(Step(sh, t).value, p + [t])
  {
    if t == "(" {
      PushParen(sh, p);
    } else {
      LowerOperand(t);
      EmitOperand(sh, p, t, Lower(t));
    }
  }

  /** The loop succeeds exactly when no prefix has more `)` than `(`, and
      then `ParensOk` holds. */
  lemma {:induction false} RunParens(tokens: seq<string>)
    ensures Run(tokens).Some? <==> NeverNegative(tokens)
    ensures Run(tokens).Some? ==> ParensOk(Run(tokens).value, tokens)
    decreases |tokens|
  {
    if tokens != [] {
      var p, t := DropLast(tokens), Last(tokens);
      DropLastLast(tokens);
      RunParens(p);
      NeverNegativeSnoc(p, t);
      if Run(p).Some? {
        var sh := Run(p).value;
        if t == ")" {
          StepParensClose(sh, p);
        } else if IsOperator(t) {
          StepParensOperator(sh, p, t);
        } else {
          StepParensOthers(sh, p, t);
        }
      }
    }
  }

  /** Entries moved from the stack to the output add no operand. */
  lemma MovedNoOperands(output: seq<string>, moved: seq<string>)
    requires forall e :: e in moved ==> e == "(" || IsOperator(e)
    ensures Operands(output + Reverse(moved)) == Operands(output)
  {
    OperandsAppend(output, Reverse(moved));
    ReverseMembers(moved);
    OperandsNone(Reverse(moved));
    assert Operands(output) + [] == Operands(output);
  }

  lemma StepOperands(sh: Shunt, p: seq<string>, t: string)
    requires StackOk(sh) && Operands(sh.output) == LowerAll(Operands(p))
    ensures Step(sh, t).Some? ==> Operands(Step(sh, t).value.output) == LowerAll(Operands(p + [t]))
  {
    TokensSnoc(p, t);
    var s := sh.stack;
    if t == "(" {
      assert Operands(p) + [] == Operands(p);
    } else if t == ")" {
      PopToParenPops(sh);
      assert Operands(p) + [] == Operands(p);
      if PopToParen(sh).Some? {
        var n := |PopToParen(sh).value.stack|;
        assert forall e :: e in s[n + 1..] ==> e in s;
        MovedNoOperands(sh.output, s[n + 1..]);
      }
    } else if IsOperator(t) {
      PopHigherPops(sh, Precedence(t));
      assert Operands(p) + [] == Operands(p);
      var n := |PopHigher(sh, Precedence(t)).stack|;
      assert forall e :: e in s[n..] ==> e in s;
      MovedNoOperands(sh.output, s[n..]);
    } else {
      LowerOperand(t);
      var l := Lower(t);
      assert DropLast(sh.output + [l]) == sh.output && Last(sh.output + [l]) == l;
      var ops := Operands(p) + [t];
      assert DropLast(ops) == Operands(p) && Last(ops) == t;
    }
  }

  lemma {:induction false} RunOperands(tokens: seq<string>)
    ensures Run(tokens).Some? ==> Operands(Run(tokens).value.output) == LowerAll(Operands(tokens))
    decreases |tokens|
  {
    if tokens != [] {
      var p, t := DropLast(tokens), Last(tokens);
      DropLastLast(tokens);
      RunOperands(p);
      RunParens(p);
      if Run(p).Some? {
        StepOperands(Run(p).value, p, t);
      }
    }
  }

  /** An unmatched `)` is exactly what makes the conversion raise. */
  lemma PostfixRaisesIff(tokens: seq<string>)
    ensures ToPostfix(tokens).None? <==> !NeverNegative(tokens)
  {
    RunParens(tokens);
  }

  /** Operands come out lower-cased and in their original relative order. */
  lemma OperandsInOrder(tokens: seq<string>)
    requires ToPostfix(tokens).Some?
    ensures Operands(ToPostfix(tokens).value) == LowerAll(Operands(tokens))
  {
    RunParens(tokens);
    RunOperands(tokens);
    var sh := Run(tokens).value;
    MovedNoOperands(sh.output, sh.stack);
  }

  /** For balanced input the conversion succeeds, no parenthesis reaches the
      output, and every operator occurs in the output as often as in the
      input. */
  lemma BalancedPostfix(tokens: seq<string>)
    requires Balanced(tokens)
    ensures ToPostfix(tokens).Some?
    ensures "(" !in ToPostfix(tokens).value && ")" !in ToPostfix(tokens).value
    ensures OperatorCounts(ToPostfix(tokens).value) == OperatorCounts(tokens)
  {
    RunParens(tokens);
    var sh := Run(tokens).value;
    var out := sh.output + Reverse(sh.stack);
    ReverseMultiset(sh.stack);
    assert multiset(out) == multiset(sh.output + sh.stack);
    assert ")" !in sh.stack;
    assert multiset(out)["("] == 0 && multiset(out)[")"] == 0;
  }

  // ------------------------------------------------------------ set operators

  /** `bool_and`. */
  function BoolAnd(set1: set<int>, set2: set<int>): (r: set<int>)
    ensures r <= set1 && r <= set2
    ensures forall x :: x in set1 && x in set2 ==> x in r
  {
    set1 * set2
  }

  /** `bool_or`. */
  function BoolOr(set1: set<int>, set2: set<int>): (r: set<int>)
    ensures set1 <= r && set2 <= r
    ensures forall x :: x in r ==> x in set1 || x in set2
  {
    set1 + set2
  }

  /** `bool_not`: the complement within the page universe, whatever the
      argument holds outside it. */
  function BoolNot(set1: set<int>): (r: set<int>)
    ensures r <= AllPages
    ensures forall x :: x in r <==> 1 <= x <= 100 && x !in set1
  {
    AllPages - set1
  }

  /** Negating twice gives back the argument restricted to the universe:
      pages outside 1..100 are lost. */
  lemma NotNot(set1: set<int>)
    ensures BoolNot(BoolNot(set1)) == set1 * AllPages
  {
    var r := BoolNot(BoolNot(set1));
    forall x | x in set1 * AllPages
      ensures x in r
    {
    }
  }

  /** De Morgan's laws hold within the universe. */
  lemma DeMorgan(set1: set<int>, set2: set<int>)
    ensures BoolNot(BoolOr(set1, set2)) == BoolAnd(BoolNot(set1), BoolNot(set2))
    ensures BoolNot(BoolAnd(set1, set2)) == BoolOr(BoolNot(set1), BoolNot(set2))
  {
  }

  // ------------------------------------------------------ postfix evaluation

  /** The pages of an operand: its posting set, or the empty set for a word
      the index does not hold. */
  function Lookup(index: map<string, set<int>>, token: string): (r: set<int>)
    ensures token in index ==> r == index[token]
    ensures token !in index ==> r == {}
  {
    if token in index then index[token] else {}
  }

  /** One pass of the evaluation loop over a stack of page sets (top last).
      `AND` and `OR` pop the top into `set1` and the next into `set2`; `NOT`
      pops one. `None` when a `pop` finds the stack empty. Every token that is
      not one of the three operators is an operand. */
  function Apply(stack: seq<set<int>>, token: string, index: map<string, set<int>>): Option<seq<set<int>>> {
    if token == "AND" || token == "OR" then
      if |stack| < 2 then None
      else
        var set1, set2 := stack[|stack| - 1], stack[|stack| - 2];
        var rest := stack[..|stack| - 2];
        Some(rest + [if token == "AND" then BoolAnd(set1, set2) else BoolOr(set1, set2)])
    else if token == "NOT" then
      if |stack| < 1 then None else Some(DropLast(stack) + [BoolNot(Last(stack))])
    else Some(stack + [Lookup(index, token)])
  }

  /** The evaluation loop over `tokens`. */
  function EvalStack(tokens: seq<string>, index: map<string, set<int>>): Option<seq<set<int>>>
    decreases |tokens|
  {
    if tokens == [] then Some([])
    else
      match EvalStack(DropLast(tokens), index)
      case None => None
      case Some(stack) => Apply(stack, Last(tokens), index)
  }

  /** The loop followed by the final `pop`: the top of the stack, or `None`
      (the engine's "invalid query") when a `pop` finds the stack empty.
      Entries below the top are ignored. */
  function Evaluate(postfix: seq<string>, index: map<string, set<int>>): Option<set<int>> {
    match EvalStack(postfix, index)
    case None => None
    case Some(stack) => if stack == [] then None else Some(Last(stack))
  }

  /** Once a `pop` has failed, evaluation stays failed. */
  lemma {:induction false} EvalNoneExtends(tokens: seq<string>, i: nat, index: map<string, set<int>>)
    requires i <= |tokens| && EvalStack(tokens[..i], index) == None
    ensures EvalStack(tokens, index) == None
    decreases |tokens| - i
  {
    if i < |tokens| {
      assert DropLast(tokens[..i + 1]) == tokens[..i];
      EvalNoneExtends(tokens, i + 1, index);
    } else {
      assert tokens[..i] == tokens;
    }
  }

  /** The evaluation loop as the engine runs it: tokens are taken from the
      front of a queue, and page sets pushed on and popped off a list. */
  method EvaluatePostfix(postfix: seq<string>, index: map<string, set<int>>) returns (result: Option<set<int>>)
    ensures result == Evaluate(postfix, index)
  {
    var queue := postfix;
    var stack: seq<set<int>> := [];
    while queue != []
      invariant |queue| <= |postfix| && queue == postfix[|postfix| - |queue|..]
      invariant EvalStack(postfix[..|postfix| - |queue|], index) == Some(stack)
      decreases |queue|
    {
      var done := |postfix| - |queue|;
      var token := queue[0];
      queue := queue[1..];
      assert |postfix| - |queue| == done + 1;
      assert DropLast(postfix[..done + 1]) == postfix[..done] && Last(postfix[..done + 1]) == token;
      if token != "AND" && token != "OR" && token != "NOT" {
        stack := stack + [Lookup(index, token)];
      } else if token == "AND" || token == "OR" {
        if |stack| < 2 {
          EvalNoneExtends(postfix, done + 1, index);
          return None;
        }
        ghost var before := stack;
        var set1 := Last(stack);
        stack := DropLast(stack);
        var set2 := Last(stack);
        stack := DropLast(stack);
        assert stack == before[..|before| - 2] && set2 == before[|before| - 2];
        stack := stack + [if token == "AND" then BoolAnd(set1, set2) else BoolOr(set1, set2)];
      } else {
        if stack == [] {
          EvalNoneExtends(postfix, done + 1, index);
          return None;
        }
        var set1 := Last(stack);
        stack := DropLast(stack) + [BoolNot(set1)];
      }
    }
    assert postfix[..|postfix|] == postfix;
    if stack == [] {
      return None;
    }
    return Some(Last(stack));
  }

  /** Stack height after `tokens`, when no `pop` fails: an operand pushes,
      `AND`/`OR` take two and push one, `NOT` takes one and pushes one. */
  function Arity(t: string): nat {
    if t == "AND" || t == "OR" then 2 else if t == "NOT" then 1 else 0
  }

  function Height(tokens: seq<string>): int
    decreases |tokens|
  {
    if tokens == [] then 0
    else Height(DropLast(tokens)) + (if Arity(Last(tokens)) == 2 then -1 else if Arity(Last(tokens)) == 1 then 0 else 1)
  }

  /** Every operator finds as many entries as it pops. */
  predicate WellFormed(tokens: seq<string>)
    decreases |tokens|
  {
    tokens == [] || (WellFormed(DropLast(tokens)) && Height(DropLast(tokens)) >= Arity(Last(tokens)))
  }

  /** Whether evaluation fails depends only on the tokens, never on the
      index, and the stack holds `Height` entries. */
  lemma {:induction false} EvalHeight(tokens: seq<string>, index: map<string, set<int>>)
    ensures EvalStack(tokens, index).Some? <==> WellFormed(tokens)
    ensures EvalStack(tokens, index).Some? ==> |EvalStack(tokens, index).value| == Height(tokens)
    decreases |tokens|
  {
    if tokens != [] {
      EvalHeight(DropLast(tokens), index);
    }
  }

  /** The query is reported invalid exactly when a `pop` fails, including
      the final one on an empty stack. */
  lemma InvalidIff(postfix: seq<string>, index: map<string, set<int>>)
    ensures Evaluate(postfix, index).None? <==> !WellFormed(postfix) || Height(postfix) == 0
  {
    EvalHeight(postfix, index);
  }

  /** When every posting set lies within the universe, so does every entry of
      the evaluation stack, and therefore the answer. */
  lemma {:induction false} EvalWithinUniverse(tokens: seq<string>, index: map<string, set<int>>)
    requires forall w :: w in index ==> index[w] <= AllPages
    ensures EvalStack(tokens, index).Some? ==> forall e :: e in EvalStack(tokens, index).value ==> e <= AllPages
    ensures Evaluate(tokens, index).Some? ==> Evaluate(tokens, index).value <= AllPages
    decreases |tokens|
  {
    if tokens != [] {
      EvalWithinUniverse(DropLast(tokens), index);
      var before := EvalStack(DropLast(tokens), index);
      if before.Some? {
        var stack := before.value;
        assert forall k :: 0 <= k < |stack| ==> stack[k] in stack;
      }
    }
  }

  // ------------------------------------------------------------- the query

  /** What the query script ends with: a crash (the `IndexError` of an
      unmatched `)` is raised before the `try`), "Error: invalid query." or
      the pages found, an empty set being reported as "No results found.". */
  datatype Outcome = Crash | InvalidQuery | Results(pages: set<int>)

  function Answer(query: string, index: map<string, set<int>>): Outcome {
    match ToPostfix(TokenizeQuery(query))
    case None => Crash
    case Some(postfix) =>
      match Evaluate(postfix, index)
      case None => InvalidQuery
      case Some(pages) => Results(pages)
  }

  /** The script's main block: tokenize, convert, evaluate. */
  method SearchQuery(query: string, index: map<string, set<int>>) returns (outcome: Outcome)
    ensures outcome == Answer(query, index)
    ensures outcome == Crash <==> !NeverNegative(TokenizeQuery(query))
  {
    var tokens := TokenizeQuery(query);
    PostfixRaisesIff(tokens);
    var postfix := ConvertToPostfix(tokens);
    if postfix == None {
      return Crash;
    }
    var result := EvaluatePostfix(postfix.value, index);
    if result == None {
      return InvalidQuery;
    }
    return Results(result.value);
  }

  /** The three outcomes in terms of the tokens: a crash exactly on an
      unmatched `)`, an invalid query exactly when an operator lacks operands
      or nothing is left for the final `pop`, and pages within the universe
      whenever the postings are. */
  lemma AnswerCases(query: string, index: map<string, set<int>>)
    ensures Answer(query, index) == Crash <==> !NeverNegative(TokenizeQuery(query))
    ensures Answer(query, index) == InvalidQuery <==>
      NeverNegative(TokenizeQuery(query)) &&
      (!WellFormed(ToPostfix(TokenizeQuery(query)).value) || Height(ToPostfix(TokenizeQuery(query)).value) == 0)
    ensures Answer(query, index).Results? && (forall w :: w in index ==> index[w] <= AllPages) ==>
      Answer(query, index).pages <= AllPages
  {
    var tokens := TokenizeQuery(query);
    PostfixRaisesIff(tokens);
    if ToPostfix(tokens).Some? {
      var postfix := ToPostfix(tokens).value;
      InvalidIff(postfix, index);
      if forall w :: w in index ==> index[w] <= AllPages {
        EvalWithinUniverse(postfix, index);
      }
    }
  }
}
