// What is rejected: texts that begin as an expression and do not go on as
// one, with the error and the variables as they are by then.

module ArithErrors {
  import opened Options
  import opened Numerals
  import opened ArithValues
  import opened ArithLexer
  import opened ArithSyntax
  import opened ArithTrees
  import opened ArithReading
  import opened ArithCorrect

  function Start(text: string, env: Env): State {
    State(text, EndTok, EndTok, 0, None, 0, env, 1)
  }

  // The outcome of a tree, and if there is one then this error.
  function AndThen(o: Outcome, e: Error): Outcome {
    if o.Failed? then o else Failed(e, o.env, 1)
  }

  // A whole text whose expression fails, or ends before the text does.
  lemma EvaluatesTo(text: string, ws: seq<Word>, env: Env, r: Result)
    requires StartsTree(ws) && Spells(text, ws) && Begin(0, Start(text, env)) == r
    ensures Evaluate(text, env) == if r.Fail? then Failed(r.error, r.env, r.depth)
                                   else if r.st.cur != EndTok then Failed(SyntaxError, r.st.env, r.st.depth)
                                   else Done(r.val, r.st.env)
  {
    hide Lex, Peek, ReadTok, StrEval, Exp, Loop, ArithSyntax.Assignment, Conditional, ThenPart, ElsePart,
      Exponent, Unary, Operand, Prefix, StepName, Parenthesized, NameOrPostfix, SpellsAfter, Past, Unmerged,
      Apply, Wrap, Numeral, Words, Child, Denote;
    TextNotBlank(text, ws);
  }

  // A failure on the way goes up through all levels.
  lemma {:induction false} FailsUp(k: nat, st: State, r: Result)
    requires k <= 15 && Exp(k, st) == r && r.Fail? && (k == 15 ==> UnaryOf(st.cur) == None)
    ensures Exp(0, st) == r
  {
    hide Lex, Peek, ReadTok, StrEval, Subexpr, Exp, Loop, ArithSyntax.Assignment, Conditional, ThenPart,
      ElsePart, Exponent, Unary, Operand, Prefix, StepName, Parenthesized, NameOrPostfix, SpellsAfter, Past,
      Unmerged, Apply, Wrap, Numeral, Words, Child, Denote;
    if k > 0 {
      Lifts(k - 1, st, r);
      Stops(k - 1, r);
      FailsUp(k - 1, st, r);
    }
  }

  lemma FailsFrom(k: nat, pre: State, r: Result)
    requires k <= 14 && Begin(k, pre) == r && r.Fail?
    ensures Begin(0, pre) == r
  {
    hide Lex, Peek, ReadTok, StrEval, Subexpr, Exp, Loop, ArithSyntax.Assignment, Conditional, ThenPart,
      ElsePart, Exponent, Unary, Operand, Prefix, StepName, Parenthesized, NameOrPostfix, SpellsAfter, Past,
      Unmerged, Apply, Wrap, Numeral, Words, Child, Denote;
    if ReadTok(pre).Value? { FailsUp(k, ReadTok(pre).st, r); }
  }

  // A closing parenthesis or a colon after a whole expression.
  lemma StrayToken(e: Expr, t: Token, more: seq<Word>, text: string, env: Env)
    requires WellFormed(e) && (t == RPar || t == Colon) && Spells(text, Words(e) + ([WSym(t)] + more))
    ensures Evaluate(text, env) == AndThen(Denote(e, env, 1), SyntaxError)
  {
    hide Lex, Peek, ReadTok, StrEval, Subexpr, Exp, Loop, ArithSyntax.Assignment, Conditional, ThenPart,
      ElsePart, Exponent, Unary, Operand, Prefix, StepName, Parenthesized, NameOrPostfix, SpellsAfter, Past,
      Unmerged, Apply, Wrap, Numeral, Words, Child, Denote;
    var rest := [WSym(t)] + more;
    ChildAtBottom(e);
    FirstWord(e, 0);
    var r := ParseChild(e, 0, Start(text, env), rest);
    Stops(0, r);
    EvaluatesTo(text, Words(e) + rest, env, r);
  }

  // An open parenthesis that is not closed.
  lemma UnclosedParenthesis(e: Expr, rest: seq<Word>, text: string, env: Env)
    requires WellFormed(e) && (rest == [] || rest[0] == WSym(Colon)) && Spells(text, [WSym(LPar)] + (Words(e) + rest))
    ensures Evaluate(text, env) == AndThen(Denote(e, env, 1), MissingParen)
  {
    hide Lex, Peek, ReadTok, StrEval, Subexpr, Exp, Loop, ArithSyntax.Assignment, Conditional, ThenPart,
      ElsePart, Exponent, Unary, Operand, Prefix, StepName, NameOrPostfix, SpellsAfter, Past, Unmerged, Apply,
      Wrap, Numeral, Words, Child, Denote;
    var pre := Start(text, env);
    ReadsSymbol(pre, LPar, Words(e) + rest, false);
    var st1 := ReadTok(pre).st;
    LevelIs(15, st1);
    OpensOperand(st1);
    ChildAtBottom(e);
    var r := ParseChild(e, 0, st1, rest);
    Stops(0, r);
    FailsUp(15, st1, if r.Fail? then r else Throw(MissingParen, r.st));
    EvaluatesTo(text, [WSym(LPar)] + (Words(e) + rest), env, Begin(0, pre));
  }

  lemma OpensOperand(st: State)
    requires st.cur == LPar
    ensures Operand(st) == Parenthesized(st)
  {
    hide Lex, Peek, ReadTok, StrEval, Subexpr, Exp, Loop, ArithSyntax.Assignment, Conditional, ThenPart,
      ElsePart, Exponent, Unary, Prefix, StepName, Parenthesized, NameOrPostfix, SpellsAfter, Past, Unmerged,
      Apply, Wrap, Numeral, Words, Child, Denote;
  }

  // A question mark without a colon. Only the selected branch has been
  // evaluated by then.
  lemma MissingColon(c: Expr, l: Expr, rest: seq<Word>, text: string, env: Env)
    requires WellFormed(c) && WellFormed(l) && (rest == [] || rest[0] == WSym(RPar))
    requires Spells(text, Child(c, 3) + ([WSym(Quest)] + (Child(l, 0) + rest)))
    ensures Evaluate(text, env) ==
              var o := Denote(c, env, 1);
              AndThen(if o.Failed? || o.val == 0 then o else Denote(l, o.env, 1), ColonExpected)
  {
    hide Lex, Peek, ReadTok, StrEval, Subexpr, Exp, Loop, ArithSyntax.Assignment, ThenPart, ElsePart, Exponent,
      Unary, Operand, Prefix, StepName, Parenthesized, NameOrPostfix, SpellsAfter, Past, Unmerged, Apply, Wrap,
      Numeral, Words, Child, Denote;
    var pre, more := Start(text, env), Child(l, 0) + rest;
    FirstWord(c, 3);
    var r := ParseChild(c, 3, pre, [WSym(Quest)] + more);
    Stops(3, r);
    if ReadTok(pre).Value? { LevelIs(2, ReadTok(pre).st); }
    if r.Value? {
      assert ([WSym(Quest)] + more)[1..] == more;
      r := NoElse(l, r.st, r.val, rest);
    }
    FailsFrom(2, pre, r);
    EvaluatesTo(text, Child(c, 3) + ([WSym(Quest)] + more), env, r);
  }

  lemma NoElse(l: Expr, st: State, c: int, rest: seq<Word>) returns (r: Result)
    requires WellFormed(l) && (rest == [] || rest[0] == WSym(RPar)) && st.noeval == 0
    requires st.cur == Quest && st.last != PreInc && st.last != PreDec && Spells(st.tp, Child(l, 0) + rest)
    ensures ThenPart(st, c) == r
    ensures var o := if c == 0 then Done(0, st.env) else Denote(l, st.env, st.depth);
            r == if o.Failed? then Fail(o.error, o.env, o.depth) else Fail(ColonExpected, o.env, st.depth)
  {
    hide Lex, Peek, ReadTok, StrEval, Subexpr, Exp, Loop, ArithSyntax.Assignment, Conditional, Exponent, Unary,
      Operand, Prefix, StepName, Parenthesized, NameOrPostfix, SpellsAfter, Past, Unmerged, Apply, Wrap,
      Numeral, Words, Child, Denote;
    var s1 := Suppress(st, c == 0);
    FirstWord(l, 0);
    FirstToken(s1, Child(l, 0), rest);
    r := ParseChild(l, 0, s1, rest);
    Stops(0, r);
    if r.Value? { r := Throw(ColonExpected, Resume(r.st, c == 0)); }
  }

  // An operator with nothing after it.
  lemma MissingOperand(l: Expr, t: Token, text: string, env: Env)
    requires WellFormed(l) && (t.Op? || t == AndTok || t == OrTok || t == Comma)
    requires Spells(text, Child(l, LevelOf(t)) + [WSym(t)])
    ensures Evaluate(text, env) == AndThen(Denote(l, env, 1), OperandExpected)
  {
    hide Lex, Peek, ReadTok, StrEval, Subexpr, Exp, Loop, ArithSyntax.Assignment, Conditional, ThenPart,
      ElsePart, Exponent, Unary, Operand, Prefix, StepName, Parenthesized, NameOrPostfix, SpellsAfter, Past,
      Unmerged, Apply, Wrap, Numeral, Words, Child, Denote;
    var pre, m := Start(text, env), LevelOf(t);
    FirstWord(l, m);
    var r := ParseChild(l, m, pre, [WSym(t)]);
    assert [WSym(t)][1..] == [];
    if r.Value? { r := NothingRight(m, r.st, r.val); }
    FailsFrom(m, pre, r);
    EvaluatesTo(text, Child(l, m) + [WSym(t)], env, r);
  }

  lemma NothingRight(m: nat, st: State, val: int) returns (r: Result)
    requires IsLoop(m) && LevelOf(st.cur) == m && Spells(st.tp, [])
    ensures Loop(m, st, val) == r == Fail(OperandExpected, st.env, st.depth)
  {
    hide Lex, Peek, StrEval, Subexpr, Exp, Loop, ArithSyntax.Assignment, Conditional, ThenPart, ElsePart,
      Exponent, Unary, Operand, Prefix, StepName, Parenthesized, NameOrPostfix, SpellsAfter, Past, Unmerged,
      Apply, Wrap, Numeral, Words, Child, Denote;
    var s1 := Suppress(st, Decides(st.cur, val));
    LoopContinues(m, st, val);
    LexNext(s1.tp, [], m, s1.cur, s1.last, false);
    r := Fail(OperandExpected, st.env, st.depth);
    NoOperand(m + 1, ReadTok(s1).st);
  }

  lemma {:induction false} NoOperand(k: nat, st: State)
    requires 1 <= k <= 15 && st.cur == EndTok
    ensures Exp(k, st) == Fail(OperandExpected, st.env, st.depth)
    decreases 15 - k
  {
    hide Lex, Peek, ReadTok, StrEval, Subexpr, Exp, Loop, ArithSyntax.Assignment, Conditional, ThenPart,
      ElsePart, Exponent, Unary, Prefix, StepName, Parenthesized, NameOrPostfix, SpellsAfter, Past, Unmerged,
      Apply, Wrap, Numeral, Words, Child, Denote;
    if k == 15 {
      LevelIs(15, st);
    } else {
      NoOperand(k + 1, st);
      Lifts(k, st, Fail(OperandExpected, st.env, st.depth));
      Stops(k, Fail(OperandExpected, st.env, st.depth));
    }
  }

  // A number cannot be assigned to.
  lemma NotAssignable(n: nat, t: Token, more: seq<Word>, text: string, env: Env)
    requires n <= INTMAX_MAX && (t == Assign || (t.OpAssign? && AssignOp(t.op))) && Spells(text, [WNum(n)] + ([WSym(t)] + more))
    ensures Evaluate(text, env) == Failed(NonVariable, env, 1)
  {
    hide Lex, Peek, ReadTok, StrEval, Subexpr, Exp, Loop, Conditional, ThenPart, ElsePart, Exponent, Unary,
      Prefix, StepName, Parenthesized, NameOrPostfix, SpellsAfter, Past, Unmerged, Apply, Wrap, Numeral, Words,
      Child, Denote;
    var pre := Start(text, env);
    ReadsNumber(pre, n, [WSym(t)] + more);
    var st1 := ReadTok(pre).st;
    ReadsSymbol(st1, t, more, false);
    LevelIs(15, st1);
    var r := Value(ReadTok(st1).st, n);
    Climbs(2, st1, r);
    LevelIs(1, st1);
    FailsUp(1, st1, Fail(NonVariable, env, 1));
    EvaluatesTo(text, [WNum(n)] + ([WSym(t)] + more), env, Begin(0, pre));
  }
}
