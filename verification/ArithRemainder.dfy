// What suppressed evaluation guarantees, and the one text family where real
// evaluation accepts what suppressed evaluation rejects: assigning to a
// remainder whose division would overflow.

module ArithRemainder {
  import opened Options
  import opened Numerals
  import opened ArithValues
  import opened ArithLexer
  import opened ArithSyntax
  import opened ArithTrees
  import opened ArithReading
  import opened ArithCorrect
  import opened ArithStore
  import opened ArithSuppressed

  // Suppressed evaluation has no effect and no error but one of form, raised
  // in the text at hand.
  lemma SuppressedIsSilent(l: nat, st: State)
    requires l <= 15 && Mute(st)
    ensures var r := Exp(l, st);
            if r.Value? then r.st.env == st.env && r.st.noeval == st.noeval
            else r.env == st.env && r.depth == st.depth && !Evaluative(r.error)
  {
    hide Lex, Peek, ReadTok, StrEval, Subexpr, Exp, Loop, RightOperand, ArithSyntax.Assignment, Conditional,
      ThenPart, ElsePart, Exponent, Unary, Operand, Prefix, StepName, Parenthesized, NameOrPostfix,
      SpellsAfter, Past, Unmerged, Apply, Wrap, Numeral, Itos, Words, Child, Denote;
    Skim(l, st, st, false);
  }

  // It reads what real evaluation of the same text reads, whatever the
  // variables hold: the runs end at the same place or with the same error,
  // unless real evaluation stops with an error of evaluation. Only where the
  // text has a percent sign, a name and an OP= in a row may it also reject the
  // assignment; the rest of this module says when it then does.
  lemma SuppressedReadsTheSame(l: nat, s: State, t: State)
    requires l <= 15 && Mute(s) && t.noeval == 0
    requires s.tp == t.tp && s.cur == t.cur && s.last == t.last && s.tokstr == t.tokstr
    ensures var rs, rt := Exp(l, s), Exp(l, t);
            EvaluationError(rt, t.depth)
            || (if rs.Value? then rt.Value? && rs.st.tp == rt.st.tp && rs.st.cur == rt.st.cur
                else (rt.Fail? && rs.error == rt.error) || (rs.error == NonVariable && !NoTarget(s)))
  {
    hide Lex, Peek, ReadTok, StrEval, Subexpr, Exp, Loop, RightOperand, ArithSyntax.Assignment, Conditional,
      ThenPart, ElsePart, Exponent, Unary, Operand, Prefix, StepName, Parenthesized, NameOrPostfix,
      SpellsAfter, Past, Unmerged, Apply, Wrap, Numeral, Itos, Words, Child, Denote, Skimmed;
    Skim(l, s, t, NoTarget(s));
    SkimmedMeans(s, t, Exp(l, s), Exp(l, t), NoTarget(s));
  }

  lemma SkimmedMeans(s: State, t: State, rs: Result, rt: Result, strict: bool)
    requires Skimmed(s, t, rs, rt, strict)
    ensures EvaluationError(rt, t.depth)
            || (if rs.Value? then rt.Value? && rs.st.tp == rt.st.tp && rs.st.cur == rt.st.cur
                else (rt.Fail? && rs.error == rt.error) || (rs.error == NonVariable && !strict))
  {
  }

  // ---------------------------------------------------------------- left % b OP= right

  predicate IsTarget(t: Token) { t == Assign || (t.OpAssign? && AssignOp(t.op)) }

  // The words up to the OP=, for any left operand.
  function RemainderWords(left: Expr, b: string, t: Token): seq<Word> {
    Child(left, 12) + [WSym(Op(Mod)), WName(b), WSym(t)]
  }

  predicate Overflows(va: int, vb: int) { va == INTMAX_MIN && vb == -1 }

  // What b contributes: a name right before an = is not evaluated.
  function TargetValue(b: string, t: Token, env: Env, depth: nat): Outcome {
    if t == Assign then Done(0, env) else StrEval(b, env, 0, depth)
  }

  // What the whole comes to. The remainder that would overflow counts as 0,
  // and it is b that is assigned.
  function RemainderOutcome(left: Expr, b: string, t: Token, right: Expr, env: Env, depth: nat): Outcome
    requires IsTarget(t)
  {
    var o := Denote(left, env, depth);
    var p := if o.Failed? then o else TargetValue(b, t, o.env, depth);
    if p.Failed? then p
    else if p.val == 0 then Failed(DivisionByZero, p.env, depth)
    else if !Overflows(o.val, p.val) then Failed(NonVariable, p.env, depth)
    else
      var q := Denote(right, p.env, depth);
      var d := if q.Failed? then q else Divide(t.op, 0, q.val, q.env, depth);
      if d.Failed? then d else Done(d.val, d.env[b := Itos(d.val)])
  }

  // From level 12 down to 2 past a token no level looks for.
  lemma {:induction false} ClimbsPast(k: nat, st: State, r: Result)
    requires 2 <= k <= 12 && Exp(k, st) == r && (r.Value? ==> IsTarget(r.st.cur))
    ensures Exp(2, st) == r
  {
    hide Lex, Peek, ReadTok, StrEval, Subexpr, Exp, Loop, RightOperand, ArithSyntax.Assignment, Conditional,
      ThenPart, ElsePart, Exponent, Unary, Operand, Prefix, StepName, Parenthesized, NameOrPostfix,
      SpellsAfter, Past, Unmerged, Apply, Wrap, Numeral, Itos, Words, Child, Denote;
    if k > 2 {
      Lifts(k - 1, st, r);
      Stops(k - 1, r);
      ClimbsPast(k - 1, st, r);
    }
  }

  // The state before the OP=. The previous token is the name b only where the
  // division would overflow.
  ghost predicate AtTarget(r: Result, b: string, t: Token, rest: seq<Word>, overflow: bool, pre: State, env: Env) {
    && r.Value? && r.st.cur == t && Spells(r.st.tp, rest) && r.st.tokstr == Some(b)
    && r.st.last == (if overflow then StrTok else NumTok) && (overflow ==> r.val == 0)
    && r.st.env == env && r.st.depth == pre.depth && r.st.noeval == pre.noeval
  }

  // Up to the OP=.
  lemma ReadsRemainder(pre: State, left: Expr, b: string, t: Token, rest: seq<Word>) returns (r: Result)
    requires WellFormed(left) && ValidName(b) && IsTarget(t) && Ready(pre)
    requires Spells(pre.tp, RemainderWords(left, b, t) + rest)
    ensures Begin(2, pre) == r
    ensures pre.noeval > 0 ==> AtTarget(r, b, t, rest, false, pre, pre.env)
    ensures pre.noeval == 0 ==>
              var o := Denote(left, pre.env, pre.depth);
              var p := if o.Failed? then o else TargetValue(b, t, o.env, pre.depth);
              if p.Failed? then r == Fail(p.error, p.env, p.depth)
              else if p.val == 0 then r == Fail(DivisionByZero, p.env, pre.depth)
              else AtTarget(r, b, t, rest, Overflows(o.val, p.val), pre, p.env)
  {
    hide Lex, Peek, ReadTok, StrEval, Subexpr, Exp, Loop, RightOperand, ArithSyntax.Assignment, Conditional,
      ThenPart, ElsePart, Exponent, Unary, Operand, Prefix, StepName, Parenthesized, NameOrPostfix,
      SpellsAfter, Past, Unmerged, Apply, Wrap, Numeral, Itos, Words, Child, Denote;
    var tail := [WName(b), WSym(t)] + rest;
    assert RemainderWords(left, b, t) + rest == Child(left, 12) + ([WSym(Op(Mod))] + tail);
    r := ParseChild(left, 12, pre, [WSym(Op(Mod))] + tail);
    if r.Value? {
      assert ([WSym(Op(Mod))] + tail)[1..] == tail;
      r := ReadsSecond(pre, r, b, t, rest);
    }
    if ReadTok(pre).Value? { ClimbsPast(12, ReadTok(pre).st, r); }
  }

  // From the remainder sign on.
  lemma ReadsSecond(pre: State, r1: Result, b: string, t: Token, rest: seq<Word>) returns (r: Result)
    requires ValidName(b) && IsTarget(t) && r1.Value? && r1.st.cur == Op(Mod) && Ready(r1.st)
    requires Spells(r1.st.tp, [WName(b), WSym(t)] + rest) && r1.st.noeval == pre.noeval && r1.st.depth == pre.depth
    ensures Continue(12, r1) == r && (r.Value? ==> r.st.cur == t)
    ensures pre.noeval > 0 ==> AtTarget(r, b, t, rest, false, pre, r1.st.env)
    ensures pre.noeval == 0 ==>
              var p := TargetValue(b, t, r1.st.env, pre.depth);
              if p.Failed? then r == Fail(p.error, p.env, p.depth)
              else if p.val == 0 then r == Fail(DivisionByZero, p.env, pre.depth)
              else AtTarget(r, b, t, rest, Overflows(r1.val, p.val), pre, p.env)
  {
    hide Lex, Peek, ReadTok, StrEval, Subexpr, Exp, Loop, RightOperand, ArithSyntax.Assignment, Conditional,
      ThenPart, ElsePart, Exponent, Unary, Operand, Prefix, StepName, Parenthesized, NameOrPostfix,
      SpellsAfter, Past, Unmerged, Apply, Wrap, Numeral, Itos, Words, Child, Denote;
    if pre.noeval > 0 { SuppressedVariable(b, r1.st); }
    LoopContinues(12, r1.st, r1.val);
    r := ReadsTarget(r1.st, b, t, 13, rest);
    if r.Value? {
      if r.val == 0 && pre.noeval == 0 {
        r := Throw(DivisionByZero, r.st);
      } else {
        OverflowingRemainder();
        r := Value(Joined(Op(Mod), r1.val, r.st, r.val), Combine(Op(Mod), r1.val, r.val));
        LoopStops(12, r.st, r.val);
      }
    }
  }

  lemma OverflowingRemainder()
    ensures Combine(Op(Mod), INTMAX_MIN, -1) == 0
  {
  }

  // Wherever an assignment expression may stand, this one gives its outcome.
  lemma RemainderParsed(pre: State, left: Expr, b: string, t: Token, right: Expr, rest: seq<Word>) returns (r: Result)
    requires WellFormed(left) && WellFormed(right) && ValidName(b) && IsTarget(t) && Follows(1, rest)
    requires Ready(pre) && pre.noeval == 0
    requires Spells(pre.tp, RemainderWords(left, b, t) + (Child(right, 1) + rest))
    ensures Begin(1, pre) == r
    ensures var o := RemainderOutcome(left, b, t, right, pre.env, pre.depth);
            if o.Failed? then r == Fail(o.error, o.env, o.depth)
            else r.Value? && r.val == o.val && After(r.st, rest, 0, o.env, pre.depth)
  {
    hide Lex, Peek, ReadTok, StrEval, Subexpr, Exp, Loop, RightOperand, ArithSyntax.Assignment, Conditional,
      ThenPart, ElsePart, Exponent, Unary, Operand, Prefix, StepName, Parenthesized, NameOrPostfix,
      SpellsAfter, Past, Unmerged, Apply, Wrap, Numeral, Itos, Words, Child, Denote;
    var o := Denote(left, pre.env, pre.depth);
    var p := if o.Failed? then o else TargetValue(b, t, o.env, pre.depth);
    r := ReadsRemainder(pre, left, b, t, Child(right, 1) + rest);
    if r.Value? {
      r := AssignsRemainder(pre, r, b, t, right, rest, Overflows(o.val, p.val), p.env);
    } else if ReadTok(pre).Value? {
      FailsUp(ReadTok(pre).st, r);
    }
  }

  // From the OP= on, in the one case in which it assigns, and otherwise.
  lemma AssignsRemainder(pre: State, r2: Result, b: string, t: Token, right: Expr, rest: seq<Word>, overflow: bool, env: Env)
    returns (r: Result)
    requires IsTarget(t) && (overflow ==> t.OpAssign?) && WellFormed(right) && Follows(1, rest) && pre.noeval == 0
    requires AtTarget(r2, b, t, Child(right, 1) + rest, overflow, pre, env)
    requires ReadTok(pre).Value? && Exp(2, ReadTok(pre).st) == r2
    ensures Begin(1, pre) == r
    ensures !overflow ==> r == Fail(NonVariable, env, pre.depth)
    ensures overflow ==>
              var q := Denote(right, env, pre.depth);
              var d := if q.Failed? then q else Divide(t.op, 0, q.val, q.env, pre.depth);
              if d.Failed? then r == Fail(d.error, d.env, d.depth)
              else r.Value? && r.val == d.val && After(r.st, rest, 0, d.env[b := Itos(d.val)], pre.depth)
  {
    hide Lex, Peek, ReadTok, StrEval, Subexpr, Exp, Loop, RightOperand, Conditional, ThenPart, ElsePart,
      Exponent, Unary, Operand, Prefix, StepName, Parenthesized, NameOrPostfix, SpellsAfter, Past, Unmerged,
      Apply, Wrap, Numeral, Itos, Words, Child, Denote;
    LevelIs(1, ReadTok(pre).st);
    if overflow {
      r := ParseChild(right, 1, r2.st, rest);
      if r.Value? { r := Assigned(t, b, 0, r.st, r.val); }
    } else {
      r := Throw(NonVariable, r2.st);
    }
  }

  lemma FailsUp(st: State, r: Result)
    requires Exp(2, st) == r && r.Fail?
    ensures Exp(1, st) == r
  {
    hide Lex, Peek, ReadTok, StrEval, Subexpr, Exp, Loop, RightOperand, Conditional, ThenPart, ElsePart,
      Exponent, Unary, Operand, Prefix, StepName, Parenthesized, NameOrPostfix, SpellsAfter, Past, Unmerged,
      Apply, Wrap, Numeral, Itos, Words, Child, Denote;
    LevelIs(1, st);
  }

  // A tree fails with an error of evaluation, or inside a variable's text.
  lemma {:induction false} TreeErrors(e: Expr, env: Env, depth: nat)
    ensures var o := Denote(e, env, depth); o.Failed? ==> o.depth > depth || (o.depth == depth && Evaluative(o.error))
    decreases e
  {
    hide Lex, Peek, ReadTok, StrEval, Subexpr, Exp, Loop, RightOperand, ArithSyntax.Assignment, Conditional,
      ThenPart, ElsePart, Exponent, Unary, Operand, Prefix, StepName, Parenthesized, NameOrPostfix,
      SpellsAfter, Past, Unmerged, Apply, Wrap, Numeral, Itos, Words, Child;
    match e
    case Num(_) =>
    case Var(_) =>
    case PreStep(_, _) =>
    case PostStep(_, _) =>
    case Un(_, a) => TreeErrors(a, env, depth);
    case Set(_, r) => TreeErrors(r, env, depth);
    case SetOp(_, x, r) =>
      var o := StrEval(x, env, 0, depth);
      TreeErrors(r, o.env, depth);
    case If(c, l, r) =>
      TreeErrors(c, env, depth);
      var o := Denote(c, env, depth);
      TreeErrors(if o.Done? && o.val != 0 then l else r, o.env, depth);
    case _ =>
      TreeErrors(e.left, env, depth);
      TreeErrors(e.right, Denote(e.left, env, depth).env, depth);
  }

  // left % b OP= right is rejected exactly when the operands have values, b not
  // 0, and their division does not overflow.
  lemma RejectedExactly(left: Expr, b: string, t: Token, right: Expr, env: Env, depth: nat)
    requires IsTarget(t)
    ensures var w := RemainderOutcome(left, b, t, right, env, depth);
            var o := Denote(left, env, depth);
            var p := if o.Failed? then o else TargetValue(b, t, o.env, depth);
            (w.Failed? && w.error == NonVariable && w.depth == depth)
            <==> p.Done? && p.val != 0 && !Overflows(o.val, p.val)
  {
    hide Lex, Peek, ReadTok, StrEval, Subexpr, Exp, Loop, RightOperand, ArithSyntax.Assignment, Conditional,
      ThenPart, ElsePart, Exponent, Unary, Operand, Prefix, StepName, Parenthesized, NameOrPostfix,
      SpellsAfter, Past, Unmerged, Apply, Wrap, Numeral, Itos, Words, Child, Denote;
    var o := Denote(left, env, depth);
    TreeErrors(left, env, depth);
    var p := if o.Failed? then o else TargetValue(b, t, o.env, depth);
    TreeErrors(right, p.env, depth);
  }

  // As a whole text.
  lemma RemainderAssigned(left: Expr, b: string, t: Token, right: Expr, text: string, env: Env)
    requires WellFormed(left) && WellFormed(right) && ValidName(b) && IsTarget(t)
    requires Spells(text, RemainderWords(left, b, t) + Child(right, 1))
    ensures Evaluate(text, env) == RemainderOutcome(left, b, t, right, env, 1)
  {
    hide Lex, Peek, ReadTok, StrEval, Exp, Loop, RightOperand, ArithSyntax.Assignment, Conditional, ThenPart,
      ElsePart, Exponent, Unary, Operand, Prefix, StepName, Parenthesized, NameOrPostfix, SpellsAfter, Past,
      Unmerged, Apply, Wrap, Numeral, Itos, Words, Child, Denote, RemainderOutcome;
    var ws := RemainderWords(left, b, t) + Child(right, 1);
    var pre := State(text, EndTok, EndTok, 0, None, 0, env, 1);
    FirstWord(left, 12);
    TextNotBlank(text, ws);
    assert Child(right, 1) + [] == Child(right, 1);
    var r := RemainderParsed(pre, left, b, t, right, []);
    if ReadTok(pre).Value? { LevelLoops(0, ReadTok(pre).st); }
    Stops(0, r);
  }

  // Suppressed, it is always rejected, whatever follows the OP=.
  lemma RemainderSuppressed(pre: State, left: Expr, b: string, t: Token, rest: seq<Word>)
    requires WellFormed(left) && ValidName(b) && IsTarget(t) && Ready(pre) && pre.noeval > 0
    requires Spells(pre.tp, RemainderWords(left, b, t) + rest)
    ensures Begin(1, pre) == Begin(0, pre) == Fail(NonVariable, pre.env, pre.depth)
  {
    hide Lex, Peek, ReadTok, StrEval, Subexpr, Exp, Loop, RightOperand, Conditional, ThenPart, ElsePart,
      Exponent, Unary, Operand, Prefix, StepName, Parenthesized, NameOrPostfix, SpellsAfter, Past, Unmerged,
      Apply, Wrap, Numeral, Itos, Words, Child, Denote;
    var r := ReadsRemainder(pre, left, b, t, rest);
    LevelIs(1, ReadTok(pre).st);
    LevelLoops(0, ReadTok(pre).st);
  }
}
