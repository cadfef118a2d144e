// Evaluation that is suppressed, as for the operands && || and ?: do not
// select: it changes no variable, raises no evaluation error, and reads
// exactly the text that real evaluation would.

module ArithSuppressed {
  import opened Options
  import opened Numerals
  import opened ArithValues
  import opened ArithLexer
  import opened ArithSyntax
  import opened ArithTrees
  import opened ArithReading
  import opened ArithCorrect
  import opened ArithStore

  // Errors that depend on values rather than on the text at hand.
  predicate Evaluative(e: Error) { e in {DivisionByZero, NegativeExponent, RecursionLimit} }

  // An error of evaluation: one of those, or any error inside a variable's text.
  predicate EvaluationError(r: Result, depth: nat) {
    r.Fail? && (Evaluative(r.error) || r.depth > depth)
  }

  // A state reached with evaluation suppressed.
  predicate Mute(s: State) { s.noeval > 0 && (s.cur == StrTok ==> s.tokval == 0) }

  predicate IsPre(t: Token) { t == PreInc || t == PreDec }

  // Does the text begin with a name and an OP=?
  predicate TargetAhead(s: string) {
    var l := Lex(s, Op(Mod), EndTok);
    l.lexeme.Name? && var next := Lex(l.rest, StrTok, EndTok).lexeme; next.Symbol? && next.token.OpAssign?
  }

  // No percent sign with a name and an OP= right after it.
  predicate Clear(s: string) { forall i :: 0 <= i < |s| && s[i] == '%' ==> !TargetAhead(s[i + 1..]) }

  // Neither at hand nor ahead.
  predicate NoTarget(s: State) { Clear(s.tp) && (s.cur == Op(Mod) ==> !TargetAhead(s.tp)) }

  predicate Assigning(t: Token) { t == Assign || t.OpAssign? }

  // The two runs are at the same token. They may differ in the previous token
  // only after a remainder, and only one way: see LeavesNamePrevious below. The
  // difference matters where an assignment comes next.
  predicate SamePlace(s: State, t: State, strict: bool) {
    && s.tp == t.tp && s.cur == t.cur && s.tokstr == t.tokstr
    && (IsPre(s.last) || IsPre(t.last) ==> s.last == t.last)
    && (s.last == StrTok ==> t.last == StrTok)
    && (strict && Assigning(s.cur) && t.last == StrTok ==> s.last == StrTok)
  }

  predicate Together(s: State, t: State, strict: bool) {
    Mute(s) && SamePlace(s, t, strict) && (strict ==> NoTarget(s))
  }

  // rs, the suppressed run from s, is silent, and rt, any run from t, agrees
  // with it on what was read, or stops with an error of evaluation.
  predicate Skimmed(s: State, t: State, rs: Result, rt: Result, strict: bool) {
    && (rs.Value? ==> rs.st.env == s.env && Mute(rs.st) && rs.st.noeval == s.noeval && (strict ==> NoTarget(rs.st)))
    && (rs.Fail? ==> rs.env == s.env && rs.depth == s.depth && !Evaluative(rs.error))
    && (rt.Value? ==> rt.st.depth == t.depth && rt.st.noeval == t.noeval)
    && (|| EvaluationError(rt, t.depth)
        || (rs.Value? && rt.Value? && SamePlace(rs.st, rt.st, strict))
        || (rs.Fail? && rt.Fail? && rs.error == rt.error)
        || (rs.Fail? && !strict && rs.error == NonVariable))
  }

  // ---------------------------------------------------------------- reading

  lemma {:induction false} ConstantError(s: string, base: int, found: bool, val: int)
    ensures var l := ScanConstant(s, base, found, val); l.Bad? ==> !Evaluative(l.error)
    decreases s
  {
    if s != "" {
      if s[0] == '#' && !found && 2 <= val <= 64 {
        ConstantError(s[1..], val, true, 0);
      } else if s[0] != '#' && DigitLike(s[0]) {
        ConstantError(s[1..], base, found, Wrap(val * base + DigitValue(s[0], base)));
      }
    }
  }

  // No evaluative error, and from clear text clear text.
  predicate Tame(l: Lexed, s: string) {
    && (l.lexeme.Bad? ==> !Evaluative(l.lexeme.error)) && l.lexeme != Symbol(StrTok)
    && (Clear(s) ==> Clear(l.rest) && (l.lexeme == Symbol(Op(Mod)) ==> !TargetAhead(l.rest)))
  }

  lemma ClearSuffix(s: string, k: nat)
    requires Clear(s) && k <= |s|
    ensures Clear(s[k..])
  {
    hide TargetAhead;
    forall i | 0 <= i < |s[k..]| && s[k..][i] == '%' ensures !TargetAhead(s[k..][i + 1..]) {
      assert s[k + i] == '%' && s[k..][i + 1..] == s[k + i + 1..];
    }
  }

  lemma ClearRests(s: string)
    requires Clear(s)
    ensures forall k :: 0 <= k <= |s| ==> Clear(s[k..])
  {
    hide Clear;
    forall k | 0 <= k <= |s| ensures Clear(s[k..]) { ClearSuffix(s, k); }
  }

  lemma OneCharTame(c: char)
    ensures OneChar(c) != StrTok && (c != '%' ==> OneChar(c) != Op(Mod))
  {
  }

  lemma PlainSymbolTame(s: string, cur: Token)
    requires s != ""
    ensures Tame(PlainSymbol(s, cur), s)
  {
    hide OneChar, TargetAhead, Clear;
    OneCharTame(s[0]);
    if Clear(s) {
      ClearRests(s);
      ClearHere(s);
    }
  }

  lemma ClearHere(s: string)
    requires Clear(s) && s != ""
    ensures s[0] == '%' ==> !TargetAhead(s[1..])
  {
    hide TargetAhead;
  }

  lemma SymbolsTame(s: string, cur: Token, last: Token)
    requires s != ""
    ensures Tame(Symbols(s, cur, last), s)
  {
    hide SkipBlanks, OneChar, PlainSymbol, TargetAhead, Clear;
    OneCharTame(s[0]);
    if Clear(s) { ClearRests(s); }
    PlainSymbolTame(s, cur);
  }

  lemma {:induction false} SkipsClear(s: string)
    ensures Clear(s) ==> Clear(SkipBlanks(s))
  {
    hide Clear;
    if s != "" && Blank(s[0]) && Clear(s) {
      ClearSuffix(s, 1);
      SkipsClear(s[1..]);
    }
  }

  lemma ClearEnd()
    ensures Clear("")
  {
  }

  lemma LexTame(s: string, cur: Token, last: Token)
    ensures Tame(Lex(s, cur, last), s)
  {
    hide Symbols, ScanConstant, SkipBlanks, TargetAhead, Clear;
    var t := SkipBlanks(s);
    SkipsClear(s);
    ClearEnd();
    if t != "" {
      SymbolsTame(t, cur, last);
      if Clear(t) { ClearRests(t); }
      var num := t[..NumberRun(t)];
      ConstantError(num, 10, false, 0);
      if |num| > 1 {
        ConstantError(num[2..], 16, true, 0);
        ConstantError(num[1..], 8, true, 0);
      }
    }
  }

  lemma {:induction false} PeekTame(s: string)
    ensures Peek(s).PeekFail? ==> !Evaluative(Peek(s).error)
    decreases |s|
  {
    hide Lex;
    LexTame(s, StrTok, EndTok);
    var l := Lex(s, StrTok, EndTok);
    if l.lexeme.Name? { PeekTame(l.rest); }
  }

  lemma LexSame(s: string, cur: Token, last: Token, last': Token)
    requires IsPre(last) || IsPre(last') ==> last == last'
    ensures Lex(s, cur, last) == Lex(s, cur, last')
  {
    hide StrLong, PlainSymbol;
  }

  lemma SkimToken(s: State, t: State, strict: bool)
    requires s.noeval > 0 && SamePlace(s, t, strict) && (strict ==> NoTarget(s))
    ensures Skimmed(s, t, ReadTok(s), ReadTok(t), strict)
  {
    hide Lex, Peek, ReadTok, StrEval, Subexpr, Exp, Loop, ArithSyntax.Assignment, Conditional, ThenPart,
      ElsePart, Exponent, Unary, Operand, Prefix, StepName, Parenthesized, NameOrPostfix, Apply, Wrap, Itos,
      TargetAhead, Clear;
    LexSame(s.tp, s.cur, s.last, t.last);
    LexTame(s.tp, s.cur, s.last);
    var l := Lex(s.tp, s.cur, s.last);
    if l.lexeme.Name? {
      PeekTame(l.rest);
      SuppressedVariable(l.lexeme.name, s);
      ReadsName(s, l.lexeme.name, l.rest);
      ReadsName(t, l.lexeme.name, l.rest);
    } else {
      ReadsOther(s);
      ReadsOther(t);
    }
  }

  // ---------------------------------------------------------------- the levels

  // After a suppressed operand the previous token is no prefix sign, and if it
  // is a name the operand's value is 0.
  predicate LeavesNamePrevious(r: Result) {
    r.Value? ==> !IsPre(r.st.last) && (r.st.last == StrTok ==> r.val == 0)
  }

  // An operand that leaves a name previous is that name.
  lemma BareName(l: nat, st: State)
    requires 13 <= l <= 15
    ensures var r := Exp(l, st);
            r.Value? && r.st.last == StrTok ==> st.cur == StrTok && r == Then(ReadTok(st), st.tokval)
    decreases 15 - l
  {
    hide Lex, Peek, ReadTok, StrEval, Subexpr, Exp, Loop, ArithSyntax.Assignment, Conditional, ThenPart,
      ElsePart, Exponent, Unary, Operand, Prefix, StepName, Parenthesized, NameOrPostfix, Apply, Wrap, Itos,
      TargetAhead, Clear;
    LevelIs(l, st);
    if l < 15 {
      BareUp(l, st);
      BareName(l + 1, st);
    } else {
      BareOperand(st);
    }
  }

  lemma BareUp(l: nat, st: State)
    requires 13 <= l <= 14
    ensures var r := Exp(l, st); r.Value? && r.st.last == StrTok ==> r == Exp(l + 1, st)
  {
    hide Lex, Peek, ReadTok, StrEval, Subexpr, Exp, Loop, ArithSyntax.Assignment, Conditional, ThenPart,
      ElsePart, Operand, Prefix, StepName, Parenthesized, NameOrPostfix, Apply, Wrap, Itos, TargetAhead, Clear;
    LevelIs(l, st);
  }

  lemma BarePrefix(st: State, step: int)
    requires st.cur != EndTok
    ensures var r := Prefix(st, step); r.Value? ==> r.st.last == NumTok
  {
    hide Lex, Peek, ReadTok, StrEval, Subexpr, Exp, Loop, ArithSyntax.Assignment, Conditional, ThenPart,
      ElsePart, Exponent, Unary, Operand, Prefix, StepName, Parenthesized, NameOrPostfix, Apply, Wrap, Itos,
      TargetAhead, Clear;
    PrefixReads(st, step);
    var r := ReadTok(st.(last := st.cur));
    if r.Value? && r.st.cur == StrTok {
      StepReads(r.st, step);
      PreviousToken(Bind(r.st, r.st.tokstr, Wrap(r.st.tokval + step)).(cur := NumTok));
    }
  }

  lemma BareOperand(st: State)
    ensures var r := Operand(st);
            r.Value? && r.st.last == StrTok ==> st.cur == StrTok && r == Then(ReadTok(st), st.tokval)
  {
    hide Lex, Peek, ReadTok, StrEval, Subexpr, Exp, Loop, ArithSyntax.Assignment, Conditional, ThenPart,
      ElsePart, Exponent, Unary, Prefix, StepName, NameOrPostfix, Apply, Wrap, Itos, TargetAhead, Clear;
    match st.cur
    case PreInc => BarePrefix(st, 1);
    case PreDec => BarePrefix(st, -1);
    case LPar =>
      var r := Begin(0, st);
      if r.Value? { PreviousToken(r.st); }
    case NumTok => PreviousToken(st);
    case StrTok =>
      NameReads(st);
      var p := Peek(st.tp);
      if p.Peeked? { PreviousToken(AfterStep(st, p)); }
    case _ =>
  }

  // After a remainder sign without a name and an OP= behind it, an operand that
  // leaves a name previous stops before no OP=, and before = it has value 0.
  predicate LeavesNoTarget(r: Result) {
    r.Value? && r.st.last == StrTok ==> !r.st.cur.OpAssign? && (r.st.cur == Assign ==> r.val == 0)
  }

  lemma NoTargetNext(st: State)
    requires st.cur == Op(Mod) && !IsPre(st.last) && !TargetAhead(st.tp)
    ensures LeavesNoTarget(Begin(13, st))
  {
    hide Lex, Peek, ReadTok, StrEval, Subexpr, Exp, Loop, ArithSyntax.Assignment, Conditional, ThenPart,
      ElsePart, Exponent, Unary, Operand, Prefix, StepName, Parenthesized, NameOrPostfix, Apply, Wrap, Itos,
      Clear;
    var r := ReadTok(st);
    if r.Value? {
      BareName(13, r.st);
      var l := Lex(st.tp, st.cur, st.last);
      LexTame(st.tp, st.cur, st.last);
      if l.lexeme.Name? {
        ReadsName(st, l.lexeme.name, l.rest);
        LexSame(st.tp, Op(Mod), st.last, EndTok);
        NextLexed(r.st);
      } else {
        ReadsOther(st);
      }
    }
  }

  // What is read after a name is what was peeked at.
  lemma NextLexed(st: State)
    requires st.cur == StrTok && st.last == Op(Mod)
    ensures var r := ReadTok(st);
            var next := Lex(st.tp, StrTok, EndTok).lexeme;
            r.Value? && Assigning(r.st.cur) ==> next == Symbol(r.st.cur) && Peek(st.tp).Peeked? && Peek(st.tp).tok == r.st.cur
  {
    hide Lex, ReadTok, StrEval, Subexpr, Exp, Loop, ArithSyntax.Assignment, Conditional, ThenPart, ElsePart,
      Exponent, Unary, Operand, Prefix, StepName, Parenthesized, NameOrPostfix, Apply, Wrap, Itos, TargetAhead,
      Clear;
    LexSame(st.tp, StrTok, st.last, EndTok);
    var l := Lex(st.tp, st.cur, st.last);
    if l.lexeme.Name? {
      ReadsName(st, l.lexeme.name, l.rest);
    } else {
      ReadsOther(st);
    }
  }

  lemma {:induction false} Skim(l: nat, s: State, t: State, strict: bool)
    requires l <= 15 && Together(s, t, strict)
    ensures Skimmed(s, t, Exp(l, s), Exp(l, t), strict)
    ensures l >= 13 ==> LeavesNamePrevious(Exp(l, s))
    decreases Unread(s), 20 - l, 2
  {
    hide Lex, Peek, ReadTok, StrEval, Subexpr, Exp, Loop, ArithSyntax.Assignment, Conditional, ThenPart,
      ElsePart, Exponent, Unary, Operand, Prefix, StepName, Parenthesized, NameOrPostfix, Apply, Wrap, Itos,
      TargetAhead, Clear;
    if IsLoop(l) {
      LevelLoops(l, s);
      LevelLoops(l, t);
      Skim(l + 1, s, t, strict);
      var r, r' := Exp(l + 1, s), Exp(l + 1, t);
      if r.Value? && r'.Value? {
        SkimLoop(l, r.st, r.val, r'.st, r'.val, strict);
      } else if r.Value? {
        SkimLoop(l, r.st, r.val, r.st, r.val, strict);
      }
    } else {
      LevelIs(l, s);
      LevelIs(l, t);
      match l
      case 1 => SkimAssignment(s, t, strict);
      case 2 => SkimConditional(s, t, strict);
      case 13 => SkimExponent(s, t, strict);
      case 14 => SkimUnary(s, t, strict);
      case _ => SkimOperand(s, t, strict);
    }
  }

  lemma {:induction false} SkimLoop(l: nat, s: State, u: int, t: State, v: int, strict: bool)
    requires IsLoop(l) && Together(s, t, strict) && (l == 12 ==> !IsPre(s.last))
    ensures Skimmed(s, t, Loop(l, s, u), Loop(l, t, v), strict)
    decreases Unread(s), 20 - l, 1
  {
    hide Lex, Peek, ReadTok, StrEval, Subexpr, Exp, Loop, ArithSyntax.Assignment, Conditional, ThenPart,
      ElsePart, Exponent, Unary, Operand, Prefix, StepName, Parenthesized, NameOrPostfix, Apply, Wrap, Itos,
      TargetAhead, Clear, Joined, Combine, Decides, RightOperand, Skimmed;
    if LevelOf(s.cur) != l {
      LoopStops(l, s, u);
      LoopStops(l, t, v);
      SkimNothing(s, u, t, v, strict);
    } else {
      LoopTurns(l, s, u);
      LoopTurns(l, t, v);
      var s1, t1 := Suppress(s, Decides(s.cur, u)), Suppress(t, Decides(t.cur, v));
      SkimNext(l + 1, s1, t1, strict);
      if strict && s.cur == Op(Mod) {
        NoTargetNext(s1);
        NoTargetNext(t1);
      }
      SkimRight(l, s, u, Begin(l + 1, s1), t, v, Begin(l + 1, t1), strict);
    }
  }

  lemma SkimNothing(s: State, u: int, t: State, v: int, strict: bool)
    requires Together(s, t, strict)
    ensures Skimmed(s, t, Value(s, u), Value(t, v), strict)
  {
  }

  lemma {:induction false} SkimRight(l: nat, s: State, u: int, r: Result, t: State, v: int, r': Result, strict: bool)
    requires IsLoop(l) && LevelOf(s.cur) == l && Together(s, t, strict) && (l == 12 ==> LeavesNamePrevious(r))
    requires Unwound(Suppress(s, Decides(s.cur, u)), r) && (r.Value? ==> Unread(r.st) < Unread(s))
    requires Unwound(Suppress(t, Decides(t.cur, v)), r') && (r'.Value? ==> Unread(r'.st) < Unread(t))
    requires Skimmed(Suppress(s, Decides(s.cur, u)), Suppress(t, Decides(t.cur, v)), r, r', strict)
    requires strict && s.cur == Op(Mod) ==> LeavesNoTarget(r) && LeavesNoTarget(r')
    ensures Skimmed(s, t, RightOperand(l, s, u, r), RightOperand(l, t, v, r'), strict)
    decreases Unread(s), 20 - l, 0
  {
    hide Lex, Peek, ReadTok, StrEval, Subexpr, Exp, Loop, ArithSyntax.Assignment, Conditional, ThenPart,
      ElsePart, Exponent, Unary, Operand, Prefix, StepName, Parenthesized, NameOrPostfix, Apply, Wrap, Itos,
      TargetAhead, Clear, Joined, Combine, Decides, RightOperand, Rejoin;
    RightOperandIs(l, s, u, r);
    RightOperandIs(l, t, v, r');
    if r.Value? && r'.Value? {
      RejoinTogether(l, s, u, r, t, v, r', strict);
      SkimLoop(l, Rejoin(s, u, r), Combine(s.cur, u, r.val), Rejoin(t, v, r'), Combine(t.cur, v, r'.val), strict);
    } else if r.Value? {
      RejoinTogether(l, s, u, r, s, u, r, strict);
      var s', w := Rejoin(s, u, r), Combine(s.cur, u, r.val);
      SkimLoop(l, s', w, s', w, strict);
    }
  }

  // Only after a remainder that would overflow do the runs part company over
  // the previous token.
  lemma RejoinTogether(l: nat, s: State, u: int, r: Result, t: State, v: int, r': Result, strict: bool)
    requires IsLoop(l) && LevelOf(s.cur) == l && s.cur == t.cur && s.noeval > 0
    requires r.Value? && r'.Value? && Mute(r.st) && SamePlace(r.st, r'.st, strict)
    requires (strict ==> NoTarget(r.st)) && (l == 12 ==> LeavesNamePrevious(r))
    requires strict && s.cur == Op(Mod) ==> LeavesNoTarget(r')
    requires r.st.noeval == Suppress(s, Decides(s.cur, u)).noeval && r'.st.noeval == Suppress(t, Decides(t.cur, v)).noeval
    ensures Together(Rejoin(s, u, r), Rejoin(t, v, r'), strict) && (l == 12 ==> !IsPre(Rejoin(s, u, r).last))
    ensures Rejoin(s, u, r).noeval == s.noeval && Rejoin(t, v, r').noeval == t.noeval
    ensures Rejoin(s, u, r).env == r.st.env && Rejoin(s, u, r).depth == r.st.depth
    ensures Rejoin(t, v, r').depth == r'.st.depth && Unread(Rejoin(s, u, r)) == Unread(r.st)
  {
  }

  // Reading a token and then an expression.
  lemma {:induction false} SkimNext(l: nat, s: State, t: State, strict: bool)
    requires l <= 15 && s.noeval > 0 && s.cur != EndTok && SamePlace(s, t, strict) && (strict ==> NoTarget(s))
    ensures Skimmed(s, t, Begin(l, s), Begin(l, t), strict)
    ensures l >= 13 ==> LeavesNamePrevious(Begin(l, s))
    ensures Begin(l, s).Value? ==> Unread(Begin(l, s).st) < Unread(s)
    decreases Unread(s), 0, 0
  {
    hide Lex, Peek, ReadTok, StrEval, Subexpr, Exp, Loop, ArithSyntax.Assignment, Conditional, ThenPart,
      ElsePart, Exponent, Unary, Operand, Prefix, StepName, Parenthesized, NameOrPostfix, Apply, Wrap, Itos,
      TargetAhead, Clear;
    SkimToken(s, t, strict);
    var r, r' := ReadTok(s), ReadTok(t);
    if r.Value? {
      Skim(l, r.st, if r'.Value? then r'.st else r.st, strict);
    }
  }

  lemma {:induction false} SkimAssignment(s: State, t: State, strict: bool)
    requires Together(s, t, strict)
    ensures Skimmed(s, t, ArithSyntax.Assignment(s), ArithSyntax.Assignment(t), strict)
    decreases Unread(s), 19, 0
  {
    hide Lex, Peek, ReadTok, StrEval, Subexpr, Exp, Loop, Conditional, ThenPart, ElsePart, Exponent, Unary,
      Operand, Prefix, StepName, Parenthesized, NameOrPostfix, Apply, Wrap, Itos, TargetAhead, Clear;
    Skim(2, s, t, strict);
    var r, r' := Exp(2, s), Exp(2, t);
    if r.Value? && (r.st.cur == Assign || r.st.cur.OpAssign?) && r.st.last == StrTok && r.st.tokstr.Some? {
      SkimNext(1, r.st, if r'.Value? then r'.st else r.st, strict);
    }
  }

  lemma {:induction false} SkimConditional(s: State, t: State, strict: bool)
    requires Together(s, t, strict)
    ensures Skimmed(s, t, Conditional(s), Conditional(t), strict)
    decreases Unread(s), 18, 0
  {
    hide Lex, Peek, ReadTok, StrEval, Subexpr, Exp, Loop, ArithSyntax.Assignment, ThenPart, ElsePart, Exponent,
      Unary, Operand, Prefix, StepName, Parenthesized, NameOrPostfix, Apply, Wrap, Itos, TargetAhead, Clear;
    Skim(3, s, t, strict);
    var r, r' := Exp(3, s), Exp(3, t);
    if r.Value? && r.st.cur == Quest {
      if r'.Value? {
        SkimThen(r.st, r.val, r'.st, r'.val, strict);
      } else {
        SkimThen(r.st, r.val, r.st, r.val, strict);
      }
    }
  }

  lemma ThenIs(st: State, c: int)
    requires st.cur == Quest
    ensures var pre := Suppress(st, c == 0);
            var first, r := ReadTok(pre), Begin(0, pre);
            && (r.Value? && c == 0 ==> r.st.noeval > 0)
            && ThenPart(st, c) ==
                 if first.Fail? then first
                 else if first.st.cur == EndTok || first.st.cur == Colon then Throw(ExpressionExpected, first.st)
                 else if r.Fail? then r
                 else ElsePart(Resume(r.st, c == 0), c, r.val)
  {
    hide Lex, Peek, ReadTok, StrEval, Subexpr, Exp, Loop, ArithSyntax.Assignment, Conditional, ElsePart,
      Exponent, Unary, Operand, Prefix, StepName, Parenthesized, NameOrPostfix, Apply, Wrap, Itos, TargetAhead,
      Clear;
  }

  lemma ElseIs(st: State, c: int, val1: int)
    ensures var pre := Suppress(st, c != 0);
            var first, r := ReadTok(pre), Begin(2, pre);
            && (r.Value? && c != 0 ==> r.st.noeval > 0)
            && ElsePart(st, c, val1) ==
                 if st.cur != Colon then Throw(ColonExpected, st)
                 else if first.Fail? then first
                 else if first.st.cur == EndTok then Throw(ExpressionExpected, first.st)
                 else if r.Fail? then r
                 else Value(Resume(r.st, c != 0).(last := CondTok), if c != 0 then val1 else r.val)
  {
    hide Lex, Peek, ReadTok, StrEval, Subexpr, Exp, Loop, ArithSyntax.Assignment, Conditional, ThenPart,
      Exponent, Unary, Operand, Prefix, StepName, Parenthesized, NameOrPostfix, Apply, Wrap, Itos, TargetAhead,
      Clear;
  }

  lemma {:induction false} SkimThen(s: State, c: int, t: State, d: int, strict: bool)
    requires s.cur == Quest && Together(s, t, strict)
    ensures Skimmed(s, t, ThenPart(s, c), ThenPart(t, d), strict)
    decreases Unread(s), 22, 0
  {
    hide Lex, Peek, ReadTok, StrEval, Subexpr, Exp, Loop, ArithSyntax.Assignment, Conditional, ThenPart,
      ElsePart, Exponent, Unary, Operand, Prefix, StepName, Parenthesized, NameOrPostfix, Apply, Wrap, Itos,
      TargetAhead, Clear;
    ThenIs(s, c);
    ThenIs(t, d);
    var s1, t1 := Suppress(s, c == 0), Suppress(t, d == 0);
    SkimToken(s1, t1, strict);
    SkimNext(0, s1, t1, strict);
    var r, r' := Begin(0, s1), Begin(0, t1);
    if r.Value? {
      var s2 := Resume(r.st, c == 0);
      if r'.Value? {
        SkimElse(s2, c, r.val, Resume(r'.st, d == 0), d, r'.val, strict);
      } else {
        SkimElse(s2, c, r.val, s2, c, r.val, strict);
      }
    }
  }

  lemma {:induction false} SkimElse(s: State, c: int, u: int, t: State, d: int, v: int, strict: bool)
    requires Together(s, t, strict)
    ensures Skimmed(s, t, ElsePart(s, c, u), ElsePart(t, d, v), strict)
    decreases Unread(s), 21, 0
  {
    hide Lex, Peek, ReadTok, StrEval, Subexpr, Exp, Loop, ArithSyntax.Assignment, Conditional, ThenPart,
      ElsePart, Exponent, Unary, Operand, Prefix, StepName, Parenthesized, NameOrPostfix, Apply, Wrap, Itos,
      TargetAhead, Clear;
    ElseIs(s, c, u);
    ElseIs(t, d, v);
    if s.cur == Colon {
      var s1, t1 := Suppress(s, c != 0), Suppress(t, d != 0);
      SkimToken(s1, t1, strict);
      SkimNext(2, s1, t1, strict);
    }
  }

  lemma {:induction false} SkimExponent(s: State, t: State, strict: bool)
    requires Together(s, t, strict)
    ensures Skimmed(s, t, Exponent(s), Exponent(t), strict) && LeavesNamePrevious(Exponent(s))
    decreases Unread(s), 7, 0
  {
    hide Lex, Peek, ReadTok, StrEval, Subexpr, Exp, Loop, ArithSyntax.Assignment, Conditional, ThenPart,
      ElsePart, Unary, Operand, Prefix, StepName, Parenthesized, NameOrPostfix, Apply, Wrap, Itos, TargetAhead,
      Clear;
    Skim(14, s, t, strict);
    var r, r' := Exp(14, s), Exp(14, t);
    if r.Value? && r.st.cur == PowerTok {
      SkimNext(13, r.st, if r'.Value? then r'.st else r.st, strict);
    }
  }

  lemma {:induction false} SkimUnary(s: State, t: State, strict: bool)
    requires Together(s, t, strict)
    ensures Skimmed(s, t, Unary(s), Unary(t), strict) && LeavesNamePrevious(Unary(s))
    decreases Unread(s), 6, 0
  {
    hide Lex, Peek, ReadTok, StrEval, Subexpr, Exp, Loop, ArithSyntax.Assignment, Conditional, ThenPart,
      ElsePart, Exponent, Operand, Prefix, StepName, Parenthesized, NameOrPostfix, Apply, Wrap, Itos,
      TargetAhead, Clear;
    if UnaryOf(s.cur).Some? {
      SkimNext(14, s, t, strict);
    } else {
      Skim(15, s, t, strict);
    }
  }

  lemma {:induction false} SkimOperand(s: State, t: State, strict: bool)
    requires Together(s, t, strict)
    ensures Skimmed(s, t, Operand(s), Operand(t), strict) && LeavesNamePrevious(Operand(s))
    decreases Unread(s), 5, 0
  {
    hide Lex, Peek, ReadTok, StrEval, Subexpr, Exp, Loop, ArithSyntax.Assignment, Conditional, ThenPart,
      ElsePart, Exponent, Unary, Prefix, StepName, Parenthesized, NameOrPostfix, Apply, Wrap, Itos,
      TargetAhead, Clear;
    match s.cur
    case PreInc => SkimPrefix(s, t, 1, strict);
    case PreDec => SkimPrefix(s, t, -1, strict);
    case LPar => SkimParenthesized(s, t, strict);
    case NumTok => SkimToken(s, t, strict); PreviousToken(s);
    case StrTok => SkimName(s, t, strict);
    case _ =>
  }

  // Reading a token makes the current token the previous one.
  lemma PreviousToken(s: State)
    ensures var r := ReadTok(s); r.Value? ==> r.st.last == s.cur
  {
    hide Lex, Peek, StrEval, Subexpr, Exp, Loop, ArithSyntax.Assignment, Conditional, ThenPart, ElsePart,
      Exponent, Unary, Operand, Prefix, StepName, Parenthesized, NameOrPostfix, Apply, Wrap, Itos, TargetAhead,
      Clear;
  }

  lemma SkimPrefix(s: State, t: State, step: int, strict: bool)
    requires Together(s, t, strict) && s.cur != EndTok
    ensures Skimmed(s, t, Prefix(s, step), Prefix(t, step), strict)
    ensures LeavesNamePrevious(Prefix(s, step))
  {
    hide Lex, Peek, ReadTok, StrEval, Subexpr, Exp, Loop, ArithSyntax.Assignment, Conditional, ThenPart,
      ElsePart, Exponent, Unary, Operand, Prefix, StepName, Parenthesized, NameOrPostfix, Apply, Wrap, Itos,
      TargetAhead, Clear;
    PrefixReads(s, step);
    PrefixReads(t, step);
    var s1, t1 := s.(last := s.cur), t.(last := t.cur);
    SkimToken(s1, t1, strict);
    var r, r' := ReadTok(s1), ReadTok(t1);
    if r.Value? && r.st.cur == StrTok {
      SkimStep(r.st, if r'.Value? then r'.st else r.st, step, strict);
    }
  }

  lemma SkimStep(s: State, t: State, step: int, strict: bool)
    requires s.noeval > 0 && SamePlace(s, t, strict) && (strict ==> NoTarget(s)) && s.cur == StrTok
    ensures Skimmed(s, t, StepName(s, step), StepName(t, step), strict) && LeavesNamePrevious(StepName(s, step))
  {
    hide Lex, Peek, ReadTok, StrEval, Subexpr, Exp, Loop, ArithSyntax.Assignment, Conditional, ThenPart,
      ElsePart, Exponent, Unary, Operand, Prefix, StepName, Parenthesized, NameOrPostfix, Apply, Wrap, Itos,
      TargetAhead, Clear;
    StepReads(s, step);
    StepReads(t, step);
    var s' := Bind(s, s.tokstr, Wrap(s.tokval + step)).(cur := NumTok);
    var t' := Bind(t, t.tokstr, Wrap(t.tokval + step)).(cur := NumTok);
    SkimToken(s', t', strict);
    PreviousToken(s');
  }

  lemma {:induction false} SkimParenthesized(s: State, t: State, strict: bool)
    requires Together(s, t, strict) && s.cur != EndTok
    ensures Skimmed(s, t, Parenthesized(s), Parenthesized(t), strict) && LeavesNamePrevious(Parenthesized(s))
    decreases Unread(s), 4, 0
  {
    hide Lex, Peek, ReadTok, StrEval, Subexpr, Exp, Loop, ArithSyntax.Assignment, Conditional, ThenPart,
      ElsePart, Exponent, Unary, Operand, Prefix, StepName, NameOrPostfix, Apply, Wrap, Itos, TargetAhead,
      Clear;
    SkimNext(0, s, t, strict);
    var r, r' := Begin(0, s), Begin(0, t);
    if r.Value? && r.st.cur == RPar {
      PreviousToken(r.st);
      SkimToken(r.st, if r'.Value? then r'.st else r.st, strict);
    }
  }

  lemma SkimName(s: State, t: State, strict: bool)
    requires Together(s, t, strict) && s.cur == StrTok
    ensures Skimmed(s, t, NameOrPostfix(s), NameOrPostfix(t), strict) && LeavesNamePrevious(NameOrPostfix(s))
  {
    hide Lex, Peek, ReadTok, StrEval, Subexpr, Exp, Loop, ArithSyntax.Assignment, Conditional, ThenPart,
      ElsePart, Exponent, Unary, Operand, Prefix, StepName, Parenthesized, NameOrPostfix, Apply, Wrap, Itos,
      TargetAhead, Clear, Bind, AfterStep;
    NameReads(s);
    NameReads(t);
    PeekTame(s.tp);
    var p := Peek(s.tp);
    if p.Peeked? && (p.tok == PostInc || p.tok == PostDec) {
      SkimAfterStep(s, t, p, strict);
    } else {
      SkimToken(s, t, strict);
      PreviousToken(s);
    }
  }

  lemma SkimAfterStep(s: State, t: State, p: Peeked, strict: bool)
    requires Together(s, t, strict) && p == Peek(s.tp) && p.Peeked?
    ensures Skimmed(s, t, ReadTok(AfterStep(s, p)), ReadTok(AfterStep(t, p)), strict)
    ensures var r := ReadTok(AfterStep(s, p)); r.Value? ==> r.st.last == NumTok
  {
    hide Lex, Peek, ReadTok, StrEval, Subexpr, Exp, Loop, ArithSyntax.Assignment, Conditional, ThenPart,
      ElsePart, Exponent, Unary, Operand, Prefix, StepName, Parenthesized, NameOrPostfix, Apply, Wrap, Itos,
      TargetAhead, Clear;
    PeekClear(s.tp);
    SkimToken(AfterStep(s, p), AfterStep(t, p), strict);
    PreviousToken(AfterStep(s, p));
  }

  lemma PeekClear(s: string)
    ensures Clear(s) && Peek(s).Peeked? ==> Clear(Peek(s).rest)
  {
    hide Lex, Clear, TargetAhead;
    LexTame(s, StrTok, EndTok);
  }
}
