// The evaluator is right: from the text of any tree it computes the tree's
// meaning, and with evaluation suppressed it reads the same text and changes
// nothing.

module ArithCorrect {
  import opened Options
  import opened Numerals
  import opened ArithValues
  import opened ArithLexer
  import opened ArithSyntax
  import opened ArithTrees
  import opened ArithReading

  // Reads the first token and then an expression of level m.
  function Begin(m: nat, pre: State): Result
    requires m <= 15
  {
    var r := ReadTok(pre);
    if r.Value? then Exp(m, r.st) else r
  }

  // At a looping level, whatever comes after the first operand.
  function Continue(m: nat, r: Result): Result {
    if r.Value? && IsLoop(m) then Loop(m, r.st, r.val) else r
  }

  // Before the first token of an expression.
  ghost predicate Ready(pre: State) {
    pre.cur !in {StrTok, NumTok, PreInc, PreDec} && pre.last !in {PreInc, PreDec}
  }

  predicate FollowsAt(m: nat, rest: seq<Word>) {
    Follows(if IsLoop(m) then m + 1 else m, rest)
  }

  // The outcome for tree e: its meaning, or with evaluation suppressed some
  // value and unchanged variables. Either way the text of e has been read.
  ghost predicate Matches(r: Result, e: Expr, pre: State, rest: seq<Word>) {
    if pre.noeval > 0 then r.Value? && After(r.st, rest, pre.noeval, pre.env, pre.depth)
    else
      var d := Denote(e, pre.env, pre.depth);
      if d.Failed? then r == Fail(d.error, d.env, d.depth)
      else r.Value? && r.val == d.val && After(r.st, rest, 0, d.env, pre.depth)
  }

  // ---------------------------------------------------------------- from level to level

  // An operand of level m + 1 with no operator of level m after it.
  lemma Lifts(m: nat, st: State, r: Result)
    requires m <= 14 && Exp(m + 1, st) == r
    requires r.Value? && !IsLoop(m) ==> LevelOf(r.st.cur) != m
    requires r.Value? && m == 1 ==> r.st.cur != Assign && !r.st.cur.OpAssign?
    requires m == 14 ==> UnaryOf(st.cur) == None
    ensures Exp(m, st) == Continue(m, r)
  {
    hide Lex, Peek, ReadTok, StrEval, Subexpr, Exp, Loop, ThenPart, ElsePart, Operand, Prefix, StepName,
      Parenthesized, NameOrPostfix, SpellsAfter, Past, Unmerged, Apply, Wrap, Numeral, Words, Child, Denote;
    if IsLoop(m) {
      LevelLoops(m, st);
    } else {
      LevelIs(m, st);
    }
  }

  lemma Stops(m: nat, r: Result)
    requires r.Value? ==> LevelOf(r.st.cur) != m
    ensures Continue(m, r) == r
  {
    if r.Value? && IsLoop(m) {
      LoopStops(m, r.st, r.val);
    }
  }

  // From operand level up to level m, when the token after it belongs to none of them.
  lemma {:induction false} Climbs(m: nat, st: State, r: Result)
    requires 2 <= m <= 15 && Exp(15, st) == r && UnaryOf(st.cur) == None
    requires r.Value? ==> LevelOf(r.st.cur) == NO_LEVEL
    ensures Exp(m, st) == r
    decreases 15 - m
  {
    hide Lex, Peek, ReadTok, StrEval, Subexpr, Exp, Loop, ArithSyntax.Assignment, Conditional, ThenPart,
      ElsePart, Exponent, Unary, Operand, Prefix, StepName, Parenthesized, NameOrPostfix, SpellsAfter, Past,
      Unmerged, Apply, Wrap, Numeral, Words, Child, Denote;
    if m < 15 {
      Climbs(m + 1, st, r);
      Lifts(m, st, r);
      Stops(m, r);
    }
  }

  // ---------------------------------------------------------------- operands

  lemma NodeNumber(e: Expr, pre: State, rest: seq<Word>) returns (r: Result)
    requires e.Num? && WellFormed(e) && Ready(pre) && Spells(pre.tp, Words(e) + rest) && Follows(15, rest)
    ensures Begin(15, pre) == r && Matches(r, e, pre, rest)
  {
    hide Lex, Peek, ReadTok, StrEval, Subexpr, Exp, Loop, ArithSyntax.Assignment, Conditional, ThenPart,
      ElsePart, Exponent, Unary, Prefix, StepName, Parenthesized, NameOrPostfix, SpellsAfter, Past, Unmerged,
      Apply, Wrap, Numeral, Child;
    ReadsNumber(pre, e.n, rest);
    var st1 := ReadTok(pre).st;
    LevelIs(15, st1);
    var st2 := ReadsNext(st1, rest, 15, false);
    r := Value(st2, e.n);
  }

  lemma SuppressedVariable(x: string, st: State)
    requires st.noeval > 0
    ensures StrEval(x, st.env, st.noeval, st.depth) == Done(0, st.env)
  {
  }

  lemma NodeName(e: Expr, pre: State, rest: seq<Word>) returns (r: Result)
    requires e.Var? && WellFormed(e) && Ready(pre) && Spells(pre.tp, Words(e) + rest) && Follows(15, rest)
    ensures Begin(15, pre) == r && Matches(r, e, pre, rest)
  {
    hide Lex, Peek, ReadTok, StrEval, Subexpr, Exp, Loop, ArithSyntax.Assignment, Conditional, ThenPart,
      ElsePart, Exponent, Unary, Prefix, StepName, Parenthesized, SpellsAfter, Past, Unmerged, Apply, Wrap,
      Numeral, Child;
    FirstWordSpelled(pre.tp, WName(e.x), rest, false);
    PeeksNext(Past(pre.tp, WName(e.x)), rest, 15);
    ReadsVariable(pre, e.x, rest);
    r := ReadTok(pre);
    if r.Value? {
      var st1 := r.st;
      LevelIs(15, st1);
      var st2 := ReadsNext(st1, rest, 15, true);
      r := Value(st2, st1.tokval);
    }
    if pre.noeval > 0 { SuppressedVariable(e.x, pre); }
  }

  lemma NodePreStep(e: Expr, pre: State, rest: seq<Word>) returns (r: Result)
    requires e.PreStep? && WellFormed(e) && Ready(pre) && Spells(pre.tp, Words(e) + rest) && Follows(15, rest)
    ensures Begin(15, pre) == r && Matches(r, e, pre, rest)
  {
    hide Lex, Peek, ReadTok, StrEval, Subexpr, Exp, Loop, ArithSyntax.Assignment, Conditional, ThenPart,
      ElsePart, Exponent, Unary, Operand, Prefix, StepName, Parenthesized, NameOrPostfix, SpellsAfter, Past,
      Unmerged, Apply, Wrap, Numeral, Words, Child, Denote, Matches, WellFormed;
    var t := if e.down then PreDec else PreInc;
    StepWords(e, rest);
    ReadsPreStep(pre, t, e.x, rest);
    var st1 := ReadTok(pre).st;
    LevelIs(15, st1);
    PrefixOperand(st1, ArithTrees.Step(e.down));
    var r1;
    r1, r := PrefixTail(st1, e.x, ArithTrees.Step(e.down), rest);
    StepMatches(e, pre, rest, r1, r);
  }

  lemma PrefixOperand(st: State, step: int)
    requires st.cur == if step == 1 then PreInc else PreDec
    requires step == 1 || step == -1
    ensures Operand(st) == Prefix(st, step)
  {
    hide Lex, Peek, ReadTok, StrEval, Subexpr, Exp, Loop, ArithSyntax.Assignment, Conditional, ThenPart,
      ElsePart, Exponent, Unary, Prefix, StepName, Parenthesized, NameOrPostfix, SpellsAfter, Past, Unmerged,
      Apply, Wrap, Numeral, Words, Child, Denote;
  }

  // From the name of a prefix step on: r1 is the outcome of reading it.
  lemma PrefixTail(st: State, x: string, step: int, rest: seq<Word>) returns (r1: Result, r: Result)
    requires ValidName(x) && st.cur != EndTok && Spells(st.tp, [WName(x)] + rest) && Follows(15, rest)
    requires st.cur == PreInc || st.cur == PreDec
    ensures Prefix(st, step) == r
    ensures var o := StrEval(x, st.env, st.noeval, st.depth);
            if o.Failed? then r == r1 == Fail(o.error, o.env, o.depth)
            else
              var v := Wrap(o.val + step);
              r1.Value? && r.Value? && r.val == v
              && After(r.st, rest, st.noeval, if st.noeval == 0 then o.env[x := Itos(v)] else o.env, st.depth)
  {
    hide Lex, Peek, ReadTok, StrEval, Subexpr, Exp, Loop, ArithSyntax.Assignment, Conditional, ThenPart,
      ElsePart, Exponent, Unary, Operand, Prefix, StepName, Parenthesized, NameOrPostfix, SpellsAfter, Past,
      Unmerged, Apply, Wrap, Numeral, Words, Child, Denote, Follows, LevelOf, Itos, ValidName, NameStart, After;
    FirstWordSpelled(st.tp, WName(x), rest, false);
    PeeksNext(Past(st.tp, WName(x)), rest, 15);
    ReadsVariable(st.(last := st.cur), x, rest);
    PrefixReads(st, step);
    r := ReadTok(st.(last := st.cur));
    r1 := r;
    if r.Value? { r := StepTail(r.st, x, step, rest); }
  }

  // From the name just read on.
  lemma StepTail(st: State, x: string, step: int, rest: seq<Word>) returns (r: Result)
    requires st.cur == StrTok && st.tokstr == Some(x) && SpellsAfter(st.tp, rest, true) && Follows(15, rest)
    ensures StepName(st, step) == r && r.Value? && r.val == Wrap(st.tokval + step)
    ensures After(r.st, rest, st.noeval, if st.noeval == 0 then st.env[x := Itos(r.val)] else st.env, st.depth)
  {
    hide Lex, Peek, ReadTok, StrEval, Subexpr, Exp, Loop, ArithSyntax.Assignment, Conditional, ThenPart,
      ElsePart, Exponent, Unary, Operand, Prefix, StepName, Parenthesized, NameOrPostfix, SpellsAfter, Past,
      Unmerged, Apply, Wrap, Numeral, Words, Child, Denote, Follows, LevelOf, Itos, After;
    StepReads(st, step);
    var v := Wrap(st.tokval + step);
    var st3 := ReadsNext(Bind(st, st.tokstr, v).(cur := NumTok), rest, 15, true);
    r := Value(st3, v);
  }

  lemma NodePostStep(e: Expr, pre: State, rest: seq<Word>) returns (r: Result)
    requires e.PostStep? && WellFormed(e) && Ready(pre) && Spells(pre.tp, Words(e) + rest) && Follows(15, rest)
    ensures Begin(15, pre) == r && Matches(r, e, pre, rest)
  {
    hide Lex, Peek, ReadTok, StrEval, Subexpr, Exp, Loop, ArithSyntax.Assignment, Conditional, ThenPart,
      ElsePart, Exponent, Unary, Operand, Prefix, StepName, Parenthesized, NameOrPostfix, SpellsAfter, Past,
      Unmerged, Apply, Wrap, Numeral, Words, Child, Denote, Matches, WellFormed, Follows, LevelOf, Itos,
      SymText, After, Bind;
    var t := if e.down then PostDec else PostInc;
    StepWords(e, rest);
    FirstWordSpelled(pre.tp, WName(e.x), [WSym(t)] + rest, false);
    PeeksSymbol(Past(pre.tp, WName(e.x)), t, rest);
    ReadsVariable(pre, e.x, [WSym(t)] + rest);
    var r1 := ReadTok(pre);
    r := r1;
    if r1.Value? {
      LevelIs(15, r1.st);
      r := PostfixTail(r1.st, e.x, ArithTrees.Step(e.down), t, rest);
    }
    StepMatches(e, pre, rest, r1, r);
  }

  // From the sign of a postfix step on.
  lemma PostfixTail(st: State, x: string, step: int, t: Token, rest: seq<Word>) returns (r: Result)
    requires st.cur == StrTok && SpellsAfter(st.tp, [WSym(t)] + rest, true) && Follows(15, rest) && st.tokstr == Some(x)
    requires (t == PostInc && step == 1) || (t == PostDec && step == -1)
    ensures var v := Wrap(st.tokval + step);
            && Operand(st) == r && r.Value? && r.val == st.tokval
            && After(r.st, rest, st.noeval, if st.noeval == 0 then st.env[x := Itos(v)] else st.env, st.depth)
  {
    hide Lex, Peek, ReadTok, StrEval, Subexpr, Exp, Loop, ArithSyntax.Assignment, Conditional, ThenPart,
      ElsePart, Exponent, Unary, Operand, Prefix, StepName, Parenthesized, NameOrPostfix, SpellsAfter, Past,
      Unmerged, Apply, Wrap, Numeral, Words, Child, Denote, Follows, LevelOf, Itos, After, AfterStep, Bind,
      SymText;
    PeeksSymbol(st.tp, t, rest);
    OperandName(st);
    NameReads(st);
    StepDone(st, x, step, t, Past(st.tp, WSym(t)));
    var st3 := ReadsNext(AfterStep(st, Peeked(t, Past(st.tp, WSym(t)))), rest, 15, false);
    r := Value(st3, st.tokval);
  }

  lemma OperandName(st: State)
    requires st.cur == StrTok
    ensures Operand(st) == NameOrPostfix(st)
  {
    hide Lex, Peek, ReadTok, StrEval, Subexpr, Exp, Loop, ArithSyntax.Assignment, Conditional, ThenPart,
      ElsePart, Exponent, Unary, Prefix, StepName, Parenthesized, NameOrPostfix, SpellsAfter, Past, Unmerged,
      Apply, Wrap, Numeral, Words, Child, Denote;
  }

  lemma StepDone(st: State, x: string, step: int, t: Token, tp: string)
    requires (t == PostInc && step == 1) || (t == PostDec && step == -1)
    requires st.tokstr == Some(x)
    ensures var st' := AfterStep(st, Peeked(t, tp));
            && st'.tp == tp && st'.cur == NumTok && st'.last == StrTok && st'.noeval == st.noeval && st'.depth == st.depth
            && st'.env == if st.noeval == 0 then st.env[x := Itos(Wrap(st.tokval + step))] else st.env
  {
    hide Lex, Peek, ReadTok, StrEval, Subexpr, Exp, Loop, ArithSyntax.Assignment, Conditional, ThenPart,
      ElsePart, Exponent, Unary, Operand, Prefix, StepName, Parenthesized, NameOrPostfix, SpellsAfter, Past,
      Unmerged, Apply, Wrap, Numeral, Words, Child, Denote, Itos;
  }

  lemma StepWords(e: Expr, rest: seq<Word>)
    requires (e.PreStep? || e.PostStep?) && WellFormed(e)
    ensures ValidName(e.x)
    ensures e.PreStep? ==> Words(e) + rest == [WSym(if e.down then PreDec else PreInc), WName(e.x)] + rest
    ensures e.PostStep? ==> Words(e) + rest == [WName(e.x)] + ([WSym(if e.down then PostDec else PostInc)] + rest)
  {
  }

  // What reading the variable, r1, makes of a prefix or postfix step.
  lemma StepMatches(e: Expr, pre: State, rest: seq<Word>, r1: Result, r: Result)
    requires e.PreStep? || e.PostStep?
    requires var o := StrEval(e.x, pre.env, pre.noeval, pre.depth);
             if o.Failed? then r == r1 == Fail(o.error, o.env, o.depth)
             else
               var v := Wrap(o.val + ArithTrees.Step(e.down));
               r1.Value? && r.Value? && r.val == (if e.PreStep? then v else o.val)
               && After(r.st, rest, pre.noeval, if pre.noeval == 0 then o.env[e.x := Itos(v)] else o.env, pre.depth)
    ensures Matches(r, e, pre, rest)
  {
    hide Lex, Peek, ReadTok, StrEval, Subexpr, Exp, Loop, ArithSyntax.Assignment, Conditional, ThenPart,
      ElsePart, Exponent, Unary, Operand, Prefix, StepName, Parenthesized, NameOrPostfix, SpellsAfter, Past,
      Unmerged, Apply, Wrap, Numeral, Words, Child;
    if pre.noeval > 0 { SuppressedVariable(e.x, pre); }
  }

  // ---------------------------------------------------------------- first tokens

  ghost predicate StartsTree(ws: seq<Word>) {
    ws != [] &&
    match ws[0]
    case WNum(n) => n <= INTMAX_MAX
    case WName(x) => ValidName(x)
    case WSym(t) => t == LPar || UnaryOf(t).Some? ||
                    ((t == PreInc || t == PreDec) && |ws| > 1 && ws[1].WName? && ValidName(ws[1].name))
  }

  lemma {:induction false} FirstWord(e: Expr, m: nat)
    requires WellFormed(e)
    ensures StartsTree(Child(e, m))
    ensures (Lev(e) == 15 || Lev(e) < m) && Child(e, m)[0].WSym? ==> UnaryOf(Child(e, m)[0].tok) == None
    decreases e, m
  {
    if Lev(e) >= m {
      match e
      case Num(_) =>
      case Var(_) =>
      case PreStep(_, _) =>
      case PostStep(_, _) =>
      case Un(_, _) =>
      case Set(_, _) =>
      case SetOp(_, _, _) =>
      case If(c, _, _) => FirstWord(c, 3);
      case Pow(l, _) => FirstWord(l, 14);
      case _ => FirstWord(e.left, Lev(e));
    }
  }

  lemma FirstToken(st: State, ws: seq<Word>, rest: seq<Word>)
    requires StartsTree(ws) && Spells(st.tp, ws + rest) && st.cur != StrTok && st.cur != NumTok
    ensures var r := ReadTok(st);
            r.Value? ==> r.st.cur == match ws[0] case WNum(_) => NumTok case WName(_) => StrTok case WSym(t) => t
  {
    hide Lex, Peek, ReadTok, StrEval, Subexpr, Exp, Loop, ArithSyntax.Assignment, Conditional, ThenPart,
      ElsePart, Exponent, Unary, Operand, Prefix, StepName, Parenthesized, NameOrPostfix, SpellsAfter, Past,
      Unmerged, Apply, Wrap, Numeral, Words, Child, Denote;
    assert ws + rest == [ws[0]] + (ws[1..] + rest);
    match ws[0]
    case WNum(n) => ReadsNumber(st, n, ws[1..] + rest);
    case WName(x) => NameToken(st, x, ws[1..] + rest);
    case WSym(t) =>
      if t == PreInc || t == PreDec {
        assert ws + rest == [WSym(t), ws[1]] + (ws[2..] + rest);
        ReadsPreStep(st, t, ws[1].name, ws[2..] + rest);
      } else {
        ReadsSymbol(st, t, ws[1..] + rest, false);
      }
  }

  lemma NameToken(st: State, x: string, rest: seq<Word>)
    requires ValidName(x) && Spells(st.tp, [WName(x)] + rest)
    ensures var r := ReadTok(st); r.Value? ==> r.st.cur == StrTok
  {
    hide Lex, Peek, StrEval, Subexpr, Exp, Loop, ArithSyntax.Assignment, Conditional, ThenPart, ElsePart,
      Exponent, Unary, Operand, Prefix, StepName, Parenthesized, NameOrPostfix, SpellsAfter, Past, Unmerged,
      Apply, Wrap, Numeral, Words, Child, Denote;
    FirstWordSpelled(st.tp, WName(x), rest, false);
    LexName(st.tp, x, st.cur, st.last);
  }

  // ---------------------------------------------------------------- operators

  lemma {:induction false} NodeUnary(e: Expr, pre: State, rest: seq<Word>) returns (r: Result)
    requires e.Un? && WellFormed(e) && Ready(pre) && Spells(pre.tp, Words(e) + rest) && Follows(14, rest)
    ensures Begin(14, pre) == r && Matches(r, e, pre, rest)
    decreases e, 0, 1, 0
  {
    hide Lex, Peek, ReadTok, StrEval, Subexpr, Exp, Loop, ArithSyntax.Assignment, Conditional, ThenPart,
      ElsePart, Exponent, Operand, Prefix, StepName, Parenthesized, NameOrPostfix, SpellsAfter, Past, Unmerged,
      Apply, Wrap, Numeral, Child;
    var t := UnToken(e.unop);
    assert Words(e) + rest == [WSym(t)] + (Child(e.arg, 14) + rest);
    ReadsSymbol(pre, t, Child(e.arg, 14) + rest, false);
    var st1 := ReadTok(pre).st;
    LevelIs(14, st1);
    r := ParseChild(e.arg, 14, st1, rest);
    if r.Value? {
      r := Value(r.st.(last := NumTok), ApplyUnary(e.unop, r.val));
    }
  }

  lemma {:induction false} NodePower(e: Expr, pre: State, rest: seq<Word>) returns (r: Result)
    requires e.Pow? && WellFormed(e) && Ready(pre) && Spells(pre.tp, Words(e) + rest) && Follows(13, rest)
    ensures Begin(13, pre) == r && Matches(r, e, pre, rest)
    decreases e, 0, 2, 0
  {
    hide Lex, Peek, ReadTok, StrEval, Subexpr, Exp, Loop, ArithSyntax.Assignment, Conditional, ThenPart,
      ElsePart, Unary, Operand, Prefix, StepName, Parenthesized, NameOrPostfix, SpellsAfter, Past, Unmerged,
      Apply, Wrap, Numeral, Child;
    var more := Child(e.right, 13) + rest;
    assert Words(e) + rest == Child(e.left, 14) + ([WSym(PowerTok)] + more);
    r := ParseChild(e.left, 14, pre, [WSym(PowerTok)] + more);
    if ReadTok(pre).Value? { LevelIs(13, ReadTok(pre).st); }
    if r.Value? {
      assert ([WSym(PowerTok)] + more)[1..] == more;
      var r2 := ParseChild(e.right, 13, r.st, rest);
      if r2.Fail? {
        r := r2;
      } else if r2.st.noeval == 0 && r2.val < 0 {
        r := Throw(NegativeExponent, r2.st);
      } else {
        r := Value(r2.st.(last := NumTok), if r2.st.noeval == 0 then Wrap(Power(r.val, r2.val)) else 1);
      }
    }
  }

  lemma {:induction false} NodeJoin(e: Expr, pre: State, rest: seq<Word>) returns (r: Result)
    requires IsLoop(Lev(e)) && WellFormed(e) && Ready(pre) && Spells(pre.tp, Words(e) + rest)
    requires Follows(Lev(e) + 1, rest)
    ensures Begin(Lev(e), pre) == Continue(Lev(e), r) && Matches(r, e, pre, rest)
    decreases e, 0, 15 - Lev(e), 0
  {
    hide Lex, Peek, ReadTok, StrEval, Subexpr, Exp, Loop, ArithSyntax.Assignment, Conditional, ThenPart,
      ElsePart, Exponent, Unary, Operand, Prefix, StepName, Parenthesized, NameOrPostfix, SpellsAfter, Past,
      Unmerged, Apply, Wrap, Numeral, Words, Child, Denote;
    var m, j := Lev(e), Joiner(e);
    var more := Child(e.right, m + 1) + rest;
    JoinWords(e, rest);
    r := ParseChild(e.left, m, pre, [WSym(j)] + more);
    if r.Fail? {
      JoinFails(e, pre);
    } else {
      assert ([WSym(j)] + more)[1..] == more;
      var r1 := r;
      var r2;
      r2, r := NodeRight(e, r1.st, r1.val, rest);
      JoinMatches(e, pre, rest, r1, r2, r);
    }
  }

  // From the operator between two operands on.
  lemma {:induction false} NodeRight(e: Expr, st: State, val: int, rest: seq<Word>) returns (r2: Result, r: Result)
    requires IsLoop(Lev(e)) && WellFormed(e) && st.cur == Joiner(e) && st.last != PreInc && st.last != PreDec
    requires Spells(st.tp, Child(e.right, Lev(e) + 1) + rest) && Follows(Lev(e) + 1, rest)
    ensures Matches(r2, e.right, Suppress(st, Decides(st.cur, val)), rest)
    ensures r == JoinedResult(st, val, r2) && Loop(Lev(e), st, val) == Continue(Lev(e), r)
    decreases e, 0, 0, 0
  {
    hide Lex, Peek, ReadTok, StrEval, Subexpr, Exp, Loop, ArithSyntax.Assignment, Conditional, ThenPart,
      ElsePart, Exponent, Unary, Operand, Prefix, StepName, Parenthesized, NameOrPostfix, SpellsAfter, Past,
      Unmerged, Apply, Wrap, Numeral, Words, Child, Denote;
    var m, skip := Lev(e), Decides(st.cur, val);
    JoinWords(e, rest);
    LoopContinues(m, st, val);
    r2 := ParseChild(e.right, m + 1, Suppress(st, skip), rest);
    Stops(m + 1, r2);
    r := JoinedResult(st, val, r2);
  }

  // What the right operand's outcome makes of the value so far.
  function JoinedResult(st: State, val: int, r2: Result): Result {
    var skip := Decides(st.cur, val);
    if r2.Fail? || (skip && r2.st.noeval == 0) then r2
    else if ByZero(st.cur, r2.val) && st.noeval == 0 then Throw(DivisionByZero, r2.st)
    else Value(Joined(st.cur, val, Resume(r2.st, skip), r2.val), Combine(st.cur, val, r2.val))
  }

  lemma JoinWords(e: Expr, rest: seq<Word>)
    requires IsLoop(Lev(e))
    ensures WellFormed(e) ==> WellFormed(e.left) && WellFormed(e.right)
    ensures LevelOf(Joiner(e)) == Lev(e) && PlainToken(Joiner(e))
    ensures Words(e) + rest
         == Child(e.left, Lev(e)) + ([WSym(Joiner(e))] + (Child(e.right, Lev(e) + 1) + rest))
  {
    hide Child;
  }

  lemma JoinFails(e: Expr, pre: State)
    requires IsLoop(Lev(e))
    ensures var d := Denote(e.left, pre.env, pre.depth); d.Failed? ==> Denote(e, pre.env, pre.depth) == d
  {
    hide StrEval;
  }

  // What r1 and r2, the outcomes for the operands, make of the whole.
  lemma JoinMatches(e: Expr, pre: State, rest: seq<Word>, r1: Result, r2: Result, r: Result)
    requires IsLoop(Lev(e)) && r1.Value? && r1.st.noeval == pre.noeval && r1.st.depth == pre.depth
    requires if pre.noeval > 0 then r1.st.env == pre.env
             else Denote(e.left, pre.env, pre.depth) == Done(r1.val, r1.st.env)
    requires r1.st.cur == Joiner(e) && r == JoinedResult(r1.st, r1.val, r2)
    requires Matches(r2, e.right, Suppress(r1.st, Decides(r1.st.cur, r1.val)), rest)
    ensures Matches(r, e, pre, rest)
  {
    hide Lex, Peek, ReadTok, StrEval, Subexpr, Exp, Loop, ArithSyntax.Assignment, Conditional, ThenPart,
      ElsePart, Exponent, Unary, Operand, Prefix, StepName, Parenthesized, NameOrPostfix, SpellsAfter, Past,
      Unmerged, Apply, Wrap, Numeral, Words, Child;
  }

  lemma {:induction false} NodeIf(e: Expr, pre: State, rest: seq<Word>) returns (r: Result)
    requires e.If? && WellFormed(e) && Ready(pre) && Spells(pre.tp, Words(e) + rest) && Follows(2, rest)
    ensures Begin(2, pre) == r && Matches(r, e, pre, rest)
    decreases e, 0, 13, 0
  {
    hide Lex, Peek, ReadTok, StrEval, Subexpr, Exp, Loop, ArithSyntax.Assignment, ThenPart, ElsePart, Exponent,
      Unary, Operand, Prefix, StepName, Parenthesized, NameOrPostfix, SpellsAfter, Past, Unmerged, Apply, Wrap,
      Numeral, Words, Child;
    var more := Child(e.left, 0) + ([WSym(Colon)] + (Child(e.right, 2) + rest));
    IfWords(e, rest);
    r := ParseChild(e.cond, 3, pre, [WSym(Quest)] + more);
    Stops(3, r);
    if ReadTok(pre).Value? { LevelIs(2, ReadTok(pre).st); }
    if r.Value? {
      assert ([WSym(Quest)] + more)[1..] == more;
      r := NodeThen(e, r.st, r.val, rest);
    }
  }

  // From the question mark of a conditional expression on.
  lemma {:induction false} NodeThen(e: Expr, st: State, c: int, rest: seq<Word>) returns (r: Result)
    requires e.If? && WellFormed(e) && Follows(2, rest) && st.cur == Quest && st.last != PreInc && st.last != PreDec
    requires Spells(st.tp, Child(e.left, 0) + ([WSym(Colon)] + (Child(e.right, 2) + rest)))
    ensures ThenPart(st, c) == r
    ensures if st.noeval > 0 then r.Value? && After(r.st, rest, st.noeval, st.env, st.depth)
            else Matches(r, if c != 0 then e.left else e.right, st, rest)
    decreases e, 0, 0, 1
  {
    hide Lex, Peek, ReadTok, StrEval, Subexpr, Exp, Loop, ArithSyntax.Assignment, Conditional, ElsePart,
      Exponent, Unary, Operand, Prefix, StepName, Parenthesized, NameOrPostfix, SpellsAfter, Past, Unmerged,
      Apply, Wrap, Numeral, Words, Child, Denote;
    var more := Child(e.right, 2) + rest;
    var s1 := Suppress(st, c == 0);
    FirstWord(e.left, 0);
    FirstToken(s1, Child(e.left, 0), [WSym(Colon)] + more);
    r := ParseChild(e.left, 0, s1, [WSym(Colon)] + more);
    Stops(0, r);
    if r.Value? {
      assert ([WSym(Colon)] + more)[1..] == more;
      r := NodeElse(e, Resume(r.st, c == 0), c, r.val, rest);
    }
  }

  lemma IfWords(e: Expr, rest: seq<Word>)
    requires e.If?
    ensures Words(e) + rest
         == Child(e.cond, 3) + ([WSym(Quest)] + (Child(e.left, 0) + ([WSym(Colon)] + (Child(e.right, 2) + rest))))
  {
    hide Child;
  }

  // From the colon of a conditional expression on.
  lemma {:induction false} NodeElse(e: Expr, st: State, c: int, val1: int, rest: seq<Word>) returns (r: Result)
    requires e.If? && WellFormed(e) && Follows(2, rest)
    requires st.cur == Colon && Spells(st.tp, Child(e.right, 2) + rest) && st.last != PreInc && st.last != PreDec
    ensures ElsePart(st, c, val1) == r
    ensures if st.noeval > 0 || c != 0 then
              r.Value? && After(r.st, rest, st.noeval, st.env, st.depth) && (c != 0 ==> r.val == val1)
            else Matches(r, e.right, st, rest)
    decreases e, 0, 0, 0
  {
    hide Lex, Peek, ReadTok, StrEval, Subexpr, Exp, Loop, ArithSyntax.Assignment, Conditional, ThenPart,
      Exponent, Unary, Operand, Prefix, StepName, Parenthesized, NameOrPostfix, SpellsAfter, Past, Unmerged,
      Apply, Wrap, Numeral, Words, Child, Denote;
    var s2 := Suppress(st, c != 0);
    FirstWord(e.right, 2);
    FirstToken(s2, Child(e.right, 2), rest);
    r := ParseChild(e.right, 2, s2, rest);
    if r.Value? {
      r := Value(Resume(r.st, c != 0).(last := CondTok), if c != 0 then val1 else r.val);
    }
  }

  // name = and name OP=, up to the right-hand side.
  lemma ReadsTarget(pre: State, x: string, t: Token, m: nat, rest: seq<Word>) returns (r: Result)
    requires 2 <= m <= 15 && ValidName(x) && Ready(pre) && Spells(pre.tp, [WName(x), WSym(t)] + rest)
    requires t == Assign || (t.OpAssign? && AssignOp(t.op))
    ensures var o := if t == Assign then Done(0, pre.env) else StrEval(x, pre.env, pre.noeval, pre.depth);
            if o.Failed? then ReadTok(pre) == r == Fail(o.error, o.env, o.depth)
            else ReadTok(pre).Value? && Exp(m, ReadTok(pre).st) == r && r.Value? && r.val == o.val
                 && r.st.cur == t && r.st.last == StrTok && r.st.tokstr == Some(x) && Spells(r.st.tp, rest)
                 && r.st.env == o.env && r.st.noeval == pre.noeval && r.st.depth == pre.depth
  {
    hide Lex, Peek, ReadTok, StrEval, Subexpr, Exp, Loop, ArithSyntax.Assignment, Conditional, ThenPart,
      ElsePart, Exponent, Unary, Prefix, StepName, Parenthesized, SpellsAfter, Past, Unmerged, Apply, Wrap,
      Numeral, Words, Child, Denote;
    var more := [WSym(t)] + rest;
    assert [WName(x), WSym(t)] + rest == [WName(x)] + more;
    FirstWordSpelled(pre.tp, WName(x), more, false);
    PeeksSymbol(Past(pre.tp, WName(x)), t, rest);
    ReadsVariable(pre, x, more);
    r := ReadTok(pre);
    if r.Value? {
      var st1 := r.st;
      LevelIs(15, st1);
      ReadsSymbol(st1, t, rest, true);
      r := Value(ReadTok(st1).st, st1.tokval);
      Climbs(m, st1, r);
    }
  }

  lemma {:induction false} NodeSet(e: Expr, pre: State, rest: seq<Word>) returns (r: Result)
    requires (e.Set? || e.SetOp?) && WellFormed(e) && Ready(pre) && Spells(pre.tp, Words(e) + rest)
    requires Follows(1, rest)
    ensures Begin(1, pre) == r && Matches(r, e, pre, rest)
    decreases e, 0, 14, 0
  {
    hide Lex, Peek, ReadTok, StrEval, Subexpr, Exp, Loop, Conditional, ThenPart, ElsePart, Exponent, Unary,
      Operand, Prefix, StepName, Parenthesized, NameOrPostfix, SpellsAfter, Past, Unmerged, Apply, Wrap,
      Numeral, Child, Denote;
    var t := if e.Set? then Assign else OpAssign(e.op);
    var more := Child(e.right, 1) + rest;
    assert Words(e) + rest == [WName(e.x), WSym(t)] + more;
    var r1 := ReadsTarget(pre, e.x, t, 2, more);
    if ReadTok(pre).Value? { LevelIs(1, ReadTok(pre).st); }
    r := r1;
    var r2 := r1;
    if r1.Value? {
      r2 := ParseChild(e.right, 1, r1.st, rest);
      r := if r2.Fail? then r2 else Assigned(t, e.x, r1.val, r2.st, r2.val);
    }
    SetMatches(e, pre, rest, r1, r2, r);
  }

  lemma SetMatches(e: Expr, pre: State, rest: seq<Word>, r1: Result, r2: Result, r: Result)
    requires e.Set? || e.SetOp?
    requires var o := if e.Set? then Done(0, pre.env) else StrEval(e.x, pre.env, pre.noeval, pre.depth);
             if o.Failed? then r == r1 == Fail(o.error, o.env, o.depth)
             else r1.Value? && r1.val == o.val && r1.st.env == o.env && r1.st.noeval == pre.noeval
                  && r1.st.depth == pre.depth && Matches(r2, e.right, r1.st, rest)
                  && r == if r2.Fail? then r2
                          else Assigned(if e.Set? then Assign else OpAssign(e.op), e.x, r1.val, r2.st, r2.val)
    ensures Matches(r, e, pre, rest)
  {
    hide Lex, Peek, ReadTok, StrEval, Subexpr, Exp, Loop, ArithSyntax.Assignment, Conditional, ThenPart,
      ElsePart, Exponent, Unary, Operand, Prefix, StepName, Parenthesized, NameOrPostfix, SpellsAfter, Past,
      Unmerged, Apply, Wrap, Numeral, Words, Child;
    if pre.noeval > 0 && e.SetOp? { SuppressedVariable(e.x, pre); }
  }

  lemma {:induction false} NodeParen(e: Expr, pre: State, rest: seq<Word>) returns (r: Result)
    requires Lev(e) < 15 && WellFormed(e) && Ready(pre) && Spells(pre.tp, Child(e, 15) + rest) && Follows(15, rest)
    ensures Begin(15, pre) == r && Matches(r, e, pre, rest)
    decreases e, 1, 0, 0
  {
    hide Lex, Peek, ReadTok, StrEval, Subexpr, Exp, Loop, ArithSyntax.Assignment, Conditional, ThenPart,
      ElsePart, Exponent, Unary, Prefix, StepName, NameOrPostfix, SpellsAfter, Past, Unmerged, Apply, Wrap,
      Numeral, Words, Child, Denote;
    ParenWords(e, rest);
    var more := [WSym(RPar)] + rest;
    ReadsSymbol(pre, LPar, Words(e) + more, false);
    var st1 := ReadTok(pre).st;
    LevelIs(15, st1);
    assert Operand(st1) == Parenthesized(st1);
    r := ParseChild(e, 0, st1, more);
    Stops(0, r);
    if r.Value? {
      assert more[1..] == rest;
      var st2 := ReadsNext(r.st, rest, 15, false);
      r := Value(st2, r.val);
    }
  }

  lemma ParenWords(e: Expr, rest: seq<Word>)
    requires Lev(e) < 15
    ensures Child(e, 15) + rest == [WSym(LPar)] + (Words(e) + ([WSym(RPar)] + rest)) && Child(e, 0) == Words(e)
  {
    hide Words;
  }

  // ---------------------------------------------------------------- all trees

  lemma {:induction false} ParseNode(e: Expr, pre: State, rest: seq<Word>) returns (r: Result)
    requires WellFormed(e) && Ready(pre) && Spells(pre.tp, Words(e) + rest) && FollowsAt(Lev(e), rest)
    ensures Begin(Lev(e), pre) == Continue(Lev(e), r) && Matches(r, e, pre, rest)
    decreases e, 0, 15 - Lev(e), 1
  {
    hide Lex, Peek, ReadTok, StrEval, Subexpr, Exp, Loop, ArithSyntax.Assignment, Conditional, ThenPart,
      ElsePart, Exponent, Unary, Operand, Prefix, StepName, Parenthesized, NameOrPostfix, SpellsAfter, Past,
      Unmerged, Apply, Wrap, Numeral, Words, Child, Denote;
    match e
    case Num(_) => r := NodeNumber(e, pre, rest);
    case Var(_) => r := NodeName(e, pre, rest);
    case PreStep(_, _) => r := NodePreStep(e, pre, rest);
    case PostStep(_, _) => r := NodePostStep(e, pre, rest);
    case Un(_, _) => r := NodeUnary(e, pre, rest);
    case Pow(_, _) => r := NodePower(e, pre, rest);
    case If(_, _, _) => r := NodeIf(e, pre, rest);
    case Set(_, _) => r := NodeSet(e, pre, rest);
    case SetOp(_, _, _) => r := NodeSet(e, pre, rest);
    case _ => r := NodeJoin(e, pre, rest);
  }

  lemma ChildLevel(e: Expr, m: nat)
    ensures if Lev(e) == m then Child(e, m) == Words(e) else Child(e, m) == Child(e, m + 1)
  {
    hide Words;
  }

  // From the outcome at level m + 1 to the same outcome at level m.
  lemma ClimbsOne(e: Expr, m: nat, pre: State, rest: seq<Word>, r: Result)
    requires WellFormed(e) && m <= 14 && Lev(e) != m && Ready(pre) && Spells(pre.tp, Child(e, m + 1) + rest)
    requires FollowsAt(m, rest) && Begin(m + 1, pre) == Continue(m + 1, r)
    requires r.Value? ==> After(r.st, rest, pre.noeval, r.st.env, pre.depth)
    ensures Begin(m, pre) == Continue(m, r)
  {
    hide Lex, Peek, ReadTok, StrEval, Subexpr, Exp, Loop, ArithSyntax.Assignment, Conditional, ThenPart,
      ElsePart, Exponent, Unary, Operand, Prefix, StepName, Parenthesized, NameOrPostfix, SpellsAfter, Past,
      Unmerged, Apply, Wrap, Numeral, Words, Child, Denote, WellFormed;
    Stops(m + 1, r);
    if ReadTok(pre).Value? {
      FirstWord(e, m + 1);
      FirstToken(pre, Child(e, m + 1), rest);
      Lifts(m, ReadTok(pre).st, r);
    }
  }

  // Parsing a tree's text at any level gives what the tree means.
  lemma {:induction false} ParseChild(e: Expr, m: nat, pre: State, rest: seq<Word>) returns (r: Result)
    requires WellFormed(e) && m <= 15 && Ready(pre) && Spells(pre.tp, Child(e, m) + rest) && FollowsAt(m, rest)
    ensures Begin(m, pre) == Continue(m, r) && Matches(r, e, pre, rest)
    decreases e, if Lev(e) < m then 1 else 0, 15 - m, 2
  {
    hide Lex, Peek, ReadTok, StrEval, Subexpr, Exp, Loop, ArithSyntax.Assignment, Conditional, ThenPart,
      ElsePart, Exponent, Unary, Operand, Prefix, StepName, Parenthesized, NameOrPostfix, SpellsAfter, Past,
      Unmerged, Apply, Wrap, Numeral, Words, Child, Denote, WellFormed;
    ChildLevel(e, m);
    if Lev(e) == m {
      r := ParseNode(e, pre, rest);
    } else if m == 15 {
      r := NodeParen(e, pre, rest);
    } else {
      r := ParseChild(e, m + 1, pre, rest);
      ClimbsOne(e, m, pre, rest, r);
    }
  }

  // Evaluating a text of a tree, however spaced, gives the tree's value and the
  // variables it leaves, or the same error.
  lemma EvaluateTree(e: Expr, text: string, env: Env)
    requires WellFormed(e) && Spells(text, Words(e))
    ensures Evaluate(text, env) == Denote(e, env, 1)
  {
    hide Lex, Peek, ReadTok, StrEval, Exp, Loop, ArithSyntax.Assignment, Conditional, ThenPart, ElsePart,
      Exponent, Unary, Operand, Prefix, StepName, Parenthesized, NameOrPostfix, SpellsAfter, Past, Unmerged,
      Apply, Wrap, Numeral, Words, Child, Denote;
    var pre := State(text, EndTok, EndTok, 0, None, 0, env, 1);
    assert Words(e) + [] == Words(e) && Child(e, 0) == Words(e) by { ChildAtBottom(e); }
    FirstWord(e, 0);
    TextNotBlank(text, Words(e));
    var r := ParseChild(e, 0, pre, []);
    Stops(0, r);
  }

  lemma ChildAtBottom(e: Expr)
    ensures Child(e, 0) == Words(e)
  {
    hide Words;
  }

  lemma TextNotBlank(text: string, ws: seq<Word>)
    requires StartsTree(ws) && Spells(text, ws)
    ensures SkipBlanks(text) != ""
  {
    hide Lex, Peek, ReadTok, StrEval, Subexpr, Exp, Loop, ArithSyntax.Assignment, Conditional, ThenPart,
      ElsePart, Exponent, Unary, Operand, Prefix, StepName, Parenthesized, NameOrPostfix, Past, Unmerged,
      Apply, Wrap, Numeral, Words, Child, Denote;
    SkipsGap(text);
    WordVisible(ws);
  }

  lemma WordVisible(ws: seq<Word>)
    requires StartsTree(ws)
    ensures WordText(ws[0]) != ""
  {
    if ws[0].WNum? {
      DecimalReadsBack(ws[0].n);
    }
  }
}
