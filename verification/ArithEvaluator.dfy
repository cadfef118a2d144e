// The evaluator of bash/expr.c as it runs: globals updated by the token
// reader, a loop for every left-associative level, a stack of saved contexts.
// Every method is proved to do what ArithSyntax says.

module ArithEvaluator {
  import opened Options
  import opened Numerals
  import opened ArithValues
  import opened ArithLexer
  import opened ArithSyntax

  // A value, or the error that ends the evaluation (the original's longjmp).
  datatype Eval = Good(val: int) | Thrown(error: Error) {
    predicate IsFailure() { Thrown? }
    function PropagateFailure(): Eval { this }
    function Extract(): int
      requires Good?
    {
      val
    }
  }

  // The globals saved while another expression is evaluated.
  datatype Context = Context(
    tp: string, curtok: Token, lasttok: Token, tokval: int, tokstr: Option<string>, noeval: nat)

  class Evaluator {
    var tp: string
    var curtok: Token
    var lasttok: Token
    var tokval: int
    var tokstr: Option<string>
    var noeval: nat
    var stack: seq<Context>
    var env: Env

    constructor (env: Env)
      ensures this.env == env && stack == []
    {
      tp, curtok, lasttok, tokval, tokstr, noeval, stack := "", EndTok, EndTok, 0, None, 0, [];
      this.env := env;
    }

    function St(): State
      reads this
    {
      State(tp, curtok, lasttok, tokval, tokstr, noeval, env, |stack|)
    }

    function Saved(): Context
      reads this
    {
      Context(tp, curtok, lasttok, tokval, tokstr, noeval)
    }

    // The outcome r and the state left behind are those of the definition.
    ghost predicate Agrees(r: Eval, spec: Result)
      reads this
    {
      if r.Good? then spec == Value(St(), r.val) else spec == Fail(r.error, env, |stack|)
    }

    // ---------------------------------------------------------------- contexts

    method PushExp() returns (r: Eval)
      modifies this
      ensures |old(stack)| >= MAX_DEPTH ==> r == Thrown(RecursionLimit) && unchanged(this)
      ensures |old(stack)| < MAX_DEPTH ==>
                r.Good? && stack == old(stack) + [old(Saved())] && Saved() == old(Saved()) && env == old(env)
    {
      if |stack| >= MAX_DEPTH { return Thrown(RecursionLimit); }
      stack := stack + [Saved()];
      r := Good(0);
    }

    method PopExp()
      requires stack != []
      modifies this
      ensures stack == old(stack[..|stack| - 1]) && Saved() == old(stack[|stack| - 1]) && env == old(env)
    {
      Restore(stack[|stack| - 1]);
      stack := stack[..|stack| - 1];
    }

    method Restore(c: Context)
      modifies this
      ensures Saved() == c && env == old(env) && stack == old(stack)
    {
      tp, curtok, lasttok := c.tp, c.curtok, c.lasttok;
      tokval, tokstr, noeval := c.tokval, c.tokstr, c.noeval;
    }

    method BindVariable(lhs: Option<string>, rhs: int)
      modifies this`env
      ensures St() == Bind(old(St()), lhs, rhs)
    {
      if noeval == 0 {
        if lhs == None { return; }
        env := env[lhs.value := Itos(rhs)];
      }
    }

    // ---------------------------------------------------------------- reading

    // Reads the next token. Reading a name looks at the token after it, with
    // evaluation suppressed, and then reads the variable.
    method ReadToken() returns (r: Eval)
      modifies this
      ensures Agrees(r, ReadTok(old(St())))
      ensures r.Good? ==> stack == old(stack)
      decreases Room(|stack|), Unread(St()), 3, |tp|, 1
    {
      hide Lex, SkipBlanks, Peek, StrEval, Subexpr, Exp, Loop, RightOperand, Assignment, Assigned, Conditional, ElsePart,
        Exponent, Unary, Operand, Prefix, StepName, Parenthesized, NameOrPostfix, Apply, Wrap;
      var l := Lex(tp, curtok, lasttok);
      if l.lexeme.Bad? { return Thrown(l.lexeme.error); }
      if l.lexeme.Name? {
        r := ReadName(l.lexeme.name, l.rest);
        return;
      }
      lasttok := curtok;
      if l.lexeme.Number? {
        tokval := l.lexeme.value;
        curtok := NumTok;
      } else {
        curtok := l.lexeme.token;
      }
      tp := l.rest;
      r := Good(0);
    }

    // The part of readtok for a name.
    method ReadName(name: string, rest: string) returns (r: Eval)
      requires Lex(tp, curtok, lasttok) == Lexed(Name(name), rest)
      modifies this
      ensures Agrees(r, ReadTok(old(St())))
      ensures r.Good? ==> stack == old(stack)
      decreases Room(|stack|), Unread(St()), 3, |tp|, 0
    {
      hide Lex, SkipBlanks, Peek, ReadTok, StrEval, Subexpr, Exp, Loop, RightOperand, Assignment, Assigned,
        Conditional, ElsePart, Exponent, Unary, Operand, Prefix, StepName, Parenthesized, NameOrPostfix, Apply, Wrap,
        Bind, LevelOf, OpLevel, UnaryOf, Itos, ThenPart;
      ReadsName(St(), name, rest);
      tokstr := Some(name);
      var ec := Saved();
      tp, curtok := rest, StrTok;
      var _ :- ReadSuppressed();
      var peektok := curtok;
      Restore(ec);
      if lasttok == PreInc || lasttok == PreDec || peektok != Assign {
        tokval :- StreVal(name);
      } else {
        tokval := 0;
      }
      lasttok := curtok;
      curtok := StrTok;
      tp := rest;
      r := Good(0);
    }

    // Reads the token after a name with evaluation suppressed.
    method ReadSuppressed() returns (r: Eval)
      requires curtok == StrTok
      modifies this
      ensures env == old(env) && |stack| == |old(stack)| && (r.Good? ==> stack == old(stack))
      ensures var p := Peek(old(tp)); if p.PeekFail? then r == Thrown(p.error)
                                      else r.Good? && curtok == p.tok && tp == p.rest
      decreases Room(|stack|), Unread(St()), 3, |tp|, 2
    {
      hide Lex, SkipBlanks, Peek, ReadTok, StrEval, Subexpr, Exp, Loop, RightOperand, Assignment, Assigned, Conditional,
        ElsePart, Exponent, Unary, Operand, Prefix, StepName, Parenthesized, NameOrPostfix, Apply, Wrap;
      tokstr, noeval := None, 1;
      PeekIsRead(St());
      r := ReadToken();
    }

    // Reads the token after an operand whose value is known.
    method ReadNext(val: int) returns (r: Eval)
      modifies this
      ensures Agrees(r, Then(ReadTok(old(St())), val))
      ensures r.Good? ==> stack == old(stack)
      decreases Room(|stack|), Unread(St()), 3, |tp|, 2
    {
      hide ReadTok;
      var _ :- ReadToken();
      r := Good(val);
    }

    // The value of a variable, unless evaluation is suppressed.
    method StreVal(name: string) returns (r: Eval)
      modifies this
      ensures AgreesOutcome(r, StrEval(name, old(env), old(noeval), |old(stack)|))
      ensures r.Good? ==> Saved() == old(Saved()) && stack == old(stack)
      decreases Room(|stack|), 0, 1
    {
      hide Lex, SkipBlanks, Peek, ReadTok, Subexpr, Exp, Loop, RightOperand, Assignment, Assigned, Conditional, ElsePart,
        Exponent, Unary, Operand, Prefix, StepName, Parenthesized, NameOrPostfix, Apply, Wrap;
      if noeval > 0 { return Good(0); }
      if name in env && env[name] != "" {
        r := EvalSubexpr(env[name]);
      } else {
        r := Good(0);
      }
    }

    ghost predicate AgreesOutcome(r: Eval, spec: Outcome)
      reads this
    {
      if r.Good? then spec == Done(r.val, env) else spec == Failed(r.error, env, |stack|)
    }

    // Evaluates a whole expression in a context of its own; success leaves
    // everything but the variables as it was.
    method EvalSubexpr(text: string) returns (r: Eval)
      modifies this
      ensures AgreesOutcome(r, Subexpr(text, old(env), old(noeval), |old(stack)|))
      ensures r.Good? ==> Saved() == old(Saved()) && stack == old(stack)
      decreases Room(|stack|), 0, 0
    {
      hide Lex, SkipBlanks, Peek, ReadTok, StrEval, Exp, Loop, RightOperand, Assignment, Assigned, Conditional,
        ElsePart, Exponent, Unary, Operand, Prefix, StepName, Parenthesized, NameOrPostfix, Apply, Wrap, Bind,
        LevelOf, OpLevel, UnaryOf, Itos, ThenPart;
      if SkipBlanks(text) == "" { return Good(0); }
      var _ :- PushExp();
      tp := text;
      curtok, lasttok, tokstr, tokval := EndTok, EndTok, None, 0;
      var _ :- ReadToken();
      var val :- ExpComma();
      if curtok != EndTok { return Thrown(SyntaxError); }
      PopExp();
      r := Good(val);
    }

    // ---------------------------------------------------------------- the levels

    method ExpComma() returns (r: Eval)
      modifies this
      ensures Agrees(r, Exp(0, old(St())))
      ensures r.Good? ==> stack == old(stack)
      decreases Room(|stack|), Unread(St()), 20
    {
      hide Lex, SkipBlanks, Peek, ReadTok, StrEval, Subexpr, Exp, Loop, RightOperand, Assignment, Assigned,
        Conditional, ElsePart, Exponent, Unary, Operand, Prefix, StepName, Parenthesized, NameOrPostfix, Apply, Wrap,
        OpLevel, UnaryOf, Itos, ThenPart, Bind;
      LevelLoops(0, St());
      var value :- ExpAssign();
      while curtok == Comma
        invariant Loop(0, St(), value) == Exp(0, old(St()))
        invariant stack == old(stack) && noeval == old(noeval)
        invariant Unread(St()) < old(Unread(St()))
        decreases Unread(St())
      {
        LoopContinues(0, St(), value);
        var _ :- ReadToken();
        value :- ExpAssign();
      }
      LoopStops(0, St(), value);
      r := Good(value);
    }

    method ExpAssign() returns (r: Eval)
      modifies this
      ensures Agrees(r, Exp(1, old(St())))
      ensures r.Good? ==> stack == old(stack)
      decreases Room(|stack|), Unread(St()), 19
    {
      hide Lex, SkipBlanks, Peek, ReadTok, StrEval, Subexpr, Loop, Conditional, ElsePart, Exponent, Unary,
        Operand, Prefix, StepName, Parenthesized, NameOrPostfix, Apply, Wrap;
      var value :- ExpCond();
      if curtok == Assign || curtok.OpAssign? {
        var op := curtok;
        if lasttok != StrTok { return Thrown(NonVariable); }
        var lvalue := value;
        if tokstr == None { return Thrown(AssignmentSyntax); }
        var lhs := tokstr.value;
        var _ :- ReadToken();
        value :- ExpAssign();
        if op.OpAssign? {
          if Divides(op.op) && value == 0 {
            if noeval == 0 { return Thrown(DivisionByZero); }
            value := 1;
          }
          value := Apply(op.op, lvalue, value);
        }
        BindVariable(Some(lhs), value);
        tokstr := None;
      }
      r := Good(value);
    }

    method ExpCond() returns (r: Eval)
      modifies this
      ensures Agrees(r, Exp(2, old(St())))
      ensures r.Good? ==> stack == old(stack)
      decreases Room(|stack|), Unread(St()), 18
    {
      hide Lex, SkipBlanks, Peek, ReadTok, StrEval, Subexpr, Exp, Loop, RightOperand, Assignment, Assigned, ElsePart, Exponent,
        Unary, Operand, Prefix, StepName, Parenthesized, NameOrPostfix, Apply, Wrap;
      LevelIs(2, St());
      var cval :- ExpLor();
      if curtok != Quest { return Good(cval); }
      ghost var s0 := St();
      var setNoeval := false;
      if cval == 0 {
        setNoeval := true;
        noeval := noeval + 1;
      }
      assert St() == Suppress(s0, cval == 0);
      var _ :- ReadToken();
      if curtok == EndTok || curtok == Colon { return Thrown(ExpressionExpected); }
      var val1 :- ExpComma();
      ghost var s1 := St();
      if setNoeval { noeval := noeval - 1; }
      assert St() == Resume(s1, cval == 0);
      r := ExpElse(cval, val1);
    }

    // The rest of a conditional expression, from the colon.
    method ExpElse(cval: int, val1: int) returns (r: Eval)
      modifies this
      ensures Agrees(r, ElsePart(old(St()), cval, val1))
      ensures r.Good? ==> stack == old(stack)
      decreases Room(|stack|), Unread(St()), 21
    {
      hide Lex, SkipBlanks, Peek, ReadTok, StrEval, Subexpr, Exp, Loop, RightOperand, Assignment, Assigned,
        Conditional, Exponent, Unary, Operand, Prefix, StepName, Parenthesized, NameOrPostfix, Apply, Wrap, LevelOf,
        OpLevel, UnaryOf, Itos, Bind;
      if curtok != Colon { return Thrown(ColonExpected); }
      var setNoeval := false;
      if cval != 0 {
        setNoeval := true;
        noeval := noeval + 1;
      }
      var _ :- ReadToken();
      if curtok == EndTok { return Thrown(ExpressionExpected); }
      var val2 :- ExpCond();
      if setNoeval { noeval := noeval - 1; }
      lasttok := CondTok;
      r := Good(if cval != 0 then val1 else val2);
    }

    // The right operand of || and &&, read without evaluation where the left
    // decides.
    method LogicalRight(tok: Token, val1: int) returns (r: Eval)
      requires curtok == tok && (tok == OrTok || tok == AndTok)
      modifies this
      ensures var skip := Decides(tok, val1);
              var first := ReadTok(Suppress(old(St()), skip));
              var q := if first.Value? then Exp(LevelOf(tok) + 1, first.st) else first;
              if q.Fail? then Agrees(r, q)
              else r.Good? && noeval == old(noeval) && Unread(St()) < old(Unread(St()))
                   && St() == Joined(tok, val1, Resume(q.st, skip), q.val) && r.val == Combine(tok, val1, q.val)
      ensures r.Good? ==> stack == old(stack)
      decreases Room(|stack|), Unread(St()), 18
    {
      hide Lex, SkipBlanks, Peek, ReadTok, StrEval, Subexpr, Exp, Loop, RightOperand, Assignment, Assigned,
        Conditional, ElsePart, Exponent, Unary, Operand, Prefix, StepName, Parenthesized, NameOrPostfix, Apply,
        Wrap, Joined, Combine, Truth, OpLevel, UnaryOf, Itos, ThenPart, Bind;
      var setNoeval := false;
      if (val1 != 0) == (tok == OrTok) {
        noeval := noeval + 1;
        setNoeval := true;
      }
      assert St() == Suppress(old(St()), setNoeval) && setNoeval == Decides(tok, val1);
      var _ :- ReadToken();
      var val2;
      if tok == OrTok { val2 :- ExpLand(); } else { val2 :- ExpBinary(5); }
      ghost var s1 := St();
      LogicalJoin(tok, val1, Resume(s1, setNoeval), val2);
      if setNoeval { noeval := noeval - 1; }
      lasttok := tok;
      assert St() == Resume(s1, setNoeval).(last := tok);
      r := Good(Truth(if tok == OrTok then val1 != 0 || val2 != 0 else val1 != 0 && val2 != 0));
    }

    method ExpLor() returns (r: Eval)
      modifies this
      ensures Agrees(r, Exp(3, old(St())))
      ensures r.Good? ==> stack == old(stack)
      decreases Room(|stack|), Unread(St()), 17
    {
      hide Lex, SkipBlanks, Peek, ReadTok, StrEval, Subexpr, Exp, Loop, RightOperand, Assignment, Assigned,
        Conditional, ElsePart, Exponent, Unary, Operand, Prefix, StepName, Parenthesized, NameOrPostfix, Apply,
        Wrap, Joined, Combine, Truth, OpLevel, UnaryOf, Itos, ThenPart, Bind, Suppress, Resume, Decides;
      LevelLoops(3, St());
      var val1 :- ExpLand();
      while curtok == OrTok
        invariant Loop(3, St(), val1) == Exp(3, old(St()))
        invariant stack == old(stack) && noeval == old(noeval)
        invariant Unread(St()) < old(Unread(St()))
        decreases Unread(St())
      {
        LoopContinues(3, St(), val1);
        val1 :- LogicalRight(OrTok, val1);
      }
      LoopStops(3, St(), val1);
      r := Good(val1);
    }

    method ExpLand() returns (r: Eval)
      modifies this
      ensures Agrees(r, Exp(4, old(St())))
      ensures r.Good? ==> stack == old(stack)
      decreases Room(|stack|), Unread(St()), 16
    {
      hide Lex, SkipBlanks, Peek, ReadTok, StrEval, Subexpr, Exp, Loop, RightOperand, Assignment, Assigned,
        Conditional, ElsePart, Exponent, Unary, Operand, Prefix, StepName, Parenthesized, NameOrPostfix, Apply,
        Wrap, Joined, Combine, Truth, OpLevel, UnaryOf, Itos, ThenPart, Bind, Suppress, Resume, Decides;
      LevelLoops(4, St());
      var val1 :- ExpBinary(5);
      while curtok == AndTok
        invariant Loop(4, St(), val1) == Exp(4, old(St()))
        invariant stack == old(stack) && noeval == old(noeval)
        invariant Unread(St()) < old(Unread(St()))
        decreases Unread(St())
      {
        LoopContinues(4, St(), val1);
        val1 :- LogicalRight(AndTok, val1);
      }
      LoopStops(4, St(), val1);
      r := Good(val1);
    }

    // The levels of the binary operators, from | to * / %; below them is **.
    method ExpBinary(l: nat) returns (r: Eval)
      requires 5 <= l <= 13
      modifies this
      ensures Agrees(r, Exp(l, old(St())))
      ensures r.Good? ==> stack == old(stack)
      decreases Room(|stack|), Unread(St()), 20 - l, 1
    {
      hide Lex, SkipBlanks, Peek, ReadTok, StrEval, Subexpr, Exp, Loop, RightOperand, Assignment, Assigned,
        Conditional, ElsePart, Exponent, Unary, Operand, Prefix, StepName, Parenthesized, NameOrPostfix, Apply, Wrap,
        ThenPart, LevelOf, OpLevel, Joined, Combine, ByZero, Decides, Suppress, Resume, Divides, UnaryOf, Itos, Bind;
      if l == 13 {
        r := ExpPower();
        return;
      }
      LevelLoops(l, St());
      var val1 :- ExpBinary(l + 1);
      while LevelOf(curtok) == l
        invariant Loop(l, St(), val1) == Exp(l, old(St()))
        invariant stack == old(stack) && noeval == old(noeval)
        invariant Unread(St()) < old(Unread(St()))
        decreases Unread(St())
      {
        LoopContinues(l, St(), val1);
        BinaryTurn(l, St(), val1);
        var op := curtok.op;
        var _ :- ReadToken();
        var val2 :- ExpBinary(l + 1);
        BinaryJoin(op, val1, St(), val2);
        if Divides(op) && val2 == 0 {
          if noeval == 0 { return Thrown(DivisionByZero); }
          val2 := 1;
        } else if op == Mod && val1 == INTMAX_MIN && val2 == -1 {
          OverflowingDivision();
          val1 := 0;
          continue;
        } else if op == Div && val1 == INTMAX_MIN && val2 == -1 {
          OverflowingDivision();
          val2 := 1;
        }
        val1 := Apply(op, val1, val2);
        lasttok := NumTok;
      }
      LoopStops(l, St(), val1);
      r := Good(val1);
    }

    // Right-associative: the recursive call takes the rest of the chain, so
    // the loop runs at most once.
    method ExpPower() returns (r: Eval)
      modifies this
      ensures Agrees(r, Exp(13, old(St())))
      ensures r.Good? ==> stack == old(stack)
      decreases Room(|stack|), Unread(St()), 7, 0
    {
      hide Lex, SkipBlanks, Peek, ReadTok, StrEval, Subexpr, Loop, RightOperand, Assignment, Assigned, Conditional,
        ElsePart, Unary, Operand, Prefix, StepName, Parenthesized, NameOrPostfix, Apply, Wrap;
      var val1 :- ExpUnary();
      ghost var first := Value(St(), val1);
      ghost var rounds := 0;
      while curtok == PowerTok
        invariant rounds == 0 ==> Value(St(), val1) == first
        invariant rounds > 0 ==> rounds == 1 && Exp(13, old(St())) == Value(St(), val1) && curtok != PowerTok
        invariant stack == old(stack)
        invariant Unread(St()) < old(Unread(St()))
        decreases Unread(St())
      {
        var _ :- ReadToken();
        var val2 :- ExpPower();
        lasttok := NumTok;
        if noeval == 0 {
          PowerOfZero(val1);
          if val2 == 0 { return Good(1); }
          if val2 < 0 { return Thrown(NegativeExponent); }
          val1 := Ipow(val1, val2);
        } else {
          val1 := 1;
        }
        rounds := rounds + 1;
      }
      r := Good(val1);
    }

    method ExpUnary() returns (r: Eval)
      modifies this
      ensures Agrees(r, Exp(14, old(St())))
      ensures r.Good? ==> stack == old(stack)
      decreases Room(|stack|), Unread(St()), 6
    {
      hide Lex, SkipBlanks, Peek, ReadTok, StrEval, Subexpr, Loop, RightOperand, Assignment, Assigned, Conditional,
        ElsePart, Exponent, Operand, Prefix, StepName, Parenthesized, NameOrPostfix, Apply, Wrap;
      if UnaryOf(curtok).Some? {
        var op := UnaryOf(curtok).value;
        var _ :- ReadToken();
        var val :- ExpUnary();
        lasttok := NumTok;
        r := Good(ApplyUnary(op, val));
      } else {
        r := Exp0();
      }
    }

    method Exp0() returns (r: Eval)
      modifies this
      ensures Agrees(r, Exp(15, old(St())))
      ensures r.Good? ==> stack == old(stack)
      decreases Room(|stack|), Unread(St()), 5
    {
      hide Lex, SkipBlanks, Peek, ReadTok, StrEval, Subexpr, Loop, RightOperand, Assignment, Assigned, Conditional,
        ElsePart, Exponent, Unary, Prefix, NameOrPostfix, Apply, Wrap, LevelOf, OpLevel, UnaryOf, Itos, ThenPart;
      assert Exp(15, St()) == ArithSyntax.Operand(St());
      if curtok == PreInc || curtok == PreDec {
        r := PreIncDec(if curtok == PreInc then 1 else -1);
      } else if curtok == LPar {
        assert ArithSyntax.Operand(St()) == Parenthesized(St());
        var _ :- ReadToken();
        var val :- ExpComma();
        if curtok != RPar { return Thrown(MissingParen); }
        r := ReadNext(val);
      } else if curtok == NumTok {
        r := ReadNext(tokval);
      } else if curtok == StrTok {
        r := NameValue();
      } else {
        r := Thrown(OperandExpected);
      }
    }

    // The ++name and --name part of exp0.
    method PreIncDec(step: int) returns (r: Eval)
      requires curtok != EndTok
      modifies this
      ensures Agrees(r, Prefix(old(St()), step))
      ensures r.Good? ==> stack == old(stack)
      decreases Room(|stack|), Unread(St()), 5, 0
    {
      hide Lex, SkipBlanks, Peek, ReadTok, StrEval, Subexpr, Exp, Loop, RightOperand, Assignment, Assigned, Conditional,
        ElsePart, Exponent, Unary, Operand, Prefix, StepName, Parenthesized, NameOrPostfix, Apply, Wrap;
      PrefixReads(St(), step);
      lasttok := curtok;
      var _ :- ReadToken();
      if curtok != StrTok { return Thrown(IdentifierExpected); }
      r := StepVariable(step);
    }

    // Adds to the variable just read, and reads the token after it.
    method StepVariable(step: int) returns (r: Eval)
      requires curtok == StrTok
      modifies this
      ensures Agrees(r, StepName(old(St()), step))
      ensures r.Good? ==> stack == old(stack)
      decreases Room(|stack|), Unread(St()), 4
    {
      hide Lex, SkipBlanks, Peek, ReadTok, StrEval, Subexpr, Exp, Loop, RightOperand, Assignment, Assigned, Conditional,
        ElsePart, Exponent, Unary, Operand, Prefix, StepName, Parenthesized, NameOrPostfix, Apply, Wrap,
        ThenPart, Bind, Then, LevelOf, OpLevel, UnaryOf, Itos;
      StepReads(St(), step);
      var val := Wrap(tokval + step);
      BindVariable(tokstr, val);
      curtok := NumTok;
      r := ReadNext(val);
    }

    // The part of exp0 for a name: looks ahead for ++ and --, and goes back
    // when there is neither.
    method NameValue() returns (r: Eval)
      requires curtok == StrTok
      modifies this
      ensures Agrees(r, NameOrPostfix(old(St())))
      ensures r.Good? ==> stack == old(stack)
      decreases Room(|stack|), Unread(St()), 5, 0
    {
      hide Lex, SkipBlanks, Peek, ReadTok, StrEval, Subexpr, Exp, Loop, RightOperand, Assignment, Assigned,
        Conditional, ElsePart, Exponent, Unary, Operand, Prefix, StepName, Parenthesized, Apply, Wrap, LevelOf,
        OpLevel, UnaryOf, Itos, ThenPart;
      ghost var s0 := St();
      var val := tokval;
      var ec := Saved();
      var _ :- ReadSuppressed();
      var stok := curtok;
      if stok == PostInc || stok == PostDec {
        tokval, tokstr, noeval, lasttok := ec.tokval, ec.tokstr, ec.noeval, StrTok;
        BindVariable(tokstr, Wrap(val + if stok == PostInc then 1 else -1));
        curtok := NumTok;
        assert St() == Bind(s0.(tp := Peek(s0.tp).rest, cur := NumTok, last := StrTok), s0.tokstr,
                            Wrap(val + if stok == PostInc then 1 else -1));
      } else {
        Restore(ec);
        assert St() == s0;
      }
      r := ReadNext(val);
    }

    // The entry point: an error drops every saved context and keeps the
    // assignments made before it.
    method EvalExp(text: string) returns (val: int, valid: bool)
      requires stack == []
      modifies this
      ensures stack == []
      ensures match Evaluate(text, old(env))
              case Done(v, env') => valid && val == v && env == env'
              case Failed(_, env', _) => !valid && val == 0 && env == env'
    {
      noeval := 0;
      var r := EvalSubexpr(text);
      if r.Thrown? {
        tokstr, stack, noeval := None, [], 0;
        return 0, false;
      }
      return r.val, true;
    }
  }

  // With evaluation suppressed, reading after a name only looks.
  lemma PeekIsRead(st: State)
    requires st.cur == StrTok && st.noeval > 0
    ensures Peek(st.tp).PeekFail? ==> ReadTok(st) == Fail(Peek(st.tp).error, st.env, st.depth)
    ensures Peek(st.tp).Peeked? ==>
              var r := ReadTok(st);
              && r.Value? && r.st.cur == Peek(st.tp).tok && r.st.tp == Peek(st.tp).rest && r.st.last == StrTok
              && r.st.env == st.env && r.st.noeval == st.noeval && r.st.depth == st.depth
              && (r.st.cur != NumTok && r.st.cur != StrTok ==> r.st.tokval == st.tokval)
  {
    hide Lex, ReadTok, Subexpr, Exp;
    LexAfterName(st.tp, st.last);
    var l := Lex(st.tp, StrTok, EndTok);
    if l.lexeme.Name? {
      ReadsName(st, l.lexeme.name, l.rest);
    } else {
      ReadsOther(st);
    }
  }

  lemma LexAfterName(s: string, last: Token)
    ensures Lex(s, StrTok, last) == Lex(s, StrTok, EndTok)
  {
    hide StrLong, PlainSymbol;
  }

  lemma LogicalJoin(tok: Token, left: int, st: State, right: int)
    requires tok == OrTok || tok == AndTok
    ensures Joined(tok, left, st, right) == st.(last := tok)
    ensures Combine(tok, left, right) == Truth(if tok == OrTok then left != 0 || right != 0 else left != 0 && right != 0)
  {
  }

  lemma BinaryTurn(l: nat, st: State, left: int)
    requires 5 <= l <= 12 && LevelOf(st.cur) == l
    ensures st.cur.Op? && !Decides(st.cur, left) && Suppress(st, false) == st
  {
  }

  lemma BinaryJoin(op: BinOp, left: int, st: State, right: int)
    ensures Resume(st, false) == st
    ensures ByZero(Op(op), right) <==> Divides(op) && right == 0
    ensures Combine(Op(op), left, right) == Apply(op, left, if Divides(op) && right == 0 then 1 else right)
    ensures Joined(Op(op), left, st, right) ==
              if op == Mod && left == INTMAX_MIN && right == -1 then st else st.(last := NumTok)
    ensures Divides(op) <==> op == Div || op == Mod
  {
  }

  lemma OverflowingDivision()
    ensures Apply(Mod, INTMAX_MIN, -1) == 0 && Apply(Div, INTMAX_MIN, -1) == Apply(Div, INTMAX_MIN, 1)
  {
    DivisionLaw(INTMAX_MIN, -1);
    DivisionLaw(INTMAX_MIN, 1);
  }

  lemma PowerOfZero(base: int)
    ensures Wrap(Power(base, 0)) == 1
  {
  }
}
