// The evaluator of bash/expr.c as a definition: a recursive-descent parser
// that evaluates as it goes, over the state it keeps in globals.
//
// The original has a function for every precedence level. Here Exp(l, st) is
// the function of level l: 0 expcomma, 1 expassign, 2 expcond, 3 explor,
// 4 expland, 5 expbor, 6 expbxor, 7 expband, 8 expeq, 9 expcompare,
// 10 expshift, 11 expaddsub, 12 expmuldiv, 13 exppower, 14 expunary, 15 exp0.

module ArithSyntax {
  import opened Options
  import opened Numerals
  import opened ArithValues
  import opened ArithLexer

  // Shell variables and their text.
  type Env = map<string, string>

  const MAX_DEPTH: nat := 1024

  // The evaluator's globals. `tp` is the unread text; `depth` the height of
  // the stack of saved contexts.
  datatype State = State(
    tp: string, cur: Token, last: Token, tokval: int, tokstr: Option<string>,
    noeval: nat, env: Env, depth: nat)

  // A value and the state after it, or the error that ended the evaluation
  // with the variables as they were by then and the depth it was raised at.
  datatype Result =
    | Value(st: State, val: int)
    | Fail(error: Error, env: Env, depth: nat)

  // The same for a whole expression.
  datatype Outcome =
    | Done(val: int, env: Env)
    | Failed(error: Error, env: Env, depth: nat)

  function Throw(e: Error, st: State): Result { Fail(e, st.env, st.depth) }

  function Room(depth: nat): nat {
    if depth < MAX_DEPTH then MAX_DEPTH - depth else 0
  }

  // How much is left to read, the current token included.
  function Unread(st: State): nat {
    |st.tp| + if st.cur == EndTok then 0 else 1
  }

  // Success restores the depth and the suppression count; errors come from
  // this depth or deeper.
  predicate Unwound(st: State, r: Result) {
    if r.Value? then r.st.depth == st.depth && r.st.noeval == st.noeval else r.depth >= st.depth
  }

  // Something has been read: strictly less is left.
  predicate Advances(st: State, r: Result) {
    Unwound(st, r) && (r.Value? ==> Unread(r.st) < Unread(st))
  }

  // An error in a variable's text is deeper, unless there is no room for it.
  predicate Deeper(depth: nat, o: Outcome) {
    o.Failed? ==> o.depth > depth || (o.depth == depth && o.error == RecursionLimit)
  }

  // The level whose function looks for a token between its operands; none for
  // the tokens no level looks for.
  const NO_LEVEL: nat := 99

  function LevelOf(tok: Token): nat {
    match tok
    case Comma => 0
    case Quest => 2
    case OrTok => 3
    case AndTok => 4
    case Op(op) => OpLevel(op)
    case PowerTok => 13
    case _ => NO_LEVEL
  }

  function OpLevel(op: BinOp): (l: nat)
    ensures 5 <= l <= 12
  {
    match op
    case BitOr => 5
    case BitXor => 6
    case BitAnd => 7
    case EqEq | Neq => 8
    case Leq | Geq | Lt | Gt => 9
    case Shl | Shr => 10
    case Add | Sub => 11
    case Mul | Div | Mod => 12
  }

  // The levels that loop over operands of the next level, left to right.
  predicate IsLoop(l: nat) { l == 0 || 3 <= l <= 12 }

  function UnaryOf(tok: Token): Option<UnOp> {
    match tok
    case NotTok => Some(LogNot)
    case BitNotTok => Some(BitNot)
    case Op(Sub) => Some(Minus)
    case Op(Add) => Some(Plus)
    case _ => None
  }

  // Assigns a value to a variable as text, unless evaluation is suppressed.
  function Bind(st: State, name: Option<string>, val: int): State {
    if st.noeval == 0 && name.Some? then st.(env := st.env[name.value := Itos(val)]) else st
  }

  // ---------------------------------------------------------------- reading

  datatype Peeked = Peeked(tok: Token, rest: string) | PeekFail(error: Error)

  // The token after a name, read without evaluating anything.
  function Peek(s: string): (r: Peeked)
    ensures r.Peeked? && r.tok != EndTok ==> |r.rest| < |s|
    ensures r.Peeked? ==> |r.rest| <= |s|
    decreases |s|
  {
    var l := Lex(s, StrTok, EndTok);
    match l.lexeme
    case Bad(e) => PeekFail(e)
    case Name(_) => if Peek(l.rest).PeekFail? then Peek(l.rest) else Peeked(StrTok, l.rest)
    case Number(_) => Peeked(NumTok, l.rest)
    case Symbol(t) => Peeked(t, l.rest)
  }

  function ReadTok(st: State): (r: Result)
    ensures Unwound(st, r)
    ensures r.Value? ==> Unread(r.st) <= Unread(st) && (st.cur != EndTok ==> Unread(r.st) < Unread(st))
    decreases Room(st.depth), Unread(st), 3
  {
    var l := Lex(st.tp, st.cur, st.last);
    var st' := st.(last := st.cur, tp := l.rest);
    match l.lexeme
    case Bad(e) => Throw(e, st)
    case Symbol(t) => Value(st'.(cur := t), 0)
    case Number(v) => Value(st'.(cur := NumTok, tokval := v), 0)
    case Name(n) =>
      match Peek(l.rest)
      case PeekFail(e) => Throw(e, st)
      case Peeked(next, _) =>
        if st.last == PreInc || st.last == PreDec || next != Assign then
          match StrEval(n, st.env, st.noeval, st.depth)
          case Failed(e, env, d) => Fail(e, env, d)
          case Done(v, env) => Value(st'.(cur := StrTok, tokstr := Some(n), tokval := v, env := env), 0)
        else Value(st'.(cur := StrTok, tokstr := Some(n), tokval := 0), 0)
  }

  // The value of a variable: its text, evaluated as an expression.
  function StrEval(name: string, env: Env, noeval: nat, depth: nat): (o: Outcome)
    ensures Deeper(depth, o)
    decreases Room(depth), 0, 1
  {
    if noeval > 0 then Done(0, env)
    else if name in env && env[name] != "" then Subexpr(env[name], env, noeval, depth)
    else Done(0, env)
  }

  // A whole expression in a context of its own.
  function Subexpr(text: string, env: Env, noeval: nat, depth: nat): (o: Outcome)
    ensures Deeper(depth, o)
    decreases Room(depth), 0, 0
  {
    if SkipBlanks(text) == "" then Done(0, env)
    else if depth >= MAX_DEPTH then Failed(RecursionLimit, env, depth)
    else
      var r := ReadTok(State(text, EndTok, EndTok, 0, None, noeval, env, depth + 1));
      var r' := if r.Value? then Exp(0, r.st) else r;
      if r'.Fail? then Failed(r'.error, r'.env, r'.depth)
      else if r'.st.cur != EndTok then Failed(SyntaxError, r'.st.env, r'.st.depth)
      else Done(r'.val, r'.st.env)
  }

  // ---------------------------------------------------------------- the levels

  function Suppress(st: State, when: bool): State {
    if when then st.(noeval := st.noeval + 1) else st
  }

  function Resume(st: State, when: bool): State
    requires when ==> st.noeval > 0
  {
    if when then st.(noeval := st.noeval - 1) else st
  }

  function Exp(l: nat, st: State): (r: Result)
    requires l <= 15
    ensures Advances(st, r)
    ensures r.Value? && (l == 13 || IsLoop(l)) ==> LevelOf(r.st.cur) != l
    decreases Room(st.depth), Unread(st), 20 - l
  {
    if IsLoop(l) then
      var r := Exp(l + 1, st);
      if r.Value? then Loop(l, r.st, r.val) else r
    else match l
      case 1 => Assignment(st)
      case 2 => Conditional(st)
      case 13 => Exponent(st)
      case 14 => Unary(st)
      case _ => Operand(st)
  }

  // The loop of a left-associative level, with the value so far. The right
  // operand of || and && is read without evaluation when the left decides.
  function Loop(l: nat, st: State, val: int): (r: Result)
    requires IsLoop(l)
    ensures Unwound(st, r) && (r.Value? ==> Unread(r.st) <= Unread(st) && LevelOf(r.st.cur) != l)
    decreases Room(st.depth), Unread(st), 20 - l
  {
    if LevelOf(st.cur) != l then Value(st, val)
    else
      var skip := Decides(st.cur, val);
      var r := ReadTok(Suppress(st, skip));
      RightOperand(l, st, val, if r.Value? then Exp(l + 1, r.st) else r)
  }

  // With the right operand's outcome r.
  function RightOperand(l: nat, st: State, val: int, r: Result): (r': Result)
    requires IsLoop(l) && Unwound(Suppress(st, Decides(st.cur, val)), r) && (r.Value? ==> Unread(r.st) < Unread(st))
    ensures Unwound(st, r') && (r'.Value? ==> Unread(r'.st) <= Unread(st) && LevelOf(r'.st.cur) != l)
    decreases Room(st.depth), Unread(st), 20 - l, 0
  {
    if r.Fail? then r
    else if ByZero(st.cur, r.val) && st.noeval == 0 then Throw(DivisionByZero, r.st)
    else Loop(l, Rejoin(st, val, r), Combine(st.cur, val, r.val))
  }

  // The state a loop goes on in after a right operand.
  function Rejoin(st: State, val: int, r: Result): State
    requires r.Value? && (Decides(st.cur, val) ==> r.st.noeval > 0)
  {
    Joined(st.cur, val, Resume(r.st, Decides(st.cur, val)), r.val)
  }

  predicate Decides(tok: Token, left: int) {
    (tok == OrTok && left != 0) || (tok == AndTok && left == 0)
  }

  predicate ByZero(tok: Token, right: int) {
    tok.Op? && Divides(tok.op) && right == 0
  }

  // A divisor of zero only gets here unevaluated, and then counts as one.
  function Combine(tok: Token, left: int, right: int): int {
    match tok
    case OrTok => Truth(left != 0 || right != 0)
    case AndTok => Truth(left != 0 && right != 0)
    case Op(op) => Apply(op, left, if Divides(op) && right == 0 then 1 else right)
    case _ => right
  }

  // What the previous token is set to. The loop of expmuldiv goes on early
  // for the remainder that would overflow, and so leaves it as it was.
  function Joined(tok: Token, left: int, st: State, right: int): State {
    match tok
    case Comma => st
    case OrTok | AndTok => st.(last := tok)
    case _ => if tok == Op(Mod) && left == INTMAX_MIN && right == -1 then st else st.(last := NumTok)
  }

  function Assignment(st: State): (r: Result)
    ensures Advances(st, r)
    decreases Room(st.depth), Unread(st), 19, 0
  {
    var r := Exp(2, st);
    if r.Fail? || !(r.st.cur == Assign || r.st.cur.OpAssign?) then r
    else if r.st.last != StrTok then Throw(NonVariable, r.st)
    else if r.st.tokstr.None? then Throw(AssignmentSyntax, r.st)
    else
      var r1 := ReadTok(r.st);
      var r2 := if r1.Value? then Exp(1, r1.st) else r1;
      if r2.Fail? then r2
      else Assigned(r.st.cur, r.st.tokstr.value, r.val, r2.st, r2.val)
  }

  // name = val, or name OP= val for the value the name had before.
  function Assigned(tok: Token, name: string, before: int, st: State, val: int): (r: Result)
    requires tok == Assign || tok.OpAssign?
    ensures Unwound(st, r) && (r.Value? ==> Unread(r.st) == Unread(st))
  {
    if tok == Assign then Value(Bind(st, Some(name), val).(tokstr := None), val)
    else if Divides(tok.op) && val == 0 && st.noeval == 0 then Throw(DivisionByZero, st)
    else
      var v := Apply(tok.op, before, if Divides(tok.op) && val == 0 then 1 else val);
      Value(Bind(st, Some(name), v).(tokstr := None), v)
  }

  function Conditional(st: State): (r: Result)
    ensures Advances(st, r)
    decreases Room(st.depth), Unread(st), 18, 0
  {
    var r := Exp(3, st);
    if r.Fail? || r.st.cur != Quest then r else ThenPart(r.st, r.val)
  }

  // From the question mark on: only the branch the condition selects is evaluated.
  function ThenPart(st: State, c: int): (r: Result)
    requires st.cur == Quest
    ensures Advances(st, r)
    decreases Room(st.depth), Unread(st), 22
  {
    var r := ReadTok(Suppress(st, c == 0));
    if r.Fail? then r
    else if r.st.cur == EndTok || r.st.cur == Colon then Throw(ExpressionExpected, r.st)
    else
      var r' := Exp(0, r.st);
      if r'.Fail? then r' else ElsePart(Resume(r'.st, c == 0), c, r'.val)
  }

  // From the colon on, the condition and the value of the first branch known.
  function ElsePart(st: State, c: int, val1: int): (r: Result)
    ensures Unwound(st, r) && (r.Value? ==> Unread(r.st) <= Unread(st))
    decreases Room(st.depth), Unread(st), 21
  {
    if st.cur != Colon then Throw(ColonExpected, st)
    else
      var r := ReadTok(Suppress(st, c != 0));
      if r.Fail? then r
      else if r.st.cur == EndTok then Throw(ExpressionExpected, r.st)
      else
        var r' := Exp(2, r.st);
        if r'.Fail? then r'
        else Value(Resume(r'.st, c != 0).(last := CondTok), if c != 0 then val1 else r'.val)
  }

  // Right-associative: the exponent is the rest of the chain.
  function Exponent(st: State): (r: Result)
    ensures Advances(st, r) && (r.Value? ==> r.st.cur != PowerTok)
    decreases Room(st.depth), Unread(st), 7, 0
  {
    var r := Exp(14, st);
    if r.Fail? || r.st.cur != PowerTok then r
    else
      var r1 := ReadTok(r.st);
      var r2 := if r1.Value? then Exp(13, r1.st) else r1;
      if r2.Fail? then r2
      else if r2.st.noeval == 0 && r2.val < 0 then Throw(NegativeExponent, r2.st)
      else Value(r2.st.(last := NumTok), if r2.st.noeval == 0 then Wrap(Power(r.val, r2.val)) else 1)
  }

  function Unary(st: State): (r: Result)
    ensures Advances(st, r)
    decreases Room(st.depth), Unread(st), 6, 0
  {
    match UnaryOf(st.cur)
    case None => Exp(15, st)
    case Some(op) =>
      var r := ReadTok(st);
      var r' := if r.Value? then Exp(14, r.st) else r;
      if r'.Fail? then r' else Value(r'.st.(last := NumTok), ApplyUnary(op, r'.val))
  }

  // What reading the next token gives, with the value of what came before it.
  function Then(r: Result, val: int): Result
  {
    if r.Value? then Value(r.st, val) else r
  }

  function Operand(st: State): (r: Result)
    ensures Advances(st, r)
    decreases Room(st.depth), Unread(st), 5, 0
  {
    match st.cur
    case PreInc => Prefix(st, 1)
    case PreDec => Prefix(st, -1)
    case LPar => Parenthesized(st)
    case NumTok => Then(ReadTok(st), st.tokval)
    case StrTok => NameOrPostfix(st)
    case _ => Throw(OperandExpected, st)
  }

  // ++name and --name.
  function Prefix(st: State, step: int): (r: Result)
    requires st.cur != EndTok
    ensures Advances(st, r)
    decreases Room(st.depth), Unread(st), 4, 0
  {
    var r := ReadTok(st.(last := st.cur));
    if r.Fail? then r
    else if r.st.cur != StrTok then Throw(IdentifierExpected, r.st)
    else StepName(r.st, step)
  }

  // Adds to the variable just read; its name counts as a number from here on.
  function StepName(st: State, step: int): (r: Result)
    requires st.cur == StrTok
    ensures Advances(st, r)
    decreases Room(st.depth), Unread(st), 4, 0
  {
    var v := Wrap(st.tokval + step);
    Then(ReadTok(Bind(st, st.tokstr, v).(cur := NumTok)), v)
  }

  function Parenthesized(st: State): (r: Result)
    requires st.cur != EndTok
    ensures Advances(st, r)
    decreases Room(st.depth), Unread(st), 4, 0
  {
    var r := ReadTok(st);
    var r' := if r.Value? then Exp(0, r.st) else r;
    if r'.Fail? then r'
    else if r'.st.cur != RPar then Throw(MissingParen, r'.st)
    else Then(ReadTok(r'.st), r'.val)
  }

  // name, name++ and name--.
  function NameOrPostfix(st: State): (r: Result)
    requires st.cur == StrTok
    ensures Advances(st, r)
    decreases Room(st.depth), Unread(st), 4, 0
  {
    match Peek(st.tp)
    case PeekFail(e) => Throw(e, st)
    case Peeked(next, rest) =>
      if next == PostInc || next == PostDec then
        var v := Wrap(st.tokval + if next == PostInc then 1 else -1);
        var st1 := st.(tp := rest, cur := NumTok, last := StrTok);
        Then(ReadTok(Bind(st1, st.tokstr, v)), st.tokval)
      else Then(ReadTok(st), st.tokval)
  }

  // The evaluator's entry point.
  function Evaluate(text: string, env: Env): Outcome {
    Subexpr(text, env, 0, 0)
  }

  // ---------------------------------------------------------------- one step at a time

  lemma LevelIs(m: nat, st: State)
    requires m in {1, 2, 13, 14, 15}
    ensures Exp(m, st) == if m == 1 then Assignment(st) else if m == 2 then Conditional(st)
                          else if m == 13 then Exponent(st) else if m == 14 then Unary(st) else Operand(st)
  {
    hide ReadTok, Loop, Assignment, Conditional, Exponent, Unary, Operand;
  }

  lemma LevelLoops(l: nat, st: State)
    requires l <= 15 && IsLoop(l)
    ensures Exp(l, st) == var r := Exp(l + 1, st); if r.Value? then Loop(l, r.st, r.val) else r
  {
    hide Loop, ReadTok, Assignment, Conditional, Exponent, Unary, Operand;
  }

  lemma LoopStops(l: nat, st: State, val: int)
    requires IsLoop(l) && LevelOf(st.cur) != l
    ensures Loop(l, st, val) == Value(st, val)
  {
    hide Exp, ReadTok;
  }

  lemma LoopTurns(l: nat, st: State, val: int)
    requires IsLoop(l) && LevelOf(st.cur) == l
    ensures var r := ReadTok(Suppress(st, Decides(st.cur, val)));
            var r' := if r.Value? then Exp(l + 1, r.st) else r;
            Unwound(Suppress(st, Decides(st.cur, val)), r') && (r'.Value? ==> Unread(r'.st) < Unread(st))
            && Loop(l, st, val) == RightOperand(l, st, val, r')
  {
    hide Exp, ReadTok, Combine, Joined, RightOperand;
  }

  lemma RightOperandIs(l: nat, st: State, val: int, r: Result)
    requires IsLoop(l) && Unwound(Suppress(st, Decides(st.cur, val)), r) && (r.Value? ==> Unread(r.st) < Unread(st))
    ensures RightOperand(l, st, val, r)
         == if r.Fail? then r
            else if ByZero(st.cur, r.val) && st.noeval == 0 then Throw(DivisionByZero, r.st)
            else Loop(l, Rejoin(st, val, r), Combine(st.cur, val, r.val))
  {
    hide Loop, Combine, Rejoin;
  }

  lemma LoopContinues(l: nat, st: State, val: int)
    requires IsLoop(l) && LevelOf(st.cur) == l
    ensures var skip := Decides(st.cur, val);
            var r := ReadTok(Suppress(st, skip));
            var r' := if r.Value? then Exp(l + 1, r.st) else r;
            Loop(l, st, val) ==
              if r'.Fail? then r'
              else if ByZero(st.cur, r'.val) && st.noeval == 0 then Throw(DivisionByZero, r'.st)
              else Loop(l, Joined(st.cur, val, Resume(r'.st, skip), r'.val), Combine(st.cur, val, r'.val))
  {
    hide Exp, ReadTok, Combine, Joined, RightOperand, Loop;
    LoopTurns(l, st, val);
    var r := ReadTok(Suppress(st, Decides(st.cur, val)));
    RightOperandIs(l, st, val, if r.Value? then Exp(l + 1, r.st) else r);
  }

  lemma PrefixReads(st: State, step: int)
    requires st.cur != EndTok
    ensures var r := ReadTok(st.(last := st.cur));
            Prefix(st, step) ==
              if r.Fail? then r
              else if r.st.cur != StrTok then Throw(IdentifierExpected, r.st)
              else StepName(r.st, step)
  {
    hide ReadTok, Exp, StepName;
  }

  lemma StepReads(st: State, step: int)
    requires st.cur == StrTok
    ensures var v := Wrap(st.tokval + step);
            StepName(st, step) == Then(ReadTok(Bind(st, st.tokstr, v).(cur := NumTok)), v)
  {
    hide ReadTok, Exp, Wrap, Bind;
  }

  lemma ReadsName(st: State, name: string, rest: string)
    requires Lex(st.tp, st.cur, st.last) == Lexed(Name(name), rest)
    ensures var p := Peek(rest);
            var st' := st.(last := st.cur, cur := StrTok, tp := rest, tokstr := Some(name));
            ReadTok(st) ==
              if p.PeekFail? then Fail(p.error, st.env, st.depth)
              else if st.last == PreInc || st.last == PreDec || p.tok != Assign then
                var o := StrEval(name, st.env, st.noeval, st.depth);
                if o.Failed? then Fail(o.error, o.env, o.depth) else Value(st'.(tokval := o.val, env := o.env), 0)
              else Value(st'.(tokval := 0), 0)
  {
    hide StrEval, Subexpr, Exp, Lex, Peek;
  }

  lemma ReadsOther(st: State)
    requires !Lex(st.tp, st.cur, st.last).lexeme.Name?
    ensures var l := Lex(st.tp, st.cur, st.last);
            var st' := st.(last := st.cur, tp := l.rest);
            ReadTok(st) == if l.lexeme.Bad? then Throw(l.lexeme.error, st)
                           else if l.lexeme.Number? then Value(st'.(cur := NumTok, tokval := l.lexeme.value), 0)
                           else Value(st'.(cur := l.lexeme.token), 0)
  {
    hide Lex, Peek, StrEval, Subexpr, Exp;
  }

  // What follows a name is read past a postfix step, or from the name.
  function AfterStep(st: State, p: Peeked): State
    requires p.Peeked?
  {
    Bind(st.(tp := p.rest, cur := NumTok, last := StrTok), st.tokstr,
         Wrap(st.tokval + if p.tok == PostInc then 1 else -1))
  }

  lemma NameReads(st: State)
    requires st.cur == StrTok
    ensures var p := Peek(st.tp);
            NameOrPostfix(st) ==
              if p.PeekFail? then Throw(p.error, st)
              else if p.tok == PostInc || p.tok == PostDec then Then(ReadTok(AfterStep(st, p)), st.tokval)
              else Then(ReadTok(st), st.tokval)
  {
    hide Lex, Peek, ReadTok, StrEval, Exp, Wrap, Bind;
  }
}
