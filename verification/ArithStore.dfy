// When every variable holds a number, trees mean what arithmetic says: no
// text, no reading, only numbers and stores.

module ArithStore {
  import opened Options
  import opened Numerals
  import opened ArithValues
  import opened ArithLexer
  import opened ArithSyntax
  import opened ArithTrees
  import opened ArithReading
  import opened ArithCorrect

  type Store = map<string, int>

  datatype Run = Finished(val: int, store: Store) | Stopped(error: Error, store: Store)

  predicate InRangeStore(store: Store) {
    forall x :: x in store ==> InRange(store[x])
  }

  function Lookup(store: Store, x: string): int {
    if x in store then store[x] else 0
  }

  // The variables as the shell keeps them.
  function AsText(store: Store): Env {
    map x | x in store :: Itos(store[x])
  }

  // Left-to-right evaluation; && || ?: evaluate only the operand they select.
  function RunTree(e: Expr, store: Store): Run
    decreases e
  {
    match e
    case Num(n) => Finished(n, store)
    case Var(x) => Finished(Lookup(store, x), store)
    case PreStep(down, x) =>
      var v := Wrap(Lookup(store, x) + Step(down));
      Finished(v, store[x := v])
    case PostStep(down, x) => Finished(Lookup(store, x), store[x := Wrap(Lookup(store, x) + Step(down))])
    case Un(op, a) =>
      var r := RunTree(a, store);
      if r.Stopped? then r else Finished(ApplyUnary(op, r.val), r.store)
    case Bin(op, l, r) =>
      var a := RunTree(l, store);
      var b := if a.Stopped? then a else RunTree(r, a.store);
      if b.Stopped? then b
      else if Divides(op) && b.val == 0 then Stopped(DivisionByZero, b.store)
      else Finished(Apply(op, a.val, b.val), b.store)
    case Pow(l, r) =>
      var a := RunTree(l, store);
      var b := if a.Stopped? then a else RunTree(r, a.store);
      if b.Stopped? then b
      else if b.val < 0 then Stopped(NegativeExponent, b.store)
      else Finished(Wrap(Power(a.val, b.val)), b.store)
    case And(l, r) =>
      var a := RunTree(l, store);
      if a.Stopped? || a.val == 0 then a
      else
        var b := RunTree(r, a.store);
        if b.Stopped? then b else Finished(Truth(b.val != 0), b.store)
    case Or(l, r) =>
      var a := RunTree(l, store);
      if a.Stopped? then a
      else if a.val != 0 then Finished(1, a.store)
      else
        var b := RunTree(r, a.store);
        if b.Stopped? then b else Finished(Truth(b.val != 0), b.store)
    case If(c, l, r) =>
      var a := RunTree(c, store);
      if a.Stopped? then a else RunTree(if a.val != 0 then l else r, a.store)
    case Set(x, r) =>
      var b := RunTree(r, store);
      if b.Stopped? then b else Finished(b.val, b.store[x := b.val])
    case SetOp(op, x, r) =>
      var b := RunTree(r, store);
      if b.Stopped? then b
      else if Divides(op) && b.val == 0 then Stopped(DivisionByZero, b.store)
      else
        var v := Apply(op, Lookup(store, x), b.val);
        Finished(v, b.store[x := v])
    case Seq(l, r) =>
      var a := RunTree(l, store);
      if a.Stopped? then a else RunTree(r, a.store)
  }

  // ---------------------------------------------------------------- numbers as text

  // Up to the lowest level, when nothing follows.
  lemma {:induction false} ClimbsOut(k: nat, st: State, r: Result)
    requires k <= 15 && Exp(k, st) == r && (k == 15 ==> UnaryOf(st.cur) == None)
    requires r.Value? ==> r.st.cur == EndTok
    ensures Exp(0, st) == r
  {
    hide Lex, Peek, ReadTok, StrEval, Subexpr, Exp, Loop, ArithSyntax.Assignment, Conditional, ThenPart,
      ElsePart, Exponent, Unary, Operand, Prefix, StepName, Parenthesized, NameOrPostfix, SpellsAfter, Past,
      Unmerged, Apply, Wrap, Numeral, Words, Child, Denote;
    if k > 0 {
      Lifts(k - 1, st, r);
      Stops(k - 1, r);
      ClimbsOut(k - 1, st, r);
    }
  }

  lemma LexDecimal(n: nat, cur: Token, last: Token)
    ensures Lex(Decimal(n), cur, last) == Lexed(Number(Wrap(n)), "")
  {
    hide StrLong, Numeral;
    var x := Decimal(n);
    DecimalReadsBack(n);
    NumberRunStops(x, "");
    assert x + "" == x && x[..|x|] == x && x[|x|..] == "";
    ConstantsReadBack(10, n);
  }

  lemma LexMinus(n: nat, cur: Token, last: Token)
    ensures Lex("-" + Decimal(n), cur, last) == Lexed(Symbol(Op(Sub)), Decimal(n))
  {
    hide Numeral;
    var s := "-" + Decimal(n);
    DecimalReadsBack(n);
    assert s[1] == Decimal(n)[0] && s[1..] == Decimal(n);
  }

  lemma ReadsDigits(st: State, n: nat) returns (r: Result)
    requires st.tp == Decimal(n)
    ensures Begin(15, st) == r && r.Value? && r.val == Wrap(n) && r.st.cur == EndTok
    ensures ReadTok(st).Value? && ReadTok(st).st.cur == NumTok
    ensures r.st.env == st.env
  {
    hide Lex, Peek, StrEval, Subexpr, Exp, Loop, ArithSyntax.Assignment, Conditional, ThenPart, ElsePart,
      Exponent, Unary, Prefix, StepName, Parenthesized, NameOrPostfix, SpellsAfter, Past, Unmerged, Apply,
      Wrap, Numeral, Words, Child, Denote;
    LexDecimal(n, st.cur, st.last);
    var st1 := ReadTok(st).st;
    LevelIs(15, st1);
    LexEnd(st1.cur, st1.last);
    r := Exp(15, st1);
  }

  lemma LexEnd(cur: Token, last: Token)
    ensures Lex("", cur, last) == Lexed(Symbol(EndTok), "")
  {
  }

  lemma ReadsNegative(st: State, n: nat) returns (r: Result)
    requires st.tp == "-" + Decimal(n)
    ensures Begin(14, st) == r && r.Value? && r.val == Wrap(-Wrap(n)) && r.st.cur == EndTok
    ensures ReadTok(st).Value? && r.st.env == st.env
  {
    hide Lex, Peek, StrEval, Subexpr, Exp, Loop, ArithSyntax.Assignment, Conditional, ThenPart, ElsePart,
      Exponent, Operand, Prefix, StepName, Parenthesized, NameOrPostfix, SpellsAfter, Past, Unmerged, Apply,
      Wrap, Numeral, Words, Child, Denote;
    LexMinus(n, st.cur, st.last);
    var st1 := ReadTok(st).st;
    LevelIs(14, st1);
    var r1 := ReadsDigits(st1, n);
    Lifts(14, ReadTok(st1).st, r1);
    r := Exp(14, st1);
  }

  // The text of a number is an expression with that value.
  lemma NumberText(n: int, env: Env, depth: nat)
    requires InRange(n) && depth < MAX_DEPTH
    ensures Subexpr(Itos(n), env, 0, depth) == Done(n, env)
  {
    hide Lex, Peek, ReadTok, StrEval, Exp, Loop, ArithSyntax.Assignment, Conditional, ThenPart, ElsePart,
      Exponent, Unary, Operand, Prefix, StepName, Parenthesized, NameOrPostfix, SpellsAfter, Past, Unmerged,
      Apply, Wrap, Numeral, Words, Child, Denote;
    NotBlank(n);
    var st := State(Itos(n), EndTok, EndTok, 0, None, 0, env, depth + 1);
    if n < 0 {
      var r := ReadsNegative(st, -n);
      ClimbsOut(14, ReadTok(st).st, r);
      NegatedTwice(n);
    } else {
      var r := ReadsDigits(st, n);
      ClimbsOut(15, ReadTok(st).st, r);
      InRangeWraps(n);
    }
  }

  lemma NotBlank(n: int)
    ensures SkipBlanks(Itos(n)) != ""
  {
    DecimalReadsBack(if n < 0 then -n else n);
  }

  lemma InRangeWraps(n: int)
    requires InRange(n)
    ensures Wrap(n) == n
  {
  }

  lemma NegatedTwice(n: int)
    requires InRange(n)
    ensures Wrap(-Wrap(-n)) == n
  {
  }

  lemma VariableValue(store: Store, x: string, depth: nat)
    requires InRangeStore(store) && depth < MAX_DEPTH
    ensures StrEval(x, AsText(store), 0, depth) == Done(Lookup(store, x), AsText(store))
  {
    hide Lex, Peek, ReadTok, Subexpr, Exp, Loop, ArithSyntax.Assignment, Conditional, ThenPart, ElsePart,
      Exponent, Unary, Operand, Prefix, StepName, Parenthesized, NameOrPostfix, SpellsAfter, Past, Unmerged,
      Apply, Wrap, Numeral, Words, Child, Denote;
    if x in store {
      assert AsText(store)[x] == Itos(store[x]);
      NumberText(store[x], AsText(store), depth);
    }
  }

  lemma BindText(store: Store, x: string, v: int)
    ensures AsText(store)[x := Itos(v)] == AsText(store[x := v])
  {
  }

  // ---------------------------------------------------------------- the two meanings agree

  predicate Agree(o: Outcome, r: Run, depth: nat) {
    InRangeStore(r.store) &&
    if r.Finished? then o == Done(r.val, AsText(r.store)) && InRange(r.val)
    else o == Failed(r.error, AsText(r.store), depth)
  }

  lemma {:induction false} SameMeaning(e: Expr, store: Store, depth: nat)
    requires WellFormed(e) && InRangeStore(store) && depth < MAX_DEPTH
    ensures Agree(Denote(e, AsText(store), depth), RunTree(e, store), depth)
    decreases e, 1
  {
    hide Lex, Peek, ReadTok, StrEval, Subexpr, Exp, Loop, ArithSyntax.Assignment, Conditional, ThenPart,
      ElsePart, Exponent, Unary, Operand, Prefix, StepName, Parenthesized, NameOrPostfix, SpellsAfter, Past,
      Unmerged, Apply, Wrap, Numeral, Words, Child, Denote, AsText, RunTree;
    if e.Num? || e.Var? || e.PreStep? || e.PostStep? {
      SameLeaf(e, store, depth);
    } else if e.Un? || e.Set? || e.SetOp? {
      SameOne(e, store, depth);
    } else {
      SameTwo(e, store, depth);
    }
  }

  lemma SameLeaf(e: Expr, store: Store, depth: nat)
    requires e.Num? || e.Var? || e.PreStep? || e.PostStep?
    requires WellFormed(e) && InRangeStore(store) && depth < MAX_DEPTH
    ensures Agree(Denote(e, AsText(store), depth), RunTree(e, store), depth)
  {
    hide Lex, Peek, ReadTok, StrEval, Subexpr, Exp, Loop, ArithSyntax.Assignment, Conditional, ThenPart,
      ElsePart, Exponent, Unary, Operand, Prefix, StepName, Parenthesized, NameOrPostfix, SpellsAfter, Past,
      Unmerged, Apply, Wrap, Numeral, Words, Child, AsText;
    if !e.Num? { VariableValue(store, e.x, depth); }
    if e.PreStep? || e.PostStep? {
      BindText(store, e.x, Wrap(Lookup(store, e.x) + Step(e.down)));
    }
  }

  lemma {:induction false} SameOne(e: Expr, store: Store, depth: nat)
    requires e.Un? || e.Set? || e.SetOp?
    requires WellFormed(e) && InRangeStore(store) && depth < MAX_DEPTH
    ensures Agree(Denote(e, AsText(store), depth), RunTree(e, store), depth)
    decreases e, 0
  {
    hide Lex, Peek, ReadTok, StrEval, Subexpr, Exp, Loop, ArithSyntax.Assignment, Conditional, ThenPart,
      ElsePart, Exponent, Unary, Operand, Prefix, StepName, Parenthesized, NameOrPostfix, SpellsAfter, Past,
      Unmerged, Apply, Wrap, Numeral, Words, Child, AsText;
    var sub := if e.Un? then e.arg else e.right;
    SameMeaning(sub, store, depth);
    var b := RunTree(sub, store);
    if e.SetOp? { VariableValue(store, e.x, depth); }
    if b.Finished? {
      if e.Un? {
        UnaryInRange(e.unop, b.val);
      } else {
        BindText(b.store, e.x, if e.Set? then b.val else Apply(e.op, Lookup(store, e.x), b.val));
      }
    }
  }

  lemma {:induction false} SameTwo(e: Expr, store: Store, depth: nat)
    requires e.Bin? || e.Pow? || e.And? || e.Or? || e.If? || e.Seq?
    requires WellFormed(e) && InRangeStore(store) && depth < MAX_DEPTH
    ensures Agree(Denote(e, AsText(store), depth), RunTree(e, store), depth)
    decreases e, 0
  {
    hide Lex, Peek, ReadTok, StrEval, Subexpr, Exp, Loop, ArithSyntax.Assignment, Conditional, ThenPart,
      ElsePart, Exponent, Unary, Operand, Prefix, StepName, Parenthesized, NameOrPostfix, SpellsAfter, Past,
      Unmerged, Apply, Wrap, Numeral, Words, Child, AsText;
    var first := if e.If? then e.cond else e.left;
    SameMeaning(first, store, depth);
    var a := RunTree(first, store);
    if a.Finished? {
      SameMeaning(if e.If? && a.val != 0 then e.left else e.right, a.store, depth);
    }
  }

  lemma UnaryInRange(op: UnOp, v: int)
    ensures InRange(v) ==> InRange(ApplyUnary(op, v))
  {
  }

  // Over variables that hold numbers, evaluating a tree's text is running the
  // tree: same value, same final store, same error.
  lemma EvaluateNumbers(e: Expr, text: string, store: Store)
    requires WellFormed(e) && Spells(text, Words(e)) && InRangeStore(store)
    ensures Agree(Evaluate(text, AsText(store)), RunTree(e, store), 1)
  {
    hide Evaluate, RunTree, Denote, Spells, Words;
    EvaluateTree(e, text, AsText(store));
    SameMeaning(e, store, 1);
  }

  // ---------------------------------------------------------------- references

  lemma LexBareName(x: string, cur: Token, last: Token)
    requires ValidName(x)
    ensures Lex(x, cur, last) == Lexed(Name(x), "") && SkipBlanks(x) == x
  {
    LexNameText(x, "", cur, last);
    assert x + "" == x;
  }

  lemma NothingToPeek()
    ensures Peek("") == Peeked(EndTok, "")
  {
    hide Lex;
    LexEnd(StrTok, EndTok);
  }

  // The text of the variable is the name of another.
  predicate Refers(env: Env, x: string, y: string) {
    ValidName(y) && x in env && env[x] == y
  }

  // It then has the other's value, one context deeper, if there is one left.
  lemma Reference(x: string, y: string, env: Env, depth: nat)
    requires Refers(env, x, y)
    ensures StrEval(x, env, 0, depth) ==
              if depth >= MAX_DEPTH then Failed(RecursionLimit, env, depth) else StrEval(y, env, 0, depth + 1)
  {
    LexBareName(y, EndTok, EndTok);
    ReferenceUnfolds(x, y, env, depth);
    if depth < MAX_DEPTH {
      hide Lex, Peek, ReadTok, StrEval, Subexpr, Exp, Loop, ArithSyntax.Assignment, Conditional, ThenPart,
        ElsePart, Exponent, Unary, Operand, Prefix, StepName, Parenthesized, NameOrPostfix, SpellsAfter, Past,
        Unmerged, Apply, Wrap, Numeral, Words, Child, Denote;
      var st := State(y, EndTok, EndTok, 0, None, 0, env, depth + 1);
      NothingToPeek();
      ReadsName(st, y, "");
      var r := ReadTok(st);
      if r.Value? {
        var r' := NameAtTheEnd(r.st);
        ClimbsOut(15, r.st, r');
      }
    }
  }

  lemma ReferenceUnfolds(x: string, y: string, env: Env, depth: nat)
    requires Refers(env, x, y)
    ensures StrEval(x, env, 0, depth) == Subexpr(y, env, 0, depth)
  {
  }

  lemma NameAtTheEnd(st: State) returns (r: Result)
    requires st.cur == StrTok && st.tp == ""
    ensures Exp(15, st) == r && r.Value? && r.st.cur == EndTok && r.val == st.tokval && r.st.env == st.env
  {
    hide Lex, Peek, ReadTok, StrEval, Subexpr, Exp, Loop, ArithSyntax.Assignment, Conditional, ThenPart,
      ElsePart, Exponent, Unary, Prefix, StepName, Parenthesized, Past, Unmerged, Apply, Wrap, Numeral, Words,
      Child, Denote;
    LevelIs(15, st);
    PeeksNext("", [], 15);
    var st2 := ReadsNext(st, [], 15, true);
    r := Value(st2, st.tokval);
  }

  // Every name in the list refers to the next.
  predicate Chain(env: Env, names: seq<string>) {
    forall i :: 0 <= i < |names| - 1 ==> Refers(env, names[i], names[i + 1])
  }

  // A chain of references has the value of its last name, if the stack has
  // room for its contexts, and otherwise ends at the limit with nothing changed.
  lemma {:induction false} ChainValue(names: seq<string>, env: Env, depth: nat)
    requires names != [] && Chain(env, names) && depth <= MAX_DEPTH
    ensures var n := |names| - 1;
            StrEval(names[0], env, 0, depth) ==
              if depth + n <= MAX_DEPTH then StrEval(names[n], env, 0, depth + n)
              else Failed(RecursionLimit, env, MAX_DEPTH)
    decreases |names|
  {
    hide Lex, Peek, ReadTok, StrEval, Subexpr, Exp, Loop, ArithSyntax.Assignment, Conditional, ThenPart,
      ElsePart, Exponent, Unary, Operand, Prefix, StepName, Parenthesized, NameOrPostfix, SpellsAfter, Past,
      Unmerged, Apply, Wrap, Numeral, Words, Child, Denote, Refers;
    if |names| > 1 {
      Reference(names[0], names[1], env, depth);
      if depth < MAX_DEPTH { ChainValue(names[1..], env, depth + 1); }
    }
  }

  // One that ends in a number has that number.
  lemma NumberAtTheEnd(names: seq<string>, n: int, env: Env, depth: nat)
    requires names != [] && Chain(env, names) && InRange(n) && depth <= MAX_DEPTH
    requires names[|names| - 1] in env && env[names[|names| - 1]] == Itos(n)
    ensures StrEval(names[0], env, 0, depth) ==
              if depth + |names| <= MAX_DEPTH then Done(n, env) else Failed(RecursionLimit, env, MAX_DEPTH)
  {
    hide Lex, Peek, ReadTok, Subexpr, Exp, Loop, ArithSyntax.Assignment, Conditional, ThenPart, ElsePart,
      Exponent, Unary, Operand, Prefix, StepName, Parenthesized, NameOrPostfix, SpellsAfter, Past, Unmerged,
      Apply, Wrap, Numeral, Words, Child, Denote;
    var k := |names| - 1;
    ChainValue(names, env, depth);
    if depth + k < MAX_DEPTH {
      NumberText(n, env, depth + k);
    } else if depth + k == MAX_DEPTH {
      NoRoom(n, env);
    }
  }

  lemma NoRoom(n: int, env: Env)
    ensures Subexpr(Itos(n), env, 0, MAX_DEPTH) == Failed(RecursionLimit, env, MAX_DEPTH)
  {
    hide SkipBlanks, ReadTok, Exp;
    NotBlank(n);
  }

  // Variables that refer only to each other, in whatever circles, run into the
  // limit of the context stack, and nothing has changed.
  lemma {:induction false} EndlessReferences(circle: set<string>, x: string, env: Env, depth: nat)
    requires forall y :: y in circle ==> y in env && ValidName(env[y]) && env[y] in circle
    requires x in circle && depth <= MAX_DEPTH
    ensures StrEval(x, env, 0, depth) == Failed(RecursionLimit, env, MAX_DEPTH)
    decreases MAX_DEPTH - depth
  {
    hide Lex, Peek, ReadTok, StrEval, Subexpr, Exp, Loop, ArithSyntax.Assignment, Conditional, ThenPart,
      ElsePart, Exponent, Unary, Operand, Prefix, StepName, Parenthesized, NameOrPostfix, SpellsAfter, Past,
      Unmerged, Apply, Wrap, Numeral, Words, Child, Denote;
    Reference(x, env[x], env, depth);
    if depth < MAX_DEPTH { EndlessReferences(circle, env[x], env, depth + 1); }
  }
}
