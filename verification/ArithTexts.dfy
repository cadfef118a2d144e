// What short texts evaluate to, operator by operator, in terms of integers.

module ArithTexts {
  import opened Options
  import opened Numerals
  import opened ArithValues
  import opened ArithLexer
  import opened ArithSyntax
  import opened ArithTrees
  import opened ArithReading
  import opened ArithCorrect

  // A decimal numeral is read as its value, up to whatever cannot belong to it.
  lemma ReadsDecimal(n: nat, rest: string, cur: Token, last: Token)
    requires rest == "" || (!WordChar(rest[0]) && rest[0] != '#' && rest[0] != '@')
    ensures Lex(Decimal(n) + rest, cur, last) == Lexed(Number(Wrap(n)), rest)
  {
    hide Lex, StrLong, Numeral;
    var x := Decimal(n);
    DecimalReadsBack(n);
    forall i | 0 <= i < |x| ensures '0' <= x[i] <= '9' { CharsOf(x[i]); }
    LexDigits(x, rest, cur, last);
    ConstantsReadBack(10, n);
  }

  lemma NumeralSpelled(n: nat, rest: string, ws: seq<Word>)
    requires Spells(rest, ws)
    requires rest == "" || (!WordChar(rest[0]) && rest[0] != '#' && rest[0] != '@')
    ensures Spells(Decimal(n) + rest, [WNum(n)] + ws)
  {
    hide Numeral, SpellsAfter;
    DecimalReadsBack(n);
    CharsOf(Decimal(n)[0]);
    assert Visible(WNum(n));
    FirstSpelled("", WNum(n), rest, ws, false);
    assert "" + (Decimal(n) + rest) == Decimal(n) + rest;
  }

  // Between two numerals an operator needs no blanks.
  lemma TwoNumerals(a: nat, t: Token, b: nat)
    requires PlainToken(t)
    ensures Spells(Decimal(a) + (SymText(t) + Decimal(b)), [WNum(a), WSym(t), WNum(b)])
  {
    hide Numeral, SymText, SpellsAfter;
    DecimalReadsBack(b);
    SymTextStarts(t);
    SymbolVisible(t);
    assert Visible([WSym(t)][0]);
    NothingSpelled(false);
    NumeralSpelled(b, "", []);
    assert Decimal(b) + "" == Decimal(b) && [WNum(b)] + [] == [WNum(b)];
    DigitAfter(t, Decimal(b));
    FirstSpelled("", WSym(t), Decimal(b), [WNum(b)], false);
    var rest := SymText(t) + Decimal(b);
    assert "" + rest == rest && rest[0] == SymText(t)[0];
    CharsOf(rest[0]);
    SymbolStarts(t);
    NumeralSpelled(a, rest, [WSym(t)] + [WNum(b)]);
    assert [WNum(a)] + ([WSym(t)] + [WNum(b)]) == [WNum(a), WSym(t), WNum(b)];
  }

  lemma DigitAfter(t: Token, x: string)
    requires PlainToken(t) && x != "" && IsDigit(x[0])
    ensures Unmerged(WSym(t), x, false)
  {
  }

  lemma SymbolStarts(t: Token)
    requires PlainToken(t)
    ensures var c := SymText(t)[..1]; c != "" ==> c[0] != '#' && c[0] != '@'
    ensures SymText(t) != "" && SymText(t)[0] != '#' && SymText(t)[0] != '@'
  {
  }

  lemma EvaluatesTwo(e: Expr, a: nat, t: Token, b: nat, env: Env)
    requires a <= INTMAX_MAX && b <= INTMAX_MAX && PlainToken(t) && WellFormed(e)
    requires Words(e) == [WNum(a)] + ([WSym(t)] + [WNum(b)])
    ensures Evaluate(Decimal(a) + (SymText(t) + Decimal(b)), env) == Denote(e, env, 1)
  {
    hide Words, SymText, Numeral, Denote, Evaluate, SpellsAfter;
    TwoNumerals(a, t, b);
    assert [WNum(a)] + ([WSym(t)] + [WNum(b)]) == [WNum(a), WSym(t), WNum(b)];
    EvaluateTree(e, Decimal(a) + (SymText(t) + Decimal(b)), env);
  }

  lemma NumeralAlone(n: nat, m: nat)
    requires m <= 15
    ensures Child(Num(n), m) == [WNum(n)]
  {
  }

  lemma EvaluatesBinary(op: BinOp, a: nat, b: nat, env: Env)
    requires a <= INTMAX_MAX && b <= INTMAX_MAX
    ensures Evaluate(Decimal(a) + (OpText(op) + Decimal(b)), env) == Divide(op, a, b, env, 1)
  {
    hide Numeral, Evaluate, SpellsAfter, Divide, Child;
    NumeralAlone(a, OpLevel(op));
    NumeralAlone(b, OpLevel(op) + 1);
    EvaluatesTwo(Bin(op, Num(a), Num(b)), a, Op(op), b, env);
  }

  function YesNo(b: bool): int { if b then 1 else 0 }

  lemma Sums(a: nat, b: nat, env: Env)
    requires a <= INTMAX_MAX && b <= INTMAX_MAX
    ensures Evaluate(Decimal(a) + ("+" + Decimal(b)), env) == Done(Wrap(a + b), env)
    ensures Evaluate(Decimal(a) + ("-" + Decimal(b)), env) == Done(a - b, env)
    ensures Evaluate(Decimal(a) + ("*" + Decimal(b)), env) == Done(Wrap(a * b), env)
  {
    hide Numeral, Evaluate, SpellsAfter;
    EvaluatesBinary(Add, a, b, env);
    EvaluatesBinary(Sub, a, b, env);
    EvaluatesBinary(Mul, a, b, env);
  }

  lemma Comparisons(a: nat, b: nat, env: Env)
    requires a <= INTMAX_MAX && b <= INTMAX_MAX
    ensures Evaluate(Decimal(a) + ("<" + Decimal(b)), env) == Done(YesNo(a < b), env)
    ensures Evaluate(Decimal(a) + ("<=" + Decimal(b)), env) == Done(YesNo(a <= b), env)
    ensures Evaluate(Decimal(a) + (">" + Decimal(b)), env) == Done(YesNo(a > b), env)
    ensures Evaluate(Decimal(a) + (">=" + Decimal(b)), env) == Done(YesNo(a >= b), env)
    ensures Evaluate(Decimal(a) + ("==" + Decimal(b)), env) == Done(YesNo(a == b), env)
    ensures Evaluate(Decimal(a) + ("!=" + Decimal(b)), env) == Done(YesNo(a != b), env)
  {
    hide Numeral, Evaluate, SpellsAfter;
    EvaluatesBinary(Lt, a, b, env);
    EvaluatesBinary(Leq, a, b, env);
    EvaluatesBinary(Gt, a, b, env);
    EvaluatesBinary(Geq, a, b, env);
    EvaluatesBinary(EqEq, a, b, env);
    EvaluatesBinary(Neq, a, b, env);
  }

  lemma Quotients(a: nat, b: nat, env: Env)
    requires a <= INTMAX_MAX && b <= INTMAX_MAX
    ensures Evaluate(Decimal(a) + ("/" + Decimal(b)), env) == if b == 0 then Failed(DivisionByZero, env, 1) else Done(a / b, env)
    ensures Evaluate(Decimal(a) + ("%" + Decimal(b)), env) == if b == 0 then Failed(DivisionByZero, env, 1) else Done(a % b, env)
  {
    hide Numeral, Evaluate, SpellsAfter, Apply;
    EvaluatesBinary(Div, a, b, env);
    EvaluatesBinary(Mod, a, b, env);
    if b != 0 { Quotient(a, b); }
  }

  lemma Quotient(a: nat, b: nat)
    requires 0 < b && a <= INTMAX_MAX
    ensures Apply(Div, a, b) == a / b && Apply(Mod, a, b) == a % b
  {
    var q, r := a / b, a % b;
    QuotientSmall(a, b, q, r);
    assert TruncDiv(a, b) == q && TruncMod(a, b) == a - b * q;
    hide Wrap, TruncDiv, TruncMod;
  }

  lemma QuotientSmall(a: nat, b: nat, q: nat, r: nat)
    requires 0 < b && q == a / b && r == a % b
    ensures q <= a && r <= a && a - b * q == r
  {
    DivisionAlgorithm(a, b);
    TimesOne(b, q);
  }

  lemma TimesOne(b: nat, q: nat)
    requires b > 0
    ensures b * q >= q
  {
  }

  lemma Logic(a: nat, b: nat, env: Env)
    requires a <= INTMAX_MAX && b <= INTMAX_MAX
    ensures Evaluate(Decimal(a) + ("&&" + Decimal(b)), env) == Done(YesNo(a != 0 && b != 0), env)
    ensures Evaluate(Decimal(a) + ("||" + Decimal(b)), env) == Done(YesNo(a != 0 || b != 0), env)
  {
    hide Numeral, Evaluate, SpellsAfter, Child;
    NumeralAlone(a, 4);
    NumeralAlone(b, 5);
    EvaluatesTwo(And(Num(a), Num(b)), a, AndTok, b, env);
    NumeralAlone(a, 3);
    NumeralAlone(b, 4);
    EvaluatesTwo(Or(Num(a), Num(b)), a, OrTok, b, env);
  }

  lemma PowersAndCommas(a: nat, b: nat, env: Env)
    requires a <= INTMAX_MAX && b <= INTMAX_MAX
    ensures Evaluate(Decimal(a) + ("**" + Decimal(b)), env) == Done(Wrap(Power(a, b)), env)
    ensures Evaluate(Decimal(a) + ("," + Decimal(b)), env) == Done(b, env)
  {
    hide Numeral, Evaluate, SpellsAfter, Power, Child;
    NumeralAlone(a, 14);
    NumeralAlone(b, 13);
    EvaluatesTwo(Pow(Num(a), Num(b)), a, PowerTok, b, env);
    NumeralAlone(a, 0);
    NumeralAlone(b, 1);
    EvaluatesTwo(Seq(Num(a), Num(b)), a, Comma, b, env);
  }

  // Shifts by less than a word are products and quotients by powers of two.
  lemma Shifts(a: nat, b: nat, env: Env)
    requires a <= INTMAX_MAX && b < 64
    ensures Evaluate(Decimal(a) + ("<<" + Decimal(b)), env) == Done(Wrap(a * Pow2(b)), env)
    ensures Evaluate(Decimal(a) + (">>" + Decimal(b)), env) == Done(Wrap(a / Pow2(b)), env)
  {
    hide Numeral, Evaluate, SpellsAfter, Pow2;
    EvaluatesBinary(Shl, a, b, env);
    EvaluatesBinary(Shr, a, b, env);
  }

  // The i-th bit of the word that holds a number.
  function BitOf(x: int, i: nat): nat
    requires InRange(x)
  {
    Bit(if x < 0 then x + TWO64 else x, i)
  }

  // The bitwise operators work bit by bit.
  lemma Bitwise(a: int, b: int, i: nat)
    requires InRange(a) && InRange(b) && i < 64
    ensures BitOf(Apply(BitAnd, a, b), i) == if BitOf(a, i) == 1 && BitOf(b, i) == 1 then 1 else 0
    ensures BitOf(Apply(BitOr, a, b), i) == if BitOf(a, i) == 1 || BitOf(b, i) == 1 then 1 else 0
    ensures BitOf(Apply(BitXor, a, b), i) == if BitOf(a, i) != BitOf(b, i) then 1 else 0
  {
    hide AndOf, OrOf, XorOf, Bit;
    var m, n := ToWord(a), ToWord(b);
    AndBits(m, n, i);
    OrBits(m, n, i);
    XorBits(m, n, i);
  }

  lemma Complement(a: int, i: nat)
    requires InRange(a) && i < 64
    ensures InRange(ApplyUnary(BitNot, a)) && BitOf(ApplyUnary(BitNot, a), i) == 1 - BitOf(a, i)
  {
    hide Bit;
    WordSize();
    ComplementBits(ToWord(a), 64, i);
  }
}
