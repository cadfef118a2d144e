// Tokens of arithmetic expressions, and how bash/expr.c reads them from text.
// A `char *` into an expression is modelled by the rest of the string.

module ArithLexer {
  import opened Numerals
  import opened ArithValues

  // The errors that end an evaluation.
  datatype Error =
    | DivisionByZero | NegativeExponent | RecursionLimit
    | NonVariable | AssignmentSyntax | ExpressionExpected | ColonExpected | MissingParen
    | OperandExpected | IdentifierExpected | LvalueRequired | InvalidOperator | SyntaxError
    | InvalidNumber | InvalidBase | InvalidConstant | ValueTooGreat

  // The current or previous token. An OP= token carries its operator; `Cond`
  // is only ever a previous token, left behind by a conditional expression.
  datatype Token =
    | EndTok | NumTok | StrTok
    | Op(op: BinOp) | PowerTok | AndTok | OrTok | NotTok | BitNotTok
    | Assign | OpAssign(op: BinOp) | Quest | Colon | Comma | LPar | RPar
    | PreInc | PreDec | PostInc | PostDec | CondTok

  datatype Lexeme =
    | Name(name: string)
    | Number(value: int)
    | Symbol(token: Token)
    | Bad(error: Error)

  datatype Lexed = Lexed(lexeme: Lexeme, rest: string)

  // ---------------------------------------------------------------- characters

  predicate Blank(c: char) { c == ' ' || c == '\t' || c == '\n' }

  predicate NameStart(c: char) { IsAlpha(c) || c == '_' }

  predicate NameChar(c: char) { IsAlnum(c) || c == '_' }

  predicate NumberChar(c: char) { IsAlnum(c) || c == '#' || c == '@' || c == '_' }

  predicate DigitLike(c: char) { IsAlnum(c) || c == '_' || c == '@' }

  function SkipBlanks(s: string): (r: string)
    ensures |r| <= |s|
    ensures r != "" ==> !Blank(r[0])
  {
    if s != "" && Blank(s[0]) then SkipBlanks(s[1..]) else s
  }

  function NameRun(s: string): (k: nat)
    ensures k <= |s|
    ensures s != "" && NameChar(s[0]) ==> k > 0
  {
    if s != "" && NameChar(s[0]) then 1 + NameRun(s[1..]) else 0
  }

  function NumberRun(s: string): (k: nat)
    ensures k <= |s|
    ensures s != "" && NumberChar(s[0]) ==> k > 0
  {
    if s != "" && NumberChar(s[0]) then 1 + NumberRun(s[1..]) else 0
  }

  // ---------------------------------------------------------------- constants

  // What a digit character denotes; letters count differently above base 36.
  function DigitValue(c: char, base: int): nat
    requires DigitLike(c)
  {
    if IsDigit(c) then (c - '0') as nat
    else if IsLower(c) then (c - 'a') as nat + 10
    else if IsUpper(c) then (c - 'A') as nat + if base <= 36 then 10 else 36
    else if c == '@' then 62 else 63
  }

  // A constant read from s, digit by digit, after `val` has been read already.
  function ScanConstant(s: string, base: int, foundBase: bool, val: int): (r: Lexeme)
    ensures r.Number? || r.Bad?
  {
    if s == "" then Number(val)
    else if s[0] == '#' then
      if foundBase then Bad(InvalidNumber)
      else if val < 2 || val > 64 then Bad(InvalidBase)
      else if !DigitLike(CharAt(s, 1)) then Bad(InvalidConstant)
      else ScanConstant(s[1..], val, true, 0)
    else if DigitLike(s[0]) then
      var d := DigitValue(s[0], base);
      if d >= base then Bad(ValueTooGreat)
      else ScanConstant(s[1..], base, foundBase, Wrap(val * base + d))
    else Number(val)
  }

  // 0nnn is octal, 0xnn hexadecimal, base#nn in that base.
  function StrLong(num: string): (r: Lexeme)
    ensures r.Number? || r.Bad?
  {
    if CharAt(num, 0) == '0' then
      if |num| == 1 then Number(0)
      else if num[1] == 'x' || num[1] == 'X' then ScanConstant(num[2..], 16, true, 0)
      else ScanConstant(num[1..], 8, true, 0)
    else ScanConstant(num, 10, false, 0)
  }

  // ---------------------------------------------------------------- reading a token

  // An operator token that does not depend on the tokens around it, though the
  // error for an unknown character does.
  function PlainSymbol(s: string, cur: Token): (r: Lexed)
    requires s != ""
    ensures |r.rest| < |s|
  {
    var c, c1, c2 := s[0], CharAt(s, 1), CharAt(s, 2);
    if c == '=' && c1 == '=' then Lexed(Symbol(Op(EqEq)), s[2..])
    else if c == '!' && c1 == '=' then Lexed(Symbol(Op(Neq)), s[2..])
    else if c == '>' && c1 == '=' then Lexed(Symbol(Op(Geq)), s[2..])
    else if c == '<' && c1 == '=' then Lexed(Symbol(Op(Leq)), s[2..])
    else if c == '<' && c1 == '<' then
      if c2 == '=' then Lexed(Symbol(OpAssign(Shl)), s[3..]) else Lexed(Symbol(Op(Shl)), s[2..])
    else if c == '>' && c1 == '>' then
      if c2 == '=' then Lexed(Symbol(OpAssign(Shr)), s[3..]) else Lexed(Symbol(Op(Shr)), s[2..])
    else if c == '&' && c1 == '&' then Lexed(Symbol(AndTok), s[2..])
    else if c == '|' && c1 == '|' then Lexed(Symbol(OrTok), s[2..])
    else if c == '*' && c1 == '*' then Lexed(Symbol(PowerTok), s[2..])
    else if c1 == '=' && c in {'*', '/', '%', '+', '-', '&', '^', '|'} then
      Lexed(Symbol(OpAssign(OneChar(c).op)), s[2..])
    else if OneChar(c) == EndTok then
      Lexed(Bad(if cur == NumTok || cur == StrTok then InvalidOperator else OperandExpected), s[1..])
    else Lexed(Symbol(OneChar(c)), s[1..])
  }

  // One-character operator tokens; EndTok for any other character.
  function OneChar(c: char): (t: Token)
    ensures c in {'*', '/', '%', '+', '-', '&', '^', '|'} ==> t.Op?
  {
    match c
    case '=' => Assign
    case '>' => Op(Gt)
    case '<' => Op(Lt)
    case '+' => Op(Add)
    case '-' => Op(Sub)
    case '*' => Op(Mul)
    case '/' => Op(Div)
    case '%' => Op(Mod)
    case '!' => NotTok
    case '(' => LPar
    case ')' => RPar
    case '&' => Op(BitAnd)
    case '|' => Op(BitOr)
    case '^' => Op(BitXor)
    case '~' => BitNotTok
    case '?' => Quest
    case ':' => Colon
    case ',' => Comma
    case _ => EndTok
  }

  // Doubled signs: after a name they are a postfix operator, before a name a
  // prefix operator, and otherwise only the first of them is read.
  function Symbols(s: string, cur: Token, last: Token): (r: Lexed)
    requires s != ""
    ensures |r.rest| < |s|
  {
    var c := s[0];
    if (c == '-' || c == '+') && CharAt(s, 1) == c then
      if cur == StrTok then Lexed(Symbol(if c == '-' then PostDec else PostInc), s[2..])
      else if cur == NumTok && (last == PreInc || last == PreDec) then Lexed(Bad(LvalueRequired), s[2..])
      else if NameStart(CharAt(SkipBlanks(s[2..]), 0)) then Lexed(Symbol(if c == '-' then PreDec else PreInc), s[2..])
      else Lexed(Symbol(OneChar(c)), s[1..])
    else PlainSymbol(s, cur)
  }

  // The next token of s, given the current and the previous one.
  function Lex(s: string, cur: Token, last: Token): (r: Lexed)
    ensures |r.rest| <= |s|
    ensures r.lexeme != Symbol(EndTok) ==> |r.rest| < |s|
    ensures r.lexeme == Symbol(EndTok) ==> r.rest == ""
  {
    var t := SkipBlanks(s);
    if t == "" then Lexed(Symbol(EndTok), "")
    else if NameStart(t[0]) then Lexed(Name(t[..NameRun(t)]), t[NameRun(t)..])
    else if IsDigit(t[0]) then Lexed(StrLong(t[..NumberRun(t)]), t[NumberRun(t)..])
    else Symbols(t, cur, last)
  }

  // ---------------------------------------------------------------- constants read back

  lemma {:induction false} ScansNumeral(n: nat, base: nat, foundBase: bool, t: string)
    requires 2 <= base <= 64
    ensures ScanConstant(Numeral(n, base) + t, base, foundBase, 0) == ScanConstant(t, base, foundBase, Wrap(n))
    decreases n
  {
    if n < base {
      DigitMeans(n, base);
      assert (Numeral(n, base) + t)[1..] == t;
    } else {
      DivisionShrinks(n, base);
      var q, d := n / base, n % base;
      var t' := [DigitChar(d)] + t;
      assert Numeral(n, base) + t == Numeral(q, base) + t';
      ScansNumeral(q, base, foundBase, t');
      DigitMeans(d, base);
      assert t'[1..] == t;
      NextDigit(n, base);
    }
  }

  lemma DigitMeans(d: nat, base: nat)
    requires d < base <= 64
    ensures DigitLike(DigitChar(d)) && DigitValue(DigitChar(d), base) == d
  {
  }

  lemma NextDigit(n: nat, base: nat)
    requires base > 0
    ensures Wrap(Wrap(n / base) * base + n % base) == Wrap(n)
  {
    var k := WrapDistance(n / base);
    DivisionAlgorithm(n, base);
    assert Wrap(n / base) * base + n % base == n + (-k * base) * TWO64;
    WrapShift(n, -k * base);
  }

  // A number written in any base from 2 to 64 after "base#", and in octal,
  // hexadecimal or decimal notation, reads back as itself, modulo 2^64.
  lemma ConstantsReadBack(base: nat, n: nat)
    requires 2 <= base <= 64
    ensures StrLong(Decimal(base) + "#" + Numeral(n, base)) == Number(Wrap(n))
    ensures StrLong(Decimal(n)) == Number(Wrap(n))
    ensures StrLong("0" + Numeral(n, 8)) == StrLong("0x" + Numeral(n, 16)) == Number(Wrap(n))
  {
    var num := Numeral(n, base);
    var text := Decimal(base) + "#" + num;
    assert text == Decimal(base) + ("#" + num);
    ScansNumeral(base, 10, false, "#" + num);
    ScansNumeral(n, base, true, "");
    assert ("#" + num)[1..] == num && num + "" == num;
    DigitsLike(n, base);
    assert text[0] == Decimal(base)[0];
    DecimalReads(n);
    PrefixedReads(n);
  }

  lemma DecimalReads(n: nat)
    ensures StrLong(Decimal(n)) == Number(Wrap(n))
  {
    ScansNumeral(n, 10, false, "");
    assert Decimal(n) + "" == Decimal(n);
  }

  lemma PrefixedReads(n: nat)
    ensures StrLong("0" + Numeral(n, 8)) == StrLong("0x" + Numeral(n, 16)) == Number(Wrap(n))
  {
    ScansNumeral(n, 8, true, "");
    ScansNumeral(n, 16, true, "");
    assert Numeral(n, 8) + "" == Numeral(n, 8) && Numeral(n, 16) + "" == Numeral(n, 16);
    assert ("0" + Numeral(n, 8))[1..] == Numeral(n, 8);
    assert ("0x" + Numeral(n, 16))[2..] == Numeral(n, 16);
    DigitsLike(n, 8);
    BelowX(n);
  }

  lemma {:induction false} DigitsLike(n: nat, base: nat)
    requires 2 <= base <= 64
    ensures DigitLike(Numeral(n, base)[0])
  {
    if n >= base {
      DivisionShrinks(n, base);
      DigitsLike(n / base, base);
      assert Numeral(n, base)[0] == Numeral(n / base, base)[0];
    }
  }

  lemma {:induction false} BelowX(n: nat)
    ensures IsDigit(Numeral(n, 8)[0])
  {
    if n >= 8 {
      DivisionShrinks(n, 8);
      BelowX(n / 8);
      assert Numeral(n, 8)[0] == Numeral(n / 8, 8)[0];
    }
  }

  predicate SameButCase(s: string, t: string) {
    |s| == |t| &&
    forall i :: 0 <= i < |s| ==> s[i] == t[i] || (IsUpper(s[i]) && IsLower(t[i]) && s[i] - 'A' == t[i] - 'a')
  }

  // Up to base 36 the case of letters makes no difference.
  lemma {:induction false} CaseIrrelevant(s: string, t: string, base: int, val: int)
    requires 2 <= base <= 36 && SameButCase(s, t)
    ensures ScanConstant(s, base, true, val) == ScanConstant(t, base, true, val)
  {
    if s != "" && DigitLike(s[0]) && DigitValue(s[0], base) < base {
      assert SameButCase(s[1..], t[1..]);
      CaseIrrelevant(s[1..], t[1..], base, Wrap(val * base + DigitValue(s[0], base)));
    }
  }

  // The loop that reads a constant.
  method ReadConstant(num: string) returns (r: Lexeme)
    requires num != ""
    ensures r == StrLong(num)
  {
    var s, base, foundBase := 0, 10, false;
    if num[0] == '0' {
      s := 1;
      if s == |num| { return Number(0); }
      if num[s] == 'x' || num[s] == 'X' {
        base := 16;
        s := s + 1;
      } else {
        base := 8;
      }
      foundBase := true;
    }
    var val := 0;
    assert num[0..] == num;
    while s < |num|
      invariant 0 <= s <= |num|
      invariant StrLong(num) == ScanConstant(num[s..], base, foundBase, val)
    {
      var c := num[s];
      s := s + 1;
      assert num[s - 1..][1..] == num[s..];
      if c == '#' {
        if foundBase { return Bad(InvalidNumber); }
        if val < 2 || val > 64 { return Bad(InvalidBase); }
        base, val, foundBase := val, 0, true;
        if !DigitLike(CharAt(num, s)) { return Bad(InvalidConstant); }
      } else if DigitLike(c) {
        var d := DigitValue(c, base);
        if d >= base { return Bad(ValueTooGreat); }
        val := Wrap(val * base + d);
      } else {
        break;
      }
    }
    r := Number(val);
  }
}
