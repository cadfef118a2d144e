// Reading back the words a tree is written with, one token at a time.

module ArithReading {
  import opened Options
  import opened Numerals
  import opened ArithValues
  import opened ArithLexer
  import opened ArithSyntax
  import opened ArithTrees

  predicate IsStep(t: Token) { t in {PreInc, PreDec, PostInc, PostDec} }

  predicate PlainToken(t: Token) {
    t.Op? || (t.OpAssign? && AssignOp(t.op)) ||
    t in {PowerTok, AndTok, OrTok, NotTok, BitNotTok, Assign, Quest, Colon, Comma, LPar, RPar}
  }

  // The blanks the lexer skips are the gaps.
  lemma {:induction false} SkipsGap(s: string)
    ensures SkipBlanks(s) == Trimmed(s)
  {
    if s != "" && Gap(s[0]) { SkipsGap(s[1..]); }
  }

  // The characters of names and numbers, one by one.
  lemma CharsOf(c: char)
    ensures NameChar(c) <==> WordChar(c)
    ensures NameStart(c) <==> WordChar(c) && !('0' <= c <= '9')
    ensures NumberChar(c) <==> WordChar(c) || c == '#' || c == '@'
    ensures IsDigit(c) <==> '0' <= c <= '9'
  {
  }

  // A name has not just been read, nor a name with a prefix step.
  predicate Unnamed(cur: Token, last: Token) {
    cur != StrTok && !(cur == NumTok && (last == PreInc || last == PreDec))
  }

  lemma OneCharNext(c: char, rest: string, named: bool)
    requires OneChar(c) != EndTok && Unmerged(WSym(OneChar(c)), rest, named) && rest != ""
    ensures c in {'=', '!', '<', '>', '*', '/', '%', '+', '-', '&', '^', '|'} ==> rest[0] != '='
    ensures c in {'<', '>', '*', '&', '|'} ==> rest[0] != c
    ensures c in {'+', '-'} && rest[0] == c ==> !named && !NameAhead(rest[1..])
  {
  }

  lemma LexOneChar(c: char, rest: string, cur: Token, last: Token, named: bool)
    requires OneChar(c) != EndTok && Unmerged(WSym(OneChar(c)), rest, named) && (!named ==> Unnamed(cur, last))
    ensures Symbols([c] + rest, cur, last) == Lexed(Symbol(OneChar(c)), rest)
  {
    hide OneChar, Unmerged, PlainSymbol, Symbols, SymText, NameAhead;
    if rest != "" { OneCharNext(c, rest, named); }
    var s := [c] + rest;
    assert s[0] == c && s[1..] == rest && CharAt(s, 1) == CharAt(rest, 0);
    if CharAt(s, 1) == c && (c == '+' || c == '-') {
      assert s[2..] == rest[1..];
      SignDoubled(s, cur, last);
    } else {
      SignAlone(s, cur, last);
      OneCharAlone(s, cur);
    }
  }

  lemma SignAlone(s: string, cur: Token, last: Token)
    requires s != "" && (CharAt(s, 1) == s[0] ==> s[0] != '+' && s[0] != '-')
    ensures Symbols(s, cur, last) == PlainSymbol(s, cur)
  {
    hide PlainSymbol, SkipBlanks;
  }

  // Of two equal signs with no name on either side only the first is read.
  lemma SignDoubled(s: string, cur: Token, last: Token)
    requires |s| > 1 && s[0] == s[1] && (s[0] == '+' || s[0] == '-') && Unnamed(cur, last) && !NameAhead(s[2..])
    ensures Symbols(s, cur, last) == Lexed(Symbol(OneChar(s[0])), s[1..])
  {
    hide PlainSymbol, SkipBlanks, NameStart, OneChar, NameAhead;
    NoNameStart(s[2..]);
  }

  lemma NoNameStart(s: string)
    requires !NameAhead(s)
    ensures !NameStart(CharAt(SkipBlanks(s), 0))
  {
    SkipsGap(s);
    if Trimmed(s) != "" { CharsOf(Trimmed(s)[0]); }
  }

  // A character the next one does not join.
  lemma OneCharAlone(s: string, cur: Token)
    requires s != "" && OneChar(s[0]) != EndTok
    requires CharAt(s, 1) == '=' ==> s[0] !in {'=', '!', '<', '>', '*', '/', '%', '+', '-', '&', '^', '|'}
    requires CharAt(s, 1) == s[0] ==> s[0] !in {'<', '>', '*', '&', '|'}
    ensures PlainSymbol(s, cur) == Lexed(Symbol(OneChar(s[0])), s[1..])
  {
    hide OneChar;
  }

  // The two-character operators that no third character extends.
  function TwoChars(t: Token): string {
    match t
    case Op(Shl) => "<<"
    case Op(Shr) => ">>"
    case Op(Leq) => "<="
    case Op(Geq) => ">="
    case Op(EqEq) => "=="
    case Op(Neq) => "!="
    case PowerTok => "**"
    case AndTok => "&&"
    case OrTok => "||"
    case _ => ""
  }

  lemma LexTwoChars(t: Token, rest: string, cur: Token, last: Token, named: bool)
    requires TwoChars(t) != "" && Unmerged(WSym(t), rest, named)
    ensures Symbols(TwoChars(t) + rest, cur, last) == Lexed(Symbol(t), rest)
  {
    hide OneChar;
    var s := TwoChars(t) + rest;
    assert s[2..] == rest && (rest != "" ==> s[2] == rest[0]);
  }

  lemma LexOpAssign(op: BinOp, rest: string, cur: Token, last: Token)
    requires AssignOp(op)
    ensures Symbols(OpText(op) + "=" + rest, cur, last) == Lexed(Symbol(OpAssign(op)), rest)
  {
    var s := OpText(op) + "=" + rest;
    assert s[|OpText(op)| + 1..] == rest;
  }

  lemma SymTextShape(t: Token)
    requires PlainToken(t)
    ensures if t.OpAssign? then SymText(t) == OpText(t.op) + "="
            else if TwoChars(t) != "" then SymText(t) == TwoChars(t)
            else |SymText(t)| == 1 && OneChar(SymText(t)[0]) == t
  {
  }

  lemma LexPlain(t: Token, rest: string, cur: Token, last: Token, named: bool)
    requires PlainToken(t) && Unmerged(WSym(t), rest, named) && (!named ==> Unnamed(cur, last))
    ensures Symbols(SymText(t) + rest, cur, last) == Lexed(Symbol(t), rest)
  {
    hide Symbols, SymText, TwoChars, OpText, OneChar, Unmerged;
    SymTextShape(t);
    if t.OpAssign? {
      LexOpAssign(t.op, rest, cur, last);
    } else if TwoChars(t) != "" {
      LexTwoChars(t, rest, cur, last, named);
    } else {
      assert SymText(t) == [SymText(t)[0]];
      LexOneChar(SymText(t)[0], rest, cur, last, named);
    }
  }

  lemma SymTextStarts(t: Token)
    requires PlainToken(t) || IsStep(t)
    ensures SymText(t) != ""
    ensures var c := SymText(t)[0]; !Blank(c) && !NameStart(c) && !IsDigit(c)
  {
  }

  lemma LexStep(t: Token, rest: string, cur: Token, last: Token)
    requires IsStep(t)
    requires t == PostInc || t == PostDec ==> cur == StrTok
    requires t == PreInc || t == PreDec ==>
               cur != StrTok && cur != NumTok && NameStart(CharAt(SkipBlanks(rest), 0))
    ensures Symbols(SymText(t) + rest, cur, last) == Lexed(Symbol(t), rest)
  {
    var s := SymText(t) + rest;
    assert s[2..] == rest;
  }

  lemma Parts(s: string, w: Word)
    requires WordText(w) <= Trimmed(s)
    ensures Trimmed(s) == WordText(w) + Past(s, w)
  {
  }

  // Every word is read whole, and nothing of what comes after it.
  lemma LexSymbol(s: string, t: Token, cur: Token, last: Token, named: bool)
    requires SymText(t) <= Trimmed(s) && Unmerged(WSym(t), Past(s, WSym(t)), named) && (PlainToken(t) || IsStep(t))
    requires !named && PlainToken(t) ==> Unnamed(cur, last)
    requires t == PostInc || t == PostDec ==> cur == StrTok
    requires t == PreInc || t == PreDec ==>
               cur != StrTok && cur != NumTok && NameStart(CharAt(SkipBlanks(Past(s, WSym(t))), 0))
    ensures Lex(s, cur, last) == Lexed(Symbol(t), Past(s, WSym(t)))
  {
    hide Symbols, SymText, Unmerged, Past, Trimmed;
    SymTextStarts(t);
    SkipsGap(s);
    Parts(s, WSym(t));
    var rest := Past(s, WSym(t));
    assert (SymText(t) + rest)[0] == SymText(t)[0];
    if IsStep(t) { LexStep(t, rest, cur, last); } else { LexPlain(t, rest, cur, last, named); }
  }

  lemma {:induction false} NameRunStops(x: string, rest: string)
    requires (forall i :: 0 <= i < |x| ==> NameChar(x[i])) && (rest == "" || !NameChar(rest[0]))
    ensures NameRun(x + rest) == |x|
  {
    if x == "" {
      assert x + rest == rest;
    } else {
      assert (x + rest)[1..] == x[1..] + rest;
      NameRunStops(x[1..], rest);
    }
  }

  lemma {:induction false} NumberRunStops(x: string, rest: string)
    requires (forall i :: 0 <= i < |x| ==> NumberChar(x[i])) && (rest == "" || !NumberChar(rest[0]))
    ensures NumberRun(x + rest) == |x|
  {
    if x == "" {
      assert x + rest == rest;
    } else {
      assert (x + rest)[1..] == x[1..] + rest;
      NumberRunStops(x[1..], rest);
    }
  }

  // A name, up to the first character that is not a letter, digit or underscore.
  lemma LexNameText(x: string, rest: string, cur: Token, last: Token)
    requires ValidName(x) && (rest == "" || !WordChar(rest[0]))
    ensures Lex(x + rest, cur, last) == Lexed(Name(x), rest) && SkipBlanks(x + rest) == x + rest
  {
    var s := x + rest;
    assert s[0] == x[0];
    CharsOf(x[0]);
    if rest != "" { CharsOf(rest[0]); }
    forall i | 0 <= i < |x| ensures NameChar(x[i]) { CharsOf(x[i]); }
    NameRunStops(x, rest);
    assert s[..|x|] == x && s[|x|..] == rest;
  }

  // A run of digits, up to the first character that is not a letter, digit,
  // underscore, # or @.
  lemma LexDigits(x: string, rest: string, cur: Token, last: Token)
    requires x != "" && (forall i :: 0 <= i < |x| ==> '0' <= x[i] <= '9')
    requires rest == "" || (!WordChar(rest[0]) && rest[0] != '#' && rest[0] != '@')
    ensures Lex(x + rest, cur, last) == Lexed(StrLong(x), rest)
  {
    hide StrLong;
    var s := x + rest;
    assert s[0] == x[0];
    CharsOf(x[0]);
    if rest != "" { CharsOf(rest[0]); }
    forall i | 0 <= i < |x| ensures NumberChar(x[i]) { CharsOf(x[i]); }
    NumberRunStops(x, rest);
    assert s[..|x|] == x && s[|x|..] == rest;
  }

  lemma LexTrimmed(s: string, cur: Token, last: Token)
    ensures Lex(s, cur, last) == Lex(Trimmed(s), cur, last)
  {
    hide Symbols, StrLong, NameRun, NumberRun;
    SkipsGap(s);
    SkipsGap(Trimmed(s));
    TrimmedTwice(s);
  }

  lemma {:induction false} TrimmedTwice(s: string)
    ensures Trimmed(Trimmed(s)) == Trimmed(s)
  {
    if s != "" && Gap(s[0]) { TrimmedTwice(s[1..]); }
  }

  lemma LexName(s: string, x: string, cur: Token, last: Token)
    requires ValidName(x) && x <= Trimmed(s) && Unmerged(WName(x), Past(s, WName(x)), false)
    ensures Lex(s, cur, last) == Lexed(Name(x), Past(s, WName(x)))
    ensures NameStart(CharAt(SkipBlanks(s), 0))
  {
    hide Lex, Past, Trimmed;
    LexTrimmed(s, cur, last);
    Parts(s, WName(x));
    LexNameText(x, Past(s, WName(x)), cur, last);
    SkipsGap(s);
    CharsOf(x[0]);
  }

  lemma LexNumber(s: string, n: nat, cur: Token, last: Token)
    requires n <= INTMAX_MAX && Decimal(n) <= Trimmed(s) && Unmerged(WNum(n), Past(s, WNum(n)), false)
    ensures Lex(s, cur, last) == Lexed(Number(n), Past(s, WNum(n)))
  {
    hide Lex, Past, Trimmed, StrLong, Numeral;
    LexTrimmed(s, cur, last);
    Parts(s, WNum(n));
    var x := Decimal(n);
    DecimalReadsBack(n);
    forall i | 0 <= i < |x| ensures '0' <= x[i] <= '9' { CharsOf(x[i]); }
    LexDigits(x, Past(s, WNum(n)), cur, last);
    ConstantsReadBack(10, n);
  }

  // ---------------------------------------------------------------- tokens that follow an operand

  // What may come after a tree at level m: the end, a closing token, or an
  // operator that binds weaker.
  predicate Follows(m: nat, rest: seq<Word>) {
    rest == [] ||
    (rest[0].WSym? && (rest[0].tok == RPar || rest[0].tok == Colon || LevelOf(rest[0].tok) < m))
  }

  // The state once the token after an operand has been read.
  ghost predicate After(st: State, rest: seq<Word>, noeval: nat, env: Env, depth: nat) {
    && st.noeval == noeval && st.env == env && st.depth == depth
    && st.last != PreInc && st.last != PreDec
    && (rest == [] ==> st.cur == EndTok && st.tp == "")
    && (rest != [] && rest[0].WSym? ==> st.cur == rest[0].tok && Spells(st.tp, rest[1..]))
  }

  lemma LexNext(s: string, rest: seq<Word>, m: nat, cur: Token, last: Token, named: bool)
    requires m <= 16 && Follows(m, rest) && SpellsAfter(s, rest, named) && (!named ==> Unnamed(cur, last))
    ensures Lex(s, cur, last)
         == Lexed(Symbol(if rest == [] then EndTok else rest[0].tok), if rest == [] then "" else Past(s, rest[0]))
  {
    hide Symbols, StrLong, Unmerged, Past;
    SkipsGap(s);
    if rest != [] {
      LexSymbol(s, rest[0].tok, cur, last, named);
    }
  }

  lemma ReadsNext(st: State, rest: seq<Word>, m: nat, named: bool) returns (st': State)
    requires m <= 16 && Follows(m, rest) && SpellsAfter(st.tp, rest, named) && (!named ==> Unnamed(st.cur, st.last))
    requires st.cur != PreInc && st.cur != PreDec
    ensures ReadTok(st) == Value(st', 0) && After(st', rest, st.noeval, st.env, st.depth)
    ensures st'.last == st.cur && st'.tokstr == st.tokstr && st'.tokval == st.tokval
  {
    hide Lex, Exp, Subexpr, StrEval, Peek, Unmerged, Past;
    LexNext(st.tp, rest, m, st.cur, st.last, named);
    st' := ReadTok(st).st;
  }

  lemma PeeksNext(s: string, rest: seq<Word>, m: nat)
    requires m <= 16 && Follows(m, rest) && SpellsAfter(s, rest, true)
    ensures var p := Peek(s);
            p.Peeked? && p.tok == if rest == [] then EndTok else rest[0].tok
  {
    hide Lex;
    LexNext(s, rest, m, StrTok, EndTok, true);
  }

  lemma PeeksSymbol(s: string, t: Token, rest: seq<Word>)
    requires (PlainToken(t) || t == PostInc || t == PostDec) && SpellsAfter(s, [WSym(t)] + rest, true)
    ensures Peek(s) == Peeked(t, Past(s, WSym(t))) && Spells(Past(s, WSym(t)), rest)
  {
    hide Lex, Past, Unmerged;
    FirstWordSpelled(s, WSym(t), rest, true);
    LexSymbol(s, t, StrTok, EndTok, true);
  }

  lemma FirstWordSpelled(s: string, w: Word, rest: seq<Word>, named: bool)
    requires SpellsAfter(s, [w] + rest, named)
    ensures WordText(w) <= Trimmed(s) && Unmerged(w, Past(s, w), named) && SpellsAfter(Past(s, w), rest, w.WName?)
    ensures !w.WSym? ==> Unmerged(w, Past(s, w), false)
  {
    hide Past, WordText;
    assert ([w] + rest)[0] == w && ([w] + rest)[1..] == rest;
  }

  lemma ReadsSymbol(st: State, t: Token, rest: seq<Word>, named: bool)
    requires PlainToken(t) && SpellsAfter(st.tp, [WSym(t)] + rest, named) && (!named ==> Unnamed(st.cur, st.last))
    ensures ReadTok(st) == Value(st.(last := st.cur, cur := t, tp := Past(st.tp, WSym(t))), 0)
    ensures Spells(Past(st.tp, WSym(t)), rest)
  {
    hide Lex, Exp, Subexpr, StrEval, Peek, SpellsAfter, Past, Unmerged;
    FirstWordSpelled(st.tp, WSym(t), rest, named);
    LexSymbol(st.tp, t, st.cur, st.last, named);
  }

  // Reading a name: the variable's value, unless an assignment follows.
  lemma ReadsVariable(st: State, x: string, rest: seq<Word>)
    requires ValidName(x) && Spells(st.tp, [WName(x)] + rest)
    requires Peek(Past(st.tp, WName(x))).Peeked?
    ensures var tp := Past(st.tp, WName(x));
            var o := if st.last == PreInc || st.last == PreDec || Peek(tp).tok != Assign then
                       StrEval(x, st.env, st.noeval, st.depth)
                     else Done(0, st.env);
            && SpellsAfter(tp, rest, true)
            && ReadTok(st) ==
                 if o.Failed? then Fail(o.error, o.env, o.depth)
                 else Value(st.(last := st.cur, cur := StrTok, tp := tp, tokstr := Some(x), tokval := o.val, env := o.env), 0)
  {
    hide Lex, Exp, Subexpr, StrEval, Peek, SpellsAfter, Past, Unmerged;
    FirstWordSpelled(st.tp, WName(x), rest, false);
    LexName(st.tp, x, st.cur, st.last);
  }

  lemma ReadsNumber(st: State, n: nat, rest: seq<Word>)
    requires n <= INTMAX_MAX && Spells(st.tp, [WNum(n)] + rest)
    ensures ReadTok(st) == Value(st.(last := st.cur, cur := NumTok, tokval := n, tp := Past(st.tp, WNum(n))), 0)
    ensures Spells(Past(st.tp, WNum(n)), rest)
  {
    hide Lex, Exp, Subexpr, StrEval, Peek, SpellsAfter, Past, Unmerged;
    FirstWordSpelled(st.tp, WNum(n), rest, false);
    LexNumber(st.tp, n, st.cur, st.last);
  }

  lemma ReadsPreStep(st: State, t: Token, x: string, rest: seq<Word>)
    requires (t == PreInc || t == PreDec) && ValidName(x)
    requires Spells(st.tp, [WSym(t), WName(x)] + rest) && st.cur != StrTok && st.cur != NumTok
    ensures ReadTok(st) == Value(st.(last := st.cur, cur := t, tp := Past(st.tp, WSym(t))), 0)
    ensures Spells(Past(st.tp, WSym(t)), [WName(x)] + rest)
  {
    hide Lex, Exp, Subexpr, StrEval, Peek, SymText, SpellsAfter, Past, Unmerged, Symbols;
    var more := [WName(x)] + rest;
    assert [WSym(t), WName(x)] + rest == [WSym(t)] + more;
    FirstWordSpelled(st.tp, WSym(t), more, false);
    FirstWordSpelled(Past(st.tp, WSym(t)), WName(x), rest, false);
    LexName(Past(st.tp, WSym(t)), x, EndTok, EndTok);
    LexSymbol(st.tp, t, st.cur, st.last, false);
  }
}
