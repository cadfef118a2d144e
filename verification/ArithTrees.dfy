// Expression trees: what they mean, how they are written with as few
// parentheses as the precedence table allows, and the proof that the
// evaluator computes the meaning of every tree from its text.

module ArithTrees {
  import opened Options
  import opened Numerals
  import opened ArithValues
  import opened ArithLexer
  import opened ArithSyntax

  datatype Expr =
    | Num(n: nat)
    | Var(x: string)
    | PreStep(down: bool, x: string)
    | PostStep(down: bool, x: string)
    | Un(unop: UnOp, arg: Expr)
    | Bin(op: BinOp, left: Expr, right: Expr)
    | Pow(left: Expr, right: Expr)
    | And(left: Expr, right: Expr)
    | Or(left: Expr, right: Expr)
    | If(cond: Expr, left: Expr, right: Expr)
    | Set(x: string, right: Expr)
    | SetOp(op: BinOp, x: string, right: Expr)
    | Seq(left: Expr, right: Expr)

  // ---------------------------------------------------------------- meaning

  function Step(down: bool): int { if down then -1 else 1 }

  // The value and the variables after evaluating e, left to right, or the
  // error that stops it.
  function Denote(e: Expr, env: Env, depth: nat): Outcome
    decreases e
  {
    match e
    case Num(n) => Done(n, env)
    case Var(x) => StrEval(x, env, 0, depth)
    case PreStep(down, x) =>
      var o := StrEval(x, env, 0, depth);
      if o.Failed? then o else Done(Wrap(o.val + Step(down)), o.env[x := Itos(Wrap(o.val + Step(down)))])
    case PostStep(down, x) =>
      var o := StrEval(x, env, 0, depth);
      if o.Failed? then o else Done(o.val, o.env[x := Itos(Wrap(o.val + Step(down)))])
    case Un(op, a) =>
      var o := Denote(a, env, depth);
      if o.Failed? then o else Done(ApplyUnary(op, o.val), o.env)
    case Bin(op, l, r) =>
      var o := Denote(l, env, depth);
      var o' := if o.Failed? then o else Denote(r, o.env, depth);
      if o'.Failed? then o' else Divide(op, o.val, o'.val, o'.env, depth)
    case Pow(l, r) =>
      var o := Denote(l, env, depth);
      var o' := if o.Failed? then o else Denote(r, o.env, depth);
      if o'.Failed? then o'
      else if o'.val < 0 then Failed(NegativeExponent, o'.env, depth)
      else Done(Wrap(Power(o.val, o'.val)), o'.env)
    case And(l, r) =>
      var o := Denote(l, env, depth);
      if o.Failed? || o.val == 0 then o
      else
        var o' := Denote(r, o.env, depth);
        if o'.Failed? then o' else Done(Truth(o'.val != 0), o'.env)
    case Or(l, r) =>
      var o := Denote(l, env, depth);
      if o.Failed? then o
      else if o.val != 0 then Done(1, o.env)
      else
        var o' := Denote(r, o.env, depth);
        if o'.Failed? then o' else Done(Truth(o'.val != 0), o'.env)
    case If(c, l, r) =>
      var o := Denote(c, env, depth);
      if o.Failed? then o else Denote(if o.val != 0 then l else r, o.env, depth)
    case Set(x, r) =>
      var o := Denote(r, env, depth);
      if o.Failed? then o else Done(o.val, o.env[x := Itos(o.val)])
    case SetOp(op, x, r) =>
      var o := StrEval(x, env, 0, depth);
      var o' := if o.Failed? then o else Denote(r, o.env, depth);
      var d := if o'.Failed? then o' else Divide(op, o.val, o'.val, o'.env, depth);
      if d.Failed? then d else Done(d.val, d.env[x := Itos(d.val)])
    case Seq(l, r) =>
      var o := Denote(l, env, depth);
      if o.Failed? then o else Denote(r, o.env, depth)
  }

  function Divide(op: BinOp, a: int, b: int, env: Env, depth: nat): Outcome {
    if Divides(op) && b == 0 then Failed(DivisionByZero, env, depth) else Done(Apply(op, a, b), env)
  }

  // ---------------------------------------------------------------- text

  datatype Word = WName(name: string) | WNum(n: nat) | WSym(tok: Token)

  // The characters of names: letters, digits and underscores, no digit first.
  predicate WordChar(c: char) {
    'a' <= c <= 'z' || 'A' <= c <= 'Z' || '0' <= c <= '9' || c == '_'
  }

  predicate ValidName(x: string) {
    x != "" && !('0' <= x[0] <= '9') && forall i :: 0 <= i < |x| ==> WordChar(x[i])
  }

  // The operators that have an OP= form.
  predicate AssignOp(op: BinOp) {
    op in {Mul, Div, Mod, Add, Sub, Shl, Shr, BitAnd, BitXor, BitOr}
  }

  predicate WellFormed(e: Expr) {
    match e
    case Num(n) => n <= INTMAX_MAX
    case Var(x) => ValidName(x)
    case PreStep(_, x) => ValidName(x)
    case PostStep(_, x) => ValidName(x)
    case Un(_, a) => WellFormed(a)
    case Set(x, r) => ValidName(x) && WellFormed(r)
    case SetOp(op, x, r) => AssignOp(op) && ValidName(x) && WellFormed(r)
    case If(c, l, r) => WellFormed(c) && WellFormed(l) && WellFormed(r)
    case _ => WellFormed(e.left) && WellFormed(e.right)
  }

  // The precedence level of a tree's outermost operator.
  function Lev(e: Expr): (l: nat)
    ensures l <= 15
  {
    match e
    case Seq(_, _) => 0
    case Set(_, _) => 1
    case SetOp(_, _, _) => 1
    case If(_, _, _) => 2
    case Or(_, _) => 3
    case And(_, _) => 4
    case Bin(op, _, _) => OpLevel(op)
    case Pow(_, _) => 13
    case Un(_, _) => 14
    case _ => 15
  }

  function UnToken(op: UnOp): Token {
    match op
    case LogNot => NotTok
    case BitNot => BitNotTok
    case Minus => Op(Sub)
    case Plus => Op(Add)
  }

  function Words(e: Expr): (ws: seq<Word>)
    ensures ws != []
    decreases e, 0
  {
    match e
    case Num(n) => [WNum(n)]
    case Var(x) => [WName(x)]
    case PreStep(down, x) => [WSym(if down then PreDec else PreInc), WName(x)]
    case PostStep(down, x) => [WName(x), WSym(if down then PostDec else PostInc)]
    case Un(op, a) => [WSym(UnToken(op))] + Child(a, 14)
    case Pow(l, r) => Child(l, 14) + ([WSym(PowerTok)] + Child(r, 13))
    case If(c, l, r) => Child(c, 3) + ([WSym(Quest)] + (Child(l, 0) + ([WSym(Colon)] + Child(r, 2))))
    case Set(x, r) => [WName(x), WSym(Assign)] + Child(r, 1)
    case SetOp(op, x, r) => [WName(x), WSym(OpAssign(op))] + Child(r, 1)
    case _ => Child(e.left, Lev(e)) + ([WSym(Joiner(e))] + Child(e.right, Lev(e) + 1))
  }

  // The operator between the operands of a left-associative node.
  function Joiner(e: Expr): Token
    requires IsLoop(Lev(e))
  {
    match e
    case Seq(_, _) => Comma
    case Or(_, _) => OrTok
    case And(_, _) => AndTok
    case Bin(op, _, _) => Op(op)
  }

  // A subtree where level m is expected: in parentheses if it binds weaker.
  function Child(e: Expr, m: nat): (ws: seq<Word>)
    ensures ws != []
    decreases e, 1
  {
    if Lev(e) < m then [WSym(LPar)] + (Words(e) + [WSym(RPar)]) else Words(e)
  }

  function OpText(op: BinOp): string {
    match op
    case Mul => "*"
    case Div => "/"
    case Mod => "%"
    case Add => "+"
    case Sub => "-"
    case Shl => "<<"
    case Shr => ">>"
    case Leq => "<="
    case Geq => ">="
    case Lt => "<"
    case Gt => ">"
    case EqEq => "=="
    case Neq => "!="
    case BitAnd => "&"
    case BitXor => "^"
    case BitOr => "|"
  }

  function SymText(t: Token): string {
    match t
    case Op(op) => OpText(op)
    case OpAssign(op) => OpText(op) + "="
    case PowerTok => "**"
    case AndTok => "&&"
    case OrTok => "||"
    case NotTok => "!"
    case BitNotTok => "~"
    case Assign => "="
    case Quest => "?"
    case Colon => ":"
    case Comma => ","
    case LPar => "("
    case RPar => ")"
    case PreInc => "++"
    case PostInc => "++"
    case PreDec => "--"
    case PostDec => "--"
    case _ => ""
  }

  function WordText(w: Word): string {
    match w
    case WName(x) => x
    case WNum(n) => Decimal(n)
    case WSym(t) => SymText(t)
  }

  predicate Gap(c: char) { c == ' ' || c == '\t' || c == '\n' }

  function Trimmed(s: string): (t: string)
    ensures |t| <= |s|
  {
    if s != "" && Gap(s[0]) then Trimmed(s[1..]) else s
  }

  // What may come right after a word without being taken for a part of it. A
  // sign may be followed by the same sign if there is no name on either side.
  predicate Unmerged(w: Word, rest: string, named: bool) {
    rest == "" ||
    var c := rest[0];
    match w
    case WName(_) => !WordChar(c)
    case WNum(_) => !WordChar(c) && c != '#' && c != '@'
    case WSym(t) =>
      var x := SymText(t);
      && (x in {"=", "!", "<", ">", "<<", ">>", "*", "/", "%", "+", "-", "&", "^", "|"} ==> c != '=')
      && (x in {"<", ">", "*", "&", "|"} ==> c != x[0])
      && (x in {"+", "-"} && c == x[0] ==> !named && !NameAhead(rest[1..]))
  }

  predicate NameAhead(s: string) {
    var t := Trimmed(s);
    t != "" && WordChar(t[0]) && !('0' <= t[0] <= '9')
  }

  // The text is the words in order, with any blanks around them; there need be
  // none between words that do not merge.
  predicate Spells(s: string, ws: seq<Word>) { SpellsAfter(s, ws, false) }

  // `named` says that a name comes before.
  predicate SpellsAfter(s: string, ws: seq<Word>, named: bool)
    decreases |ws|
  {
    var t := Trimmed(s);
    if ws == [] then t == ""
    else WordText(ws[0]) <= t && Unmerged(ws[0], Past(s, ws[0]), named) && SpellsAfter(Past(s, ws[0]), ws[1..], ws[0].WName?)
  }

  // What is left after the first word.
  function Past(s: string, w: Word): string {
    var t := Trimmed(s);
    if WordText(w) <= t then t[|WordText(w)|..] else ""
  }

  // One way to write the words: a blank where they would merge.
  function Tight(ws: seq<Word>, named: bool): string {
    if ws == [] then ""
    else
      var rest := Tight(ws[1..], ws[0].WName?);
      WordText(ws[0]) + ((if Unmerged(ws[0], rest, named) then "" else " ") + rest)
  }

  predicate Visible(w: Word) { WordText(w) != "" && !Gap(WordText(w)[0]) }

  lemma TrimmedVisible(s: string)
    requires s != "" && !Gap(s[0])
    ensures Trimmed(s) == s && Trimmed(" " + s) == s
  {
    assert (" " + s)[1..] == s;
  }

  lemma FirstSpelled(gap: string, w: Word, rest: string, ws: seq<Word>, named: bool)
    requires Visible(w) && (gap == "" || gap == " ") && Unmerged(w, rest, named) && SpellsAfter(rest, ws, w.WName?)
    ensures SpellsAfter(gap + (WordText(w) + rest), [w] + ws, named)
  {
    hide Unmerged, WordText;
    var t := WordText(w) + rest;
    assert t[0] == WordText(w)[0] && t[|WordText(w)|..] == rest;
    TrimmedVisible(t);
    assert "" + t == t && ([w] + ws)[1..] == ws;
  }

  lemma {:induction false} TightSpells(ws: seq<Word>, gap: string, named: bool)
    requires (forall k :: 0 <= k < |ws| ==> Visible(ws[k])) && (gap == "" || gap == " ")
    ensures SpellsAfter(gap + Tight(ws, named), ws, named)
    decreases |ws|
  {
    hide Unmerged, WordText, Visible, SpellsAfter;
    if ws == [] {
      NothingSpelled(named);
      assert gap + "" == gap;
    } else {
      var rest := Tight(ws[1..], ws[0].WName?);
      var gap' := if Unmerged(ws[0], rest, named) then "" else " ";
      BlankUnmerged(ws[0], rest, named);
      assert "" + rest == rest;
      TightSpells(ws[1..], gap', ws[0].WName?);
      FirstSpelled(gap, ws[0], gap' + rest, ws[1..], named);
      assert [ws[0]] + ws[1..] == ws;
    }
  }

  lemma NothingSpelled(named: bool)
    ensures SpellsAfter("", [], named) && SpellsAfter(" ", [], named)
  {
    assert Trimmed(" "[1..]) == "";
  }

  lemma BlankUnmerged(w: Word, rest: string, named: bool)
    ensures Unmerged(w, " " + rest, named)
  {
  }

  predicate AllVisible(ws: seq<Word>) { forall k :: 0 <= k < |ws| ==> Visible(ws[k]) }

  lemma VisibleThen(a: seq<Word>, b: seq<Word>)
    ensures AllVisible(a + b) <==> AllVisible(a) && AllVisible(b)
  {
    if AllVisible(a + b) {
      assert forall k :: 0 <= k < |a| ==> (a + b)[k] == a[k];
      assert forall k :: 0 <= k < |b| ==> (a + b)[|a| + k] == b[k];
    }
  }

  // The tokens trees are written with.
  predicate Written(t: Token) { t !in {EndTok, NumTok, StrTok, CondTok} }

  lemma SymbolVisible(t: Token)
    requires Written(t)
    ensures AllVisible([WSym(t)])
  {
  }

  lemma TargetVisible(x: string, t: Token)
    requires ValidName(x) && Written(t)
    ensures AllVisible([WName(x), WSym(t)])
  {
    SymbolVisible(t);
    assert [WSym(t)][0] == WSym(t);
  }

  lemma LeafVisible(e: Expr)
    requires WellFormed(e) && (e.Num? || e.Var? || e.PreStep? || e.PostStep?)
    ensures AllVisible(Words(e))
  {
    if e.Num? { DecimalReadsBack(e.n); }
  }

  lemma {:induction false} WordsVisible(e: Expr)
    requires WellFormed(e)
    ensures AllVisible(Words(e))
    decreases e, 0
  {
    hide Child, AllVisible, Visible, WordText, SymText;
    match e
    case Num(_) => LeafVisible(e);
    case Var(_) => LeafVisible(e);
    case PreStep(_, _) => LeafVisible(e);
    case PostStep(_, _) => LeafVisible(e);
    case Un(op, a) =>
      ChildVisible(a, 14);
      SymbolVisible(UnToken(op));
      VisibleThen([WSym(UnToken(op))], Child(a, 14));
    case If(c, l, r) =>
      ChildVisible(c, 3);
      ChildVisible(l, 0);
      ChildVisible(r, 2);
      SymbolVisible(Quest);
      SymbolVisible(Colon);
      VisibleThen([WSym(Colon)], Child(r, 2));
      VisibleThen(Child(l, 0), [WSym(Colon)] + Child(r, 2));
      VisibleThen([WSym(Quest)], Child(l, 0) + ([WSym(Colon)] + Child(r, 2)));
      VisibleThen(Child(c, 3), [WSym(Quest)] + (Child(l, 0) + ([WSym(Colon)] + Child(r, 2))));
    case Set(x, r) =>
      ChildVisible(r, 1);
      TargetVisible(x, Assign);
      VisibleThen([WName(x), WSym(Assign)], Child(r, 1));
    case SetOp(op, x, r) =>
      ChildVisible(r, 1);
      TargetVisible(x, OpAssign(op));
      VisibleThen([WName(x), WSym(OpAssign(op))], Child(r, 1));
    case Pow(l, r) =>
      ChildVisible(l, 14);
      ChildVisible(r, 13);
      JoinVisible(Child(l, 14), PowerTok, Child(r, 13));
    case _ =>
      ChildVisible(e.left, Lev(e));
      ChildVisible(e.right, Lev(e) + 1);
      JoinVisible(Child(e.left, Lev(e)), Joiner(e), Child(e.right, Lev(e) + 1));
  }

  lemma JoinVisible(a: seq<Word>, t: Token, b: seq<Word>)
    requires AllVisible(a) && AllVisible(b) && Written(t)
    ensures AllVisible(a + ([WSym(t)] + b))
  {
    hide AllVisible;
    SymbolVisible(t);
    VisibleThen([WSym(t)], b);
    VisibleThen(a, [WSym(t)] + b);
  }

  lemma {:induction false} ChildVisible(e: Expr, m: nat)
    requires WellFormed(e)
    ensures AllVisible(Child(e, m))
    decreases e, 1
  {
    hide Words;
    WordsVisible(e);
    SymbolVisible(LPar);
    SymbolVisible(RPar);
    VisibleThen(Words(e), [WSym(RPar)]);
    VisibleThen([WSym(LPar)], Words(e) + [WSym(RPar)]);
  }

  // Every tree can be written.
  lemma TreeSpelled(e: Expr)
    requires WellFormed(e)
    ensures Spells(Tight(Words(e), false), Words(e))
  {
    hide Words, Visible, Tight, SpellsAfter;
    WordsVisible(e);
    TightSpells(Words(e), "", false);
    assert "" + Tight(Words(e), false) == Tight(Words(e), false);
  }
}
