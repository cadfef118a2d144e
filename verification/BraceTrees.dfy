// Brace trees: what a brace word means, independently of how its text is
// scanned, and the proof that expanding the printed text gives that meaning.

module BraceTrees {
  import opened Options
  import opened BraceSyntax
  import BraceSequences

  // A word in normal form: a literal, or a literal followed by a braced list
  // of two or more alternatives (`first` and `others`) and the rest of the word.
  datatype Word =
    | End(lit: string)
    | Seg(lit: string, first: Word, others: Words, tail: Word)
  datatype Words =
    | One(word: Word)
    | More(word: Word, rest: Words)

  // Characters with no meaning to brace expansion or to quoting.
  predicate PlainChar(c: char) {
    c !in {'{', '}', ',', '\\', '"', '\'', '`', '$', '<', '>', ' ', '\t', '\n', '\0'}
  }

  predicate PlainText(s: string) {
    forall i :: 0 <= i < |s| ==> PlainChar(s[i])
  }

  predicate PlainWord(w: Word) {
    PlainText(w.lit) && (w.Seg? ==> PlainWord(w.first) && PlainWords(w.others) && PlainWord(w.tail))
  }

  predicate PlainWords(ws: Words) {
    PlainWord(ws.word) && (ws.More? ==> PlainWords(ws.rest))
  }

  // Braces too, which then stand for themselves.
  predicate LooseText(s: string) {
    forall i :: 0 <= i < |s| ==> PlainChar(s[i]) || s[i] == '{' || s[i] == '}'
  }

  predicate NoDotPair(s: string) {
    forall i :: 0 <= i < |s| - 1 ==> s[i] != '.' || s[i + 1] != '.'
  }

  // The braces open after s where d are open before it; none where s closes
  // more than that.
  function Depth(s: string, d: nat): Option<nat> {
    if s == "" then Some(d)
    else if s[0] == '{' then Depth(s[1..], d + 1)
    else if s[0] != '}' then Depth(s[1..], d)
    else if d == 0 then None else Depth(s[1..], d - 1)
  }

  // A word whose literals close the d braces open before it and every brace
  // they open: as it has to be inside a list.
  predicate Inner(w: Word, d: nat) {
    var e := Depth(w.lit, d);
    LooseText(w.lit) && e.Some? &&
    if w.End? then e.value == 0 else Inner(w.first, 0) && InnerAll(w.others) && Inner(w.tail, e.value)
  }

  predicate InnerAll(ws: Words) {
    Inner(ws.word, 0) && (ws.More? ==> InnerAll(ws.rest))
  }

  // At the outermost level braces need not match.
  predicate Outer(w: Word) {
    LooseText(w.lit) && (w.Seg? ==> Inner(w.first, 0) && InnerAll(w.others) && Outer(w.tail))
  }

  lemma {:induction false} InnerIsOuter(w: Word, d: nat)
    requires Inner(w, d)
    ensures Outer(w)
  {
    if w.Seg? { InnerIsOuter(w.tail, Depth(w.lit, d).value); }
  }

  lemma {:induction false} DepthOfPlain(s: string, d: nat)
    requires PlainText(s)
    ensures Depth(s, d) == Some(d)
  {
    if s != "" {
      assert PlainChar(s[0]);
      DepthOfPlain(s[1..], d);
    }
  }

  lemma {:induction false} PlainIsInner(w: Word)
    requires PlainWord(w)
    ensures Inner(w, 0)
  {
    DepthOfPlain(w.lit, 0);
    if w.Seg? {
      PlainIsInner(w.first);
      PlainAreInner(w.others);
      PlainIsInner(w.tail);
    }
  }

  lemma {:induction false} PlainAreInner(ws: Words)
    requires PlainWords(ws)
    ensures InnerAll(ws)
  {
    PlainIsInner(ws.word);
    if ws.More? { PlainAreInner(ws.rest); }
  }

  function Print(w: Word): string {
    match w
    case End(lit) => lit
    case Seg(lit, first, others, tail) => lit + "{" + (Print(first) + "," + PrintAll(others)) + "}" + Print(tail)
  }

  function PrintAll(ws: Words): string {
    match ws
    case One(w) => Print(w)
    case More(w, rest) => Print(w) + "," + PrintAll(rest)
  }

  // The meaning: alternatives are an ordered union, juxtaposition a cross product.
  function Meaning(w: Word): (r: seq<string>)
    ensures |r| >= 1
  {
    match w
    case End(lit) => [lit]
    case Seg(lit, first, others, tail) =>
      CrossNonempty(Meaning(first) + MeaningAll(others), Meaning(tail));
      Prefixed(lit, Cross(Meaning(first) + MeaningAll(others), Meaning(tail)))
  }

  function MeaningAll(ws: Words): (r: seq<string>)
    ensures |r| >= 1
  {
    match ws
    case One(w) => Meaning(w)
    case More(w, rest) => Meaning(w) + MeaningAll(rest)
  }


  // ---------------------------------------------------------------- scanning printed text

  // Outside quotes, with no pending backslash.
  predicate Calm(s: Scan) {
    s.quoted == '\0' && !s.passNext
  }

  // What passing over text may change, coming from `base` levels of braces or
  // more: outside all of them the tentative classification, and never away
  // from a comma list; inside some only the level.
  predicate Passed(s: Scan, s': Scan, base: nat) {
    && Calm(s') && s'.commas >= s.commas && (s.kind == CommaKind ==> s'.kind == CommaKind)
    && (base > 0 ==> s' == s.(level := s'.level))
  }

  predicate Holds(text: string, i: nat, part: string) {
    i + |part| <= |text| && text[i..i + |part|] == part
  }

  lemma HoldsParts(text: string, i: nat, a: string, b: string)
    requires Holds(text, i, a + b)
    ensures Holds(text, i, a) && Holds(text, i + |a|, b)
  {
    assert text[i..i + |a|] == (a + b)[..|a|];
    assert text[i + |a|..i + |a| + |b|] == (a + b)[|a|..];
  }

  lemma HoldsChar(text: string, i: nat, c: char)
    requires Holds(text, i, [c])
    ensures i < |text| && text[i] == c
  {
    assert text[i..i + 1][0] == c;
  }

  lemma {:induction false} ScanPlain(text: string, i: nat, lit: string, satisfy: char, s: Scan) returns (s': Scan)
    requires Holds(text, i, lit) && PlainText(lit)
    requires Calm(s) && satisfy in {'{', '}', ','}
    ensures Calm(s') && s'.level == s.level && s'.commas >= s.commas && (s.kind == CommaKind ==> s'.kind == CommaKind)
    ensures satisfy != '}' || s.kind != NoKind || '.' !in lit ==> s' == s
    ensures Gobble(text, i, satisfy, s) == Gobble(text, i + |lit|, satisfy, s')
    decreases |lit|
  {
    s' := s;
    if lit != "" {
      HoldsParts(text, i, [lit[0]], lit[1..]);
      assert [lit[0]] + lit[1..] == lit;
      HoldsChar(text, i, lit[0]);
      assert PlainChar(lit[0]);
      PassPlain(text, i, satisfy, s);
      hide Gobble, Pass, PlainChar;
      s' := ScanPlain(text, i + 1, lit[1..], satisfy, Pass(text, i, satisfy, s));
    }
  }

  lemma PassPlain(text: string, i: nat, satisfy: char, s: Scan)
    requires i < |text| && PlainChar(text[i]) && Calm(s) && satisfy in {'{', '}', ','}
    ensures var s' := Pass(text, i, satisfy, s);
            && Calm(s') && s'.level == s.level && s'.commas >= s.commas && (s.kind == CommaKind ==> s'.kind == CommaKind)
            && (satisfy != '}' || s.kind != NoKind || text[i] != '.' ==> s' == s)
            && Gobble(text, i, satisfy, s) == Gobble(text, i + 1, satisfy, s')
  {
  }

  // Text with braces, d of the braces open before it being its own to close.
  lemma {:induction false} ScanLoose(text: string, i: nat, lit: string, satisfy: char, s: Scan, base: nat, d: nat)
    returns (s': Scan)
    requires Holds(text, i, lit) && LooseText(lit) && Depth(lit, d).Some?
    requires Calm(s) && s.level == base + d && satisfy in {'}', ','}
    ensures Passed(s, s', base) && s'.level == base + Depth(lit, d).value
    ensures Gobble(text, i, satisfy, s) == Gobble(text, i + |lit|, satisfy, s')
    decreases |lit|
  {
    s' := s;
    if lit != "" {
      HoldsParts(text, i, [lit[0]], lit[1..]);
      assert [lit[0]] + lit[1..] == lit;
      HoldsChar(text, i, lit[0]);
      assert PlainChar(lit[0]) || lit[0] == '{' || lit[0] == '}';
      var e := if lit[0] == '{' then d + 1 else if lit[0] == '}' then d - 1 else d;
      var s1 := Pass(text, i, satisfy, s);
      PassLoose(text, i, satisfy, s, base, d);
      hide Gobble, Pass;
      s' := ScanLoose(text, i + 1, lit[1..], satisfy, s1, base, e);
    }
  }

  lemma PassLoose(text: string, i: nat, satisfy: char, s: Scan, base: nat, d: nat)
    requires i < |text| && (PlainChar(text[i]) || text[i] == '{' || (text[i] == '}' && d > 0))
    requires Calm(s) && s.level == base + d && satisfy in {'}', ','}
    ensures var s' := Pass(text, i, satisfy, s);
            && Passed(s, s', base) && Gobble(text, i, satisfy, s) == Gobble(text, i + 1, satisfy, s')
            && s'.level == base + if text[i] == '{' then d + 1 else if text[i] == '}' then d - 1 else d
  {
  }

  lemma PassOpen(text: string, i: nat, satisfy: char, s: Scan)
    requires i < |text| && text[i] == '{' && Calm(s) && satisfy in {'}', ','}
    ensures Gobble(text, i, satisfy, s) == Gobble(text, i + 1, satisfy, s.(level := s.level + 1))
  {
  }

  lemma PassClose(text: string, i: nat, satisfy: char, s: Scan)
    requires i < |text| && text[i] == '}' && Calm(s) && s.level > 0 && satisfy in {'}', ','}
    ensures Gobble(text, i, satisfy, s) == Gobble(text, i + 1, satisfy, s.(level := s.level - 1))
  {
  }

  lemma PassComma(text: string, i: nat, satisfy: char, s: Scan) returns (s': Scan)
    requires i < |text| && text[i] == ',' && Calm(s)
    requires satisfy == '}' || (satisfy == ',' && s.level > 0)
    ensures Passed(s, s', s.level) && s'.level == s.level && (s.level == 0 ==> s'.commas > 0 && s'.kind == CommaKind)
    ensures Gobble(text, i, satisfy, s) == Gobble(text, i + 1, satisfy, s')
  {
    s' := Pass(text, i, satisfy, s);
  }

  // The pieces of a printed segment, where they are in the text.
  ghost predicate SegAt(text: string, i: nat, w: Word)
    requires w.Seg?
  {
    var open := i + |w.lit|;
    var comma := open + 1 + |Print(w.first)|;
    var close := comma + 1 + |PrintAll(w.others)|;
    && Holds(text, i, w.lit) && open < |text| && text[open] == '{'
    && Holds(text, open + 1, Print(w.first)) && comma < |text| && text[comma] == ','
    && Holds(text, comma + 1, PrintAll(w.others)) && close < |text| && text[close] == '}'
    && Holds(text, close + 1, Print(w.tail))
    && |Print(w)| == close + 1 + |Print(w.tail)| - i
  }

  lemma SegParts(text: string, i: nat, w: Word)
    requires w.Seg? && Holds(text, i, Print(w))
    ensures SegAt(text, i, w)
  {
    hide Print, PrintAll;
    PrintSeg(w);
    TextParts(text, i, w.lit, Print(w.first), PrintAll(w.others), Print(w.tail));
  }

  lemma TextParts(text: string, i: nat, lit: string, f: string, o: string, t: string)
    requires Holds(text, i, lit + ("{" + (f + ("," + (o + ("}" + t))))))
    ensures var open := i + |lit|;
            var comma := open + 1 + |f|;
            var close := comma + 1 + |o|;
            && Holds(text, i, lit) && open < |text| && text[open] == '{'
            && Holds(text, open + 1, f) && comma < |text| && text[comma] == ','
            && Holds(text, comma + 1, o) && close < |text| && text[close] == '}'
            && Holds(text, close + 1, t)
  {
    hide Holds;
    var open := i + |lit|;
    var comma := open + 1 + |f|;
    var close := comma + 1 + |o|;
    var rest := o + ("}" + t);
    var most := f + ("," + rest);
    HoldsParts(text, i, lit, "{" + most);
    HoldsParts(text, open, "{", most);
    HoldsChar(text, open, '{');
    HoldsParts(text, open + 1, f, "," + rest);
    HoldsParts(text, comma, ",", rest);
    HoldsChar(text, comma, ',');
    HoldsParts(text, comma + 1, o, "}" + t);
    HoldsParts(text, close, "}", t);
    HoldsChar(text, close, '}');
  }

  lemma PrintSeg(w: Word)
    requires w.Seg?
    ensures Print(w)
         == w.lit + ("{" + (Print(w.first) + ("," + (PrintAll(w.others) + ("}" + Print(w.tail))))))
  {
    Reassociate(w.lit, Print(w.first), PrintAll(w.others), Print(w.tail));
  }

  lemma Reassociate(a: string, b: string, c: string, d: string)
    ensures a + "{" + (b + "," + c) + "}" + d == a + ("{" + (b + ("," + (c + ("}" + d)))))
  {
  }

  lemma MoreParts(text: string, i: nat, w: Word, rest: Words)
    requires Holds(text, i, PrintAll(More(w, rest)))
    ensures var comma := i + |Print(w)|;
            && Holds(text, i, Print(w)) && comma < |text| && text[comma] == ','
            && Holds(text, comma + 1, PrintAll(rest))
            && |PrintAll(More(w, rest))| == |Print(w)| + 1 + |PrintAll(rest)|
  {
    PrintMore(w, rest);
    hide Print, PrintAll;
    var comma := i + |Print(w)|;
    assert PrintAll(More(w, rest)) == Print(w) + ("," + PrintAll(rest));
    HoldsParts(text, i, Print(w), "," + PrintAll(rest));
    HoldsParts(text, comma, ",", PrintAll(rest));
    HoldsChar(text, comma, ',');
  }

  // Inside a list a printed word is balanced: the scanner passes over it and
  // comes out at its base level, with nothing found.
  lemma {:induction false} ScanWord(text: string, i: nat, w: Word, satisfy: char, s: Scan, base: nat, d: nat)
    returns (s': Scan)
    requires Holds(text, i, Print(w)) && Inner(w, d)
    requires Calm(s) && s.level == base + d && satisfy in {'}', ','}
    ensures Passed(s, s', base) && s'.level == base
    ensures Gobble(text, i, satisfy, s) == Gobble(text, i + |Print(w)|, satisfy, s')
    decreases w, 2
  {
    if w.End? {
      s' := ScanLoose(text, i, w.lit, satisfy, s, base, d);
    } else {
      SegParts(text, i, w);
      s' := ScanSeg(text, i, w, satisfy, s, base, d);
    }
  }

  lemma {:induction false} ScanSeg(text: string, i: nat, w: Word, satisfy: char, s: Scan, base: nat, d: nat)
    returns (s': Scan)
    requires w.Seg? && SegAt(text, i, w) && Inner(w, d)
    requires Calm(s) && s.level == base + d && satisfy in {'}', ','}
    ensures Passed(s, s', base) && s'.level == base
    ensures Gobble(text, i, satisfy, s) == Gobble(text, i + |Print(w)|, satisfy, s')
    decreases w, 1
  {
    hide Gobble, Print, PrintAll, Holds, LooseText;
    var close := i + |Print(w)| - |Print(w.tail)|;
    var s1 := ScanLoose(text, i, w.lit, satisfy, s, base, d);
    ScanList(text, i, w, satisfy, s1);
    s' := ScanWord(text, close, w.tail, satisfy, s1, base, Depth(w.lit, d).value);
  }

  // A whole braced list changes nothing.
  lemma {:induction false} ScanList(text: string, i: nat, w: Word, satisfy: char, s: Scan)
    requires w.Seg? && SegAt(text, i, w) && Inner(w.first, 0) && InnerAll(w.others)
    requires Calm(s) && satisfy in {'}', ','}
    ensures |Print(w)| >= |Print(w.tail)| + |w.lit| + 2
    ensures Gobble(text, i + |w.lit|, satisfy, s) == Gobble(text, i + |Print(w)| - |Print(w.tail)|, satisfy, s)
    decreases w, 0
  {
    hide Gobble, Print, PrintAll, Holds, LooseText;
    var open := i + |w.lit|;
    var comma := open + 1 + |Print(w.first)|;
    var close := comma + 1 + |PrintAll(w.others)|;
    var b := s.level + 1;
    PassOpen(text, open, satisfy, s);
    var s2 := ScanWord(text, open + 1, w.first, satisfy, s.(level := b), b, 0);
    var s3 := PassComma(text, comma, satisfy, s2);
    var s4 := ScanWords(text, comma + 1, w.others, satisfy, s3, b);
    PassClose(text, close, satisfy, s4);
  }

  // Likewise a list of alternatives, inside braces or when looking for the closing brace.
  lemma {:induction false} ScanWords(text: string, i: nat, ws: Words, satisfy: char, s: Scan, base: nat) returns (s': Scan)
    requires Holds(text, i, PrintAll(ws)) && InnerAll(ws)
    requires Calm(s) && s.level == base && satisfy in {'}', ','} && (base > 0 || satisfy == '}')
    ensures Passed(s, s', base) && s'.level == base
    ensures Gobble(text, i, satisfy, s) == Gobble(text, i + |PrintAll(ws)|, satisfy, s')
    decreases ws, 0
  {
    hide Gobble, Print, Inner;
    match ws
    case One(w) =>
      s' := ScanWord(text, i, w, satisfy, s, base, 0);
    case More(w, rest) =>
      MoreParts(text, i, w, rest);
      var s1 := ScanWord(text, i, w, satisfy, s, base, 0);
      var s2 := PassComma(text, i + |Print(w)|, satisfy, s1);
      s' := ScanWords(text, i + |Print(w)| + 1, rest, satisfy, s2, base);
  }

  lemma StopsAtClose(text: string, i: nat, s: Scan)
    requires i < |text| && text[i] == '}' && Calm(s) && s.level == 0 && s.commas > 0
    ensures Gobble(text, i, '}', s) == Stop(i, true, s.kind)
  {
  }

  // From just inside an open brace, the scanner finds the matching close
  // brace and sees a comma list.
  lemma ScanBraces(text: string, i: nat, w: Word)
    requires w.Seg? && Inner(w.first, 0) && InnerAll(w.others) && SegAt(text, i, w)
    ensures var open := i + |w.lit|;
            GobbleFrom(text, open + 1, '}')
              == Stop(open + 1 + |PrintAll(More(w.first, w.others))|, true, CommaKind)
  {
    hide Gobble, Print, PrintAll, Inner, InnerAll;
    var open := i + |w.lit|;
    var comma := open + 1 + |Print(w.first)|;
    PrintMore(w.first, w.others);
    var s1 := ScanWord(text, open + 1, w.first, '}', StartScan('}'), 0, 0);
    var s2 := PassComma(text, comma, '}', s1);
    var s3 := ScanWords(text, comma + 1, w.others, '}', s2, 0);
    StopsAtClose(text, comma + 1 + |PrintAll(w.others)|, s3);
  }

  lemma FirstCharOfList(w: Word, c: string)
    requires Inner(w, 0)
    ensures var f := (Print(w) + "," + c)[0]; f == '{' || f == ',' || PlainChar(f)
  {
    if w.Seg? {
      PrintSeg(w);
    }
    if w.lit != "" {
      assert Print(w)[0] == w.lit[0];
      assert PlainChar(w.lit[0]) || w.lit[0] == '{';
    }
  }

  lemma FindsNoBrace(lit: string)
    requires PlainText(lit)
    ensures FindOpen(lit, 0) == |lit|
  {
    var s' := ScanPlain(lit, 0, lit, '{', StartScan('{'));
  }

  // The open brace of a printed list is never one the scanner ignores.
  lemma OpensList(w: Word)
    requires w.Seg? && Inner(w.first, 0)
    ensures |w.lit| < |Print(w)| && Print(w)[|w.lit|] == '{' && !IgnoredOpen(Print(w), |w.lit|)
  {
    PrintSeg(w);
    FirstCharOfList(w.first, PrintAll(w.others) + ("}" + Print(w.tail)));
    var rest := Print(w.first) + "," + (PrintAll(w.others) + ("}" + Print(w.tail)));
    assert Print(w) == w.lit + "{" + rest;
  }

  // ---------------------------------------------------------------- braces that match nothing

  // From outside all lists, without a comma or a double dot there, no closing
  // brace is the wanted one.
  lemma {:induction false} NeverCloses(text: string, i: nat, w: Word, s: Scan)
    requires Holds(text, i, Print(w)) && i + |Print(w)| == |text| && Outer(w) && NoDotPair(text)
    requires Calm(s) && s.commas == 0
    ensures !Gobble(text, i, '}', s).hit
    decreases |text| - i
  {
    if w.lit != "" {
      var w' := w.(lit := w.lit[1..]);
      PrintFirst(w);
      HoldsParts(text, i, [w.lit[0]], Print(w'));
      HoldsChar(text, i, w.lit[0]);
      assert PlainChar(w.lit[0]) || w.lit[0] == '{' || w.lit[0] == '}';
      PassUncounted(text, i, s);
      NeverCloses(text, i + 1, w', Pass(text, i, '}', s));
    } else if w.Seg? {
      hide Gobble, Print, PrintAll;
      SegParts(text, i, w);
      ScanList(text, i, w, '}', s);
      NeverCloses(text, i + |Print(w)| - |Print(w.tail)|, w.tail, s);
    }
  }

  lemma PrintFirst(w: Word)
    requires w.lit != ""
    ensures Print(w) == [w.lit[0]] + Print(w.(lit := w.lit[1..]))
  {
    assert w.lit == [w.lit[0]] + w.lit[1..];
    if w.Seg? {
      PrintSeg(w);
      PrintSeg(w.(lit := w.lit[1..]));
    }
  }

  lemma PassUncounted(text: string, i: nat, s: Scan)
    requires i < |text| && (PlainChar(text[i]) || text[i] == '{' || text[i] == '}') && NoDotPair(text)
    requires Calm(s) && s.commas == 0
    ensures var s' := Pass(text, i, '}', s);
            Calm(s') && s'.commas == 0 && Gobble(text, i, '}', s) == Gobble(text, i + 1, '}', s')
  {
  }

  // A character that opens no brace expression is passed by.
  lemma OpenPasses(text: string, i: nat)
    requires i < |text| && (PlainChar(text[i]) || text[i] == '{' || text[i] == '}')
    requires text[i] == '{' ==> !GobbleFrom(text, i + 1, '}').hit
    ensures FindOpen(text, i) == FindOpen(text, i + 1)
  {
    hide Gobble, GobbleFrom, IgnoredOpen, FindOpen;
    OpenSought(text, i);
    FindOpenIs(text, i);
    FindOpenIs(text, i + 1);
  }

  lemma FindOpenIs(text: string, i: nat)
    requires i <= |text|
    ensures var g := GobbleFrom(text, i, '{');
            FindOpen(text, i) == if !g.hit then |text| else if Opens(text, g.at) then g.at else FindOpen(text, g.at + 1)
  {
    hide Gobble, GobbleFrom, BraceSequences.ValidSeqTerm;
  }

  lemma OpenSought(text: string, i: nat)
    requires i < |text| && (PlainChar(text[i]) || text[i] == '{' || text[i] == '}')
    ensures GobbleFrom(text, i, '{') == if text[i] == '{' && !IgnoredOpen(text, i) then Stop(i, true, NoKind)
                                        else GobbleFrom(text, i + 1, '{')
  {
  }

  // The first brace that opens a brace expression is that of the first list.
  lemma {:induction false} FindsFirstBrace(w: Word, i: nat)
    requires Outer(w) && (PlainText(w.lit) || NoDotPair(Print(w))) && i <= |w.lit|
    ensures FindOpen(Print(w), i) == |w.lit| && (w.End? ==> Print(w) == w.lit)
    decreases |w.lit| - i
  {
    var text := Print(w);
    if i < |w.lit| {
      LitFirst(w);
      assert text[i] == w.lit[i];
      if text[i] == '{' { NoneAfter(w, i + 1); }
      OpenPasses(text, i);
      hide FindOpen;
      FindsFirstBrace(w, i + 1);
    } else if w.Seg? {
      FindsList(w);
    } else {
      NothingOpen(text);
    }
  }

  lemma FindsList(w: Word)
    requires w.Seg? && Inner(w.first, 0) && InnerAll(w.others)
    ensures |w.lit| < |Print(w)| && FindOpen(Print(w), |w.lit|) == |w.lit|
  {
    hide Print, PrintAll, FindOpen, Gobble, GobbleFrom, Inner, InnerAll;
    var text := Print(w);
    assert Holds(text, 0, text);
    SegParts(text, 0, w);
    OpensList(w);
    ScanBraces(text, 0, w);
    OpenFound(text, |w.lit|);
  }

  lemma LitFirst(w: Word)
    ensures w.lit <= Print(w)
  {
    if w.Seg? { PrintSeg(w); }
  }

  lemma NothingOpen(text: string)
    ensures FindOpen(text, |text|) == |text|
  {
  }

  lemma NoneAfter(w: Word, i: nat)
    requires Outer(w) && NoDotPair(Print(w)) && i <= |w.lit|
    ensures i <= |Print(w)| && !GobbleFrom(Print(w), i, '}').hit
  {
    hide Gobble;
    var text, w' := Print(w), w.(lit := w.lit[i..]);
    PrintFrom(w, i);
    assert text[i..|text|] == Print(w');
    NeverCloses(text, i, w', StartScan('}'));
  }

  lemma PrintFrom(w: Word, i: nat)
    requires i <= |w.lit|
    ensures i <= |Print(w)| && Print(w)[i..] == Print(w.(lit := w.lit[i..]))
  {
    if w.Seg? {
      var rest := "{" + (Print(w.first) + ("," + (PrintAll(w.others) + ("}" + Print(w.tail)))));
      PrintSeg(w);
      PrintSeg(w.(lit := w.lit[i..]));
      assert (w.lit + rest)[i..] == w.lit[i..] + rest;
    }
  }

  lemma OpenFound(text: string, open: nat)
    requires open < |text| && text[open] == '{' && !IgnoredOpen(text, open)
    requires var close := GobbleFrom(text, open + 1, '}'); close.hit && close.kind != SeqKind
    ensures FindOpen(text, open) == open
  {
    OpenSought(text, open);
    FindOpenIs(text, open);
    hide Gobble, GobbleFrom, IgnoredOpen, FindOpen, BraceSequences.ValidSeqTerm;
  }

  // Text without a comma and without a double dot expands to itself, whatever
  // its braces, quotes and backslashes.
  lemma NothingToExpand(text: string)
    requires ',' !in text && NoDotPair(text)
    ensures Expand(text) == [text]
  {
    OpensNowhere(text, 0);
  }

  lemma {:induction false} OpensNowhere(text: string, i: nat)
    requires ',' !in text && NoDotPair(text) && i <= |text|
    ensures FindOpen(text, i) == |text|
    decreases |text| - i
  {
    hide Gobble;
    var g := GobbleFrom(text, i, '{');
    if g.hit {
      NeverCounts(text, g.at + 1, StartScan('}'));
      OpensNowhere(text, g.at + 1);
    }
  }

  lemma {:induction false} NeverCounts(text: string, i: nat, s: Scan)
    requires ',' !in text && NoDotPair(text) && i <= |text| && s.commas == 0
    ensures !Gobble(text, i, '}', s).hit
    decreases |text| - i
  {
    if i < |text| {
      assert text[i] != ',';
      NeverCounts(text, i + 1, Pass(text, i, '}', s));
    }
  }

  // ---------------------------------------------------------------- quoted and ignored braces

  // Where the text quoted by q from i on ends; a backslash escapes the next
  // character except within single quotes.
  function QuoteClose(s: string, i: nat, q: char): nat
    requires i <= |s|
    decreases |s| - i
  {
    if i == |s| || s[i] == q then i
    else if s[i] == '\\' && q != '\'' then if i + 1 == |s| then |s| else QuoteClose(s, i + 2, q)
    else QuoteClose(s, i + 1, q)
  }

  // From i on every open brace is quoted or escaped.
  predicate OpensQuoted(s: string, i: nat)
    requires i <= |s|
    decreases |s| - i
  {
    i == |s| ||
    (if s[i] == '\\' then i + 1 == |s| || OpensQuoted(s, i + 2)
     else if s[i] == '"' || s[i] == '\'' || s[i] == '`' then
       var k := QuoteClose(s, i + 1, s[i]); k < i + 1 || k >= |s| || OpensQuoted(s, k + 1)
     else s[i] != '{' && OpensQuoted(s, i + 1))
  }

  lemma {:induction false} QuoteCloses(s: string, i: nat, q: char)
    requires i <= |s|
    ensures i <= QuoteClose(s, i, q) <= |s|
    decreases |s| - i
  {
    if i < |s| && s[i] != q {
      if s[i] == '\\' && q != '\'' {
        if i + 1 < |s| { QuoteCloses(s, i + 2, q); }
      } else {
        QuoteCloses(s, i + 1, q);
      }
    }
  }

  lemma {:induction false} ScanQuoted(text: string, i: nat, q: char, s: Scan)
    requires i <= |text| && (q == '"' || q == '\'' || q == '`') && !s.passNext
    ensures var k := QuoteClose(text, i, q);
            i <= k <= |text| &&
            if k < |text| then Gobble(text, i, '{', s.(quoted := q)) == Gobble(text, k + 1, '{', s.(quoted := '\0'))
            else !Gobble(text, i, '{', s.(quoted := q)).hit
    decreases |text| - i
  {
    QuoteCloses(text, i, q);
    if i < |text| && text[i] != q {
      if text[i] == '\\' && q != '\'' {
        if i + 1 < |text| { ScanQuoted(text, i + 2, q, s); }
      } else {
        ScanQuoted(text, i + 1, q, s);
      }
    }
  }

  lemma {:induction false} NoneUnquoted(text: string, i: nat, s: Scan)
    requires i <= |text| && OpensQuoted(text, i) && Calm(s)
    ensures !Gobble(text, i, '{', s).hit
    decreases |text| - i
  {
    if i < |text| {
      if text[i] == '\\' {
        if i + 1 < |text| { NoneUnquoted(text, i + 2, s); }
      } else if IsQuote(text[i]) {
        ScanQuoted(text, i + 1, text[i], s);
        var k := QuoteClose(text, i + 1, text[i]);
        QuoteCloses(text, i + 1, text[i]);
        if k < |text| { NoneUnquoted(text, k + 1, s); }
      } else {
        NoneUnquoted(text, i + 1, Pass(text, i, '{', s));
      }
    }
  }

  // Text whose open braces are all quoted or escaped expands to itself.
  lemma QuotedKeeps(text: string)
    requires OpensQuoted(text, 0)
    ensures Expand(text) == [text]
  {
    hide Gobble;
    NoneUnquoted(text, 0, StartScan('{'));
  }

  // So does text with a single open brace at its start that white space or a
  // closing brace comes after.
  lemma IgnoredKeeps(c: char, rest: string)
    requires (c == ' ' || c == '\t' || c == '\n' || c == '}') && '{' !in rest
    ensures Expand("{" + [c] + rest) == ["{" + [c] + rest]
  {
    var text := "{" + [c] + rest;
    assert text[0] == '{' && text[1] == c && forall k :: 0 < k < |text| ==> text[k] != '{';
    NoneOpens(text, 1, StartScan('{'));
  }

  lemma {:induction false} NoneOpens(text: string, i: nat, s: Scan)
    requires i <= |text| && forall k :: i <= k < |text| ==> text[k] != '{'
    ensures !Gobble(text, i, '{', s).hit
    decreases |text| - i
  {
    if i < |text| { NoneOpens(text, i + 1, Pass(text, i, '{', s)); }
  }

  // ---------------------------------------------------------------- expansion is the meaning

  // The braces of lists expand; all others stand for themselves. Double dots
  // are only allowed where there are no other braces.
  predicate Expandable(w: Word) {
    Outer(w) && (PlainWord(w) || NoDotPair(Print(w)))
  }

  lemma PlainExpandable(w: Word)
    requires PlainWord(w)
    ensures Expandable(w)
  {
    PlainIsInner(w);
    InnerIsOuter(w, 0);
  }

  // Expanding the text of a word gives the word's meaning.
  lemma {:induction false} ExpandWord(w: Word)
    requires Expandable(w)
    ensures Expand(Print(w)) == Meaning(w)
    decreases w, 1
  {
    FindsFirstBrace(w, 0);
    if w.Seg? {
      assert Holds(Print(w), 0, Print(w));
      SegParts(Print(w), 0, w);
      ExpandSeg(w);
    }
  }

  lemma PartsExpandable(w: Word)
    requires w.Seg? && Expandable(w) && SegAt(Print(w), 0, w)
    ensures Expandable(w.first) && Expandable(w.tail)
    ensures PlainWords(w.others) || NoDotPair(PrintAll(w.others))
  {
    hide Print, PrintAll;
    InnerIsOuter(w.first, 0);
    if !PlainWord(w) {
      var open := |w.lit|;
      var comma := open + 1 + |Print(w.first)|;
      NoPairInside(Print(w), open + 1, Print(w.first));
      NoPairInside(Print(w), comma + 1, PrintAll(w.others));
      NoPairInside(Print(w), comma + 1 + |PrintAll(w.others)| + 1, Print(w.tail));
    }
  }

  lemma NoPairInside(text: string, i: nat, part: string)
    requires NoDotPair(text) && Holds(text, i, part)
    ensures NoDotPair(part)
  {
    forall k | 0 <= k < |part| - 1 ensures part[k] != '.' || part[k + 1] != '.' {
      assert part[k] == text[i..i + |part|][k] == text[i + k] && part[k + 1] == text[i + k + 1];
    }
  }

  lemma SegSlices(w: Word)
    requires w.Seg? && SegAt(Print(w), 0, w)
    ensures var text, amble := Print(w), Print(w.first) + "," + PrintAll(w.others);
            var close := |w.lit| + 1 + |amble|;
            && close < |text| && text[..|w.lit|] == w.lit && text[|w.lit| + 1..close] == amble
            && text[close + 1..] == Print(w.tail)
  {
    hide PrintAll;
    PrintSeg(w);
    var text, amble := Print(w), Print(w.first) + "," + PrintAll(w.others);
    assert text == w.lit + ("{" + (amble + ("}" + Print(w.tail))));
  }

  lemma {:induction false} ExpandSeg(w: Word)
    requires w.Seg? && Expandable(w) && SegAt(Print(w), 0, w) && FindOpen(Print(w), 0) == |w.lit|
    ensures Expand(Print(w)) == Meaning(w)
    decreases w, 0
  {
    hide Print, PrintAll, Gobble, FindOpen, Expand, ExpandAmble, Cross, Prefixed, PlainWord, PlainWords, NoDotPair, SegAt;
    var text := Print(w);
    var amble := Print(w.first) + "," + PrintAll(w.others);
    var close := |w.lit| + 1 + |amble|;
    ScanBraces(text, 0, w);
    SegSlices(w);
    PartsExpandable(w);
    PrintMore(w.first, w.others);
    ExpandBraces(text, |w.lit|, close);
    SplitList(amble, 0, w.first, w.others);
    ExpandWord(w.first);
    ExpandList(amble, |Print(w.first)| + 1, w.others);
    ExpandWord(w.tail);
    JoinSeg(w, Meaning(w.first) + MeaningAll(w.others));
  }

  lemma ExpandBraces(text: string, open: nat, close: nat)
    requires open < close < |text| && FindOpen(text, 0) == open
    requires GobbleFrom(text, open + 1, '}') == Stop(close, true, CommaKind)
    ensures var front := Prefixed(text[..open], ExpandAmble(text[open + 1..close], 0));
            var postamble := text[close + 1..];
            Expand(text) == if postamble == "" then front else Cross(front, Expand(postamble))
  {
    hide FindOpen, Gobble, GobbleFrom, Cross, Prefixed, ExpandAmble, StartScan;
  }

  lemma JoinSeg(w: Word, tack: seq<string>)
    requires w.Seg?
    ensures Cross(Prefixed(w.lit, tack), Meaning(w.tail)) == Prefixed(w.lit, Cross(tack, Meaning(w.tail)))
    ensures Print(w.tail) == "" ==> Prefixed(w.lit, tack) == Prefixed(w.lit, Cross(tack, Meaning(w.tail)))
  {
    PrefixedCross(w.lit, tack, Meaning(w.tail));
    CrossUnit(tack);
    if Print(w.tail) == "" && w.tail.Seg? {
      PrintSeg(w.tail);
    }
  }

  lemma PrintMore(w: Word, rest: Words)
    ensures PrintAll(More(w, rest)) == Print(w) + "," + PrintAll(rest)
  {
  }

  lemma SplitList(amble: string, i: nat, w: Word, rest: Words)
    requires Inner(w, 0) && i <= |amble| && amble[i..] == PrintAll(More(w, rest))
    ensures var comma := i + |Print(w)|;
            && comma < |amble| && amble[comma + 1..] == PrintAll(rest)
            && ExpandAmble(amble, i) == Expand(Print(w)) + ExpandAmble(amble, comma + 1)
  {
    hide Expand, Print, PrintAll, FindOpen, Gobble;
    var comma := i + |Print(w)|;
    assert Holds(amble, i, PrintAll(More(w, rest)));
    MoreParts(amble, i, w, rest);
    var s' := ScanWord(amble, i, w, ',', StartScan(','), 0, 0);
    assert amble[comma + 1..] == amble[comma + 1..|amble|];
    StopsAtComma(amble, comma, s');
  }

  lemma StopsAtComma(text: string, i: nat, s: Scan)
    requires i < |text| && text[i] == ',' && Calm(s) && s.level == 0 && s.commas > 0
    ensures Gobble(text, i, ',', s) == Stop(i, true, s.kind)
  {
  }

  lemma LastOfList(amble: string, i: nat, w: Word)
    requires Inner(w, 0) && i <= |amble| && amble[i..] == Print(w)
    ensures ExpandAmble(amble, i) == Expand(Print(w))
  {
    hide Expand, Print, FindOpen;
    assert Holds(amble, i, Print(w));
    var s' := ScanWord(amble, i, w, ',', StartScan(','), 0, 0);
    assert amble[i..|amble|] == Print(w);
  }

  lemma ListExpandable(ws: Words)
    requires InnerAll(ws) && (PlainWords(ws) || NoDotPair(PrintAll(ws)))
    ensures Expandable(ws.word) && (ws.More? ==> PlainWords(ws.rest) || NoDotPair(PrintAll(ws.rest)))
  {
    hide Print;
    InnerIsOuter(ws.word, 0);
    var text := PrintAll(ws);
    if ws.More? && NoDotPair(text) {
      assert Holds(text, 0, text);
      MoreParts(text, 0, ws.word, ws.rest);
      NoPairInside(text, 0, Print(ws.word));
      NoPairInside(text, |Print(ws.word)| + 1, PrintAll(ws.rest));
    }
  }

  lemma {:induction false} ExpandList(amble: string, i: nat, ws: Words)
    requires InnerAll(ws) && (PlainWords(ws) || NoDotPair(PrintAll(ws)))
    requires i <= |amble| && amble[i..] == PrintAll(ws)
    ensures ExpandAmble(amble, i) == MeaningAll(ws)
    decreases ws, 0
  {
    hide Expand, Print, FindOpen, Gobble, ExpandAmble;
    ListExpandable(ws);
    ExpandWord(ws.word);
    match ws
    case One(w) =>
      LastOfList(amble, i, w);
    case More(w, rest) =>
      SplitList(amble, i, w, rest);
      ExpandList(amble, i + |Print(w)| + 1, rest);
  }

  // ---------------------------------------------------------------- trees in any shape

  // Literals, juxtapositions and alternatives, nested in any way; a pair of
  // braces around something that is no list; and braces that match nothing.
  datatype Tree =
    | Lit(text: string)
    | Cat(left: Tree, right: Tree)
    | Alt(first: Tree, others: Trees)
    | Lone(inner: Tree)
    | Unmatched(close: bool)
  datatype Trees = OneTree(tree: Tree) | MoreTrees(tree: Tree, rest: Trees)

  predicate PlainTree(t: Tree) {
    match t
    case Lit(text) => PlainText(text)
    case Cat(l, r) => PlainTree(l) && PlainTree(r)
    case Alt(first, others) => PlainTree(first) && PlainTrees(others)
    case _ => false
  }

  predicate PlainTrees(ts: Trees) {
    PlainTree(ts.tree) && (ts.MoreTrees? ==> PlainTrees(ts.rest))
  }

  // Unmatched braces only outside all lists.
  predicate LooseTree(t: Tree, inside: bool) {
    match t
    case Lit(text) => PlainText(text)
    case Cat(l, r) => LooseTree(l, inside) && LooseTree(r, inside)
    case Alt(first, others) => LooseTree(first, true) && LooseTrees(others)
    case Lone(t) => LooseTree(t, inside)
    case Unmatched(_) => !inside
  }

  predicate LooseTrees(ts: Trees) {
    LooseTree(ts.tree, true) && (ts.MoreTrees? ==> LooseTrees(ts.rest))
  }

  function PrintTree(t: Tree): string {
    match t
    case Lit(text) => text
    case Cat(l, r) => PrintTree(l) + PrintTree(r)
    case Alt(first, others) => "{" + (PrintTree(first) + "," + PrintTrees(others)) + "}"
    case Lone(t) => "{" + (PrintTree(t) + "}")
    case Unmatched(close) => if close then "}" else "{"
  }

  function PrintTrees(ts: Trees): string {
    match ts
    case OneTree(t) => PrintTree(t)
    case MoreTrees(t, rest) => PrintTree(t) + "," + PrintTrees(rest)
  }

  function Denotation(t: Tree): seq<string> {
    match t
    case Lit(text) => [text]
    case Cat(l, r) => Cross(Denotation(l), Denotation(r))
    case Alt(first, others) => Denotation(first) + DenotationAll(others)
    case Lone(t) => Braced(Denotation(t))
    case Unmatched(close) => [if close then "}" else "{"]
  }

  function DenotationAll(ts: Trees): seq<string> {
    match ts
    case OneTree(t) => Denotation(t)
    case MoreTrees(t, rest) => Denotation(t) + DenotationAll(rest)
  }

  function Braced(b: seq<string>): seq<string> {
    seq(|b|, k requires 0 <= k < |b| => "{" + (b[k] + "}"))
  }

  function Juxtapose(w: Word, v: Word): Word {
    match w
    case Seg(lit, first, others, tail) => Seg(lit, first, others, Juxtapose(tail, v))
    case End(lit) =>
      match v
      case End(lit') => End(lit + lit')
      case Seg(lit', first, others, tail) => Seg(lit + lit', first, others, tail)
  }

  function Normal(t: Tree): Word {
    match t
    case Lit(text) => End(text)
    case Cat(l, r) => Juxtapose(Normal(l), Normal(r))
    case Alt(first, others) => Seg("", Normal(first), NormalAll(others), End(""))
    case Lone(t) => Juxtapose(End("{"), Juxtapose(Normal(t), End("}")))
    case Unmatched(close) => End(if close then "}" else "{")
  }

  function NormalAll(ts: Trees): Words {
    match ts
    case OneTree(t) => One(Normal(t))
    case MoreTrees(t, rest) => More(Normal(t), NormalAll(rest))
  }

  lemma {:induction false} JuxtaposeIsCat(w: Word, v: Word)
    ensures Print(Juxtapose(w, v)) == Print(w) + Print(v)
    ensures Meaning(Juxtapose(w, v)) == Cross(Meaning(w), Meaning(v))
    decreases w
  {
    hide Cross, Prefixed;
    if w.Seg? {
      JuxtaposeIsCat(w.tail, v);
      SegIsCat(w, v, Juxtapose(w.tail, v));
    } else {
      LiteralIsCat(w.lit, v);
    }
  }

  lemma {:induction false} JuxtaposePlain(w: Word, v: Word)
    requires PlainWord(w) && PlainWord(v)
    ensures PlainWord(Juxtapose(w, v))
  {
    if w.Seg? { JuxtaposePlain(w.tail, v); }
  }

  lemma {:induction false} JuxtaposeOuter(w: Word, v: Word)
    requires Outer(w) && Outer(v)
    ensures Outer(Juxtapose(w, v))
  {
    if w.Seg? { JuxtaposeOuter(w.tail, v); }
  }

  // The second word may close what the first leaves open.
  lemma {:induction false} JuxtaposeInner(w: Word, d: nat, v: Word)
    requires Inner(w, d) && Inner(v, 0)
    ensures Inner(Juxtapose(w, v), d)
  {
    if w.Seg? { JuxtaposeInner(w.tail, Depth(w.lit, d).value, v); } else { DepthThen(w.lit, v.lit, d); }
  }

  lemma {:induction false} DepthThen(a: string, b: string, d: nat)
    requires Depth(a, d).Some?
    ensures Depth(a + b, d) == Depth(b, Depth(a, d).value)
  {
    if a == "" {
      assert a + b == b;
    } else {
      assert (a + b)[1..] == a[1..] + b;
      DepthThen(a[1..], b, if a[0] == '{' then d + 1 else if a[0] == '}' then d - 1 else d);
    }
  }

  // A word in braces of its own.
  lemma {:induction false} ClosesOne(w: Word, d: nat)
    requires Inner(w, d)
    ensures Inner(Juxtapose(w, End("}")), d + 1)
  {
    DepthMore(w.lit, d);
    if w.Seg? {
      ClosesOne(w.tail, Depth(w.lit, d).value);
    } else {
      DepthThen(w.lit, "}", d + 1);
    }
  }

  lemma {:induction false} DepthMore(a: string, d: nat)
    requires Depth(a, d).Some?
    ensures Depth(a, d + 1) == Some(Depth(a, d).value + 1)
  {
    if a != "" { DepthMore(a[1..], if a[0] == '{' then d + 1 else if a[0] == '}' then d - 1 else d); }
  }

  lemma BracedInner(w: Word)
    requires Inner(w, 0)
    ensures Inner(Juxtapose(End("{"), Juxtapose(w, End("}"))), 0)
  {
    ClosesOne(w, 0);
    var v := Juxtapose(w, End("}"));
    assert ("{" + v.lit)[1..] == v.lit;
  }

  lemma SegIsCat(w: Word, v: Word, tail: Word)
    requires w.Seg? && Print(tail) == Print(w.tail) + Print(v)
    requires Meaning(tail) == Cross(Meaning(w.tail), Meaning(v))
    ensures var r := Seg(w.lit, w.first, w.others, tail);
            Print(r) == Print(w) + Print(v) && Meaning(r) == Cross(Meaning(w), Meaning(v))
  {
    hide Cross, Prefixed;
    var tack := Meaning(w.first) + MeaningAll(w.others);
    CrossAssociative(tack, Meaning(w.tail), Meaning(v));
    PrefixedCross(w.lit, Cross(tack, Meaning(w.tail)), Meaning(v));
    var front := w.lit + "{" + (Print(w.first) + "," + PrintAll(w.others)) + "}";
    assert front + (Print(w.tail) + Print(v)) == (front + Print(w.tail)) + Print(v);
  }

  lemma LiteralIsCat(lit: string, v: Word)
    ensures var r := Juxtapose(End(lit), v);
            Print(r) == lit + Print(v) && Meaning(r) == Cross([lit], Meaning(v))
  {
    hide Cross, Prefixed;
    CrossSingle(lit, Meaning(v));
    if v.Seg? {
      var rest := "{" + (Print(v.first) + ("," + (PrintAll(v.others) + ("}" + Print(v.tail)))));
      PrefixedTwice(lit, v.lit, Cross(Meaning(v.first) + MeaningAll(v.others), Meaning(v.tail)));
      PrintSeg(v);
      PrintSeg(Juxtapose(End(lit), v));
      assert (lit + v.lit) + rest == lit + (v.lit + rest);
    } else {
      PrefixedOne(lit, v.lit);
    }
  }

  lemma PrefixedOne(p: string, q: string)
    ensures Prefixed(p, [q]) == [p + q]
  {
  }

  lemma {:induction false} BracedIsCross(b: seq<string>)
    ensures Cross(["{"], Cross(b, ["}"])) == Braced(b)
  {
    CrossSingle("{", Cross(b, ["}"]));
    EndsWith(b, "}");
  }

  lemma {:induction false} EndsWith(b: seq<string>, p: string)
    ensures |Cross(b, [p])| == |b| && forall k :: 0 <= k < |b| ==> Cross(b, [p])[k] == b[k] + p
  {
    if b != [] {
      EndsWith(b[1..], p);
      PrefixedOne(b[0], p);
    }
  }

  // The same text and the same meaning.
  lemma {:induction false} NormalSameTree(t: Tree)
    ensures Print(Normal(t)) == PrintTree(t) && Meaning(Normal(t)) == Denotation(t)
  {
    hide Cross, Prefixed;
    match t
    case Lit(text) =>
    case Cat(l, r) =>
      NormalSameTree(l);
      NormalSameTree(r);
      JuxtaposeIsCat(Normal(l), Normal(r));
    case Alt(first, others) =>
      NormalSameTree(first);
      NormalSameTrees(others);
      var tack := Denotation(first) + DenotationAll(others);
      CrossUnit(tack);
      PrefixedEmpty(tack);
      assert "" + "{" + (PrintTree(first) + "," + PrintTrees(others)) + "}" + "" == PrintTree(t);
    case Lone(inner) =>
      NormalSameTree(inner);
      JuxtaposeIsCat(Normal(inner), End("}"));
      JuxtaposeIsCat(End("{"), Juxtapose(Normal(inner), End("}")));
      BracedIsCross(Denotation(inner));
    case Unmatched(_) =>
  }

  lemma {:induction false} NormalSameTrees(ts: Trees)
    ensures PrintAll(NormalAll(ts)) == PrintTrees(ts)
    ensures MeaningAll(NormalAll(ts)) == DenotationAll(ts)
  {
    NormalSameTree(ts.tree);
    if ts.MoreTrees? {
      NormalSameTrees(ts.rest);
    }
  }

  lemma {:induction false} NormalPlain(t: Tree)
    requires PlainTree(t)
    ensures PlainWord(Normal(t))
  {
    match t
    case Lit(_) =>
    case Cat(l, r) =>
      NormalPlain(l);
      NormalPlain(r);
      JuxtaposePlain(Normal(l), Normal(r));
    case Alt(first, others) =>
      NormalPlain(first);
      NormalPlains(others);
  }

  lemma {:induction false} NormalPlains(ts: Trees)
    requires PlainTrees(ts)
    ensures PlainWords(NormalAll(ts))
  {
    NormalPlain(ts.tree);
    if ts.MoreTrees? { NormalPlains(ts.rest); }
  }

  lemma {:induction false} NormalLoose(t: Tree, inside: bool)
    requires LooseTree(t, inside)
    ensures if inside then Inner(Normal(t), 0) else Outer(Normal(t))
  {
    match t
    case Lit(text) => DepthOfPlain(text, 0);
    case Cat(l, r) =>
      NormalLoose(l, inside);
      NormalLoose(r, inside);
      if inside { JuxtaposeInner(Normal(l), 0, Normal(r)); } else { JuxtaposeOuter(Normal(l), Normal(r)); }
    case Alt(first, others) =>
      NormalLoose(first, true);
      NormalAllLoose(others);
    case Lone(inner) =>
      NormalLoose(inner, inside);
      if inside {
        BracedInner(Normal(inner));
      } else {
        JuxtaposeOuter(Normal(inner), End("}"));
        JuxtaposeOuter(End("{"), Juxtapose(Normal(inner), End("}")));
      }
    case Unmatched(_) =>
  }

  lemma {:induction false} NormalAllLoose(ts: Trees)
    requires LooseTrees(ts)
    ensures InnerAll(NormalAll(ts))
  {
    NormalLoose(ts.tree, true);
    if ts.MoreTrees? { NormalAllLoose(ts.rest); }
  }

  // Brace expansion of the printed text of any tree over plain characters is
  // the tree's denotation: cross product for juxtaposition, ordered union for
  // alternatives; and braces that are no list stand for themselves.
  lemma ExpandTree(t: Tree)
    requires PlainTree(t) || (LooseTree(t, false) && NoDotPair(PrintTree(t)))
    ensures Expand(PrintTree(t)) == Denotation(t)
  {
    hide Expand, Print, Meaning, Inner, Outer, PlainWord, Normal, Denotation, PrintTree;
    NormalSameTree(t);
    if PlainTree(t) {
      NormalPlain(t);
      PlainIsInner(Normal(t));
      InnerIsOuter(Normal(t), 0);
    } else {
      NormalLoose(t, false);
    }
    ExpandWord(Normal(t));
  }
}
