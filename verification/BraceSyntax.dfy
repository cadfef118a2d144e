// Brace expansion as defined by bash/braces.c: the character scanner, the
// expansion of a word, and the cross product it is built from.
//
// A C string is modelled by a `string` without its terminator: reading at
// index |s| yields the terminator, as in the original.

module BraceSyntax {
  import opened Options
  import opened Numerals
  import BraceSequences

  // ---------------------------------------------------------------- scanner

  // What kind of brace expression the scanner thinks it has seen.
  datatype Kind = CommaKind | SeqKind | NoKind

  // The local variables of the scanner that survive from one character to the next.
  datatype Scan = Scan(level: nat, quoted: char, passNext: bool, commas: nat, kind: Kind)

  // Where the scanner stopped, and whether it stopped at the wanted character.
  datatype Stop = Stop(at: nat, hit: bool, kind: Kind)

  function StartScan(satisfy: char): Scan {
    Scan(0, '\0', false, if satisfy == '}' then 0 else 1, NoKind)
  }

  predicate BraceWhitespace(c: char) {
    c == '\0' || c == ' ' || c == '\t' || c == '\n'
  }

  // An open brace that is left alone because of the whitespace around it.
  predicate IgnoredOpen(text: string, i: nat)
    requires i < |text|
  {
    text[i] == '{' &&
    (i == 0 || BraceWhitespace(text[i - 1])) &&
    (BraceWhitespace(CharAt(text, i + 1)) || CharAt(text, i + 1) == '}')
  }

  predicate Escapes(c: char, quoted: char) {
    c == '\\' && (quoted == '\0' || quoted == '"' || quoted == '`')
  }

  predicate IsQuote(c: char) {
    c == '"' || c == '\'' || c == '`'
  }

  predicate IsSeqSpecifier(text: string, i: nat, satisfy: char) {
    CharAt(text, i) == '.' && CharAt(text, i + 1) == '.' && CharAt(text, i + 2) != satisfy
  }

  // Is character i, outside quotes and inner braces, the one wanted?
  predicate Wanted(text: string, i: nat, satisfy: char, s: Scan)
    requires i < |text|
  {
    !s.passNext && !Escapes(text[i], s.quoted) && s.quoted == '\0' && !IsQuote(text[i]) &&
    text[i] == satisfy && s.level == 0 && s.commas > 0
  }

  // The scanner's state after passing over character i.
  function Pass(text: string, i: nat, satisfy: char, s: Scan): Scan
    requires i < |text|
  {
    var c := text[i];
    if s.passNext then s.(passNext := false)
    else if Escapes(c, s.quoted) then s.(passNext := true)
    else if s.quoted != '\0' then s.(quoted := if c == s.quoted then '\0' else s.quoted)
    else if IsQuote(c) then s.(quoted := c)
    else if Wanted(text, i, satisfy, s) then s
    else if c == '{' then s.(level := s.level + 1)
    else if c == '}' && s.level > 0 then s.(level := s.level - 1)
    else if satisfy == '}' && c == ',' && s.level == 0 then s.(kind := CommaKind, commas := s.commas + 1)
    else if satisfy == '}' && s.level == 0 && s.kind == NoKind && IsSeqSpecifier(text, i, satisfy) then
      s.(kind := SeqKind, commas := s.commas + 1)
    else s
  }

  // Scan from index i for `satisfy`.
  function Gobble(text: string, i: nat, satisfy: char, s: Scan): (r: Stop)
    requires i <= |text|
    ensures i <= r.at <= |text|
    ensures r.hit ==> r.at < |text| && text[r.at] == satisfy
    ensures !r.hit ==> r.at == |text|
    decreases |text| - i
  {
    if i == |text| then Stop(i, false, s.kind)
    else if Wanted(text, i, satisfy, s) && !IgnoredOpen(text, i) then Stop(i, true, s.kind)
    else Gobble(text, i + 1, satisfy, Pass(text, i, satisfy, s))
  }

  function GobbleFrom(text: string, i: nat, satisfy: char): (r: Stop)
    requires i <= |text|
    ensures i <= r.at <= |text|
    ensures if r.hit then r.at < |text| && text[r.at] == satisfy else r.at == |text|
  {
    Gobble(text, i, satisfy, StartScan(satisfy))
  }

  // ---------------------------------------------------------------- words

  // p prefixed to every word of b.
  function Prefixed(p: string, b: seq<string>): (r: seq<string>)
    ensures |r| == |b|
    ensures forall k :: 0 <= k < |b| ==> r[k] == p + b[k]
  {
    if b == [] then [] else [p + b[0]] + Prefixed(p, b[1..])
  }

  // Every word of a followed by every word of b, a's order first.
  function Cross(a: seq<string>, b: seq<string>): seq<string> {
    if a == [] then [] else Prefixed(a[0], b) + Cross(a[1..], b)
  }

  // Does the open brace at i begin a brace expression?
  predicate Opens(text: string, i: nat)
    requires i < |text|
  {
    var close := GobbleFrom(text, i + 1, '}');
    close.hit && (close.kind == SeqKind ==> BraceSequences.ValidSeqTerm(text[i + 1..], close.at - (i + 1)))
  }

  // The index of the first open brace, at or after i, that begins a brace
  // expression, or |text|.
  function FindOpen(text: string, i: nat): (r: nat)
    requires i <= |text|
    ensures i <= r <= |text|
    ensures r < |text| ==> text[r] == '{' && GobbleFrom(text, r + 1, '}').hit
    decreases |text| - i
  {
    var g := GobbleFrom(text, i, '{');
    if !g.hit then |text| else if Opens(text, g.at) then g.at else FindOpen(text, g.at + 1)
  }

  // The words a text expands to: what precedes the brace expression, crossed
  // with its expansion, crossed with the expansion of what follows it.
  function Expand(text: string): (r: seq<string>)
    ensures |r| >= 1
    decreases |text|, 1, 0
  {
    var open := FindOpen(text, 0);
    if open == |text| then [text]
    else
      var close := GobbleFrom(text, open + 1, '}');
      var postamble := text[close.at + 1..];
      var front := Prefixed(text[..open], Tack(text, open, close));
      if postamble == "" then front
      else
        CrossNonempty(front, Expand(postamble));
        Cross(front, Expand(postamble))
  }

  // The words of one brace expression; a sequence expression that turns out
  // not to be one stands for itself, braces included.
  function Tack(text: string, open: nat, close: Stop): (r: seq<string>)
    requires open < close.at < |text|
    ensures |r| >= 1
    decreases |text|, 0, 0
  {
    var amble := text[open + 1..close.at];
    if close.kind == SeqKind then
      match BraceSequences.ExpandSeqTerm(amble)
      case Some(terms) => terms
      case None => [text[open..close.at + 1]]
    else ExpandAmble(amble, 0)
  }

  // The words of the comma-separated pieces of text[start..], in order.
  function ExpandAmble(text: string, start: nat): (r: seq<string>)
    requires start <= |text|
    ensures |r| >= 1
    decreases |text|, 2, |text| - start
  {
    var g := GobbleFrom(text, start, ',');
    var words := Expand(text[start..g.at]);
    if g.hit then words + ExpandAmble(text, g.at + 1) else words
  }

  lemma CrossNonempty(a: seq<string>, b: seq<string>)
    requires |a| >= 1 && |b| >= 1
    ensures |Cross(a, b)| >= 1
  {
  }

  // ---------------------------------------------------------------- algebra of words

  lemma CrossSingle(p: string, b: seq<string>)
    ensures Cross([p], b) == Prefixed(p, b)
  {
    assert [p][1..] == [];
  }

  lemma {:induction false} PrefixedEmpty(b: seq<string>)
    ensures Prefixed("", b) == b
  {
    if b != [] {
      PrefixedEmpty(b[1..]);
      assert "" + b[0] == b[0];
    }
  }

  lemma {:induction false} CrossUnit(a: seq<string>)
    ensures Cross(a, [""]) == a
  {
    if a != [] {
      CrossUnit(a[1..]);
      assert a[0] + "" == a[0];
      assert Prefixed(a[0], [""]) == [a[0]];
    }
  }

  lemma {:induction false} PrefixedSplit(p: string, b: seq<string>, c: seq<string>)
    ensures Prefixed(p, b + c) == Prefixed(p, b) + Prefixed(p, c)
  {
  }

  lemma {:induction false} PrefixedTwice(p: string, q: string, b: seq<string>)
    ensures Prefixed(p, Prefixed(q, b)) == Prefixed(p + q, b)
  {
    var left, right := Prefixed(p, Prefixed(q, b)), Prefixed(p + q, b);
    forall k | 0 <= k < |b| ensures left[k] == right[k] {
      JoinedTwice(p, q, b[k]);
    }
  }

  lemma JoinedTwice(p: string, q: string, s: string)
    ensures p + (q + s) == (p + q) + s
  {
  }

  lemma {:induction false} PrefixedCross(p: string, a: seq<string>, b: seq<string>)
    ensures Prefixed(p, Cross(a, b)) == Cross(Prefixed(p, a), b)
  {
    if a != [] {
      PrefixedSplit(p, Prefixed(a[0], b), Cross(a[1..], b));
      PrefixedTwice(p, a[0], b);
      PrefixedCross(p, a[1..], b);
      assert Prefixed(p, a)[1..] == Prefixed(p, a[1..]);
    }
  }

  lemma {:induction false} CrossAppend(a: seq<string>, a': seq<string>, b: seq<string>)
    ensures Cross(a + a', b) == Cross(a, b) + Cross(a', b)
  {
    if a == [] {
      assert a + a' == a';
    } else {
      assert (a + a')[1..] == a[1..] + a';
      CrossAppend(a[1..], a', b);
    }
  }

  lemma {:induction false} CrossAssociative(a: seq<string>, b: seq<string>, c: seq<string>)
    ensures Cross(Cross(a, b), c) == Cross(a, Cross(b, c))
  {
    if a != [] {
      CrossAppend(Prefixed(a[0], b), Cross(a[1..], b), c);
      PrefixedCross(a[0], b, c);
      CrossAssociative(a[1..], b, c);
    }
  }
}
