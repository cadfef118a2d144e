// Alias expansion of a whole line: what was skipped is kept, and of the words
// read only whole ones that name an alias are replaced.

module AliasExpansion {
  import opened AliasScanner

  type Aliases = map<string, string>

  // A pass over the line: the text skipped, the word read, and whether the
  // word is the first of a command.
  datatype Piece = Piece(skipped: string, word: string, first: bool)

  // Where the word from i on ends; a delimiter is a word of its own.
  function WordEnd(s: string, i: nat): (r: nat)
    requires i <= |s|
    ensures i <= r <= |s| && (i < |s| ==> i < r)
  {
    var e := TokenEnd(s, i);
    if e == i && i < |s| then i + 1 else e
  }

  // The passes from i on. They do not depend on the aliases.
  function Pieces(s: string, i: nat, first: bool): seq<Piece>
    requires i <= |s|
    decreases |s| - i
  {
    if i == |s| then []
    else
      var (k, sep) := Skip(s, i, false, first);
      var e := WordEnd(s, k);
      [Piece(s[i..k], s[k..e], sep || (k < |s| && CommandSeparator(s[k])))] + Pieces(s, e, false)
  }

  function Source(ps: seq<Piece>): string {
    if ps == [] then "" else ps[0].skipped + ps[0].word + Source(ps[1..])
  }

  // Is a word in a position to be expanded, after one whose value asks for it?
  predicate Expandable(p: Piece, next: bool) {
    (p.first || next) && '\\' !in p.word
  }

  predicate Expands(p: Piece, next: bool, aliases: Aliases, all: bool) {
    p.word != "" && (Expandable(p, next) || all) && p.word in aliases
  }

  // A value that ends in a blank has the next word expanded too.
  predicate AsksForNext(p: Piece, next: bool, aliases: Aliases, all: bool)
    requires p.word in aliases
  {
    var v := aliases[p.word];
    all || (Expandable(p, next) && v != "" && Whitespace(v[|v| - 1]))
  }

  function Expanded(ps: seq<Piece>, next: bool, aliases: Aliases, all: bool): string {
    if ps == [] then ""
    else
      var p := ps[0];
      if Expands(p, next, aliases, all) then
        p.skipped + aliases[p.word] + Expanded(ps[1..], AsksForNext(p, next, aliases, all), aliases, all)
      else p.skipped + p.word + Expanded(ps[1..], false, aliases, all)
  }

  lemma PiecesStep(s: string, i: nat, first: bool)
    requires i < |s|
    ensures var (k, sep) := Skip(s, i, false, first);
            var e := WordEnd(s, k);
            var p := Piece(s[i..k], s[k..e], sep || (k < |s| && CommandSeparator(s[k])));
            Pieces(s, i, first) == [p] + Pieces(s, e, false)
  {
    hide Skip, WordEnd, CommandSeparator;
  }

  lemma ExpandedStep(p: Piece, ps: seq<Piece>, next: bool, aliases: Aliases, all: bool, before: string)
    ensures before + Expanded([p] + ps, next, aliases, all)
         == if Expands(p, next, aliases, all) then
              before + p.skipped + aliases[p.word] + Expanded(ps, AsksForNext(p, next, aliases, all), aliases, all)
            else before + p.skipped + p.word + Expanded(ps, false, aliases, all)
  {
    hide Expands, AsksForNext;
    assert ([p] + ps)[1..] == ps;
  }

  lemma AtTheEnd(s: string, first: bool, next: bool, aliases: Aliases, all: bool)
    ensures Expanded(Pieces(s, |s|, first), next, aliases, all) == ""
  {
  }

  lemma SourceStep(p: Piece, ps: seq<Piece>)
    ensures Source([p] + ps) == p.skipped + p.word + Source(ps)
  {
    assert ([p] + ps)[1..] == ps;
  }

  lemma ThreeParts(s: string, i: nat, k: nat, e: nat)
    requires i <= k <= e <= |s|
    ensures s[i..] == s[i..k] + s[k..e] + s[e..]
  {
  }

  // No text is lost: the pieces make up the line.
  lemma {:induction false} PiecesAreTheLine(s: string, i: nat, first: bool)
    requires i <= |s|
    ensures Source(Pieces(s, i, first)) == s[i..]
    decreases |s| - i
  {
    if i < |s| {
      hide Skip, WordEnd, CommandSeparator, Pieces, Source;
      var (k, sep) := Skip(s, i, false, first);
      var e := WordEnd(s, k);
      PiecesStep(s, i, first);
      PiecesAreTheLine(s, e, false);
      SourceStep(Piece(s[i..k], s[k..e], sep || (k < |s| && CommandSeparator(s[k]))), Pieces(s, e, false));
      ThreeParts(s, i, k, e);
    }
  }

  // Where no word that stands in the position for it names an alias, nothing changes.
  lemma {:induction false} ExpandsNothing(ps: seq<Piece>, aliases: Aliases, all: bool)
    requires forall k :: 0 <= k < |ps| ==> !Expands(ps[k], false, aliases, all)
    ensures Expanded(ps, false, aliases, all) == Source(ps)
  {
    if ps != [] { ExpandsNothing(ps[1..], aliases, all); }
  }

  // With no alias among the words of a line it comes back unchanged, whatever
  // its quotes and backslashes.
  lemma NothingToExpand(s: string, aliases: Aliases, all: bool)
    requires forall p :: p in Pieces(s, 0, true) ==> p.word !in aliases
    ensures Expanded(Pieces(s, 0, true), false, aliases, all) == s
  {
    var ps := Pieces(s, 0, true);
    PiecesAreTheLine(s, 0, true);
    forall k | 0 <= k < |ps| ensures !Expands(ps[k], false, aliases, all) { assert ps[k] in ps; }
    ExpandsNothing(ps, aliases, all);
    assert s[0..] == s;
  }

  // ---------------------------------------------------------------- which words are replaced

  predicate LastBlank(v: string) {
    v != "" && (v[|v| - 1] == ' ' || v[|v| - 1] == '\t')
  }

  // A word that names an alias is replaced, unless it has a backslash, if it
  // starts a command or comes after one replaced by a value that ends in a
  // blank; where all words are wanted, always. No other is.
  predicate Lawful(ps: seq<Piece>, replaced: seq<bool>, aliases: Aliases, all: bool) {
    |replaced| == |ps| &&
    forall k :: 0 <= k < |ps| ==> (replaced[k] <==> Replaces(ps, replaced, k, aliases, all))
  }

  predicate Replaces(ps: seq<Piece>, replaced: seq<bool>, k: nat, aliases: Aliases, all: bool)
    requires k < |ps| == |replaced|
  {
    var word := ps[k].word;
    && word != "" && word in aliases
    && (|| all
        || ('\\' !in word &&
            (ps[k].first ||
             (k > 0 && replaced[k - 1] && ps[k - 1].word in aliases && LastBlank(aliases[ps[k - 1].word])))))
  }

  function Spliced(ps: seq<Piece>, replaced: seq<bool>, aliases: Aliases): string
    requires |ps| == |replaced|
  {
    if ps == [] then ""
    else
      ps[0].skipped + (if replaced[0] && ps[0].word in aliases then aliases[ps[0].word] else ps[0].word)
      + Spliced(ps[1..], replaced[1..], aliases)
  }

  // `next` says that the word before the pieces was so replaced.
  lemma {:induction false} ExpandedIsLawful(ps: seq<Piece>, next: bool, aliases: Aliases, all: bool)
    returns (replaced: seq<bool>)
    ensures |replaced| == |ps| && Expanded(ps, next, aliases, all) == Spliced(ps, replaced, aliases)
    ensures forall k :: 0 <= k < |ps| ==>
              (replaced[k] <==> Replaces(ps, replaced, k, aliases, all)
                                || (k == 0 && next && ps[0].word != "" && ps[0].word in aliases && '\\' !in ps[0].word))
    decreases |ps|
  {
    replaced := [];
    if ps != [] {
      var p, now := ps[0], Expands(ps[0], next, aliases, all);
      var asks := now && AsksForNext(p, next, aliases, all);
      var rest := ExpandedIsLawful(ps[1..], asks, aliases, all);
      replaced := [now] + rest;
      assert replaced[1..] == rest;
      forall k | 0 < k < |ps| ensures replaced[k] <==> Replaces(ps, replaced, k, aliases, all) {
        assert ps[k] == ps[1..][k - 1] && replaced[k] == rest[k - 1];
        assert k > 1 ==> ps[k - 1] == ps[1..][k - 2] && replaced[k - 1] == rest[k - 2];
      }
    }
  }

  lemma {:induction false} ExpandsLawfully(ps: seq<Piece>, aliases: Aliases, all: bool)
    ensures exists replaced ::
              Lawful(ps, replaced, aliases, all) && Expanded(ps, false, aliases, all) == Spliced(ps, replaced, aliases)
  {
    var replaced := ExpandedIsLawful(ps, false, aliases, all);
    assert Lawful(ps, replaced, aliases, all);
  }

  // The law leaves no choice.
  lemma {:induction false} LawIsUnique(ps: seq<Piece>, a: seq<bool>, b: seq<bool>, aliases: Aliases, all: bool, k: nat)
    requires Lawful(ps, a, aliases, all) && Lawful(ps, b, aliases, all) && k < |ps|
    ensures a[k] == b[k]
    decreases k
  {
    assert a[k] <==> Replaces(ps, a, k, aliases, all);
    assert b[k] <==> Replaces(ps, b, k, aliases, all);
    if k > 0 { LawIsUnique(ps, a, b, aliases, all, k - 1); }
  }

  // ---------------------------------------------------------------- the words of a line

  const SEPARATORS: set<char> := {'\r', '\n', ';', '|', '&', '('}
  const BLANKS: set<char> := {' ', '\t'}

  predicate PlainLine(s: string) {
    forall k :: 0 <= k < |s| ==> s[k] != '\\' && s[k] != '\'' && s[k] != '"'
  }

  // In a line without quotes and backslashes: blanks and separators are
  // skipped; a word has neither, or is a lone closing parenthesis; and it
  // starts a command if it is the first or comes after a separator.
  predicate PlainPiece(p: Piece, isFirst: bool) {
    && (forall k :: 0 <= k < |p.skipped| ==> p.skipped[k] in BLANKS || p.skipped[k] in SEPARATORS)
    && (p.word == ")" ||
        forall k :: 0 <= k < |p.word| ==> p.word[k] !in BLANKS && p.word[k] !in SEPARATORS && p.word[k] != ')')
    && (p.first <==> isFirst || exists k :: 0 <= k < |p.skipped| && p.skipped[k] in SEPARATORS)
  }

  // No two words without something between them, parentheses aside.
  predicate Apart(p: Piece, q: Piece) {
    p.word != "" && (q.skipped != "" || q.word == ")" || p.word == ")")
  }

  lemma {:induction false} SkipPlain(s: string, i: nat, sep: bool)
    requires PlainLine(s) && i <= |s|
    ensures var (r, sep') := Skip(s, i, false, sep);
            && (forall k :: i <= k < r ==> s[k] in BLANKS || s[k] in SEPARATORS)
            && (r < |s| ==> s[r] !in BLANKS && s[r] !in SEPARATORS)
            && (sep' <==> sep || exists k :: i <= k < r && s[k] in SEPARATORS)
    decreases |s| - i
  {
    if i < |s| {
      if Whitespace(s[i]) {
        SkipPlain(s, i + 1, sep);
      } else if CommandSeparator(s[i]) {
        SkipPlain(s, i + 1, true);
      }
    }
  }

  lemma {:induction false} TokenPlain(s: string, i: nat)
    requires PlainLine(s) && i <= |s|
    ensures var e := TokenEnd(s, i);
            && (forall k :: i <= k < e ==> s[k] !in BLANKS && s[k] !in SEPARATORS && s[k] != ')')
            && (e < |s| ==> s[e] in BLANKS || s[e] in SEPARATORS || s[e] == ')')
    decreases |s| - i
  {
    if i < |s| && !EndsToken(s[i]) { TokenPlain(s, i + 1); }
  }

  // And words are as long as they can be.
  lemma {:induction false} PlainPieces(s: string, i: nat, first: bool)
    requires PlainLine(s) && i <= |s|
    ensures var ps := Pieces(s, i, first);
            && (forall k :: 0 <= k < |ps| ==> PlainPiece(ps[k], k == 0 && first))
            && (forall k :: 0 < k < |ps| ==> Apart(ps[k - 1], ps[k]))
    ensures i < |s| && s[i] == ')' ==> Pieces(s, i, first)[0].word == ")"
    decreases |s| - i
  {
    if i < |s| {
      hide Skip, TokenEnd, CommandSeparator, Whitespace, SelfDelimiting;
      var (k, sep) := Skip(s, i, false, first);
      SkipPlain(s, i, first);
      TokenPlain(s, k);
      var e := WordEnd(s, k);
      var p := Piece(s[i..k], s[k..e], sep || (k < |s| && CommandSeparator(s[k])));
      PiecesStep(s, i, first);
      FirstPiece(s, i, k, e, sep, first, p);
      PlainPieces(s, e, false);
      var rest := Pieces(s, e, false);
      if rest != [] { NextPiece(s, k, e, rest[0]); }
      var ps := [p] + rest;
      forall j | 0 < j < |ps| ensures Apart(ps[j - 1], ps[j]) {
        assert ps[j] == rest[j - 1] && (j > 1 ==> ps[j - 1] == rest[j - 2]);
      }
    }
  }

  lemma FirstPiece(s: string, i: nat, k: nat, e: nat, sep: bool, first: bool, p: Piece)
    requires PlainLine(s) && i <= k <= |s| && (k < |s| ==> k < e) && k <= e <= |s| && e == WordEnd(s, k)
    requires forall j :: i <= j < k ==> s[j] in BLANKS || s[j] in SEPARATORS
    requires k < |s| ==> s[k] !in BLANKS && s[k] !in SEPARATORS
    requires sep <==> first || exists j :: i <= j < k && s[j] in SEPARATORS
    requires p == Piece(s[i..k], s[k..e], sep || (k < |s| && CommandSeparator(s[k])))
    ensures PlainPiece(p, first) && (i < |s| && s[i] == ')' ==> p.word == ")")
  {
    hide TokenEnd;
    TokenPlain(s, k);
    if sep && !first {
      var j :| i <= j < k && s[j] in SEPARATORS;
      assert p.skipped[j - i] == s[j];
    }
    if TokenEnd(s, k) == k && k < |s| {
      assert s[k..k + 1] == ")";
    }
  }

  lemma NextPiece(s: string, k: nat, e: nat, p: Piece)
    requires PlainLine(s) && k <= e < |s| && e == WordEnd(s, k) && s[k] !in BLANKS && s[k] !in SEPARATORS
    requires p == Pieces(s, e, false)[0] && (s[e] == ')' ==> p.word == ")")
    ensures s[k..e] != "" && (p.skipped != "" || p.word == ")" || s[k..e] == ")")
  {
    hide TokenEnd, Skip;
    PiecesStep(s, e, false);
    TokenPlain(s, k);
    SkipPlain(s, e, false);
    if TokenEnd(s, k) == k {
      assert s[k] in BLANKS || s[k] in SEPARATORS || s[k] == ')';
    }
  }

  // alias_expand: every pass of its loop advances or is the last.
  method AliasExpand(s: string, aliases: Aliases, all: bool) returns (line: string)
    ensures line == Expanded(Pieces(s, 0, true), false, aliases, all)
    ensures (forall p :: p in Pieces(s, 0, true) ==> p.word !in aliases) ==> line == s
    ensures exists replaced ::
              Lawful(Pieces(s, 0, true), replaced, aliases, all) && line == Spliced(Pieces(s, 0, true), replaced, aliases)
  {
    hide Pieces, Expanded, Skip, TokenEnd, Whitespace, CommandSeparator, EndsToken, StopsSkipping, Lawful, Spliced;
    var i, expandNext, commandWord := 0, false, true;
    line := "";
    while true
      invariant i <= |s|
      invariant line + Expanded(Pieces(s, i, commandWord), expandNext, aliases, all)
             == Expanded(Pieces(s, 0, true), false, aliases, all)
      decreases |s| - i
    {
      ghost var was, next, first, from := line, expandNext, commandWord, i;
      var start := i;
      i, commandWord := SkipWs(s, start, commandWord);
      if start == i && i == |s| {
        AtTheEnd(s, first, next, aliases, all);
        break;
      }
      PiecesStep(s, from, first);
      line := line + s[start..i];
      var realStart := i;
      commandWord := commandWord || (i < |s| && CommandSeparator(s[i]));
      var expandThis := commandWord || expandNext;
      expandNext := false;
      start := i;
      i := RdToken(s, start);
      if i == start && i < |s| { i := i + 1; }
      var token := s[start..i];
      ghost var p := Piece(s[from..realStart], token, commandWord);
      ExpandedStep(p, Pieces(s, i, false), next, aliases, all, was);
      if '\\' in token { expandThis := false; }
      if token != "" && (expandThis || all) && token in aliases {
        var v := aliases[token];
        line := line + v;
        expandNext := (expandThis && v != "" && Whitespace(v[|v| - 1])) || all;
      } else {
        line := line + s[realStart..i];
      }
      commandWord := false;
    }
    if forall p :: p in Pieces(s, 0, true) ==> p.word !in aliases {
      NothingToExpand(s, aliases, all);
    }
    ExpandsLawfully(Pieces(s, 0, true), aliases, all);
  }
}
