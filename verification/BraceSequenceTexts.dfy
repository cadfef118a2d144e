// What {x..y} and {x..y..incr} expand to, as texts: numerals with any sign
// and any number of leading zeros, and letters.

module BraceSequenceTexts {
  import opened Options
  import opened Numerals
  import opened BraceSyntax
  import opened BraceSequences
  import BraceTrees
  import BraceExpansion

  // The text of one end of a sequence and its value.
  ghost predicate EndText(kind: TermType, s: string, n: int) {
    if kind == IntTerm then NumeralText(s, n) && InRange(n)
    else |s| == 1 && IsAlpha(s[0]) && n == s[0] as int
  }

  // The optional increment.
  ghost predicate IncrementText(suffix: string, incr: int) {
    || (suffix == "" && incr == 1)
    || (|suffix| > 2 && suffix[..2] == ".." && NumeralText(suffix[2..], incr) && InRange(incr))
  }

  function StyleOf(kind: TermType, lhs: string, rhs: string): Style
    requires lhs != "" && rhs != ""
  {
    if kind == IntTerm then PadWidth(lhs, rhs) else Letter
  }

  // ---------------------------------------------------------------- padding

  predicate LeadingZero(s: string) {
    (|s| > 1 && s[0] == '0') || (|s| > 2 && s[0] == '-' && s[1] == '0')
  }

  lemma PaddedExactly(lhs: string, rhs: string)
    requires lhs != "" && rhs != ""
    ensures PadWidth(lhs, rhs) ==
              if LeadingZero(lhs) || LeadingZero(rhs) then Padded(if |lhs| < |rhs| then |rhs| else |lhs|) else Plain
  {
  }

  // Between numerals: where either has a leading zero a term is as long as the
  // longer one, and every term denotes its number.
  lemma TermPadded(a: int, b: int, lhs: string, rhs: string, n: int)
    requires EndText(IntTerm, lhs, a) && EndText(IntTerm, rhs, b) && (a <= n <= b || b <= n <= a)
    ensures var t := Term(n, PadWidth(lhs, rhs));
            && StrToIMax(t) == Parsed(n, "", false)
            && (LeadingZero(lhs) || LeadingZero(rhs) ==> |t| == if |lhs| < |rhs| then |rhs| else |lhs|)
  {
    hide Itos, StrToIMax, AllDigits, Signed, ZeroPadded, DecimalValue;
    PaddedExactly(lhs, rhs);
    NumeralLength(lhs, a);
    NumeralLength(rhs, b);
    if a <= b { ItosBetween(a, n, b); } else { ItosBetween(b, n, a); }
    var t := Term(n, PadWidth(lhs, rhs));
    assert t + "" == t;
    PaddedReadsBack(n, if |lhs| < |rhs| then |rhs| else |lhs|, "");
    ItosReadsBack(n, "");
    assert Itos(n) + "" == Itos(n);
  }

  // ---------------------------------------------------------------- reading the ends

  lemma NumeralChars(s: string, n: int)
    requires NumeralText(s, n)
    ensures forall i :: 0 <= i < |s| ==> IsDigit(s[i]) || (i == 0 && (s[i] == '-' || s[i] == '+'))
    ensures IsDigit(s[0]) || ((s[0] == '-' || s[0] == '+') && |s| > 1 && IsDigit(s[1]))
  {
    var d := if s[0] == '-' || s[0] == '+' then s[1..] else s;
    assert forall i :: 0 < i < |s| ==> s[i] == d[i - (|s| - |d|)];
    assert IsDigit(d[0]);
  }

  lemma EndChars(kind: TermType, s: string, n: int)
    requires EndText(kind, s, n)
    ensures s != "" && BraceTrees.PlainText(s) && '.' !in s && !IsSpace(s[0])
    ensures kind == IntTerm ==> LooksInteger(s)
  {
    hide AllDigits, DecimalValue;
    if kind == IntTerm { NumeralChars(s, n); }
  }

  lemma IncrementChars(suffix: string, incr: int)
    requires IncrementText(suffix, incr)
    ensures BraceTrees.PlainText(suffix) && (suffix != "" ==> suffix[0] == '.')
  {
    hide AllDigits, DecimalValue;
    if suffix != "" {
      NumeralChars(suffix[2..], incr);
      forall i | 0 <= i < |suffix| ensures BraceTrees.PlainChar(suffix[i]) {
        assert suffix[i] == if i < 2 then suffix[..2][i] else suffix[2..][i - 2];
      }
      assert suffix[0] == suffix[..2][0];
    }
  }

  lemma ReadsIncrement(suffix: string, incr: int)
    requires IncrementText(suffix, incr)
    ensures Increment(suffix) == Some(incr)
  {
    hide NumeralText;
    if suffix != "" {
      assert suffix[0] == suffix[..2][0] && suffix[1] == suffix[..2][1];
      NumeralReads(suffix[2..], incr, "");
      assert suffix[2..] + "" == suffix[2..];
    }
  }

  lemma ReadsRight(kind: TermType, s: string, n: int, suffix: string, incr: int)
    requires kind != BadTerm && EndText(kind, s, n) && IncrementText(suffix, incr)
    ensures ReadRight(s + suffix) == Some(RightEnd(n, kind, incr, s))
  {
    hide NumeralText, Increment, StrToIMax;
    var rhs := s + suffix;
    EndChars(kind, s, n);
    IncrementChars(suffix, incr);
    ReadsIncrement(suffix, incr);
    assert rhs[0] == s[0] && (|s| > 1 ==> rhs[1] == s[1]);
    if kind == IntTerm {
      NumeralReads(s, n, suffix);
      assert rhs[..|rhs| - |suffix|] == s;
    } else {
      assert rhs[1..] == suffix && rhs[..1] == s && (suffix != "" ==> rhs[1] == suffix[0]);
    }
  }

  lemma ReadsLeft(s: string, n: int)
    requires EndText(IntTerm, s, n)
    ensures ValidNumber(s) == Some(n)
  {
    hide NumeralText, StrToIMax;
    NumeralReads(s, n, "");
    assert s + "" == s;
    EndChars(IntTerm, s, n);
  }

  lemma {:induction false} FindsDots(a: string, b: string)
    requires '.' !in a && |b| > 0
    ensures FindDots(a + ".." + b) == |a|
  {
    var s := a + ".." + b;
    if a != "" {
      assert s[1..] == a[1..] + ".." + b;
      FindsDots(a[1..], b);
    }
  }

  lemma ReadsSequence(kind: TermType, lhs: string, a: int, rhs: string, b: int, suffix: string, incr: int)
    requires kind != BadTerm && EndText(kind, lhs, a) && EndText(kind, rhs, b) && IncrementText(suffix, incr)
    ensures lhs != "" && rhs != ""
    ensures ExpandSeqTerm(lhs + ".." + (rhs + suffix)) == SequenceTerms(a, b, incr, StyleOf(kind, lhs, rhs))
  {
    hide NumeralText, ReadRight, SequenceTerms, FindDots, PadWidth, ValidNumber;
    var amble := lhs + ".." + (rhs + suffix);
    EndChars(kind, lhs, a);
    EndChars(kind, rhs, b);
    FindsDots(lhs, rhs + suffix);
    assert amble[..|lhs|] == lhs && amble[|lhs| + 2..] == rhs + suffix;
    ReadsRight(kind, rhs, b, suffix, incr);
    if kind == IntTerm { ReadsLeft(lhs, a); }
  }

  // ---------------------------------------------------------------- finding the expression

  // From inside {a..b} the scanner finds the close brace and sees a sequence.
  lemma ScansSequence(text: string, i: nat, lhs: string, rest: string)
    requires BraceTrees.PlainText(lhs) && '.' !in lhs
    requires BraceTrees.PlainText(rest) && rest != "" && rest[0] != '.'
    requires BraceTrees.Holds(text, i, lhs + (".." + rest)) && i + |lhs| + 2 + |rest| < |text|
    requires text[i + |lhs| + 2 + |rest|] == '}'
    ensures GobbleFrom(text, i, '}') == Stop(i + |lhs| + 2 + |rest|, true, SeqKind)
  {
    hide Gobble;
    var dots := i + |lhs|;
    BraceTrees.HoldsParts(text, i, lhs, ".." + rest);
    BraceTrees.HoldsParts(text, dots, "..", rest);
    var s1 := BraceTrees.ScanPlain(text, i, lhs, '}', StartScan('}'));
    assert text[dots] == text[dots..dots + 2][0] && text[dots + 1] == text[dots..dots + 2][1];
    assert text[dots + 2] == text[dots + 2..dots + 2 + |rest|][0] == rest[0];
    PassDots(text, dots);
    var s2 := BraceTrees.ScanPlain(text, dots + 2, rest, '}', Scan(0, '\0', false, 1, SeqKind));
    BraceTrees.StopsAtClose(text, dots + 2 + |rest|, s2);
  }

  lemma PassDots(text: string, i: nat)
    requires i + 2 < |text| && text[i] == '.' && text[i + 1] == '.' && text[i + 2] != '}'
    ensures Gobble(text, i, '}', StartScan('}')) == Gobble(text, i + 2, '}', Scan(0, '\0', false, 1, SeqKind))
  {
  }

  lemma OpensAtStart(text: string, close: nat)
    requires 1 < close < |text| && text[0] == '{' && BraceTrees.PlainChar(text[1])
    requires GobbleFrom(text, 1, '}') == Stop(close, true, SeqKind) && ValidSeqTerm(text[1..], close - 1)
    ensures FindOpen(text, 0) == 0
  {
  }

  lemma SeqTermValid(kind: TermType, lhs: string, a: int, rhs: string, b: int, suffix: string, incr: int)
    requires kind != BadTerm && EndText(kind, lhs, a) && EndText(kind, rhs, b) && IncrementText(suffix, incr)
    ensures var amble := lhs + ".." + (rhs + suffix);
            ValidSeqTerm(amble + "}", |amble|)
  {
    hide NumeralText, FindDots;
    EndChars(kind, lhs, a);
    EndChars(kind, rhs, b);
    IncrementChars(suffix, incr);
    var amble := lhs + ".." + (rhs + suffix);
    FindsDots(lhs, rhs + suffix);
    assert (amble + "}")[..|amble|] == amble;
    var right := (amble + "}")[|lhs| + 2..];
    assert right == rhs + suffix + "}";
    assert amble[0] == lhs[0] && amble[1] == (if |lhs| > 1 then lhs[1] else '.');
    assert right[0] == rhs[0] && right[1] == if |rhs| > 1 then rhs[1] else if suffix == "" then '}' else suffix[0];
  }

  lemma FindsSequence(kind: TermType, lhs: string, a: int, rhs: string, b: int, suffix: string, incr: int)
    requires kind != BadTerm && EndText(kind, lhs, a) && EndText(kind, rhs, b) && IncrementText(suffix, incr)
    ensures var amble := lhs + ".." + (rhs + suffix);
            var text := "{" + amble + "}";
            FindOpen(text, 0) == 0 && GobbleFrom(text, 1, '}') == Stop(1 + |amble|, true, SeqKind)
  {
    hide EndText, IncrementText, Gobble, FindOpen, ValidSeqTerm, FindDots;
    var rest := rhs + suffix;
    var amble := lhs + ".." + rest;
    var text := "{" + amble + "}";
    EndChars(kind, lhs, a);
    EndChars(kind, rhs, b);
    IncrementChars(suffix, incr);
    assert text[1..1 + |amble|] == amble == lhs + (".." + rest) && text[1..] == amble + "}";
    assert rest[0] == rhs[0] && rhs[0] in rhs && BraceTrees.PlainText(rest);
    ScansSequence(text, 1, lhs, rest);
    SeqTermValid(kind, lhs, a, rhs, b, suffix, incr);
    assert text[1] == lhs[0];
    OpensAtStart(text, 1 + |amble|);
  }

  // ---------------------------------------------------------------- expansion

  // The ends being numerals or letters, the text expands to the terms from a
  // towards b, unless a difference is out of range: then it is left as it is.
  lemma ExpandSequence(kind: TermType, lhs: string, a: int, rhs: string, b: int, suffix: string, incr: int)
    requires kind != BadTerm && EndText(kind, lhs, a) && EndText(kind, rhs, b) && IncrementText(suffix, incr)
    ensures lhs != "" && rhs != ""
    ensures var text := "{" + (lhs + ".." + (rhs + suffix)) + "}";
            var i := if incr < 0 then -incr else if incr == 0 then 1 else incr;
            if incr == INTMAX_MIN || b - a > INTMAX_MAX || a - b > INTMAX_MAX then Expand(text) == [text]
            else && |Expand(text)| == (if a <= b then b - a else a - b) / i + 1
                 && forall k :: 0 <= k < |Expand(text)| ==>
                      Expand(text)[k] == Term(if a <= b then a + k * i else a - k * i, StyleOf(kind, lhs, rhs))
  {
    ExpandsToTerms(kind, lhs, a, rhs, b, suffix, incr);
    hide Expand, Term, StyleOf, EndText, IncrementText, Toward, TermCount, Terms;
    StepsFromTheEnds(a, b, incr, StyleOf(kind, lhs, rhs));
  }

  // The k-th of the words a sequence text expands to.
  lemma TermAt(kind: TermType, lhs: string, a: int, rhs: string, b: int, suffix: string, incr: int, k: nat) returns (n: int)
    requires kind != BadTerm && EndText(kind, lhs, a) && EndText(kind, rhs, b) && IncrementText(suffix, incr)
    requires incr != INTMAX_MIN && b - a <= INTMAX_MAX && a - b <= INTMAX_MAX
    requires k < |Expand("{" + (lhs + ".." + (rhs + suffix)) + "}")|
    ensures var i := if incr < 0 then -incr else if incr == 0 then 1 else incr;
            n == (if a <= b then a + k * i else a - k * i) && (a <= n <= b || b <= n <= a)
    ensures lhs != "" && rhs != ""
    ensures Expand("{" + (lhs + ".." + (rhs + suffix)) + "}")[k] == Term(n, StyleOf(kind, lhs, rhs))
  {
    ExpandSequence(kind, lhs, a, rhs, b, suffix, incr);
    hide EndText, IncrementText, Expand, Term, StyleOf;
    var i := if incr < 0 then -incr else if incr == 0 then 1 else incr;
    Within(a, b, i, k);
    n := if a <= b then a + k * i else a - k * i;
  }

  // Between numerals every word denotes its number, and where either has a
  // leading zero it is as long as the longer one.
  lemma TermsPadded(lhs: string, a: int, rhs: string, b: int, suffix: string, incr: int, k: nat)
    requires EndText(IntTerm, lhs, a) && EndText(IntTerm, rhs, b) && IncrementText(suffix, incr)
    requires incr != INTMAX_MIN && b - a <= INTMAX_MAX && a - b <= INTMAX_MAX
    requires k < |Expand("{" + (lhs + ".." + (rhs + suffix)) + "}")|
    ensures var i := if incr < 0 then -incr else if incr == 0 then 1 else incr;
            var t := Expand("{" + (lhs + ".." + (rhs + suffix)) + "}")[k];
            && StrToIMax(t) == Parsed(if a <= b then a + k * i else a - k * i, "", false)
            && (LeadingZero(lhs) || LeadingZero(rhs) ==> |t| == if |lhs| < |rhs| then |rhs| else |lhs|)
  {
    hide EndText, IncrementText, Expand, Term, StrToIMax, LeadingZero;
    var n := TermAt(IntTerm, lhs, a, rhs, b, suffix, incr, k);
    TermPadded(a, b, lhs, rhs, n);
  }

  // Between letters every word is one character, at its place between them.
  lemma TermsLetters(lhs: string, a: int, rhs: string, b: int, suffix: string, incr: int, k: nat)
    requires EndText(CharTerm, lhs, a) && EndText(CharTerm, rhs, b) && IncrementText(suffix, incr) && incr != INTMAX_MIN
    requires k < |Expand("{" + (lhs + ".." + (rhs + suffix)) + "}")|
    ensures var i := if incr < 0 then -incr else if incr == 0 then 1 else incr;
            var t := Expand("{" + (lhs + ".." + (rhs + suffix)) + "}")[k];
            |t| == 1 && t[0] as int == (if a <= b then a + k * i else a - k * i) && 'A' <= t[0] <= 'z'
  {
    hide IncrementText, Expand, EndText;
    LetterValue(lhs, a);
    LetterValue(rhs, b);
    var n := TermAt(CharTerm, lhs, a, rhs, b, suffix, incr, k);
  }

  lemma LetterValue(s: string, n: int)
    requires EndText(CharTerm, s, n)
    ensures 'A' as int <= n <= 'z' as int
  {
  }

  lemma Within(a: int, b: int, i: int, k: nat)
    requires i > 0 && k < (if a <= b then b - a else a - b) / i + 1
    ensures a <= b ==> a <= a + k * i <= b
    ensures b <= a ==> b <= a - k * i <= a
  {
    var d := if a <= b then b - a else a - b;
    MulMonotonic(i, k, d / i);
    assert i * (d / i) <= d;
    assert k * i == i * k;
  }

  lemma ExpandsToTerms(kind: TermType, lhs: string, a: int, rhs: string, b: int, suffix: string, incr: int)
    requires kind != BadTerm && EndText(kind, lhs, a) && EndText(kind, rhs, b) && IncrementText(suffix, incr)
    ensures lhs != "" && rhs != ""
    ensures var text := "{" + (lhs + ".." + (rhs + suffix)) + "}";
            Expand(text) == if SequenceOverflows(a, b, incr) then [text]
                            else Terms(a, Toward(a, b, incr), TermCount(a, b, incr), StyleOf(kind, lhs, rhs))
  {
    hide *;
    var amble := lhs + ".." + (rhs + suffix);
    FindsSequence(kind, lhs, a, rhs, b, suffix, incr);
    ReadsSequence(kind, lhs, a, rhs, b, suffix, incr);
    OneSequence("{" + amble + "}", amble);
    WhatSequence(a, b, incr, StyleOf(kind, lhs, rhs));
  }

  // A text that is nothing but a sequence expression, or looks like one.
  lemma OneSequence(text: string, amble: string)
    requires text == "{" + amble + "}" && FindOpen(text, 0) == 0
    requires GobbleFrom(text, 1, '}') == Stop(1 + |amble|, true, SeqKind)
    ensures Expand(text) == if ExpandSeqTerm(amble).Some? then ExpandSeqTerm(amble).value else [text]
  {
    hide *;
    BraceExpansion.ExpandUnfolds(text);
    InBraces(text, amble);
    PrefixedEmpty(if ExpandSeqTerm(amble).Some? then ExpandSeqTerm(amble).value else [text]);
  }

  lemma WhatSequence(a: int, b: int, incr: int, style: Style)
    ensures SequenceTerms(a, b, incr, style) == if SequenceOverflows(a, b, incr) then None
              else Some(Terms(a, Toward(a, b, incr), TermCount(a, b, incr), style))
  {
  }

  // ---------------------------------------------------------------- nothing else is a sequence

  predicate NoSpace(s: string) { forall i :: 0 <= i < |s| ==> !IsSpace(s[i]) }

  // What strtoimax has read, without white space about, is a numeral.
  lemma NumeralBack(s: string)
    requires NoSpace(s) && !StrToIMax(s).erange && StrToIMax(s).rest != s
    ensures var p := StrToIMax(s);
            var k := |s| - |p.rest|;
            NumeralText(s[..k], p.value) && s[k..] == p.rest
  {
    hide DecimalValue;
    var sign := s != "" && (s[0] == '-' || s[0] == '+');
    var d := if sign then s[1..] else s;
    var k := DigitRun(d);
    if k > 0 {
      assert s != "";
      var read := s[..|s| - |d[k..]|];
      assert d[k..] == s[|s| - |d[k..]|..];
      assert (if sign then read[1..] else read) == d[..k];
      assert read[0] == s[0];
    }
  }

  lemma IncrementBack(ep: string)
    requires NoSpace(ep) && Increment(ep).Some?
    ensures IncrementText(ep, Increment(ep).value)
  {
    hide StrToIMax, NumeralText;
    if ep != "" {
      assert ep[..2] == "..";
      NumeralBack(ep[2..]);
      assert ep[2..][..|ep| - 2] == ep[2..];
    }
  }

  lemma RightBack(rhs: string) returns (suffix: string)
    requires NoSpace(rhs) && ReadRight(rhs).Some?
    ensures var right := ReadRight(rhs).value;
            && right.kind != BadTerm && rhs == right.text + suffix && EndText(right.kind, right.text, right.value)
            && IncrementText(suffix, right.incr)
  {
    hide StrToIMax, NumeralText, Increment, IncrementText;
    if LooksInteger(rhs) {
      var p := StrToIMax(rhs);
      suffix := p.rest;
      if p.rest == rhs { RightNumber(rhs); }
      NumeralBack(rhs);
      IncrementBack(suffix);
      assert rhs == rhs[..|rhs| - |suffix|] + suffix;
    } else {
      suffix := rhs[1..];
      IncrementBack(suffix);
      assert rhs == rhs[..1] + suffix;
    }
  }

  lemma RightNumber(rhs: string)
    requires LooksInteger(rhs)
    ensures StrToIMax(rhs).rest != rhs
  {
    var d := if rhs[0] == '-' || rhs[0] == '+' then rhs[1..] else rhs;
    assert IsDigit(d[0]);
  }

  lemma LeftBack(lhs: string)
    requires NoSpace(lhs) && ValidNumber(lhs).Some?
    ensures EndText(IntTerm, lhs, ValidNumber(lhs).value)
  {
    hide NumeralText, StrToIMax;
    var p := StrToIMax(lhs);
    NumeralBack(lhs);
    var k := |lhs| - |p.rest|;
    assert lhs[..|lhs|] == lhs;
  }

  // Brace text without commas, quotes or white space that does not stand for
  // itself is a sequence of numerals or letters.
  lemma OnlySequences(amble: string) returns (kind: TermType, lhs: string, a: int, rhs: string, b: int, suffix: string, incr: int)
    requires BraceTrees.PlainText(amble) && NoSpace(amble) && Expand("{" + amble + "}") != ["{" + amble + "}"]
    ensures kind != BadTerm && EndText(kind, lhs, a) && EndText(kind, rhs, b) && IncrementText(suffix, incr)
    ensures amble == lhs + ".." + (rhs + suffix)
  {
    hide Expand, EndText, IncrementText, ReadRight, ValidNumber, StrToIMax, SequenceTerms, PadWidth;
    LooksLikeSequence(amble);
    var t := FindDots(amble);
    var left, right := amble[..t], amble[t + 2..];
    assert amble == left + ".." + right;
    suffix := RightBack(right);
    var r := ReadRight(right).value;
    kind, lhs, rhs, b, incr := r.kind, left, r.text, r.value, r.incr;
    if r.kind == IntTerm {
      LeftBack(left);
      a := ValidNumber(left).value;
    } else {
      a := left[0] as int;
      LetterEnd(left);
    }
  }

  lemma LetterEnd(s: string)
    requires |s| == 1 && IsAlpha(s[0])
    ensures EndText(CharTerm, s, s[0] as int)
  {
  }

  lemma LooksLikeSequence(amble: string)
    requires BraceTrees.PlainText(amble) && Expand("{" + amble + "}") != ["{" + amble + "}"]
    ensures ExpandSeqTerm(amble).Some?
  {
    hide Expand, ExpandSeqTerm;
    if ExpandSeqTerm(amble).None? { KeptOtherwise("{" + amble + "}", amble); }
  }

  lemma KeptOtherwise(text: string, amble: string)
    requires text == "{" + amble + "}" && BraceTrees.PlainText(amble) && ExpandSeqTerm(amble).None?
    ensures Expand(text) == [text]
  {
    hide *;
    FindOpenAt(text, amble);
    if FindOpen(text, 0) == 0 {
      ClosesAtEnd(text, amble);
      OneSequence(text, amble);
    } else {
      BraceExpansion.ExpandUnfolds(text);
    }
  }

  lemma InBraces(text: string, amble: string)
    requires text == "{" + amble + "}"
    ensures text[1..|text| - 1] == amble && text[0..|text|] == text && text[..0] == "" && text[|text|..] == ""
  {
  }

  lemma FindOpenAt(text: string, amble: string)
    requires text == "{" + amble + "}" && BraceTrees.PlainText(amble)
    ensures FindOpen(text, 0) == 0 || FindOpen(text, 0) == |text|
  {
    hide Gobble, GobbleFrom, FindOpen, ValidSeqTerm, IgnoredOpen;
    BraceTrees.OpenSought(text, 0);
    BraceTrees.FindOpenIs(text, 0);
    NoneLater(text, 1);
    BraceTrees.FindOpenIs(text, 1);
  }

  lemma {:induction false} NoneLater(text: string, i: nat)
    requires 0 < i <= |text| && forall k :: 0 < k < |text| ==> BraceTrees.PlainChar(text[k]) || text[k] == '}'
    ensures !GobbleFrom(text, i, '{').hit
    decreases |text| - i
  {
    if i < |text| {
      BraceTrees.OpenSought(text, i);
      NoneLater(text, i + 1);
    }
  }

  // The closing brace is the last character, and the text a sequence.
  lemma ClosesAtEnd(text: string, amble: string)
    requires text == "{" + amble + "}" && BraceTrees.PlainText(amble)
    ensures var close := GobbleFrom(text, 1, '}'); close.hit ==> close.at == |text| - 1 && close.kind == SeqKind
  {
    assert BraceTrees.Holds(text, 1, amble) by { assert text[1..1 + |amble|] == amble; }
    var s := ScanDots(text, 1, amble, StartScan('}'));
    assert text[|text| - 1] == '}';
  }

  lemma {:induction false} ScanDots(text: string, i: nat, lit: string, s: Scan) returns (s': Scan)
    requires BraceTrees.Holds(text, i, lit) && BraceTrees.PlainText(lit)
    requires BraceTrees.Calm(s) && s.level == 0 && (s.commas > 0 ==> s.kind == SeqKind)
    ensures BraceTrees.Calm(s') && s'.level == 0 && (s'.commas > 0 ==> s'.kind == SeqKind)
    ensures Gobble(text, i, '}', s) == Gobble(text, i + |lit|, '}', s')
    decreases |lit|
  {
    s' := s;
    if lit != "" {
      BraceTrees.HoldsParts(text, i, [lit[0]], lit[1..]);
      assert [lit[0]] + lit[1..] == lit;
      BraceTrees.HoldsChar(text, i, lit[0]);
      assert BraceTrees.PlainChar(lit[0]);
      PassDot(text, i, s);
      hide Gobble, Pass, BraceTrees.PlainChar;
      s' := ScanDots(text, i + 1, lit[1..], Pass(text, i, '}', s));
    }
  }

  lemma PassDot(text: string, i: nat, s: Scan)
    requires i < |text| && BraceTrees.PlainChar(text[i])
    requires BraceTrees.Calm(s) && s.level == 0 && (s.commas > 0 ==> s.kind == SeqKind)
    ensures var s' := Pass(text, i, '}', s);
            && BraceTrees.Calm(s') && s'.level == 0 && (s'.commas > 0 ==> s'.kind == SeqKind)
            && Gobble(text, i, '}', s) == Gobble(text, i + 1, '}', s')
  {
  }
}
