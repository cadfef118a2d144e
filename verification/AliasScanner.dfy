// The scanners of bash/alias.c. A line is a string; one past its end stands
// for the terminator, and no scanner goes beyond it.

module AliasScanner {
  import opened Numerals

  predicate Whitespace(c: char) { c == ' ' || c == '\t' }

  predicate SelfDelimiting(c: char) { c in {' ', '\t', '\n', '\r', ';', '|', '&', '(', ')'} }

  predicate CommandSeparator(c: char) { c in {'\r', '\n', ';', '|', '&', '('} }

  predicate QuoteChar(c: char) { c == '\'' || c == '"' }

  // ---------------------------------------------------------------- quoted strings

  // From inside a quoted string: its closing quote, or the end of the line.
  function QuoteEnd(s: string, i: nat, delimiter: char): (r: nat)
    requires i <= |s|
    ensures i <= r <= |s| && (r < |s| ==> s[r] == delimiter)
    decreases |s| - i
  {
    if i == |s| then i
    else if s[i] == '\\' then if i + 1 == |s| then |s| else QuoteEnd(s, i + 2, delimiter)
    else if s[i] == delimiter then i
    else QuoteEnd(s, i + 1, delimiter)
  }

  // Going on from i a character at a time, an escaped one with its backslash,
  // one comes to k.
  predicate Reaches(s: string, i: nat, k: nat)
    requires k <= |s|
    decreases k - i
  {
    i == k || (i < k && Reaches(s, i + if s[i] == '\\' then 2 else 1, k))
  }

  // It is the first delimiter that is not escaped.
  lemma {:induction false} QuoteEndIsFirst(s: string, i: nat, delimiter: char)
    requires i <= |s| && delimiter != '\\'
    ensures var r := QuoteEnd(s, i, delimiter);
            (r < |s| ==> Reaches(s, i, r)) && forall k :: i <= k < r && Reaches(s, i, k) ==> s[k] != delimiter
    decreases |s| - i
  {
    if i < |s| && (s[i] == '\\' || s[i] != delimiter) {
      var n := i + if s[i] == '\\' then 2 else 1;
      if n <= |s| { QuoteEndIsFirst(s, n, delimiter); }
    }
  }

  method SkipQuotes(s: string, start: nat) returns (i: nat)
    requires start < |s| && QuoteChar(s[start])
    ensures i == QuoteEnd(s, start + 1, s[start])
  {
    var delimiter := s[start];
    i := start + 1;
    while i < |s|
      invariant start < i <= |s|
      invariant QuoteEnd(s, i, delimiter) == QuoteEnd(s, start + 1, delimiter)
    {
      if s[i] == '\\' {
        i := i + 1;
        if i == |s| { return; }
      } else if s[i] == delimiter {
        return;
      }
      i := i + 1;
    }
  }

  // ---------------------------------------------------------------- white space and quoted words

  // A word starts here: no white space, separator, quote, or escape.
  predicate StopsSkipping(s: string, i: nat)
    requires i < |s|
  {
    var c := s[i];
    !Whitespace(c) && !CommandSeparator(c) && !QuoteChar(c) && (c == '\\' ==> i + 1 == |s|)
  }

  // Where the skipping from i ends, and whether a command separator was seen.
  // `inWord` says that a quoted word is being passed through.
  function Skip(s: string, i: nat, inWord: bool, sep: bool): (r: (nat, bool))
    requires i <= |s|
    ensures i <= r.0 <= |s| && (sep ==> r.1)
    ensures r.0 < |s| ==> StopsSkipping(s, r.0)
    decreases |s| - i
  {
    if i == |s| then (i, sep)
    else if Whitespace(s[i]) then Skip(s, i + 1, false, sep)
    else if s[i] == '\\' then
      if i + 1 == |s| then (i, sep)
      else if IsAlpha(s[i + 1]) then Skip(s, i + 1, true, sep)
      else Skip(s, i + 2, inWord, sep)
    else if QuoteChar(s[i]) then
      var e := QuoteEnd(s, i + 1, s[i]);
      if e == |s| then (e, sep)
      else Skip(s, e + 1, inWord || (e + 1 < |s| && IsAlpha(s[e + 1])), sep)
    else if inWord then Skip(s, i + 1, true, sep)
    else if CommandSeparator(s[i]) then Skip(s, i + 1, false, true)
    else (i, sep)
  }

  // A separator is only reported if one was skipped, and nothing that is
  // skipped could have been the start of a plain word.
  lemma {:induction false} SkipSees(s: string, i: nat, inWord: bool, sep: bool)
    requires i <= |s|
    ensures var (r, sep') := Skip(s, i, inWord, sep);
            (sep' && !sep ==> exists k :: i <= k < r && CommandSeparator(s[k]))
            && (i < r && !inWord ==> Whitespace(s[i]) || CommandSeparator(s[i]) || QuoteChar(s[i]) || s[i] == '\\')
    decreases |s| - i
  {
    if i < |s| {
      if Whitespace(s[i]) {
        SkipSees(s, i + 1, false, sep);
      } else if s[i] == '\\' {
        if i + 1 < |s| {
          if IsAlpha(s[i + 1]) { SkipSees(s, i + 1, true, sep); } else { SkipSees(s, i + 2, inWord, sep); }
        }
      } else if QuoteChar(s[i]) {
        var e := QuoteEnd(s, i + 1, s[i]);
        if e < |s| { SkipSees(s, e + 1, inWord || (e + 1 < |s| && IsAlpha(s[e + 1])), sep); }
      } else if inWord {
        SkipSees(s, i + 1, true, sep);
      } else if CommandSeparator(s[i]) {
        SkipSees(s, i + 1, false, true);
      }
    }
  }

  // A quoted word, once begun, is passed through up to a blank or the end.
  lemma {:induction false} SkipsQuotedWord(s: string, i: nat, sep: bool)
    requires i <= |s|
    ensures var r := Skip(s, i, true, sep).0; r == |s| || r + 1 == |s| || exists k :: i <= k < r && Whitespace(s[k])
    decreases |s| - i
  {
    if i < |s| && !Whitespace(s[i]) {
      if s[i] == '\\' {
        if i + 1 < |s| { SkipsQuotedWord(s, if IsAlpha(s[i + 1]) then i + 1 else i + 2, sep); }
      } else if QuoteChar(s[i]) {
        var e := QuoteEnd(s, i + 1, s[i]);
        if e < |s| { SkipsQuotedWord(s, e + 1, sep); }
      } else {
        SkipsQuotedWord(s, i + 1, sep);
      }
    } else if i < |s| {
      assert i < Skip(s, i, true, sep).0;
    }
  }

  // So does a word that begins with a backslash before a letter.
  lemma EscapedWord(s: string, i: nat, sep: bool)
    requires i + 1 < |s| && s[i] == '\\' && IsAlpha(s[i + 1])
    ensures var r := Skip(s, i, false, sep).0; r == |s| || r + 1 == |s| || exists k :: i < k < r && Whitespace(s[k])
  {
    hide Skip, Whitespace;
    SkipStarts(s, i, sep);
    SkipsQuotedWord(s, i + 1, sep);
  }

  lemma SkipStarts(s: string, i: nat, sep: bool)
    requires i + 1 < |s| && s[i] == '\\' && IsAlpha(s[i + 1])
    ensures Skip(s, i, false, sep) == Skip(s, i + 1, true, sep)
  {
  }

  method SkipWs(s: string, start: nat, commandWord: bool) returns (i: nat, sep: bool)
    requires start <= |s|
    ensures (i, sep) == Skip(s, start, false, commandWord)
  {
    hide QuoteEnd, StopsSkipping, IsAlpha, CommandSeparator;
    var passNext, quotedWord := false, 0;
    i, sep := start, commandWord;
    while i < |s|
      invariant start <= i <= |s| && quotedWord >= 0
      invariant passNext ==> i < |s|
      invariant Skip(s, if passNext then i + 1 else i, quotedWord > 0, sep) == Skip(s, start, false, commandWord)
      decreases |s| - i
    {
      if passNext {
        passNext := false;
      } else if Whitespace(s[i]) {
        quotedWord := 0;
      } else if s[i] == '\\' {
        if i + 1 == |s| { return; }
        if IsAlpha(s[i + 1]) { quotedWord := quotedWord + 1; } else { passNext := true; }
      } else if QuoteChar(s[i]) {
        i := SkipQuotes(s, i);
        if i == |s| { return; }
        if i + 1 < |s| && IsAlpha(s[i + 1]) { quotedWord := quotedWord + 1; }
      } else if quotedWord > 0 {
      } else if CommandSeparator(s[i]) {
        sep := true;
      } else {
        return;
      }
      i := i + 1;
    }
  }

  // ---------------------------------------------------------------- tokens

  predicate EndsToken(c: char) { Whitespace(c) || SelfDelimiting(c) }

  function TokenEnd(s: string, i: nat): (r: nat)
    requires i <= |s|
    ensures i <= r <= |s| && (r < |s| ==> EndsToken(s[r]))
    decreases |s| - i
  {
    if i == |s| || EndsToken(s[i]) then i
    else if s[i] == '\\' then if i + 1 == |s| then |s| else TokenEnd(s, i + 2)
    else if QuoteChar(s[i]) then
      var e := QuoteEnd(s, i + 1, s[i]);
      if e == |s| then e else TokenEnd(s, e + 1)
    else TokenEnd(s, i + 1)
  }

  // Going on from i, past escaped characters and quoted strings, one comes to k.
  predicate ReachesUnquoted(s: string, i: nat, k: nat)
    requires k <= |s|
    decreases k - i
  {
    i == k ||
    (i < k && ReachesUnquoted(s, if s[i] == '\\' then i + 2
                                 else if QuoteChar(s[i]) then QuoteEnd(s, i + 1, s[i]) + 1 else i + 1, k))
  }

  // It is the first delimiter that is neither escaped nor quoted.
  lemma {:induction false} TokenEndIsFirst(s: string, i: nat)
    requires i <= |s|
    ensures var r := TokenEnd(s, i);
            (r < |s| ==> ReachesUnquoted(s, i, r))
            && forall k :: i <= k < r && ReachesUnquoted(s, i, k) ==> !EndsToken(s[k])
    decreases |s| - i
  {
    if i < |s| && !EndsToken(s[i]) {
      var n := if s[i] == '\\' then i + 2 else if QuoteChar(s[i]) then QuoteEnd(s, i + 1, s[i]) + 1 else i + 1;
      if n <= |s| { TokenEndIsFirst(s, n); }
    }
  }

  method RdToken(s: string, start: nat) returns (i: nat)
    requires start <= |s|
    ensures i == TokenEnd(s, start)
  {
    i := start;
    while i < |s| && !EndsToken(s[i])
      invariant start <= i <= |s| && TokenEnd(s, i) == TokenEnd(s, start)
      decreases |s| - i
    {
      if s[i] == '\\' {
        i := i + 1;
        if i == |s| { return; }
      } else if QuoteChar(s[i]) {
        i := SkipQuotes(s, i);
        if i == |s| { return; }
      }
      i := i + 1;
    }
  }
}
