// The algorithms of bash/braces.c, as they run: index-moving loops over the
// text and word lists built in place. Each is proved equal to its definition
// in BraceSyntax.

module BraceExpansion {
  import opened Options
  import opened Numerals
  import opened BraceSyntax
  import opened BraceSequences

  // Skip from `start` to the character matching `satisfy`, understanding quotes.
  method BraceGobbler(text: string, start: nat, satisfy: char) returns (i: nat, hit: bool, kind: Kind)
    requires start <= |text|
    ensures Stop(i, hit, kind) == GobbleFrom(text, start, satisfy)
    ensures start <= i <= |text| && (hit <==> i < |text|)
  {
    var level, quoted, passNext := 0, '\0', false;
    var commas := if satisfy == '}' then 0 else 1;
    kind := NoKind;
    i := start;
    while i < |text|
      invariant start <= i <= |text|
      invariant Gobble(text, i, satisfy, Scan(level, quoted, passNext, commas, kind)) == GobbleFrom(text, start, satisfy)
    {
      var c := text[i];
      if passNext {
        passNext := false;
        i := i + 1;
        continue;
      }
      if c == '\\' && (quoted == '\0' || quoted == '"' || quoted == '`') {
        passNext := true;
        i := i + 1;
        continue;
      }
      if quoted != '\0' {
        if c == quoted { quoted := '\0'; }
        i := i + 1;
        continue;
      }
      if c == '"' || c == '\'' || c == '`' {
        quoted := c;
        i := i + 1;
        continue;
      }
      if c == satisfy && level == 0 && commas > 0 {
        if IgnoredOpen(text, i) {
          i := i + 1;
          continue;
        }
        return i, true, kind;
      }
      if c == '{' {
        level := level + 1;
      } else if c == '}' && level > 0 {
        level := level - 1;
      } else if satisfy == '}' && c == ',' && level == 0 {
        kind := CommaKind;
        commas := commas + 1;
      } else if satisfy == '}' && IsSeqSpecifier(text, i, satisfy) && level == 0 && kind == NoKind {
        kind := SeqKind;
        commas := commas + 1;
      }
      i := i + 1;
    }
    hit := false;
  }

  // Where each combination stands in the cross product.
  lemma {:induction false} CrossAt(a: seq<string>, b: seq<string>, i: nat, j: nat)
    requires i < |a| && j < |b|
    ensures 0 <= i * |b| + j < |Cross(a, b)| && Cross(a, b)[i * |b| + j] == a[i] + b[j]
  {
    if i > 0 {
      CrossAt(a[1..], b, i - 1, j);
      OneRowDown(i, |b|);
      var k := (i - 1) * |b| + j;
      assert Cross(a, b)[|b| + k] == Cross(a[1..], b)[k];
    }
  }

  lemma OneRowDown(i: nat, n: nat)
    requires i > 0
    ensures (i - 1) * n + n == i * n
  {
  }

  lemma {:induction false} CrossLength(a: seq<string>, b: seq<string>)
    ensures |Cross(a, b)| == |a| * |b|
  {
    if a != [] {
      CrossLength(a[1..], b);
      OneRowDown(|a|, |b|);
    }
  }

  // Each string of arr2 appended to each string of arr1, written into storage
  // allocated up front.
  method ArrayConcat(arr1: seq<string>, arr2: seq<string>) returns (r: seq<string>)
    ensures r == Cross(arr1, arr2)
  {
    hide Cross, Prefixed;
    if arr1 == [""] {
      CrossSingle("", arr2);
      PrefixedEmpty(arr2);
      return arr2;
    }
    if arr2 == [""] {
      CrossUnit(arr1);
      return arr1;
    }
    ghost var cross := Cross(arr1, arr2);
    CrossLength(arr1, arr2);
    var len1, len2 := |arr1|, |arr2|;
    var result := new string[len1 * len2];
    var len, i := 0, 0;
    while i < len1
      invariant 0 <= i <= len1 && len == i * len2
      invariant len <= result.Length && forall k :: 0 <= k < len ==> result[k] == cross[k]
    {
      var j := 0;
      while j < len2
        invariant 0 <= j <= len2 && len == i * len2 + j
        invariant len <= result.Length && forall k :: 0 <= k < len ==> result[k] == cross[k]
      {
        CrossAt(arr1, arr2, i, j);
        result[len] := arr1[i] + arr2[j];
        len := len + 1;
        j := j + 1;
      }
      OneRowDown(i + 1, len2);
      i := i + 1;
    }
    r := result[..];
  }

  // The first open brace that begins a valid brace expression, if any.
  method FindBraceExpression(text: string) returns (i: nat, found: bool)
    ensures i == FindOpen(text, 0) && (found <==> i < |text|)
  {
    hide Gobble, GobbleFrom, ValidSeqTerm;
    i := 0;
    while true
      invariant 0 <= i <= |text|
      invariant FindOpen(text, i) == FindOpen(text, 0)
      decreases |text| - i
    {
      var hit, kind;
      i, hit, kind := BraceGobbler(text, i, '{');
      if i >= |text| { return i, false; }
      var j, closed, etype := BraceGobbler(text, i + 1, '}');
      if etype == SeqKind && !ValidSeqTerm(text[i + 1..], j - (i + 1)) {
        closed := false;
      }
      if closed { return i, true; }
      i := i + 1;
    }
  }

  // An array of strings: the brace expansion of the text.
  method BraceExpand(text: string) returns (result: seq<string>)
    ensures result == Expand(text)
    decreases |text|, 0
  {
    hide *;
    var i, found := FindBraceExpression(text);
    ExpandUnfolds(text);
    if !found { return [text]; }
    var preamble := text[..i];
    var start := i + 1;
    var end, closed, etype := BraceGobbler(text, start, '}');
    var amble := text[start..end];
    var tack;
    if etype == SeqKind {
      var terms := ExpandSeqTerm(amble);
      if terms.Some? {
        tack := terms.value;
      } else if end + 1 < |text| {
        tack := [text[start - 1..end + 1]];
      } else {
        PrefixedAt(preamble, text[i..end + 1]);
        assert text[..i] + text[i..end + 1] == text;
        return [text];
      }
    } else {
      tack := ExpandAmbleText(amble);
    }
    CrossSingle(preamble, tack);
    result := ArrayConcat([preamble], tack);
    var postamble := text[end + 1..];
    if postamble != "" {
      var rest := BraceExpand(postamble);
      result := ArrayConcat(result, rest);
    }
  }

  lemma PrefixedAt(p: string, q: string)
    ensures Prefixed(p, [q]) == [p + q]
  {
  }

  lemma ExpandUnfolds(text: string)
    ensures var open := FindOpen(text, 0);
            if open == |text| then Expand(text) == [text]
            else
              var close := GobbleFrom(text, open + 1, '}');
              var amble := text[open + 1..close.at];
              var tack := if close.kind != SeqKind then ExpandAmble(amble, 0)
                          else if ExpandSeqTerm(amble).Some? then ExpandSeqTerm(amble).value
                          else [text[open..close.at + 1]];
              var front := Prefixed(text[..open], tack);
              var postamble := text[close.at + 1..];
              && open < close.at < |text|
              && Expand(text) == if postamble == "" then front else Cross(front, Expand(postamble))
  {
    hide FindOpen, Gobble, GobbleFrom, Cross, Prefixed, ExpandAmble, StartScan, ExpandSeqTerm;
  }

  // Split at the separators outside inner braces and expand each slot.
  method ExpandAmbleText(text: string) returns (result: seq<string>)
    ensures result == ExpandAmble(text, 0)
    decreases |text|, 1
  {
    hide *;
    result := [];
    var start, i, c := 0, 0, true;
    assert result + ExpandAmble(text, 0) == ExpandAmble(text, 0);
    while c
      invariant c ==> 0 <= start == i <= |text| && result + ExpandAmble(text, start) == ExpandAmble(text, 0)
      invariant !c ==> result == ExpandAmble(text, 0)
      decreases if c then 1 + |text| - start else 0
    {
      var kind;
      i, c, kind := BraceGobbler(text, i, ',');
      AmbleUnfolds(text, start, result);
      var partial := BraceExpand(text[start..i]);
      result := result + partial;
      i := i + 1;
      start := i;
    }
  }

  lemma AmbleUnfolds(text: string, start: nat, front: seq<string>)
    requires start <= |text|
    ensures var g := GobbleFrom(text, start, ',');
            front + ExpandAmble(text, start)
              == front + Expand(text[start..g.at]) + if g.hit then ExpandAmble(text, g.at + 1) else []
  {
    hide Expand, Gobble;
  }
}
