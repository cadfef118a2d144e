// Compressing a sorted list of names into one brace expression, as
// bash/bracecomp.c does for completion, and the proof that brace expansion
// undoes it.

module BraceCompletion {
  import opened BraceSyntax
  import opened BraceTrees

  // ---------------------------------------------------------------- names in order

  // The order of strcmp: a comes no later than b.
  predicate NoLater(a: string, b: string) {
    a == "" || (b != "" && (a[0] < b[0] || (a[0] == b[0] && NoLater(a[1..], b[1..]))))
  }

  // The char a name starts with, as a C char: bytes from 128 on are negative.
  function First(s: string): int {
    if s == "" then 0
    else if 128 <= s[0] as int < 256 then s[0] as int - 256 else s[0] as int
  }

  // The order of _strcompare: the first chars are compared as signed values,
  // and only where they are equal the names as strcmp compares them.
  predicate HookNoLater(a: string, b: string) {
    First(a) < First(b) || (First(a) == First(b) && NoLater(a, b))
  }

  predicate Before(hook: bool, a: string, b: string) {
    if hook then HookNoLater(a, b) else NoLater(a, b)
  }

  predicate Sorted(hook: bool, names: seq<string>, lo: nat, hi: nat)
    requires lo <= hi <= |names|
  {
    forall i, j :: lo <= i < j < hi ==> Before(hook, names[i], names[j])
  }

  // From any name on, the prefix shared with it never grows.
  predicate Clustered(names: seq<string>, lo: nat, hi: nat)
    requires lo <= hi <= |names|
  {
    forall i, j, k :: lo <= i < j < k < hi ==> Gcd(names[i], names[k]) <= Gcd(names[i], names[j])
  }

  // The length of the greatest common prefix.
  function Gcd(a: string, b: string): (k: nat)
    ensures k <= |a| && k <= |b|
    ensures a[..k] == b[..k]
  {
    if a == "" || b == "" || a[0] != b[0] then 0
    else
      var k := 1 + Gcd(a[1..], b[1..]);
      assert a[..k] == [a[0]] + a[1..][..k - 1] && b[..k] == [b[0]] + b[1..][..k - 1];
      k
  }

  lemma {:induction false} GcdGreatest(a: string, b: string, k: nat)
    requires k <= |a| && k <= |b| && a[..k] == b[..k]
    ensures k <= Gcd(a, b)
  {
    if k > 0 {
      assert a[0] == a[..k][0] == b[..k][0] == b[0];
      assert a[1..][..k - 1] == a[..k][1..] && b[1..][..k - 1] == b[..k][1..];
      GcdGreatest(a[1..], b[1..], k - 1);
    }
  }

  // Along a sorted list the prefix shared with the first name never grows.
  lemma {:induction false} GcdNeverGrows(hook: bool, a: string, b: string, c: string)
    requires Before(hook, a, b) && Before(hook, b, c)
    ensures Gcd(a, c) <= Gcd(a, b)
  {
    if a != "" && c != "" && a[0] == c[0] {
      GcdNeverGrows(false, a[1..], b[1..], c[1..]);
    }
  }

  lemma ClusteredParts(names: seq<string>, lo: nat, e: nat, hi: nat)
    requires lo <= e <= hi <= |names| && Clustered(names, lo, hi)
    ensures Clustered(names, lo, e) && Clustered(names, e, hi)
  {
    hide Gcd;
  }

  lemma ClusteredAt(names: seq<string>, lo: nat, hi: nat, j: nat, k: nat)
    requires lo < j < k < hi <= |names| && Clustered(names, lo, hi)
    ensures Gcd(names[lo], names[k]) <= Gcd(names[lo], names[j])
  {
    hide Gcd;
  }

  lemma SortedClustered(hook: bool, names: seq<string>, lo: nat, hi: nat)
    requires lo <= hi <= |names| && Sorted(hook, names, lo, hi)
    ensures Clustered(names, lo, hi)
  {
    hide Gcd, Before;
    forall i, j, k | lo <= i < j < k < hi ensures Gcd(names[i], names[k]) <= Gcd(names[i], names[j]) {
      GcdNeverGrows(hook, names[i], names[j], names[k]);
    }
  }

  // ---------------------------------------------------------------- what is built

  // All names in [lo, hi) begin with the same g characters.
  predicate Shares(names: seq<string>, lo: nat, hi: nat, g: nat)
    requires lo <= hi <= |names|
  {
    forall k :: lo <= k < hi ==> g <= |names[lo]| && g <= |names[k]| && names[k][..g] == names[lo][..g]
  }

  // The end of the group of names[lo]: those that share more than g characters with it.
  function GroupEnd(names: seq<string>, lo: nat, end: nat, hi: nat, g: nat): (e: nat)
    requires lo < end <= hi <= |names|
    ensures end <= e <= hi
    ensures forall k :: end <= k < e ==> Gcd(names[lo], names[k]) > g
    ensures e < hi ==> Gcd(names[lo], names[e]) <= g
    decreases hi - end
  {
    if end == hi || Gcd(names[lo], names[end]) <= g then end
    else GroupEnd(names, lo, end + 1, hi, g)
  }

  // The prefix length shared by the group [lo, e).
  function GroupGcd(names: seq<string>, lo: nat, e: nat): nat
    requires lo < e <= |names|
  {
    if e == lo + 1 then |names[lo]| else Gcd(names[lo], names[e - 1])
  }

  lemma GroupShares(names: seq<string>, lo: nat, hi: nat, g: nat)
    requires lo < hi <= |names| && Clustered(names, lo, hi) && Shares(names, lo, hi, g)
    ensures var e := GroupEnd(names, lo, lo + 1, hi, g);
            var gcd := GroupGcd(names, lo, e);
            && g <= gcd && (e > lo + 1 ==> g < gcd <= |names[lo]|)
            && Shares(names, lo, e, gcd) && Shares(names, e, hi, g)
  {
    hide Clustered;
    var e := GroupEnd(names, lo, lo + 1, hi, g);
    var gcd := GroupGcd(names, lo, e);
    forall k | lo < k < e
      ensures gcd <= |names[k]| && names[k][..gcd] == names[lo][..gcd]
    {
      if k < e - 1 { ClusteredAt(names, lo, hi, k, e - 1); }
      var c := Gcd(names[lo], names[k]);
      assert names[k][..gcd] == names[k][..c][..gcd] == names[lo][..c][..gcd];
    }
    forall k | e <= k < hi ensures names[k][..g] == names[e][..g] {
      assert names[k][..g] == names[lo][..g];
    }
  }

  // Every group of two or more splits again once its common prefix is taken off.
  lemma GroupSplits(names: seq<string>, lo: nat, e: nat)
    requires lo + 1 < e <= |names|
    ensures GroupEnd(names, lo, lo + 1, e, GroupGcd(names, lo, e)) < e
  {
  }

  // The text for names[lo..hi) without their first g characters: each group in
  // turn, a comma after each.
  function Munge(names: seq<string>, lo: nat, hi: nat, g: nat): (r: string)
    requires lo <= hi <= |names| && Clustered(names, lo, hi) && Shares(names, lo, hi, g)
    ensures lo < hi ==> r != "" && r[|r| - 1] == ','
    decreases hi - lo, if lo < hi then |names[lo]| - g else 0
  {
    if lo == hi then ""
    else
      GroupShares(names, lo, hi, g);
      var e := GroupEnd(names, lo, lo + 1, hi, g);
      ClusteredParts(names, lo, e, hi);
      MungeGroup(names, lo, e, g) + "," + Munge(names, e, hi, g)
  }

  function MungeGroup(names: seq<string>, lo: nat, e: nat, g: nat): string
    requires lo < e <= |names| && Clustered(names, lo, e)
    requires g <= |names[lo]| && (e > lo + 1 ==> g < GroupGcd(names, lo, e) <= |names[lo]|)
    requires Shares(names, lo, e, GroupGcd(names, lo, e))
    decreases e - lo, |names[lo]| - g, 0
  {
    if e == lo + 1 then names[lo][g..]
    else
      var gcd := GroupGcd(names, lo, e);
      var sub := Munge(names, lo, e, gcd);
      names[lo][g..gcd] + "{" + sub[..|sub| - 1] + "}"
  }

  // The whole text: in braces unless all the names share a first character.
  function MungeAll(names: seq<string>, lo: nat, hi: nat): string
    requires lo < hi <= |names| && Clustered(names, lo, hi)
  {
    var body := Munge(names, lo, hi, 0);
    if GroupEnd(names, lo, lo + 1, hi, 0) == hi then body[..|body| - 1]
    else "{" + body[..|body| - 1] + "}"
  }

  // ---------------------------------------------------------------- the tree behind the text

  function TreeOf(names: seq<string>, lo: nat, hi: nat, g: nat): (r: Words)
    requires lo < hi <= |names| && Clustered(names, lo, hi) && Shares(names, lo, hi, g)
    ensures r.More? <==> GroupEnd(names, lo, lo + 1, hi, g) < hi
    decreases hi - lo, |names[lo]| - g
  {
    GroupShares(names, lo, hi, g);
    var e := GroupEnd(names, lo, lo + 1, hi, g);
    ClusteredParts(names, lo, e, hi);
    if e == hi then One(GroupTree(names, lo, e, g))
    else More(GroupTree(names, lo, e, g), TreeOf(names, e, hi, g))
  }

  function GroupTree(names: seq<string>, lo: nat, e: nat, g: nat): Word
    requires lo < e <= |names| && Clustered(names, lo, e)
    requires g <= |names[lo]| && (e > lo + 1 ==> g < GroupGcd(names, lo, e) <= |names[lo]|)
    requires Shares(names, lo, e, GroupGcd(names, lo, e))
    decreases e - lo, |names[lo]| - g, 0
  {
    if e == lo + 1 then End(names[lo][g..])
    else
      var gcd := GroupGcd(names, lo, e);
      GroupSplits(names, lo, e);
      var sub := TreeOf(names, lo, e, gcd);
      Seg(names[lo][g..gcd], sub.word, sub.rest, End(""))
  }

  // The names without their first g characters.
  function Tails(names: seq<string>, lo: nat, hi: nat, g: nat): (r: seq<string>)
    requires lo <= hi <= |names| && Shares(names, lo, hi, g)
    ensures |r| == hi - lo
    ensures forall k :: 0 <= k < hi - lo ==> r[k] == names[lo + k][g..]
  {
    seq(hi - lo, k requires 0 <= k < hi - lo && Shares(names, lo, hi, g) => names[lo + k][g..])
  }

  predicate PlainNames(names: seq<string>, lo: nat, hi: nat)
    requires lo <= hi <= |names|
  {
    forall k :: lo <= k < hi ==> PlainText(names[k])
  }

  lemma {:induction false} TreeIsMunge(names: seq<string>, lo: nat, hi: nat, g: nat)
    requires lo < hi <= |names| && Clustered(names, lo, hi) && Shares(names, lo, hi, g) && PlainNames(names, lo, hi)
    ensures var t := TreeOf(names, lo, hi, g);
            PlainWords(t) && PrintAll(t) + "," == Munge(names, lo, hi, g) && MeaningAll(t) == Tails(names, lo, hi, g)
    decreases hi - lo, |names[lo]| - g
  {
    hide TreeOf, GroupTree, Munge, MungeGroup, GroupEnd, Gcd, GroupGcd, Clustered, PrintAll, MeaningAll, PlainWords, Tails;
    GroupShares(names, lo, hi, g);
    ClusteredParts(names, lo, GroupEnd(names, lo, lo + 1, hi, g), hi);
    var e := GroupEnd(names, lo, lo + 1, hi, g);
    GroupIsMunge(names, lo, e, g);
    if e < hi {
      TreeIsMunge(names, e, hi, g);
      TailsSplit(names, lo, e, hi, g);
      TreeGoesOn(names, lo, hi, g);
    } else {
      TreeEnds(names, lo, hi, g);
    }
  }

  lemma TreeGoesOn(names: seq<string>, lo: nat, hi: nat, g: nat)
    requires lo < hi <= |names| && Clustered(names, lo, hi) && Shares(names, lo, hi, g)
    requires GroupEnd(names, lo, lo + 1, hi, g) < hi
    ensures var e := GroupEnd(names, lo, lo + 1, hi, g);
            && Clustered(names, lo, e) && Clustered(names, e, hi) && Shares(names, e, hi, g)
            && g <= |names[lo]| && (e > lo + 1 ==> g < GroupGcd(names, lo, e) <= |names[lo]|)
            && Shares(names, lo, e, GroupGcd(names, lo, e))
            && var w, rest := GroupTree(names, lo, e, g), TreeOf(names, e, hi, g);
               var t := TreeOf(names, lo, hi, g);
               && Munge(names, lo, hi, g) == MungeGroup(names, lo, e, g) + "," + Munge(names, e, hi, g)
               && PrintAll(t) == Print(w) + "," + PrintAll(rest) && MeaningAll(t) == Meaning(w) + MeaningAll(rest)
               && (PlainWords(t) <==> PlainWord(w) && PlainWords(rest))
  {
    hide GroupTree, MungeGroup, Gcd, GroupGcd, Clustered, Print, Meaning, PlainWord;
    GroupShares(names, lo, hi, g);
    ClusteredParts(names, lo, GroupEnd(names, lo, lo + 1, hi, g), hi);
  }

  lemma TreeEnds(names: seq<string>, lo: nat, hi: nat, g: nat)
    requires lo < hi <= |names| && Clustered(names, lo, hi) && Shares(names, lo, hi, g)
    requires GroupEnd(names, lo, lo + 1, hi, g) == hi
    ensures g <= |names[lo]| && (hi > lo + 1 ==> g < GroupGcd(names, lo, hi) <= |names[lo]|)
            && Shares(names, lo, hi, GroupGcd(names, lo, hi))
    ensures var w, t := GroupTree(names, lo, hi, g), TreeOf(names, lo, hi, g);
            && Munge(names, lo, hi, g) == MungeGroup(names, lo, hi, g) + ","
            && PrintAll(t) == Print(w) && MeaningAll(t) == Meaning(w) && (PlainWords(t) <==> PlainWord(w))
  {
    hide GroupTree, MungeGroup, Gcd, GroupGcd, Clustered, Print, Meaning, PlainWord;
    GroupShares(names, lo, hi, g);
  }

  lemma TailsSplit(names: seq<string>, lo: nat, e: nat, hi: nat, g: nat)
    requires lo <= e <= hi <= |names| && Shares(names, lo, hi, g) && Shares(names, lo, e, g) && Shares(names, e, hi, g)
    ensures Tails(names, lo, hi, g) == Tails(names, lo, e, g) + Tails(names, e, hi, g)
  {
    hide NoLater, Gcd;
  }

  lemma {:induction false} GroupIsMunge(names: seq<string>, lo: nat, e: nat, g: nat)
    requires lo < e <= |names| && Clustered(names, lo, e) && PlainNames(names, lo, e)
    requires g <= |names[lo]| && (e > lo + 1 ==> g < GroupGcd(names, lo, e) <= |names[lo]|)
    requires Shares(names, lo, e, GroupGcd(names, lo, e))
    requires Shares(names, lo, e, g)
    ensures var w := GroupTree(names, lo, e, g);
            PlainWord(w) && Print(w) == MungeGroup(names, lo, e, g) && Meaning(w) == Tails(names, lo, e, g)
    decreases e - lo, |names[lo]| - g, 0
  {
    if e > lo + 1 {
      var gcd := GroupGcd(names, lo, e);
      GroupSplits(names, lo, e);
      TreeIsMunge(names, lo, e, gcd);
      GroupWord(names, lo, e, g, gcd);
    }
  }

  lemma GroupWord(names: seq<string>, lo: nat, e: nat, g: nat, gcd: nat)
    requires lo + 1 < e <= |names| && Clustered(names, lo, e) && PlainNames(names, lo, e)
    requires g < gcd <= |names[lo]| && gcd == GroupGcd(names, lo, e)
    requires Shares(names, lo, e, gcd) && Shares(names, lo, e, g)
    requires var t := TreeOf(names, lo, e, gcd);
             t.More? && PlainWords(t) && PrintAll(t) + "," == Munge(names, lo, e, gcd)
             && MeaningAll(t) == Tails(names, lo, e, gcd)
    ensures var w := GroupTree(names, lo, e, g);
            PlainWord(w) && Print(w) == MungeGroup(names, lo, e, g) && Meaning(w) == Tails(names, lo, e, g)
  {
    hide TreeOf, Munge, Gcd, GroupGcd, GroupEnd;
    var t := TreeOf(names, lo, e, gcd);
    var prefix := names[lo][g..gcd];
    var w := Seg(prefix, t.word, t.rest, End(""));
    assert GroupTree(names, lo, e, g) == w;
    var sub := Munge(names, lo, e, gcd);
    assert sub[..|sub| - 1] == PrintAll(t);
    assert Print(w) == prefix + "{" + PrintAll(t) + "}" + "";
    PrefixesTails(names, lo, e, g, gcd);
    CrossUnit(MeaningAll(t));
  }

  lemma PrefixesTails(names: seq<string>, lo: nat, e: nat, g: nat, gcd: nat)
    requires lo < e <= |names| && g <= gcd <= |names[lo]|
    requires Shares(names, lo, e, gcd) && Shares(names, lo, e, g)
    ensures Prefixed(names[lo][g..gcd], Tails(names, lo, e, gcd)) == Tails(names, lo, e, g)
  {
    var prefix := names[lo][g..gcd];
    var t := Tails(names, lo, e, gcd);
    forall k | 0 <= k < e - lo ensures Prefixed(prefix, t)[k] == Tails(names, lo, e, g)[k] {
      var n := names[lo + k];
      assert n[g..gcd] == n[..gcd][g..] == names[lo][..gcd][g..] == prefix;
      assert n[g..gcd] + n[gcd..] == n[g..];
    }
  }

  // Brace-expanding the compressed text of a sorted list of plain names yields
  // exactly that list, in that order, whichever of the two orders it is.
  lemma MungeRoundTrip(hook: bool, names: seq<string>, lo: nat, hi: nat)
    requires lo < hi <= |names| && Sorted(hook, names, lo, hi) && PlainNames(names, lo, hi)
    ensures Clustered(names, lo, hi) && Expand(MungeAll(names, lo, hi)) == names[lo..hi]
  {
    SortedClustered(hook, names, lo, hi);
    ClusteredRoundTrip(names, lo, hi);
  }

  // In fact it need only be clustered.
  lemma ClusteredRoundTrip(names: seq<string>, lo: nat, hi: nat)
    requires lo < hi <= |names| && Clustered(names, lo, hi) && PlainNames(names, lo, hi)
    ensures Expand(MungeAll(names, lo, hi)) == names[lo..hi]
  {
    hide TreeOf, Munge, Gcd, Expand, PrintAll, MeaningAll;
    var t := TreeOf(names, lo, hi, 0);
    TreeIsMunge(names, lo, hi, 0);
    assert Tails(names, lo, hi, 0) == names[lo..hi];
    var body := Munge(names, lo, hi, 0);
    assert body[..|body| - 1] == PrintAll(t);
    WrapsTree(t);
    if t.One? {
      PlainExpandable(t.word);
      ExpandWord(t.word);
    } else {
      PlainExpandable(Seg("", t.word, t.rest, End("")));
      ExpandWord(Seg("", t.word, t.rest, End("")));
    }
  }

  // A list of two or more alternatives in braces, as a word; one alternative as it stands.
  lemma WrapsTree(t: Words)
    requires PlainWords(t)
    ensures t.One? ==> Print(t.word) == PrintAll(t) && Meaning(t.word) == MeaningAll(t) && PlainWord(t.word)
    ensures t.More? ==>
              var w := Seg("", t.word, t.rest, End(""));
              PlainWord(w) && Print(w) == "{" + PrintAll(t) + "}" && Meaning(w) == MeaningAll(t)
  {
    if t.More? {
      var w := Seg("", t.word, t.rest, End(""));
      PrintSeg(w);
      CrossUnit(MeaningAll(t));
      PrefixedEmpty(MeaningAll(t));
    }
  }

  // ---------------------------------------------------------------- the algorithm

  // The end of the group that starts at `start`, and the prefix length its
  // names share: the last one compared, since it never grows.
  method FindGroup(names: seq<string>, start: nat, realEnd: nat, gcdZero: nat) returns (end: nat, gcd: nat)
    requires start < realEnd <= |names|
    ensures end == GroupEnd(names, start, start + 1, realEnd, gcdZero)
    ensures gcd == GroupGcd(names, start, end)
  {
    gcd := |names[start]|;
    end := start + 1;
    while end < realEnd
      invariant start < end <= realEnd
      invariant GroupEnd(names, start, end, realEnd, gcdZero) == GroupEnd(names, start, start + 1, realEnd, gcdZero)
      invariant gcd == GroupGcd(names, start, end)
    {
      var temp := Gcd(names[start], names[end]);
      if temp <= gcdZero { break; }
      gcd := temp;
      end := end + 1;
    }
  }

  // Builds the text by appending to a buffer, a comma after every group; the
  // last comma then becomes a close brace, or is dropped.
  method ReallyMungeBraces(names: seq<string>, realStart: nat, realEnd: nat, gcdZero: nat) returns (result: string)
    requires realStart <= realEnd <= |names| && |names| > 0 && (realStart == realEnd ==> gcdZero == 0)
    requires Clustered(names, realStart, realEnd) && Shares(names, realStart, realEnd, gcdZero)
    ensures realStart == realEnd ==>
              result == if realStart < |names| then names[realStart] else names[0]
    ensures realStart < realEnd && gcdZero == 0 ==> result == MungeAll(names, realStart, realEnd)
    ensures realStart < realEnd && gcdZero > 0 ==> result == Munge(names, realStart, realEnd, gcdZero)
    decreases realEnd - realStart, if realStart < realEnd then |names[realStart]| - gcdZero else 0
  {
    hide *;
    if realStart == realEnd {
      return if realStart < |names| then names[realStart] else names[0];
    }
    var flag;
    ghost var body;
    result, flag, body := AppendGroups(names, realStart, realEnd, gcdZero);
    assert "" + body == body;
    if gcdZero == 0 {
      MungeWhole(names, realStart, realEnd, body);
      result := result[..|result| - 1] + if flag then "}" else "";
    }
  }

  // The groups one after the other; an open brace in front, noted in the
  // flag, if at the outermost level there are several.
  method AppendGroups(names: seq<string>, realStart: nat, realEnd: nat, gcdZero: nat)
    returns (result: string, flag: bool, ghost body: string)
    requires realStart < realEnd <= |names|
    requires Clustered(names, realStart, realEnd) && Shares(names, realStart, realEnd, gcdZero)
    ensures body == Munge(names, realStart, realEnd, gcdZero) && result == (if flag then "{" else "") + body
    ensures flag <==> gcdZero == 0 && GroupEnd(names, realStart, realStart + 1, realEnd, gcdZero) < realEnd
    decreases realEnd - realStart, |names[realStart]| - gcdZero, 1
  {
    hide *;
    result, flag, body := "", false, "";
    var start := realStart;
    ghost var several := GroupEnd(names, realStart, realStart + 1, realEnd, gcdZero) < realEnd;
    while start < realEnd
      invariant realStart <= start <= realEnd
      invariant Clustered(names, start, realEnd) && Shares(names, start, realEnd, gcdZero)
      invariant result == (if flag then "{" else "") + body && (start == realStart ==> body == "")
      invariant body + Munge(names, start, realEnd, gcdZero) == Munge(names, realStart, realEnd, gcdZero)
      invariant flag <==> start > realStart && gcdZero == 0 && several
      decreases realEnd - start
    {
      MungeStep(names, start, realEnd, gcdZero, body);
      var end, gcd := FindGroup(names, start, realEnd, gcdZero);
      if gcdZero == 0 && start == realStart && end != realEnd {
        result := "{";
        flag := true;
      }
      var term := MungeOne(names, start, end, gcd, gcdZero);
      AppendTerm(if flag then "{" else "", body, term);
      result := result + term + ",";
      body := body + term + ",";
      start := end;
    }
    MungeNothing(names, realEnd, gcdZero);
    assert body + "" == body;
  }

  // One group: a lone name, or the shared prefix and the rest in braces.
  method MungeOne(names: seq<string>, start: nat, end: nat, gcd: nat, gcdZero: nat) returns (term: string)
    requires start < end <= |names| && Clustered(names, start, end) && gcd == GroupGcd(names, start, end)
    requires gcdZero <= |names[start]| && (end > start + 1 ==> gcdZero < gcd <= |names[start]|)
    requires Shares(names, start, end, gcd)
    ensures term == MungeGroup(names, start, end, gcdZero)
    decreases end - start, |names[start]| - gcdZero, 0
  {
    if end == start + 1 {
      term := names[start][gcdZero..];
    } else {
      var subterm := ReallyMungeBraces(names, start, end, gcd);
      term := names[start][gcdZero..gcd] + "{" + subterm[..|subterm| - 1] + "}";
    }
  }

  lemma MungeWhole(names: seq<string>, lo: nat, hi: nat, body: string)
    requires lo < hi <= |names| && Clustered(names, lo, hi) && body == Munge(names, lo, hi, 0)
    ensures body != ""
    ensures MungeAll(names, lo, hi) == if GroupEnd(names, lo, lo + 1, hi, 0) == hi then body[..|body| - 1] + ""
                                       else ("{" + body)[..|body|] + "}"
  {
    assert ("{" + body)[..|body|] == "{" + body[..|body| - 1];
  }

  lemma MungeNothing(names: seq<string>, at: nat, g: nat)
    requires at <= |names|
    ensures Munge(names, at, at, g) == ""
  {
  }

  lemma MungeStep(names: seq<string>, lo: nat, hi: nat, g: nat, body: string)
    requires lo < hi <= |names| && Clustered(names, lo, hi) && Shares(names, lo, hi, g)
    ensures var e := GroupEnd(names, lo, lo + 1, hi, g);
            && Clustered(names, lo, e) && Clustered(names, e, hi)
            && Shares(names, e, hi, g) && Shares(names, lo, e, GroupGcd(names, lo, e))
            && g <= |names[lo]| && (e > lo + 1 ==> g < GroupGcd(names, lo, e) <= |names[lo]|)
            && body + Munge(names, lo, hi, g) == (body + MungeGroup(names, lo, e, g) + ",") + Munge(names, e, hi, g)
  {
    hide MungeGroup, GroupEnd, Gcd, Clustered;
    GroupShares(names, lo, hi, g);
    var e := GroupEnd(names, lo, lo + 1, hi, g);
    ClusteredParts(names, lo, e, hi);
    Regroup(body, MungeGroup(names, lo, e, g), Munge(names, e, hi, g));
  }

  lemma AppendTerm(open: string, body: string, term: string)
    ensures (open + body) + term + "," == open + (body + term + ",")
    ensures open + "" == open
  {
  }

  lemma Regroup(a: string, b: string, c: string)
    ensures a + (b + "," + c) == (a + b + ",") + c
  {
  }

  // ---------------------------------------------------------------- sorting

  // What qsort leaves; by OneArrangement nothing else is sorted.
  function Qsorted(names: seq<string>): (r: seq<string>)
    ensures |r| == |names|
  {
    if names == [] then [] else Place(Qsorted(names[1..]), names[0])
  }

  function Place(names: seq<string>, x: string): (r: seq<string>)
    ensures |r| == |names| + 1
  {
    if names == [] || HookNoLater(x, names[0]) then [x] + names else [names[0]] + Place(names[1..], x)
  }

  lemma {:induction false} OrderTotal(hook: bool, a: string, b: string)
    ensures Before(hook, a, b) || Before(hook, b, a)
  {
    if a != "" && b != "" && a[0] == b[0] {
      OrderTotal(false, a[1..], b[1..]);
    }
  }

  lemma {:induction false} OrderTransitive(hook: bool, a: string, b: string, c: string)
    requires Before(hook, a, b) && Before(hook, b, c)
    ensures Before(hook, a, c)
  {
    if a != "" && b != "" && c != "" && a[0] == b[0] == c[0] {
      OrderTransitive(false, a[1..], b[1..], c[1..]);
    }
  }

  lemma {:induction false} OrderStrict(hook: bool, a: string, b: string)
    requires Before(hook, a, b) && Before(hook, b, a)
    ensures a == b
  {
    if a != "" { OrderStrict(false, a[1..], b[1..]); }
  }

  lemma {:induction false} Places(names: seq<string>, x: string)
    requires Sorted(true, names, 0, |names|)
    ensures Sorted(true, Place(names, x), 0, |names| + 1) && multiset(Place(names, x)) == multiset(names) + multiset{x}
  {
    hide HookNoLater;
    if names == [] {
    } else if HookNoLater(x, names[0]) {
      forall k | 0 <= k < |names| ensures HookNoLater(x, names[k]) {
        if k > 0 { OrderTransitive(true, x, names[0], names[k]); }
      }
    } else {
      Places(names[1..], x);
      OrderTotal(true, x, names[0]);
      PlacedLater(names, x, Place(names[1..], x));
    }
  }

  // The first name stays before the rest, x among them.
  lemma PlacedLater(names: seq<string>, x: string, rest: seq<string>)
    requires names != [] && Sorted(true, names, 0, |names|) && HookNoLater(names[0], x)
    requires Sorted(true, rest, 0, |rest|) && multiset(rest) == multiset(names[1..]) + multiset{x}
    ensures Sorted(true, [names[0]] + rest, 0, |rest| + 1)
    ensures multiset([names[0]] + rest) == multiset(names) + multiset{x}
  {
    hide HookNoLater;
    assert names == [names[0]] + names[1..];
    forall k | 0 <= k < |rest| ensures HookNoLater(names[0], rest[k]) {
      assert rest[k] in multiset(rest);
      if rest[k] != x {
        assert rest[k] in names[1..];
      }
    }
  }

  // Sorted, and the same names as often as before.
  lemma {:induction false} QsortedIsSorted(names: seq<string>)
    ensures Sorted(true, Qsorted(names), 0, |names|) && multiset(Qsorted(names)) == multiset(names)
  {
    if names != [] {
      QsortedIsSorted(names[1..]);
      Places(Qsorted(names[1..]), names[0]);
      assert names == [names[0]] + names[1..];
    }
  }

  // Names that begin with a byte from 128 on come before those that begin with
  // a letter, a digit or any other byte below; apart from that the order is
  // that of the bytes.
  lemma HighBytesFirst(names: seq<string>, i: nat, j: nat)
    requires i < j < |names|
    ensures var a, b := Qsorted(names)[i], Qsorted(names)[j];
            a != "" && b != "" ==>
              && !(a[0] as int < 128 <= b[0] as int < 256)
              && ((a[0] as int < 128 && b[0] as int < 128) || (128 <= a[0] as int < 256 && 128 <= b[0] as int < 256) ==>
                    NoLater(a, b))
  {
    QsortedIsSorted(names);
    assert Before(true, Qsorted(names)[i], Qsorted(names)[j]);
  }

  // The order being total, names have one sorted arrangement.
  lemma {:induction false} OneArrangement(hook: bool, a: seq<string>, b: seq<string>)
    requires Sorted(hook, a, 0, |a|) && Sorted(hook, b, 0, |b|) && multiset(a) == multiset(b)
    ensures a == b
    decreases |a|
  {
    hide Before, Sorted;
    assert |a| == |multiset(a)| == |multiset(b)| == |b|;
    if a != [] {
      assert a[0] in multiset(b) && b[0] in multiset(a);
      LeastFirst(hook, a, b[0]);
      LeastFirst(hook, b, a[0]);
      OrderStrict(hook, a[0], b[0]);
      WithoutFirst(a);
      WithoutFirst(b);
      OneArrangement(hook, a[1..], b[1..]);
    }
  }

  lemma WithoutFirst(a: seq<string>)
    requires a != []
    ensures multiset(a[1..]) == multiset(a) - multiset{a[0]}
  {
    assert a == [a[0]] + a[1..];
  }

  lemma LeastFirst(hook: bool, a: seq<string>, x: string)
    requires Sorted(hook, a, 0, |a|) && x in a
    ensures Before(hook, a[0], x) && Sorted(hook, a[1..], 0, |a| - 1)
  {
    hide NoLater;
    OrderTotal(hook, x, x);
    var k :| 0 <= k < |a| && a[k] == x;
    assert k > 0 ==> Before(hook, a[0], a[k]);
    forall i, j | 0 <= i < j < |a| - 1 ensures Before(hook, a[1..][i], a[1..][j]) {
      assert Before(hook, a[i + 1], a[j + 1]);
    }
  }

  // The completion hook: names[0] is what all matches share, the matches
  // follow it unless there is only one. Where characters may have several bytes
  // the matches are sorted here, otherwise they have to come in order. The text
  // stands for exactly the matches, in the order they have by then.
  method HackBracesCompletion(names0: seq<string>, multibyte: bool) returns (text: string)
    requires |names0| > 0 && (multibyte || Clustered(names0, 1, |names0|))
    requires forall k :: 0 <= k < |names0| ==> PlainText(names0[k])
    ensures Expand(text) == if |names0| == 1 then names0 else if multibyte then Qsorted(names0[1..]) else names0[1..]
  {
    hide Munge, MungeAll, Expand, Qsorted, Before, HookNoLater, PlainText, Gcd;
    var names := names0;
    if multibyte && |names| > 2 {
      names := names[..1] + Qsorted(names[1..]);
      SortedTail(names0, names);
      SortedClustered(true, names, 1, |names|);
    } else if |names| == 2 {
      QsortedOne(names[1]);
      assert names[1..] == [names[1]];
    }
    text := ReallyMungeBraces(names, 1, |names|, 0);
    if |names| == 1 {
      LoneName(names[0]);
      assert names0 == [names[0]];
    } else {
      ClusteredRoundTrip(names, 1, |names|);
    }
  }

  lemma LoneName(name: string)
    requires PlainText(name)
    ensures Expand(name) == [name]
  {
    FindsNoBrace(name);
  }

  lemma QsortedOne(name: string)
    ensures Qsorted([name]) == [name]
  {
  }

  lemma SortedTail(names0: seq<string>, names: seq<string>)
    requires |names0| > 0 && names == names0[..1] + Qsorted(names0[1..])
    requires forall k :: 0 <= k < |names0| ==> PlainText(names0[k])
    ensures Sorted(true, names, 1, |names|) && PlainNames(names, 0, |names|) && names[1..] == Qsorted(names0[1..])
  {
    hide Before, HookNoLater;
    var tail := names0[1..];
    QsortedIsSorted(tail);
    assert names[1..] == Qsorted(tail);
    forall k | 1 <= k < |names| ensures PlainText(names[k]) {
      assert names[k] == Qsorted(tail)[k - 1] && names[k] in multiset(Qsorted(tail));
      assert names[k] in tail;
    }
    forall i, j | 1 <= i < j < |names| ensures Before(true, names[i], names[j]) {
      assert Before(true, Qsorted(tail)[i - 1], Qsorted(tail)[j - 1]);
    }
  }
}
