// Sequence expressions {x..y} and {x..y..incr} of brace expansion.

module BraceSequences {
  import opened Options
  import opened Numerals

  // ---------------------------------------------------------------- recognizing

  // Index of the first ".." in s, or |s|.
  function FindDots(s: string): (k: nat)
    ensures k <= |s|
    ensures k < |s| ==> k + 2 <= |s| && s[k] == '.' && s[k + 1] == '.'
  {
    if |s| < 2 then |s|
    else if s[0] == '.' && s[1] == '.' then 0
    else 1 + FindDots(s[1..])
  }

  datatype TermType = IntTerm | CharTerm | BadTerm

  predicate LooksInteger(s: string) {
    IsDigit(CharAt(s, 0)) || ((CharAt(s, 0) == '+' || CharAt(s, 0) == '-') && IsDigit(CharAt(s, 1)))
  }

  // The minimal check made before a sequence expression is tried; `text` runs
  // past the closing brace, which is at index tlen.
  predicate ValidSeqTerm(text: string, tlen: nat)
    requires tlen <= |text|
  {
    var t := FindDots(text[..tlen]);
    t < tlen &&
    var rhs := text[t + 2..];
    CharAt(text, 0) != '.' && CharAt(rhs, 0) != '}' &&
    var lt := if LooksInteger(text) then IntTerm
              else if IsAlpha(CharAt(text, 0)) && CharAt(text, 1) == '.' then CharTerm else BadTerm;
    var rt := if LooksInteger(rhs) then IntTerm
              else if IsAlpha(CharAt(rhs, 0)) && (CharAt(rhs, 1) == '}' || CharAt(rhs, 1) == '.') then CharTerm else BadTerm;
    lt == rt && lt != BadTerm
  }

  // The whole string is a number, trailing white space allowed.
  function ValidNumber(s: string): Option<int> {
    var p := StrToIMax(s);
    if p.erange || p.rest == s then None
    else if SkipSpace(p.rest) == "" then Some(p.value) else None
  }

  // ---------------------------------------------------------------- generating

  datatype Style = Plain | Padded(width: nat) | Letter

  function Term(n: int, style: Style): string {
    match style
    case Plain => Itos(n)
    case Padded(w) => ZeroPadded(n, w)
    case Letter => [(n % 256) as char]
  }

  function Terms(start: int, step: int, count: nat, style: Style): (r: seq<string>)
    ensures |r| == count
    ensures forall k :: 0 <= k < count ==> r[k] == Term(start + k * step, style)
  {
    seq(count, k requires 0 <= k => Term(start + k * step, style))
  }

  // The increment with the sign that leads from start to end.
  function Toward(start: int, end: int, incr: int): int {
    var i := if incr == 0 then 1 else incr;
    if (start < end) == (i < 0) then -i else i
  }

  function TermCount(start: int, end: int, incr: int): (n: nat)
    ensures n >= 1
  {
    Abs(end - start) / Abs(Toward(start, end, incr)) + 1
  }

  // The checked subtractions that make a sequence impossible.
  predicate SequenceOverflows(start: int, end: int, incr: int) {
    incr == INTMAX_MIN || !InRange(Abs(end - start))
  }

  function SequenceTerms(start: int, end: int, incr: int, style: Style): (r: Option<seq<string>>)
    ensures r.Some? ==> |r.value| >= 1
  {
    if SequenceOverflows(start, end, incr) then None
    else Some(Terms(start, Toward(start, end, incr), TermCount(start, end, incr), style))
  }

  // A checked subtraction: None when the result does not fit.
  function CheckedSub(a: int, b: int): Option<int> {
    if InRange(a - b) then Some(a - b) else None
  }

  // The running value of a sequence never leaves the interval between its
  // ends, and one more step would.
  lemma StepsStayInside(start: int, end: int, incr: int, k: nat)
    requires k < TermCount(start, end, incr)
    ensures start <= end ==> start <= start + k * Toward(start, end, incr) <= end
    ensures end <= start ==> end <= start + k * Toward(start, end, incr) <= start
    ensures k == TermCount(start, end, incr) - 1 ==>
              Abs((k + 1) * Toward(start, end, incr)) > Abs(end - start)
  {
    var t := Toward(start, end, incr);
    var a := Abs(t);
    var d := Abs(end - start);
    var q := d / a;
    assert d == a * q + d % a;
    assert a * k <= a * q by { MulMonotonic(a, k, q); }
    assert k * t == if t < 0 then -(a * k) else a * k;
    assert (k + 1) * t == k * t + t;
  }

  lemma MulMonotonic(a: nat, x: nat, y: nat)
    requires x <= y
    ensures a * x <= a * y
  {
  }

  // How many terms there are, and what they are, from the ends and the
  // increment alone.
  lemma StepsFromTheEnds(start: int, end: int, incr: int, style: Style)
    ensures var i := if incr < 0 then -incr else if incr == 0 then 1 else incr;
            var r := Terms(start, Toward(start, end, incr), TermCount(start, end, incr), style);
            && |r| == (if start <= end then end - start else start - end) / i + 1
            && forall k :: 0 <= k < |r| ==> r[k] == Term(if start <= end then start + k * i else start - k * i, style)
  {
    var i := if incr < 0 then -incr else if incr == 0 then 1 else incr;
    StepLength(start, end, incr, i);
    hide Term, Toward, TermCount;
    var r := Terms(start, Toward(start, end, incr), TermCount(start, end, incr), style);
    forall k | 0 <= k < |r| ensures r[k] == Term(if start <= end then start + k * i else start - k * i, style) {
      StepAt(start, end, incr, i, k);
    }
  }

  lemma StepLength(start: int, end: int, incr: int, i: int)
    requires i == if incr < 0 then -incr else if incr == 0 then 1 else incr
    ensures TermCount(start, end, incr) == (if start <= end then end - start else start - end) / i + 1
    ensures start != end ==> Toward(start, end, incr) == if start < end then i else -i
    ensures start == end ==> TermCount(start, end, incr) == 1
  {
  }

  lemma StepAt(start: int, end: int, incr: int, i: int, k: nat)
    requires i == if incr < 0 then -incr else if incr == 0 then 1 else incr
    requires k < TermCount(start, end, incr)
    ensures start + k * Toward(start, end, incr) == if start <= end then start + k * i else start - k * i
  {
    StepLength(start, end, incr, i);
    hide Toward, TermCount;
    Negated(k, i);
  }

  lemma Negated(k: int, i: int)
    ensures k * -i == -(k * i)
  {
  }

  // The sequence, built one term at a time into storage allocated up front.
  method MkSeq(start: int, end: int, incr0: int, style: Style) returns (r: Option<seq<string>>)
    requires InRange(start) && InRange(end) && InRange(incr0)
    ensures r == SequenceTerms(start, end, incr0, style)
    ensures r.None? <==> incr0 == INTMAX_MIN || end - start > INTMAX_MAX || start - end > INTMAX_MAX
    ensures r.Some? ==>
              var i := if incr0 < 0 then -incr0 else if incr0 == 0 then 1 else incr0;
              && |r.value| == (if start <= end then end - start else start - end) / i + 1
              && forall k :: 0 <= k < |r.value| ==>
                   r.value[k] == Term(if start <= end then start + k * i else start - k * i, style)
  {
    StepsFromTheEnds(start, end, incr0, style);
    var incr := if incr0 == 0 then 1 else incr0;
    var absIncr := incr;
    if incr < 0 {
      var c := CheckedSub(0, incr);
      if c.None? { return None; }
      absIncr := c.value;
    }
    if (start < end) == (incr < 0) {
      var c := CheckedSub(0, incr);
      if c.None? { return None; }
      incr := c.value;
    }
    var d := if start < end then CheckedSub(end, start) else CheckedSub(start, end);
    if d.None? { return None; }
    assert incr == Toward(start, end, incr0) && absIncr == Abs(incr) && d.value == Abs(end - start);
    CountSlots(start, end, incr0);
    hide Toward, Abs, Term, Terms, TermCount;
    var nelem := d.value / absIncr + 2;
    var result := FillTerms(start, end, incr0, incr, nelem, style);
    r := Some(result[..nelem - 1]);
    assert result[..nelem - 1] == Terms(start, incr, nelem - 1, style);
  }

  lemma CountSlots(start: int, end: int, incr: int)
    ensures Abs(end - start) / Abs(Toward(start, end, incr)) + 2 == TermCount(start, end, incr) + 1
  {
  }

  // The loop of MkSeq: nelem - 1 terms; the last slot is for the terminator.
  method FillTerms(start: int, end: int, ghost incr0: int, incr: int, nelem: nat, style: Style)
    returns (result: array<string>)
    requires InRange(start) && InRange(end)
    requires incr == Toward(start, end, incr0) && nelem == TermCount(start, end, incr0) + 1
    ensures result.Length == nelem
    ensures forall k :: 0 <= k < nelem - 1 ==> result[k] == Term(start + k * incr, style)
  {
    result := new string[nelem];
    var i, n := 0, start;
    while true
      invariant 0 <= i < nelem - 1
      invariant n == start + i * incr && InRange(n)
      invariant forall k :: 0 <= k < i ==> result[k] == Term(start + k * incr, style)
      decreases nelem - i
    {
      result[i] := Term(n, style);
      i := i + 1;
      if i >= nelem - 1 { break; }
      StepsStayInside(start, end, incr0, i);
      NextStep(start, i, incr);
      n := n + incr;
    }
  }

  lemma NextStep(start: int, i: nat, incr: int)
    requires i > 0
    ensures start + (i - 1) * incr + incr == start + i * incr
  {
  }

  // ---------------------------------------------------------------- expanding

  function PadWidth(lhs: string, rhs: string): Style
    requires lhs != "" && rhs != ""
  {
    var w0 := if |lhs| > 1 && lhs[0] == '0' then |lhs| else 0;
    var w1 := if |lhs| > 2 && lhs[0] == '-' && lhs[1] == '0' then |lhs| else w0;
    var w2 := if |rhs| > 1 && rhs[0] == '0' && w1 < |rhs| then |rhs| else w1;
    var w3 := if |rhs| > 2 && rhs[0] == '-' && rhs[1] == '0' && w2 < |rhs| then |rhs| else w2;
    if w3 == 0 then Plain else Padded(if |lhs| < |rhs| then |rhs| else |lhs|)
  }

  // The right end and the optional increment: value or letter, increment, and
  // the text of the right end without the increment.
  datatype RightEnd = RightEnd(value: int, kind: TermType, incr: int, text: string)

  function Increment(ep: string): Option<int> {
    if |ep| > 2 && ep[0] == '.' && ep[1] == '.' then
      var p := StrToIMax(ep[2..]);
      if p.rest == "" && !p.erange then Some(p.value) else None
    else if ep == "" then Some(1) else None
  }

  function ReadRight(rhs: string): (r: Option<RightEnd>)
    ensures r.Some? ==> r.value.text != "" && r.value.kind != BadTerm
  {
    if LooksInteger(rhs) then
      var p := StrToIMax(rhs);
      if p.erange || (p.rest != "" && p.rest[0] != '.') then None
      else match Increment(p.rest)
        case Some(i) => Some(RightEnd(p.value, IntTerm, i, rhs[..|rhs| - |p.rest|]))
        case None => None
    else if IsAlpha(CharAt(rhs, 0)) && (|rhs| == 1 || CharAt(rhs, 1) == '.') then
      match Increment(rhs[1..])
      case Some(i) => Some(RightEnd(rhs[0] as int, CharTerm, i, rhs[..1]))
      case None => None
    else None
  }

  // The terms of the sequence expression `amble`, or None when it is not one.
  function ExpandSeqTerm(amble: string): (r: Option<seq<string>>)
    ensures r.Some? ==> |r.value| >= 1
  {
    var t := FindDots(amble);
    if t == |amble| then None
    else
      var lhs, rhs := amble[..t], amble[t + 2..];
      if lhs == "" || rhs == "" then None
      else match ReadRight(rhs)
        case None => None
        case Some(right) =>
          if right.kind == IntTerm then
            match ValidNumber(lhs)
            case Some(l) => SequenceTerms(l, right.value, right.incr, PadWidth(lhs, right.text))
            case None => None
          else if |lhs| == 1 && IsAlpha(lhs[0]) then
            SequenceTerms(lhs[0] as int, right.value, right.incr, Letter)
          else None
  }
}
