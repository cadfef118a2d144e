// Numbers and their text: the machine's integer range, digits in a base, and
// the decimal conversions `itos` and `strtoimax` that the shell relies on.

module Numerals {

  const TWO63: int := 0x8000_0000_0000_0000
  const TWO64: int := 0x1_0000_0000_0000_0000
  const INTMAX_MAX: int := TWO63 - 1
  const INTMAX_MIN: int := -TWO63

  // The text at an index; past its end the terminator.
  function CharAt(s: string, i: nat): char {
    if i < |s| then s[i] else '\0'
  }

  function Abs(x: int): nat { if x < 0 then -x else x }

  function Pow2(k: nat): (p: nat)
    ensures p > 0
  {
    if k == 0 then 1 else 2 * Pow2(k - 1)
  }

  predicate InRange(x: int) {
    INTMAX_MIN <= x <= INTMAX_MAX
  }

  // Two's complement wrap-around of intmax_t arithmetic.
  function Wrap(x: int): (r: int)
    ensures InRange(r)
    ensures InRange(x) ==> r == x
    ensures (x - r) % TWO64 == 0
  {
    var m := x % TWO64;
    assert (x - m) % TWO64 == 0 && (x - (m - TWO64)) % TWO64 == 0 by {
      assert x - m == TWO64 * (x / TWO64);
      assert x - (m - TWO64) == TWO64 * (x / TWO64 + 1);
    }
    if m < TWO63 then m else m - TWO64
  }

  predicate IsDigit(c: char) { '0' <= c <= '9' }
  predicate IsLower(c: char) { 'a' <= c <= 'z' }
  predicate IsUpper(c: char) { 'A' <= c <= 'Z' }
  predicate IsAlpha(c: char) { IsLower(c) || IsUpper(c) }
  predicate IsAlnum(c: char) { IsAlpha(c) || IsDigit(c) }

  // The alphabet of digits: 0-9 a-z A-Z @ _
  function DigitChar(d: nat): (c: char)
    requires d < 64
    ensures d < 10 <==> IsDigit(c)
    ensures IsAlnum(c) || c == '@' || c == '_'
  {
    if d < 10 then '0' + d as char
    else if d < 36 then 'a' + (d - 10) as char
    else if d < 62 then 'A' + (d - 36) as char
    else if d == 62 then '@' else '_'
  }

  // n written in a base, most significant digit first.
  function Numeral(n: nat, base: nat): (s: string)
    requires 2 <= base <= 64
    ensures |s| >= 1
    ensures s[0] == '0' ==> n == 0 && s == "0"
  {
    if n < base then [DigitChar(n)]
    else
      DivisionShrinks(n, base);
      Numeral(n / base, base) + [DigitChar(n % base)]
  }

  lemma DivisionShrinks(n: nat, base: nat)
    requires 2 <= base <= n
    ensures 0 < n / base < n
  {
    var d := n / base;
    DivisionAlgorithm(n, base);
    TimesAtLeast(base, d);
  }

  lemma DivisionAlgorithm(n: nat, base: nat)
    requires base > 0
    ensures n == base * (n / base) + n % base
  {
  }

  lemma TimesAtLeast(base: nat, d: nat)
    requires 2 <= base
    ensures base * d >= 2 * d
  {
  }

  function Decimal(n: nat): string { Numeral(n, 10) }

  // The shell's itos: decimal with a leading minus for negative numbers.
  function Itos(n: int): (s: string)
    ensures |s| >= 1
  {
    if n < 0 then "-" + Decimal(-n) else Decimal(n)
  }

  // ---------------------------------------------------------------- reading decimals

  predicate AllDigits(s: string) {
    forall i :: 0 <= i < |s| ==> IsDigit(s[i])
  }

  function DecimalValue(s: string): nat
    requires AllDigits(s)
  {
    if s == [] then 0
    else 10 * DecimalValue(s[..|s| - 1]) + (s[|s| - 1] - '0') as nat
  }

  // Length of the longest prefix made of digits.
  function DigitRun(s: string): (k: nat)
    ensures k <= |s|
    ensures AllDigits(s[..k])
    ensures k < |s| ==> !IsDigit(s[k])
  {
    if s == [] || !IsDigit(s[0]) then 0
    else
      var k := 1 + DigitRun(s[1..]);
      assert s[..k] == [s[0]] + s[1..][..k - 1];
      k
  }

  predicate IsSpace(c: char) {
    c == ' ' || c == '\t' || c == '\n' || c == '\r' || c == '\U{b}' || c == '\U{c}'
  }

  function SkipSpace(s: string): (r: string)
    ensures |r| <= |s|
    ensures s == [] || !IsSpace(s[0]) ==> r == s
  {
    if s != [] && IsSpace(s[0]) then SkipSpace(s[1..]) else s
  }

  // The result of strtoimax with base 10: the value, the unread text, and
  // whether the value was out of range.
  datatype Parsed = Parsed(value: int, rest: string, erange: bool)

  function Signed(negative: bool, magnitude: int): int {
    if negative then -magnitude else magnitude
  }

  function Clamp(x: int): (r: int)
    ensures InRange(r)
  {
    if x > INTMAX_MAX then INTMAX_MAX else if x < INTMAX_MIN then INTMAX_MIN else x
  }

  // The digits at the start of d; `whole` is the unread text when there are none.
  function ReadMagnitude(negative: bool, d: string, whole: string): (p: Parsed)
    ensures InRange(p.value)
    ensures p.rest == whole || |p.rest| < |d|
  {
    var k := DigitRun(d);
    if k == 0 then Parsed(0, whole, false)
    else
      var x := Signed(negative, DecimalValue(d[..k]));
      Parsed(Clamp(x), d[k..], !InRange(x))
  }

  function StrToIMax(s: string): (p: Parsed)
    ensures |p.rest| <= |s|
    ensures InRange(p.value)
  {
    var t := SkipSpace(s);
    if t != "" && (t[0] == '-' || t[0] == '+') then ReadMagnitude(t[0] == '-', t[1..], s)
    else ReadMagnitude(false, t, s)
  }

  lemma {:induction false} DecimalReadsBack(n: nat)
    ensures AllDigits(Decimal(n)) && DecimalValue(Decimal(n)) == n
  {
    var s := Decimal(n);
    if n < 10 {
      assert s == [DigitChar(n)] && s[..0] == [];
    } else {
      DivisionShrinks(n, 10);
      DecimalReadsBack(n / 10);
      assert s == Decimal(n / 10) + [DigitChar(n % 10)];
      assert s[..|s| - 1] == Decimal(n / 10);
    }
  }

  lemma {:induction false} DigitRunStops(s: string, rest: string)
    requires AllDigits(s)
    requires rest == "" || !IsDigit(rest[0])
    ensures DigitRun(s + rest) == |s|
  {
    if s == "" {
      assert s + rest == rest;
    } else {
      assert (s + rest)[1..] == s[1..] + rest;
      DigitRunStops(s[1..], rest);
    }
  }

  lemma {:induction false} LeadingZeros(zeros: nat, s: string)
    requires AllDigits(s)
    ensures AllDigits(Zeros(zeros) + s) && DecimalValue(Zeros(zeros) + s) == DecimalValue(s)
    decreases |s|, zeros
  {
    var z := Zeros(zeros);
    if s == "" {
      assert z + s == z;
      ZerosAreZero(zeros);
    } else {
      LeadingZeros(zeros, s[..|s| - 1]);
      assert (z + s)[..|z + s| - 1] == z + s[..|s| - 1];
    }
  }

  function Zeros(k: nat): (s: string)
    ensures |s| == k && forall i :: 0 <= i < k ==> s[i] == '0'
  {
    seq(k, _ => '0')
  }

  lemma {:induction false} ZerosAreZero(k: nat)
    ensures AllDigits(Zeros(k)) && DecimalValue(Zeros(k)) == 0
  {
    if k > 0 {
      ZerosAreZero(k - 1);
      assert Zeros(k)[..k - 1] == Zeros(k - 1);
    }
  }

  // strtoimax undoes itos, whatever follows the number.
  lemma ItosReadsBack(n: int, rest: string)
    requires InRange(n)
    requires rest == "" || !IsDigit(rest[0])
    ensures StrToIMax(Itos(n) + rest) == Parsed(n, rest, false)
  {
    PaddedReadsBack(n, 0, rest);
    assert ZeroPadded(n, 0) == Itos(n);
  }

  // itos padded with zeros, after the sign, to a width.
  function ZeroPadded(n: int, width: nat): string {
    var t := Itos(n);
    if |t| >= width then t
    else if n < 0 then "-" + Zeros(width - |t|) + t[1..]
    else Zeros(width - |t|) + t
  }

  lemma ReadsMagnitude(negative: bool, d: string, rest: string, whole: string)
    requires d != "" && AllDigits(d) && InRange(Signed(negative, DecimalValue(d)))
    requires rest == "" || !IsDigit(rest[0])
    ensures ReadMagnitude(negative, d + rest, whole)
         == Parsed(Signed(negative, DecimalValue(d)), rest, false)
  {
    DigitRunStops(d, rest);
    assert (d + rest)[..|d|] == d && (d + rest)[|d|..] == rest;
  }

  // strtoimax reads a run of digits, signed or not, up to the first other character.
  lemma ReadsDigits(negative: bool, d: string, rest: string)
    requires d != "" && AllDigits(d) && InRange(Signed(negative, DecimalValue(d)))
    requires rest == "" || !IsDigit(rest[0])
    ensures StrToIMax((if negative then "-" + d else d) + rest)
         == Parsed(Signed(negative, DecimalValue(d)), rest, false)
  {
    hide DigitRun, DecimalValue, ReadMagnitude;
    var s := (if negative then "-" + d else d) + rest;
    assert IsDigit(d[0]);
    if negative {
      assert s[0] == '-' && s[1..] == d + rest;
    } else {
      assert s[0] == d[0];
    }
    ReadsMagnitude(negative, d, rest, s);
  }

  function PaddingZeros(n: int, width: nat): nat {
    if |Itos(n)| >= width then 0 else width - |Itos(n)|
  }

  lemma PaddedShape(n: int, width: nat)
    ensures var d := Zeros(PaddingZeros(n, width)) + Decimal(Abs(n));
            ZeroPadded(n, width) == if n < 0 then "-" + d else d
  {
    var z := PaddingZeros(n, width);
    var t := Itos(n);
    if n < 0 {
      assert t == "-" + Decimal(-n) && t[1..] == Decimal(-n);
      assert "-" + Zeros(z) + t[1..] == "-" + (Zeros(z) + Decimal(-n));
    }
    if |t| >= width {
      assert Zeros(z) + Decimal(Abs(n)) == Decimal(Abs(n));
    }
  }

  // A padded number has the wanted width and still denotes its number, sign included.
  lemma PaddedReadsBack(n: int, width: nat, rest: string)
    requires InRange(n)
    requires rest == "" || !IsDigit(rest[0])
    ensures |ZeroPadded(n, width)| == if |Itos(n)| >= width then |Itos(n)| else width
    ensures StrToIMax(ZeroPadded(n, width) + rest) == Parsed(n, rest, false)
  {
    var d := Zeros(PaddingZeros(n, width)) + Decimal(Abs(n));
    PaddedShape(n, width);
    DecimalReadsBack(Abs(n));
    LeadingZeros(PaddingZeros(n, width), Decimal(Abs(n)));
    ReadsDigits(n < 0, d, rest);
  }

  // Digits after an optional sign, any number of zeros in front.
  ghost predicate NumeralText(s: string, n: int) {
    var d := if s != "" && (s[0] == '-' || s[0] == '+') then s[1..] else s;
    d != "" && AllDigits(d) && n == Signed(s[0] == '-', DecimalValue(d))
  }

  // strtoimax reads any of them back.
  lemma NumeralReads(s: string, n: int, rest: string)
    requires NumeralText(s, n) && InRange(n) && (rest == "" || !IsDigit(rest[0]))
    ensures StrToIMax(s + rest) == Parsed(n, rest, false)
  {
    hide DigitRun, DecimalValue, ReadMagnitude;
    if s[0] == '-' || s[0] == '+' {
      assert (s + rest)[0] == s[0] && (s + rest)[1..] == s[1..] + rest;
      ReadsMagnitude(s[0] == '-', s[1..], rest, s + rest);
    } else {
      ReadsDigits(false, s, rest);
    }
  }

  lemma ItosNumeral(n: int)
    ensures NumeralText(Itos(n), n)
  {
    var d := Decimal(Abs(n));
    DecimalReadsBack(Abs(n));
    assert n < 0 ==> Itos(n)[1..] == d;
  }

  // A numeral is no shorter than its number needs.
  lemma NumeralLength(s: string, n: int)
    requires NumeralText(s, n)
    ensures |s| >= |Itos(n)|
  {
    var d := if s[0] == '-' || s[0] == '+' then s[1..] else s;
    DigitsNeeded(d);
  }

  lemma {:induction false} DigitsNeeded(d: string)
    requires d != "" && AllDigits(d)
    ensures |Decimal(DecimalValue(d))| <= |d|
  {
    var front, v := d[..|d| - 1], DecimalValue(d[..|d| - 1]);
    if front != "" && DecimalValue(d) >= 10 {
      DigitsNeeded(front);
      assert DecimalValue(d) / 10 == v;
    }
  }

  // Larger numbers have no fewer digits.
  lemma {:induction false} DecimalGrows(m: nat, n: nat)
    requires m <= n
    ensures |Decimal(m)| <= |Decimal(n)|
  {
    if m >= 10 {
      DivisionShrinks(m, 10);
      DivisionShrinks(n, 10);
      DecimalGrows(m / 10, n / 10);
    }
  }

  // Between two numbers none is longer than both.
  lemma ItosBetween(a: int, n: int, b: int)
    requires a <= n <= b
    ensures |Itos(n)| <= |Itos(a)| || |Itos(n)| <= |Itos(b)|
  {
    if n >= 0 { DecimalGrows(n, b); } else { DecimalGrows(-n, -a); }
  }

  // ---------------------------------------------------------------- bits of non-negative numbers

  function AndOf(a: nat, b: nat): (r: nat)
    ensures r <= a && r <= b
  {
    if a == 0 || b == 0 then 0 else (a % 2) * (b % 2) + 2 * AndOf(a / 2, b / 2)
  }

  function XorOf(a: nat, b: nat): nat
    decreases a + b
  {
    if a == 0 then b else if b == 0 then a else (a + b) % 2 + 2 * XorOf(a / 2, b / 2)
  }

  function OrOf(a: nat, b: nat): nat
    decreases a + b
  {
    if a == 0 then b
    else if b == 0 then a
    else (if a % 2 == 1 || b % 2 == 1 then 1 else 0) + 2 * OrOf(a / 2, b / 2)
  }

  // The i-th bit from the right.
  function Bit(n: nat, i: nat): (b: nat)
    ensures b <= 1
  {
    if i == 0 then n % 2 else Bit(n / 2, i - 1)
  }

  lemma {:induction false} NoBits(i: nat)
    ensures Bit(0, i) == 0
  {
    if i > 0 { NoBits(i - 1); }
  }

  // Bit by bit.
  lemma {:induction false} AndBits(a: nat, b: nat, i: nat)
    ensures Bit(AndOf(a, b), i) == if Bit(a, i) == 1 && Bit(b, i) == 1 then 1 else 0
    decreases i
  {
    NoBits(i);
    if a > 0 && b > 0 {
      HalfAndBit((a % 2) * (b % 2), AndOf(a / 2, b / 2));
      if i > 0 { AndBits(a / 2, b / 2, i - 1); }
    }
  }

  lemma {:induction false} OrBits(a: nat, b: nat, i: nat)
    ensures Bit(OrOf(a, b), i) == if Bit(a, i) == 1 || Bit(b, i) == 1 then 1 else 0
    decreases i
  {
    NoBits(i);
    if a > 0 && b > 0 {
      HalfAndBit(if a % 2 == 1 || b % 2 == 1 then 1 else 0, OrOf(a / 2, b / 2));
      if i > 0 { OrBits(a / 2, b / 2, i - 1); }
    }
  }

  lemma {:induction false} XorBits(a: nat, b: nat, i: nat)
    ensures Bit(XorOf(a, b), i) == if Bit(a, i) != Bit(b, i) then 1 else 0
    decreases i
  {
    NoBits(i);
    if a > 0 && b > 0 {
      HalfAndBit((a + b) % 2, XorOf(a / 2, b / 2));
      if i > 0 { XorBits(a / 2, b / 2, i - 1); }
    }
  }

  lemma HalfAndBit(b: nat, h: nat)
    requires b <= 1
    ensures (b + 2 * h) % 2 == b && (b + 2 * h) / 2 == h
  {
  }

  lemma {:induction false} XorBounded(a: nat, b: nat, k: nat)
    requires a < Pow2(k) && b < Pow2(k)
    ensures XorOf(a, b) < Pow2(k)
    decreases k
  {
    if a > 0 && b > 0 { XorBounded(a / 2, b / 2, k - 1); }
  }

  lemma {:induction false} OrBounded(a: nat, b: nat, k: nat)
    requires a < Pow2(k) && b < Pow2(k)
    ensures OrOf(a, b) < Pow2(k)
    decreases k
  {
    if a > 0 && b > 0 { OrBounded(a / 2, b / 2, k - 1); }
  }

  // Taking from all ones complements every bit.
  lemma {:induction false} ComplementBits(n: nat, k: nat, i: nat)
    requires n < Pow2(k) && i < k
    ensures Bit(Pow2(k) - 1 - n, i) == 1 - Bit(n, i)
    decreases k
  {
    var p := Pow2(k - 1);
    assert (2 * p - 1 - n) % 2 == 1 - n % 2 && (2 * p - 1 - n) / 2 == p - 1 - n / 2;
    if i > 0 { ComplementBits(n / 2, k - 1, i - 1); }
  }

  lemma WordSize()
    ensures Pow2(64) == TWO64
  {
    assert Pow2(8) == 256;
    hide Pow2;
    PowerSplits(8, 8);
    PowerSplits(16, 16);
    PowerSplits(32, 32);
  }

  lemma {:induction false} PowerSplits(a: nat, b: nat)
    ensures Pow2(a + b) == Pow2(a) * Pow2(b)
  {
    if a > 0 {
      PowerSplits(a - 1, b);
      assert 2 * Pow2(a - 1) * Pow2(b) == 2 * (Pow2(a - 1) * Pow2(b));
    }
  }
}
