// The integer arithmetic of bash/expr.c: intmax_t operations that wrap
// around, division that truncates, and exponentiation by repeated squaring.

module ArithValues {
  import opened Numerals

  datatype BinOp =
    | Mul | Div | Mod | Add | Sub | Shl | Shr
    | Leq | Geq | Lt | Gt | EqEq | Neq | BitAnd | BitXor | BitOr

  datatype UnOp = LogNot | BitNot | Minus | Plus

  function Truth(b: bool): int { if b then 1 else 0 }

  // C division: the quotient is truncated toward zero.
  function TruncDiv(a: int, b: int): int
    requires b != 0
  {
    if a >= 0 then a / b else -((-a) / b)
  }

  function TruncMod(a: int, b: int): int
    requires b != 0
  {
    a - b * TruncDiv(a, b)
  }

  // The word that holds a number, as a non-negative number, and back.
  function ToWord(x: int): (n: nat)
    ensures n < TWO64
  {
    var w := Wrap(x);
    if w < 0 then w + TWO64 else w
  }

  function FromWord(n: nat): (r: int)
    requires n < TWO64
    ensures InRange(r)
  {
    if n >= TWO63 then n - TWO64 else n
  }

  function WordOr(a: nat, b: nat): (r: nat)
    requires a < TWO64 && b < TWO64
    ensures r == OrOf(a, b) < TWO64
  {
    WordSize();
    OrBounded(a, b, 64);
    OrOf(a, b)
  }

  function WordXor(a: nat, b: nat): (r: nat)
    requires a < TWO64 && b < TWO64
    ensures r == XorOf(a, b) < TWO64
  {
    WordSize();
    XorBounded(a, b, 64);
    XorOf(a, b)
  }

  // The value of a binary operation; division by zero is an error its callers
  // have excluded. Shift counts are taken modulo the word size.
  function Apply(op: BinOp, a: int, b: int): (r: int)
    ensures InRange(r)
  {
    match op
    case Mul => Wrap(a * b)
    case Div => if b == 0 then 0 else Wrap(TruncDiv(a, b))
    case Mod => if b == 0 then 0 else Wrap(TruncMod(a, b))
    case Add => Wrap(a + b)
    case Sub => Wrap(a - b)
    case Shl => Wrap(a * Pow2(b % 64))
    case Shr => Wrap(a / Pow2(b % 64))
    case Leq => Truth(a <= b)
    case Geq => Truth(a >= b)
    case Lt => Truth(a < b)
    case Gt => Truth(a > b)
    case EqEq => Truth(a == b)
    case Neq => Truth(a != b)
    case BitAnd => FromWord(AndOf(ToWord(a), ToWord(b)))
    case BitXor => FromWord(WordXor(ToWord(a), ToWord(b)))
    case BitOr => FromWord(WordOr(ToWord(a), ToWord(b)))
  }

  function ApplyUnary(op: UnOp, a: int): int {
    match op
    case LogNot => Truth(a == 0)
    case BitNot => Wrap(-1 - a)
    case Minus => Wrap(-a)
    case Plus => a
  }

  predicate Divides(op: BinOp) { op == Div || op == Mod }

  // Quotient and remainder belong together, the remainder has the dividend's
  // sign, and the one quotient that does not fit wraps to INTMAX_MIN.
  lemma DivisionLaw(a: int, b: int)
    requires InRange(a) && InRange(b) && b != 0
    ensures a == b * TruncDiv(a, b) + TruncMod(a, b)
    ensures Abs(TruncMod(a, b)) < Abs(b) && (TruncMod(a, b) != 0 ==> (TruncMod(a, b) < 0 <==> a < 0))
    ensures a == INTMAX_MIN && b == -1 ==> Apply(Div, a, b) == INTMAX_MIN && Apply(Mod, a, b) == 0
    ensures !(a == INTMAX_MIN && b == -1) ==> Apply(Div, a, b) == TruncDiv(a, b) && Apply(Mod, a, b) == TruncMod(a, b)
  {
    EuclidOf(Abs(a), b);
    var q := Abs(a) / b;
    QuotientSmall(Abs(a), Abs(b), Abs(q));
    NegatedProduct(b, q);
  }

  lemma NegatedProduct(b: int, q: int)
    ensures b * (-q) == -(b * q)
  {
  }

  lemma EuclidOf(n: nat, b: int)
    requires b != 0
    ensures n == b * (n / b) + n % b && 0 <= n % b < Abs(b)
    ensures Abs(b) * Abs(n / b) == b * (n / b)
  {
    var q := n / b;
    if b < 0 {
      assert q == -(n / (-b));
      SameProduct(b, q);
    }
  }

  lemma SameProduct(b: int, q: int)
    ensures (-b) * (-q) == b * q
  {
  }

  lemma QuotientSmall(n: nat, b: nat, q: nat)
    requires b > 0 && b * q <= n
    ensures q <= n && (b > 1 && n > 0 ==> q < n)
  {
    assert b * q == q + (b - 1) * q;
    if b > 1 {
      assert (b - 1) * q >= q;
    }
  }

  // ---------------------------------------------------------------- exponentiation

  function Power(base: int, exp: nat): int {
    if exp == 0 then 1 else base * Power(base, exp - 1)
  }

  // The two numbers agree modulo 2^64.
  predicate Congruent(x: int, y: int) {
    Wrap(x) == Wrap(y)
  }

  lemma WrapShift(x: int, k: int)
    ensures Wrap(x + k * TWO64) == Wrap(x)
  {
    assert (x + k * TWO64) % TWO64 == x % TWO64;
  }

  lemma WrapDistance(x: int) returns (k: int)
    ensures x == Wrap(x) + k * TWO64
  {
    k := (x - Wrap(x)) / TWO64;
  }

  lemma CongruentTimes(x: int, y: int, m: int)
    requires Congruent(x, y)
    ensures Congruent(m * x, m * y)
  {
    var j := WrapDistance(x);
    var k := WrapDistance(y);
    assert m * x == m * y + (m * (j - k)) * TWO64;
    WrapShift(m * y, m * (j - k));
  }

  lemma {:induction false} CongruentPower(x: int, y: int, exp: nat)
    requires Congruent(x, y)
    ensures Congruent(Power(x, exp), Power(y, exp))
  {
    if exp > 0 {
      CongruentPower(x, y, exp - 1);
      CongruentTimes(Power(x, exp - 1), Power(y, exp - 1), x);
      CongruentTimes(x, y, Power(y, exp - 1));
    }
  }

  lemma {:induction false} PowerOfSquare(base: int, half: nat)
    ensures Power(base * base, half) == Power(base, 2 * half)
  {
    if half > 0 {
      PowerOfSquare(base, half - 1);
      assert Power(base, 2 * half) == base * (base * Power(base, 2 * half - 2));
    }
  }

  // Repeated squaring computes the power modulo 2^64, for every base and
  // every non-negative exponent.
  method Ipow(base0: int, exp0: int) returns (result: int)
    requires exp0 >= 0
    ensures result == Wrap(Power(base0, exp0))
  {
    var base, exp := base0, exp0;
    result := 1;
    assert 1 * Power(base, exp) == Power(base0, exp0);
    while exp != 0
      invariant exp >= 0
      invariant Congruent(result * Power(base, exp), Power(base0, exp0))
      invariant InRange(result)
      decreases exp
    {
      SquareStep(result, base, exp);
      if exp % 2 == 1 {
        result := Wrap(result * base);
      }
      exp := exp / 2;
      base := Wrap(base * base);
    }
  }

  lemma SquareStep(result: int, base: int, exp: nat)
    requires exp > 0
    ensures var result' := if exp % 2 == 1 then Wrap(result * base) else result;
            Congruent(result' * Power(Wrap(base * base), exp / 2), result * Power(base, exp))
  {
    hide Wrap, Power;
    var half := exp / 2;
    WrapTwice(base * base);
    CongruentPower(Wrap(base * base), base * base, half);
    PowerOfSquare(base, half);
    if exp % 2 == 1 {
      OddStep(result, base, exp, Power(Wrap(base * base), half));
    } else {
      CongruentTimes(Power(Wrap(base * base), half), Power(base, exp), result);
    }
  }

  lemma OddStep(result: int, base: int, exp: nat, q: int)
    requires exp % 2 == 1 && Congruent(q, Power(base, exp - 1))
    ensures Congruent(Wrap(result * base) * q, result * Power(base, exp))
  {
    hide Wrap;
    var p := Power(base, exp - 1);
    var r := Wrap(result * base);
    CongruentTimes(q, p, r);
    WrapTwice(result * base);
    CongruentTimes(r, result * base, p);
    OddPower(result, base, p);
    Commute(r, p);
  }

  lemma WrapTwice(x: int)
    ensures Congruent(Wrap(x), x)
  {
  }

  lemma Commute(x: int, y: int)
    ensures x * y == y * x
  {
  }

  lemma OddPower(result: int, base: int, p: int)
    ensures p * (result * base) == result * (base * p)
  {
  }
}
