// Where a string belongs in a hash table: the 32-bit hash of
// bash/hashlib.c, and the bucket it selects with a bit mask.

module HashStrings {
  import opened Numerals

  type Key = seq<nat>

  const WORD: int := 0x1_0000_0000
  const FNV_OFFSET: nat := 2166136261
  const FNV_PRIME: nat := 16777619

  ghost predicate IsPow2(n: int) { exists k :: 0 <= k && n == Pow2(k) }

  // A mask of one less than a power of two keeps the remainder.
  lemma {:induction false} AndMask(h: nat, k: nat)
    ensures AndOf(h, Pow2(k) - 1) == h % Pow2(k)
    decreases k
  {
    if k > 0 {
      var m := Pow2(k - 1);
      AndMask(h / 2, k - 1);
      assert (2 * m - 1) / 2 == m - 1 && (2 * m - 1) % 2 == 1;
      HalfModulo(h, m);
      if h == 0 {
      } else {
        assert AndOf(h, 2 * m - 1) == (h % 2) * 1 + 2 * AndOf(h / 2, m - 1);
      }
    }
  }

  lemma HalfModulo(h: nat, m: nat)
    requires m > 0
    ensures h % (2 * m) == h % 2 + 2 * ((h / 2) % m)
  {
    var q, r := h / 2 / m, h / 2 % m;
    assert h / 2 == q * m + r;
    assert h == 2 * (q * m + r) + h % 2;
    assert h == q * (2 * m) + (2 * r + h % 2) by { Spread(q, m, r, h % 2); }
    DivModUnique(h, 2 * m, q, 2 * r + h % 2);
  }

  lemma Spread(q: int, m: int, r: int, e: int)
    ensures 2 * (q * m + r) + e == q * (2 * m) + (2 * r + e)
  {
  }

  lemma DivModUnique(a: int, n: int, q: int, r: int)
    requires n > 0 && a == q * n + r && 0 <= r < n
    ensures a / n == q && a % n == r
  {
    var d := a / n - q;
    assert a == (a / n) * n + a % n;
    assert d * n == r - a % n by { assert (a / n) * n - q * n == d * n; }
    Multiples(d, n);
  }

  lemma Multiples(d: int, n: int)
    requires n > 0
    ensures (d > 0 ==> d * n >= n) && (d < 0 ==> d * n <= -n)
  {
  }

  // ---------------------------------------------------------------- hashing

  // A byte as the signed char the original mixes in, as an unsigned word.
  function Extended(c: nat): nat {
    if c % 256 < 128 then c % 256 else WORD - 256 + c % 256
  }

  function Mix(h: nat, c: nat): nat {
    XorOf((h * FNV_PRIME) % WORD, Extended(c))
  }

  // The 32-bit Fowler-Noll-Vo hash, first variant.
  function HashString(s: Key): (h: nat)
    decreases |s|
  {
    if s == [] then FNV_OFFSET else Mix(HashString(s[..|s| - 1]), s[|s| - 1])
  }

  lemma {:induction false} HashIsWord(s: Key)
    ensures HashString(s) < WORD
    decreases |s|
  {
    if s != [] {
      HashIsWord(s[..|s| - 1]);
      WordIsPow2();
      XorBounded((HashString(s[..|s| - 1]) * FNV_PRIME) % WORD, Extended(s[|s| - 1]), 32);
    }
  }

  lemma WordIsPow2()
    ensures Pow2(32) == WORD
  {
    assert Pow2(8) == 256;
    assert Pow2(16) == 65536 by { assert Pow2(12) == 4096; }
    assert Pow2(24) == 16777216 by { assert Pow2(20) == 1048576; }
    assert Pow2(28) == 268435456;
  }

  // hash_string: the product with the prime is a sum of shifts, modulo 2^32.
  method Hash(s: Key) returns (h: nat)
    ensures h == HashString(s)
  {
    h := FNV_OFFSET;
    for n := 0 to |s|
      invariant h == HashString(s[..n])
    {
      assert s[..n + 1][..n] == s[..n];
      h := (h + h * 2 + h * 16 + h * 128 + h * 256 + h * 16777216) % WORD;
      h := XorOf(h, Extended(s[n]));
    }
    assert s[..|s|] == s;
  }

  // ---------------------------------------------------------------- buckets

  // HASH_BUCKET, the hash known.
  function Bucket(h: nat, buckets: nat): nat
    requires buckets > 0
  {
    AndOf(h, buckets - 1)
  }

  // With a power of two of buckets every bucket exists, and is the remainder.
  lemma BucketIsRemainder(h: nat, buckets: nat)
    requires IsPow2(buckets)
    ensures buckets > 0 && Bucket(h, buckets) == h % buckets < buckets
  {
    var k :| 0 <= k && buckets == Pow2(k);
    AndMask(h, k);
  }

  // A C int.
  function Wrap32(n: int): (r: int)
    ensures -0x8000_0000 <= r < 0x8000_0000 && (r - n) % WORD == 0
  {
    (n + 0x8000_0000) % WORD - 0x8000_0000
  }

  // What a table of n buckets would grow to; not positive on overflow.
  function GrownSize(n: int): int { Wrap32(n * 4) }

  // Growing keeps a power of two, or is given up.
  lemma GrowsToPow2(n: int)
    requires IsPow2(n) && n < 0x8000_0000
    ensures if n < 0x2000_0000 then GrownSize(n) == 4 * n && IsPow2(4 * n) else GrownSize(n) <= 0
  {
    var k :| 0 <= k && n == Pow2(k);
    assert Pow2(k + 2) == 4 * n;
    if n >= 0x2000_0000 {
      Exponents(k);
    }
  }

  lemma Exponents(k: nat)
    requires 0x2000_0000 <= Pow2(k) < 0x8000_0000
    ensures Pow2(k) == 0x2000_0000 || Pow2(k) == 0x4000_0000
  {
    WordIsPow2();
    assert Pow2(31) == 0x8000_0000 && Pow2(30) == 0x4000_0000 && Pow2(29) == 0x2000_0000 && Pow2(28) == 0x1000_0000;
    if k < 29 { Pow2Grows(k, 28); } else if k > 30 { Pow2Grows(31, k); }
  }

  lemma {:induction false} Pow2Grows(j: nat, k: nat)
    requires j <= k
    ensures Pow2(j) <= Pow2(k)
    decreases k
  {
    if j < k { Pow2Grows(j, k - 1); }
  }
}
