/**
 Unsigned 32-bit words as bounded integers, with the bit operations the kernel
 code uses defined digit by digit.
 */
module Bits {

  const WORD: nat := 0x1_0000_0000

  type u32 = x: int | 0 <= x < 0x1_0000_0000

  function Pow2(n: nat): (p: nat)
    ensures p >= 1
  {
    if n == 0 then 1 else 2 * Pow2(n - 1)
  }

  /** Binary digit `j` of `x`. */
  function Bit(x: nat, j: nat): (b: nat)
    ensures b <= 1
    decreases j
  {
    if j == 0 then x % 2 else Bit(x / 2, j - 1)
  }

  /** Bitwise `a | b`. */
  function Or(a: nat, b: nat): nat
    decreases a + b
  {
    if a == 0 then b else if b == 0 then a
    else 2 * Or(a / 2, b / 2) + (if a % 2 == 1 || b % 2 == 1 then 1 else 0)
  }

  /** Bitwise `a & b`. */
  function And(a: nat, b: nat): nat
  {
    if a == 0 || b == 0 then 0
    else 2 * And(a / 2, b / 2) + (if a % 2 == 1 && b % 2 == 1 then 1 else 0)
  }

  /** `__CLZ(__RBIT(x))`: the number of trailing zeros, 32 for the zero word. */
  function TrailingZeros(x: u32): nat
  {
    if x == 0 then 32 else if x % 2 == 1 then 0 else 1 + TrailingZeros(x / 2)
  }

  /** `1 << __CLZ(__RBIT(x))`: the lowest set bit; shifting by 32 leaves zero for the zero word. */
  function LowestBit(x: u32): (r: u32)
    ensures r <= x && (r == 0 <==> x == 0)
  {
    if x == 0 then 0 else if x % 2 == 1 then 1 else 2 * LowestBit(x / 2)
  }

  /** Number of digits needed to write `x`. */
  function Length(x: nat): nat
  {
    if x == 0 then 0 else 1 + Length(x / 2)
  }

  /** `__CLZ(x)`. */
  function LeadingZeros(x: u32): int
  {
    32 - Length(x)
  }

  // ---- powers of two ----

  lemma DoubleProduct(x: int, y: int)
    ensures (2 * x) * y == 2 * (x * y)
  {}

  lemma {:induction false} Pow2Add(a: nat, b: nat)
    ensures Pow2(a + b) == Pow2(a) * Pow2(b)
  {
    if a == 0 {
    } else {
      Pow2Add(a - 1, b);
      DoubleProduct(Pow2(a - 1), Pow2(b));
    }
  }

  lemma {:induction false} Pow2Mono(a: nat, b: nat)
    requires a < b
    ensures 2 * Pow2(a) <= Pow2(b)
  {
    if a + 1 < b {
      Pow2Mono(a, b - 1);
    }
  }

  /** Order on powers is order on exponents. */
  lemma Pow2Order(a: nat, b: nat)
    ensures a <= b <==> Pow2(a) <= Pow2(b)
    ensures a < b <==> Pow2(a) < Pow2(b)
  {
    if a < b { Pow2Mono(a, b); } else if b < a { Pow2Mono(b, a); }
  }

  lemma Pow2Values()
    ensures Pow2(3) == 8 && Pow2(4) == 16 && Pow2(5) == 32 && Pow2(8) == 256
    ensures Pow2(29) == 0x2000_0000 && Pow2(31) == 0x8000_0000 && Pow2(32) == WORD
  {
    assert Pow2(2) == 4;
    assert Pow2(4) == 16;
    assert Pow2(6) == 64;
    assert Pow2(8) == 256;
    Pow2Add(8, 8);
    Pow2Add(16, 16);
    assert Pow2(30) == 4 * Pow2(28) by { Pow2Add(2, 28); }
    assert Pow2(32) == 4 * Pow2(30) by { Pow2Add(2, 30); }
    assert Pow2(30) == 2 * Pow2(29) && Pow2(32) == 2 * Pow2(31);
  }

  // ---- quotients and remainders ----

  /** A quotient and an in-range remainder are the quotient and the remainder. */
  lemma ModUnique(a: int, m: int, q: int, r: int)
    requires 0 <= r < m && a == q * m + r
    ensures a % m == r && a / m == q
  {
    var d := q - a / m;
    assert a == (a / m) * m + a % m;
    assert d * m == q * m - (a / m) * m;
    if d >= 1 { MulAtLeast(d, m); } else if d <= -1 { MulAtLeast(-d, m); }
  }

  lemma MulAtLeast(d: int, m: int)
    requires d >= 1 && m >= 0
    ensures d * m >= m
    ensures -d * m <= -m
  {}

  lemma MultipleMod(q: int, m: int)
    requires m > 0
    ensures (q * m) % m == 0 && (q * m) / m == q
  {
    ModUnique(q * m, m, q, 0);
  }

  // ---- lowest set bit ----

  /** The low `k` digits of `x` are zero. */
  predicate Aligned(x: nat, k: nat)
    decreases k
  {
    k == 0 || (x % 2 == 0 && Aligned(x / 2, k - 1))
  }

  /** Being aligned is being a multiple of the power of two. */
  lemma {:induction false} AlignedMultiple(x: nat, k: nat) returns (q: nat)
    requires Aligned(x, k)
    ensures x == q * Pow2(k)
    decreases k
  {
    if k == 0 {
      q := x;
    } else {
      q := AlignedMultiple(x / 2, k - 1);
      assert 2 * (q * Pow2(k - 1)) == q * (2 * Pow2(k - 1));
    }
  }

  lemma {:induction false} AlignedWeaken(x: nat, a: nat, b: nat)
    requires a <= b && Aligned(x, b)
    ensures Aligned(x, a)
    decreases a
  {
    if a == 0 {
    } else {
      AlignedWeaken(x / 2, a - 1, b - 1);
    }
  }

  lemma {:induction false} AlignedZero(k: nat)
    ensures Aligned(0, k)
  {
    if k == 0 {
    } else {
      AlignedZero(k - 1);
    }
  }

  /** A word is aligned to its lowest set bit, and clearing that bit aligns it further. */
  lemma {:induction false} LowestBitSpec(x: u32)
    requires x > 0
    ensures LowestBit(x) == Pow2(TrailingZeros(x))
    ensures Aligned(x, TrailingZeros(x))
    ensures Aligned(x - LowestBit(x), TrailingZeros(x) + 1)
    decreases x
  {
    if x % 2 == 0 {
      var h := x / 2;
      LowestBitSpec(h);
      var rest := x - LowestBit(x);
      assert rest == 2 * (h - LowestBit(h));
      assert rest / 2 == h - LowestBit(h);
    } else {
      assert Aligned((x - 1) / 2, 0);
    }
  }

  lemma {:induction false} TrailingZerosAtLeast(x: u32, m: nat)
    requires x > 0 && Aligned(x, m)
    ensures m <= TrailingZeros(x)
    decreases m
  {
    if m > 0 { TrailingZerosAtLeast(x / 2, m - 1); }
  }

  lemma TrailingZerosRange(x: u32)
    requires x > 0
    ensures TrailingZeros(x) < 32
  {
    LowestBitSpec(x);
    Pow2Values();
    Pow2Order(TrailingZeros(x), 32);
  }

  lemma {:induction false} LengthOfPow2(n: nat)
    ensures Length(Pow2(n)) == n + 1
  {
    if n == 0 {
    } else {
      LengthOfPow2(n - 1);
      assert Pow2(n) / 2 == Pow2(n - 1);
    }
  }

  // ---- disjoint fields ----

  /** The largest multiple of `2^k` not above `a`. */
  function RoundDown(a: nat, k: nat): nat
    decreases k
  {
    if k == 0 then a else 2 * RoundDown(a / 2, k - 1)
  }

  lemma {:induction false} RoundDownNear(a: nat, k: nat)
    ensures RoundDown(a, k) <= a < RoundDown(a, k) + Pow2(k)
    decreases k
  {
    if k == 0 {
    } else {
      RoundDownNear(a / 2, k - 1);
    }
  }

  lemma {:induction false} RoundDownAligned(a: nat, k: nat)
    ensures Aligned(RoundDown(a, k) + Pow2(k), k)
    decreases k
  {
    if k == 0 {
    } else {
      RoundDownAligned(a / 2, k - 1);
    }
  }

  /** Masking with the ones from bit `k` up rounds down to a multiple of `2^k`. */
  lemma {:induction false} AndHighMask(a: nat, k: nat, n: nat)
    requires k <= n && a < Pow2(n)
    ensures Pow2(k) <= Pow2(n)
    ensures And(a, Pow2(n) - Pow2(k)) == RoundDown(a, k)
    decreases n
  {
    Pow2Order(k, n);
    if k == 0 {
      AndOnes(a, n);
    } else if n == k {
      RoundDownBelow(a, k);
    } else {
      Pow2Order(k - 1, n - 1);
      AndHighMask(a / 2, k - 1, n - 1);
      AndEven(a, Pow2(n - 1) - Pow2(k - 1));
    }
  }

  lemma {:induction false} RoundDownBelow(a: nat, k: nat)
    requires a < Pow2(k)
    ensures RoundDown(a, k) == 0
    decreases k
  {
    if k == 0 {
    } else {
      RoundDownBelow(a / 2, k - 1);
    }
  }

  lemma AndEven(a: nat, m: nat)
    ensures And(a, 2 * m) == 2 * And(a / 2, m)
  {}

  lemma {:induction false} AndOnes(a: nat, n: nat)
    requires a < Pow2(n)
    ensures And(a, Pow2(n) - 1) == a
    decreases n
  {
    if n != 0 && a != 0 {
      AndOnes(a / 2, n - 1);
      assert (Pow2(n) - 1) / 2 == Pow2(n - 1) - 1;
    }
  }

  lemma {:induction false} BitOfAnd(a: nat, b: nat, j: nat)
    ensures Bit(And(a, b), j) == (if Bit(a, j) == 1 && Bit(b, j) == 1 then 1 else 0)
    decreases j
  {
    if a == 0 || b == 0 {
      BitOfZero(j);
    } else if j > 0 {
      BitOfAnd(a / 2, b / 2, j - 1);
    }
  }

  lemma {:induction false} BitOfZero(j: nat)
    ensures Bit(0, j) == 0
  {
    if j > 0 { BitOfZero(j - 1); }
  }

  /** All ones but bit `q`. */
  lemma {:induction false} BitOfComplement(n: nat, q: nat, j: nat)
    requires q < n && j < n
    ensures Pow2(q) < Pow2(n)
    ensures Bit(Pow2(n) - 1 - Pow2(q), j) == (if j == q then 0 else 1)
    decreases n
  {
    Pow2Order(q, n);
    var x := Pow2(n) - 1 - Pow2(q);
    if q == 0 {
      assert x == 2 * (Pow2(n - 1) - 1);
      if j > 0 { BitOfOnes(n - 1, j - 1); }
    } else {
      Pow2Order(q - 1, n - 1);
      assert x == 2 * (Pow2(n - 1) - 1 - Pow2(q - 1)) + 1;
      if j > 0 { BitOfComplement(n - 1, q - 1, j - 1); }
    }
  }

  lemma {:induction false} BitOfOnes(n: nat, j: nat)
    requires j < n
    ensures Bit(Pow2(n) - 1, j) == 1
    decreases n
  {
    assert Pow2(n) - 1 == 2 * (Pow2(n - 1) - 1) + 1;
    if j > 0 { BitOfOnes(n - 1, j - 1); }
  }

  lemma {:induction false} AndBound(a: nat, b: nat)
    ensures And(a, b) <= a && And(a, b) <= b
    decreases a
  {
    if a != 0 && b != 0 { AndBound(a / 2, b / 2); }
  }
}
