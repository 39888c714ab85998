/** Unsigned 64-bit words as natural numbers, with the bitwise operators the
    paletted section uses on its `Vec<u64>` (`&`, `|`, `!`, `<<`, `>>`).
    Every operator is defined bit by bit, and every property is proved through
    the per-bit view `Bit(x, j)` and the extensionality lemma `BitsEqual`. */
module Bits {

  function Pow2(n: nat): (r: nat)
    ensures r >= 1
  {
    if n == 0 then 1 else 2 * Pow2(n - 1)
  }

  /** 2^64: one more than the largest `u64` (see `WordLimitIsPow2`). */
  const WORD_LIMIT: nat := 0x1_0000_0000_0000_0000

  type u64 = x: nat | x < WORD_LIMIT

  /** Bit `j` of `x` (bit 0 is the least significant). */
  function Bit(x: nat, j: nat): bool
  {
    if j == 0 then x % 2 == 1 else Bit(x / 2, j - 1)
  }

  /** `x & y` */
  function And(x: nat, y: nat): (r: nat)
    ensures r <= x && r <= y
  {
    if x == 0 || y == 0 then 0
    else 2 * And(x / 2, y / 2) + (if x % 2 == 1 && y % 2 == 1 then 1 else 0)
  }

  /** `x | y` */
  function Or(x: nat, y: nat): nat
  {
    if x == 0 then y
    else if y == 0 then x
    else 2 * Or(x / 2, y / 2) + (if x % 2 == 1 || y % 2 == 1 then 1 else 0)
  }

  /** `x | y` on two `u64`s. */
  function Or64(x: u64, y: u64): u64
  {
    WordLimitIsPow2();
    OrBound(x, y, 64);
    Or(x, y)
  }

  /** The low `n` bits of `x`, each inverted. */
  function NotLow(x: nat, n: nat): nat
  {
    if n == 0 then 0 else 2 * NotLow(x / 2, n - 1) + (if x % 2 == 1 then 0 else 1)
  }

  /** `!x` on a `u64` */
  function Not(x: u64): u64
  {
    WordLimitIsPow2();
    NotLowBound(x, 64);
    NotLow(x, 64)
  }

  /** The low `n` bits of `x`. */
  function Low(x: nat, n: nat): nat
  {
    if n == 0 then 0 else 2 * Low(x / 2, n - 1) + x % 2
  }

  /** `x` shifted left by `s` with no bound on the width. */
  function ShlWide(x: nat, s: nat): nat
  {
    if s == 0 then x else 2 * ShlWide(x, s - 1)
  }

  /** `x << s` on a `u64`: bits shifted past bit 63 are lost. A shift by 64
      or more overflows in the source (a panic in debug builds), so it is
      excluded. */
  function Shl(x: u64, s: nat): u64
    requires s < 64
  {
    WordLimitIsPow2();
    LowBound(ShlWide(x, s), 64);
    Low(ShlWide(x, s), 64)
  }

  /** `x >> s` */
  function Shr(x: nat, s: nat): (r: nat)
    ensures r <= x
  {
    if s == 0 then x else Shr(x / 2, s - 1)
  }

  /** `(1 << b) - 1` for a `u64`: the low `b` bits set (see `MaskIsShift`). */
  function Mask(b: nat): u64
    requires b < 64
  {
    WordLimitIsPow2();
    Pow2Strict(b, 64);
    Pow2(b) - 1
  }

  // ---------------------------------------------------------------------
  // Per-bit view of every operator

  lemma {:induction false} BitAnd(x: nat, y: nat, j: nat)
    ensures Bit(And(x, y), j) == (Bit(x, j) && Bit(y, j))
  {
    if x == 0 || y == 0 {
      BitZero(j);
      if x == 0 { BitZero(j); assert !Bit(x, j); } else { assert !Bit(y, j); }
    } else if j > 0 {
      BitAnd(x / 2, y / 2, j - 1);
      BitOfDouble(And(x / 2, y / 2), if x % 2 == 1 && y % 2 == 1 then 1 else 0, j);
    } else {
      BitOfDouble(And(x / 2, y / 2), if x % 2 == 1 && y % 2 == 1 then 1 else 0, j);
    }
  }

  lemma {:induction false} BitOr(x: nat, y: nat, j: nat)
    ensures Bit(Or(x, y), j) == (Bit(x, j) || Bit(y, j))
  {
    if x == 0 {
      BitZero(j);
    } else if y == 0 {
      BitZero(j);
    } else if j > 0 {
      BitOr(x / 2, y / 2, j - 1);
      BitOfDouble(Or(x / 2, y / 2), if x % 2 == 1 || y % 2 == 1 then 1 else 0, j);
    } else {
      BitOfDouble(Or(x / 2, y / 2), if x % 2 == 1 || y % 2 == 1 then 1 else 0, j);
    }
  }

  lemma {:induction false} BitNotLow(x: nat, n: nat, j: nat)
    ensures Bit(NotLow(x, n), j) == (j < n && !Bit(x, j))
  {
    if n == 0 {
      BitZero(j);
    } else {
      BitOfDouble(NotLow(x / 2, n - 1), if x % 2 == 1 then 0 else 1, j);
      if j > 0 {
        BitNotLow(x / 2, n - 1, j - 1);
      }
    }
  }

  lemma BitNot(x: u64, j: nat)
    ensures Bit(Not(x), j) == (j < 64 && !Bit(x, j))
  {
    BitNotLow(x, 64, j);
  }

  lemma {:induction false} BitLow(x: nat, n: nat, j: nat)
    ensures Bit(Low(x, n), j) == (j < n && Bit(x, j))
  {
    if n == 0 {
      BitZero(j);
    } else {
      BitOfDouble(Low(x / 2, n - 1), x % 2, j);
      if j > 0 {
        BitLow(x / 2, n - 1, j - 1);
      }
    }
  }

  lemma {:induction false} BitShlWide(x: nat, s: nat, j: nat)
    ensures Bit(ShlWide(x, s), j) == (s <= j && Bit(x, j - s))
  {
    if s > 0 {
      BitOfDouble(ShlWide(x, s - 1), 0, j);
      if j > 0 {
        BitShlWide(x, s - 1, j - 1);
      }
    }
  }

  lemma BitShl(x: u64, s: nat, j: nat)
    requires s < 64
    ensures Bit(Shl(x, s), j) == (s <= j < 64 && Bit(x, j - s))
  {
    BitLow(ShlWide(x, s), 64, j);
    BitShlWide(x, s, j);
  }

  lemma {:induction false} BitShr(x: nat, s: nat, j: nat)
    ensures Bit(Shr(x, s), j) == Bit(x, j + s)
  {
    if s > 0 {
      BitShr(x / 2, s - 1, j);
      assert Bit(x, j + s) == Bit(x / 2, j + s - 1);
    }
  }

  lemma BitMask(b: nat, j: nat)
    requires b < 64
    ensures Bit(Mask(b), j) == (j < b)
  {
    BitPow2Minus1(b, j);
  }

  /** The mask is the source's `(1 << b) - 1`. */
  lemma MaskIsShift(b: nat)
    requires b < 64
    ensures Mask(b) == Shl(1, b) - 1
  {
    ShlWideOne(b);
    Pow2Strict(b, 64);
    LowOfSmall(ShlWide(1, b), 64);
  }

  // ---------------------------------------------------------------------
  // Bounds

  lemma {:induction false} AndBound(x: nat, y: nat, n: nat)
    requires y < Pow2(n)
    ensures And(x, y) < Pow2(n)
  {
    if x != 0 && y != 0 && n > 0 {
      AndBound(x / 2, y / 2, n - 1);
    }
  }

  lemma {:induction false} OrBound(x: nat, y: nat, n: nat)
    requires x < Pow2(n) && y < Pow2(n)
    ensures Or(x, y) < Pow2(n)
  {
    if x != 0 && y != 0 && n > 0 {
      OrBound(x / 2, y / 2, n - 1);
    }
  }

  lemma {:induction false} NotLowBound(x: nat, n: nat)
    ensures NotLow(x, n) < Pow2(n)
  {
    if n > 0 {
      NotLowBound(x / 2, n - 1);
    }
  }

  lemma {:induction false} LowBound(x: nat, n: nat)
    ensures Low(x, n) < Pow2(n)
  {
    if n > 0 {
      LowBound(x / 2, n - 1);
    }
  }

  lemma {:induction false} ShrBound(x: nat, s: nat, n: nat)
    requires x < Pow2(n + s)
    ensures Shr(x, s) < Pow2(n)
  {
    if s > 0 {
      ShrBound(x / 2, s - 1, n);
    }
  }

  // ---------------------------------------------------------------------
  // Bits and magnitude

  /** Two numbers below 2^n with the same low n bits are equal. */
  lemma {:induction false} BitsEqual(x: nat, y: nat, n: nat)
    requires x < Pow2(n) && y < Pow2(n)
    requires forall j :: 0 <= j < n ==> Bit(x, j) == Bit(y, j)
    ensures x == y
  {
    if n > 0 {
      assert Bit(x, 0) == Bit(y, 0);
      forall j | 0 <= j < n - 1
        ensures Bit(x / 2, j) == Bit(y / 2, j)
      {
        assert Bit(x, j + 1) == Bit(y, j + 1);
      }
      BitsEqual(x / 2, y / 2, n - 1);
    }
  }

  /** No bit at or above n is set in a number below 2^n. */
  lemma {:induction false} BitAbove(x: nat, n: nat, j: nat)
    requires x < Pow2(n) && n <= j
    ensures !Bit(x, j)
  {
    if j == 0 {
    } else if n == 0 {
      BitZero(j);
    } else {
      BitAbove(x / 2, n - 1, j - 1);
    }
  }

  lemma {:induction false} BitZero(j: nat)
    ensures !Bit(0, j)
  {
    if j > 0 {
      BitZero(j - 1);
    }
  }

  lemma BitOfDouble(x: nat, low: nat, j: nat)
    requires low < 2
    ensures Bit(2 * x + low, j) == (if j == 0 then low == 1 else Bit(x, j - 1))
  {
    if j > 0 {
      assert (2 * x + low) / 2 == x;
    }
  }

  lemma {:induction false} Pow2Monotone(a: nat, b: nat)
    requires a <= b
    ensures Pow2(a) <= Pow2(b)
  {
    if a < b {
      Pow2Monotone(a, b - 1);
    }
  }

  lemma WordLimitIsPow2()
    ensures Pow2(64) == WORD_LIMIT
  {
    Pow2Double(1, 2);
    Pow2Double(2, 4);
    Pow2Double(4, 16);
    Pow2Double(8, 256);
    Pow2Double(16, 0x1_0000);
    Pow2Double(32, 0x1_0000_0000);
  }

  lemma Pow2Double(n: nat, v: nat)
    requires Pow2(n) == v
    ensures Pow2(n + n) == v * v
  {
    Pow2Add(n, n);
  }

  lemma {:induction false} Pow2Strict(a: nat, b: nat)
    requires a < b
    ensures Pow2(a) < Pow2(b)
  {
    if a < b - 1 {
      Pow2Strict(a, b - 1);
    }
  }

  lemma {:induction false} Pow2Add(a: nat, b: nat)
    ensures Pow2(a + b) == Pow2(a) * Pow2(b)
  {
    if b > 0 {
      Pow2Add(a, b - 1);
    }
  }

  lemma {:induction false} LowOfSmall(x: nat, n: nat)
    requires x < Pow2(n)
    ensures Low(x, n) == x
  {
    if n > 0 {
      LowOfSmall(x / 2, n - 1);
    }
  }

  lemma {:induction false} ShlWideOne(b: nat)
    ensures ShlWide(1, b) == Pow2(b)
  {
    if b > 0 {
      ShlWideOne(b - 1);
    }
  }

  lemma {:induction false} BitPow2Minus1(b: nat, j: nat)
    ensures Bit(Pow2(b) - 1, j) == (j < b)
  {
    if b == 0 {
      BitZero(j);
    } else {
      assert Pow2(b) - 1 == 2 * (Pow2(b - 1) - 1) + 1;
      BitOfDouble(Pow2(b - 1) - 1, 1, j);
      if j > 0 {
        BitPow2Minus1(b - 1, j - 1);
      }
    }
  }

  /** Shifting left by `s` multiplies by 2^s. */
  lemma {:induction false} ShlWideMul(x: nat, s: nat)
    ensures ShlWide(x, s) == x * Pow2(s)
  {
    if s > 0 {
      ShlWideMul(x, s - 1);
    }
  }

  /** OR-ing a value below 2^s with a value shifted left by `s` adds them:
      the two have no bit in common. */
  lemma {:induction false} OrBelow(a: nat, b: nat, s: nat)
    requires a < Pow2(s)
    ensures Or(a, ShlWide(b, s)) == a + b * Pow2(s)
  {
    ShlWideMul(b, s);
    if s == 0 || a == 0 || b == 0 {
    } else {
      OrBelow(a / 2, b, s - 1);
      ShlWideMul(b, s - 1);
    }
  }

  /** A shift that loses no bit multiplies by 2^s. */
  lemma ShlSmall(x: u64, s: nat)
    requires s < 64 && x * Pow2(s) < WORD_LIMIT
    ensures Shl(x, s) == x * Pow2(s)
  {
    WordLimitIsPow2();
    ShlWideMul(x, s);
    LowOfSmall(ShlWide(x, s), 64);
  }
}
