/**
  Unsigned machine words as natural numbers, with the bitwise operators of C
  defined by recursion on binary digits.
 */
module Bits {

  const BYTE_RANGE := 0x100
  const UINT16_RANGE := 0x1_0000
  const UINT32_RANGE := 0x1_0000_0000
  const UINT64_RANGE := 0x1_0000_0000_0000_0000

  type uint8 = x: int | 0 <= x < 0x100
  type uint16 = x: int | 0 <= x < 0x1_0000
  type uint32 = x: int | 0 <= x < 0x1_0000_0000
  type uint64 = x: int | 0 <= x < 0x1_0000_0000_0000_0000

  function Pow2(n: nat): (p: nat)
    ensures p > 0
  {
    if n == 0 then 1 else 2 * Pow2(n - 1)
  }

  /** Binary digit `i` of `x`. */
  predicate Bit(x: nat, i: nat)
    decreases i
  {
    if i == 0 then x % 2 == 1 else Bit(x / 2, i - 1)
  }

  function And(a: nat, b: nat): nat
    decreases a
  {
    if a == 0 || b == 0 then 0
    else (if a % 2 == 1 && b % 2 == 1 then 1 else 0) + 2 * And(a / 2, b / 2)
  }

  function Or(a: nat, b: nat): nat
    decreases a + b
  {
    if a == 0 && b == 0 then 0
    else (if a % 2 == 1 || b % 2 == 1 then 1 else 0) + 2 * Or(a / 2, b / 2)
  }

  function Xor(a: nat, b: nat): nat
    decreases a + b
  {
    if a == 0 && b == 0 then 0
    else (if a % 2 != b % 2 then 1 else 0) + 2 * Xor(a / 2, b / 2)
  }

  /** `~x` on 32 bits. */
  function Not32(x: uint32): uint32 { UINT32_RANGE - 1 - x }

  /** Conversion of a `uint32_t` to `int32_t`. */
  function Int32(x: uint32): int { if x < 0x8000_0000 then x else x - UINT32_RANGE }

  /** Conversion of an `int32_t` to `uint32_t`. */
  function Unsigned32(x: int): uint32
    requires -0x8000_0000 <= x < 0x8000_0000
  {
    if x < 0 then x + UINT32_RANGE else x
  }

  /** The field `[high:low]` of a register. */
  function Field(reg: nat, high: nat, low: nat): nat
    requires low <= high
  {
    (reg / Pow2(low)) % Pow2(high - low + 1)
  }

  // ----- powers of two

  lemma {:induction false} Pow2Monotone(a: nat, b: nat)
    requires a <= b
    ensures Pow2(a) <= Pow2(b)
  {
    if a < b {
      Pow2Monotone(a, b - 1);
    }
  }

  lemma {:induction false} Pow2Constants()
    ensures Pow2(8) == 0x100 && Pow2(16) == 0x1_0000
    ensures Pow2(31) == 0x8000_0000 && Pow2(32) == UINT32_RANGE
  {
    assert Pow2(8) == 0x100;
    assert Pow2(32) == 2 * Pow2(31);
  }

  lemma {:induction false} Pow2Values()
    ensures Pow2(0) == 1 && Pow2(1) == 2 && Pow2(4) == 16 && Pow2(5) == 32 && Pow2(8) == 0x100
    ensures Pow2(16) == 0x1_0000 && Pow2(24) == 0x100_0000 && Pow2(28) == 0x1000_0000 && Pow2(30) == 0x4000_0000
  {
    Pow2Constants();
    assert Pow2(18) == 4 * Pow2(16) && Pow2(20) == 4 * Pow2(18);
    assert Pow2(22) == 4 * Pow2(20) && Pow2(24) == 4 * Pow2(22);
    assert Pow2(26) == 4 * Pow2(24) && Pow2(28) == 4 * Pow2(26) && Pow2(30) == 4 * Pow2(28);
  }

  // ----- digits of the bitwise operators

  lemma {:induction false} BitZero(i: nat)
    ensures !Bit(0, i)
    decreases i
  {
    if i > 0 {
      BitZero(i - 1);
    }
  }

  lemma {:induction false} BitAnd(a: nat, b: nat, i: nat)
    ensures Bit(And(a, b), i) <==> Bit(a, i) && Bit(b, i)
    decreases i
  {
    if a == 0 || b == 0 {
      BitZero(i);
    } else if i > 0 {
      var rest := And(a / 2, b / 2);
      assert And(a, b) == (if a % 2 == 1 && b % 2 == 1 then 1 else 0) + 2 * rest;
      assert And(a, b) / 2 == rest;
      BitAnd(a / 2, b / 2, i - 1);
    }
  }

  lemma {:induction false} BitOr(a: nat, b: nat, i: nat)
    ensures Bit(Or(a, b), i) <==> Bit(a, i) || Bit(b, i)
    decreases i
  {
    if a == 0 && b == 0 {
      BitZero(i);
    } else if i > 0 {
      var rest := Or(a / 2, b / 2);
      assert Or(a, b) == (if a % 2 == 1 || b % 2 == 1 then 1 else 0) + 2 * rest;
      assert Or(a, b) / 2 == rest;
      BitOr(a / 2, b / 2, i - 1);
    }
  }

  lemma {:induction false} BitXor(a: nat, b: nat, i: nat)
    ensures Bit(Xor(a, b), i) <==> Bit(a, i) != Bit(b, i)
    decreases i
  {
    if a == 0 && b == 0 {
      BitZero(i);
    } else if i > 0 {
      var rest := Xor(a / 2, b / 2);
      assert Xor(a, b) == (if a % 2 != b % 2 then 1 else 0) + 2 * rest;
      assert Xor(a, b) / 2 == rest;
      BitXor(a / 2, b / 2, i - 1);
    }
  }

  lemma {:induction false} BitPow2(k: nat, i: nat)
    ensures Bit(Pow2(k), i) <==> i == k
    decreases i
  {
    if k == 0 {
      if i > 0 { BitZero(i - 1); }
    } else if i > 0 {
      BitPow2(k - 1, i - 1);
      assert Pow2(k) / 2 == Pow2(k - 1);
    }
  }

  /** The digits of the block mask 2^w - 2^k are exactly k, .., w-1. */
  lemma {:induction false} BitBlockMask(k: nat, w: nat, i: nat)
    requires k <= w
    ensures Pow2(k) <= Pow2(w)
    ensures Bit(Pow2(w) - Pow2(k), i) <==> k <= i < w
    decreases w
  {
    BlockMaskHalf(k, w);
    if w == 0 {
      BitZero(i);
    } else if i > 0 {
      BitBlockMask(if k == 0 then 0 else k - 1, w - 1, i - 1);
    }
  }

  lemma {:induction false} BlockMaskHalf(k: nat, w: nat)
    requires k <= w
    ensures Pow2(k) <= Pow2(w)
    ensures var m := Pow2(w) - Pow2(k);
            if w == 0 then m == 0
            else
              var k' := if k == 0 then 0 else k - 1;
              && m / 2 == Pow2(w - 1) - Pow2(k')
              && m % 2 == (if k == 0 then 1 else 0)
  {
    Pow2Monotone(k, w);
  }

  /** The same for 32-bit words. */
  lemma {:induction false} BitBlockMask32(k: nat, i: nat)
    requires k <= 32
    ensures Pow2(k) <= UINT32_RANGE
    ensures Bit(UINT32_RANGE - Pow2(k), i) <==> k <= i < 32
  {
    Pow2Constants();
    var width: nat :| width == 32;
    BitBlockMask(k, width, i);
  }

  /** Two numbers with the same binary digits are equal. */
  lemma {:induction false} SameBits(a: nat, b: nat)
    requires forall i: nat :: Bit(a, i) <==> Bit(b, i)
    ensures a == b
    decreases a + b
  {
    if a != 0 || b != 0 {
      assert Bit(a, 0) <==> Bit(b, 0);
      forall i: nat
        ensures Bit(a / 2, i) <==> Bit(b / 2, i)
      {
        assert Bit(a, i + 1) <==> Bit(b, i + 1);
      }
      SameBits(a / 2, b / 2);
    }
  }

  // ----- masks and remainders

  /** The number formed by the lowest `k` digits. */
  function Low(x: nat, k: nat): nat
    decreases k
  {
    if k == 0 then 0 else x % 2 + 2 * Low(x / 2, k - 1)
  }

  lemma {:induction false} LowIsRemainder(x: nat, k: nat)
    ensures Low(x, k) == x % Pow2(k)
    decreases k
  {
    RemainderStep(x, k);
    if k > 0 {
      LowIsRemainder(x / 2, k - 1);
    }
  }

  lemma {:induction false} RemainderOfDouble(x: nat, m: nat)
    requires m > 0
    ensures x % (2 * m) == x % 2 + 2 * ((x / 2) % m)
    ensures x / (2 * m) == (x / 2) / m
  {
    var y, q := x / 2, (x / 2) / m;
    assert y == m * q + y % m;
    assert x == (2 * m) * q + (x % 2 + 2 * (y % m));
    DivisionUnique(x, 2 * m, q, x % 2 + 2 * (y % m));
  }

  lemma {:induction false} DivisionUnique(x: nat, m: nat, q: int, r: int)
    requires m > 0 && 0 <= r < m && x == m * q + r
    ensures x / m == q && x % m == r
  {
    var q', r' := x / m, x % m;
    assert x == m * q' + r';
    var d := q - q';
    assert m * d == r' - r;
    assert d >= 1 ==> m * d >= m;
    assert d <= -1 ==> m * d <= 0 - m;
  }

  /** Reducing modulo a larger power of two first changes nothing. */
  lemma {:induction false} RemainderNested(x: nat, j: nat, k: nat)
    requires j <= k
    ensures (x % Pow2(k)) % Pow2(j) == x % Pow2(j)
  {
    LowIsRemainder(x, k);
    LowIsRemainder(x, j);
    LowIsRemainder(Low(x, k), j);
    LowNested(x, j, k);
  }

  lemma {:induction false} LowNested(x: nat, j: nat, k: nat)
    requires j <= k
    ensures Low(Low(x, k), j) == Low(x, j)
    decreases j
  {
    if j > 0 {
      var rest := Low(x / 2, k - 1);
      assert Low(x, k) == x % 2 + 2 * rest;
      assert Low(x, k) % 2 == x % 2 && Low(x, k) / 2 == rest;
      LowNested(x / 2, j - 1, k - 1);
    }
  }

  /** Masking with 2^w - 2^k clears the lowest k digits of a w-digit number. */
  lemma {:induction false} AndBlockMask(x: nat, k: nat, w: nat)
    requires k <= w && x < Pow2(w)
    ensures Pow2(k) <= Pow2(w)
    ensures And(x, Pow2(w) - Pow2(k)) == x - x % Pow2(k)
    decreases w
  {
    Pow2Monotone(k, w);
    var m := Pow2(w) - Pow2(k);
    if w == k {
      AndZero(x);
      DivisionUnique(x, Pow2(k), 0, x);
    } else {
      AndBlockMask(x / 2, if k == 0 then 0 else k - 1, w - 1);
      BlockMaskHalf(k, w);
      AndStep(x, m);
      RemainderStep(x, k);
    }
  }

  /** The same for 32-bit words. */
  lemma {:induction false} AndBlockMask32(x: uint32, k: nat)
    requires k <= 32
    ensures Pow2(k) <= UINT32_RANGE
    ensures And(x, UINT32_RANGE - Pow2(k)) == x - x % Pow2(k)
  {
    Pow2Constants();
    var width: nat :| width == 32;
    AndBlockMask(x, k, width);
  }

  lemma {:induction false} AndStep(a: nat, b: nat)
    ensures And(a, b) == (if a % 2 == 1 && b % 2 == 1 then 1 else 0) + 2 * And(a / 2, b / 2)
  {
    AndZero(a / 2);
    AndZero(b / 2);
  }

  lemma {:induction false} AndSplit(a: nat, b: nat, bit: nat, rest: nat)
    requires bit < 2 && b == bit + 2 * rest
    ensures And(a, b) == (if a % 2 == 1 && bit == 1 then 1 else 0) + 2 * And(a / 2, rest)
  {
    assert b % 2 == bit && b / 2 == rest;
    AndStep(a, b);
  }

  lemma {:induction false} SmallRemainders(x: nat, m: nat)
    requires x < m
    ensures x % m == x && m % m == 0
  {
  }

  lemma {:induction false} RemainderStep(x: nat, k: nat)
    ensures x % Pow2(k) == if k == 0 then 0 else x % 2 + 2 * ((x / 2) % Pow2(k - 1))
  {
    if k > 0 {
      RemainderOfDouble(x, Pow2(k - 1));
    }
  }

  lemma {:induction false} AndZero(x: nat)
    ensures And(x, 0) == 0 && And(0, x) == 0
  {
  }

  lemma {:induction false} AndBound(a: nat, b: nat)
    ensures And(a, b) <= a && And(a, b) <= b
    decreases a
  {
    if a != 0 && b != 0 {
      AndBound(a / 2, b / 2);
    }
  }

  lemma {:induction false} OrBound(a: nat, b: nat, w: nat)
    requires a < Pow2(w) && b < Pow2(w)
    ensures Or(a, b) < Pow2(w)
    decreases w
  {
    if a != 0 || b != 0 {
      OrBound(a / 2, b / 2, w - 1);
    }
  }

  lemma {:induction false} XorBound(a: nat, b: nat, w: nat)
    requires a < Pow2(w) && b < Pow2(w)
    ensures Xor(a, b) < Pow2(w)
    decreases w
  {
    if a != 0 || b != 0 {
      XorBound(a / 2, b / 2, w - 1);
    }
  }

  /** The digits of `~x` on `w` bits. */
  lemma {:induction false} BitComplement(x: nat, w: nat, i: nat)
    requires x < Pow2(w)
    ensures Bit(Pow2(w) - 1 - x, i) <==> i < w && !Bit(x, i)
    decreases w
  {
    if w == 0 {
      BitZero(i);
    } else if i > 0 {
      BitComplement(x / 2, w - 1, i - 1);
      assert (Pow2(w) - 1 - x) / 2 == Pow2(w - 1) - 1 - x / 2;
    }
  }

  /** Testing one digit with a mask. */
  lemma {:induction false} AndPow2(x: nat, k: nat)
    ensures And(x, Pow2(k)) == if Bit(x, k) then Pow2(k) else 0
    decreases k
  {
    AndStep(x, Pow2(k));
    if k > 0 {
      AndPow2(x / 2, k - 1);
    } else {
      AndZero(x / 2);
    }
  }

  /** A digit beyond the width of a number is 0. */
  lemma {:induction false} BitBeyond(x: nat, w: nat, i: nat)
    requires x < Pow2(w) && w <= i
    ensures !Bit(x, i)
    decreases w
  {
    if w == 0 {
      BitZero(i);
    } else {
      BitBeyond(x / 2, w - 1, i - 1);
    }
  }
}
