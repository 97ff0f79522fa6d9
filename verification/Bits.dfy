/**
 The C integer operations that the camera code applies to `int` values, written out over
 unbounded integers: an arithmetic right shift rounds down, `~` is two's complement, and `&`
 works bit by bit, a negative operand having infinitely many leading ones.
 */
module Bits {

  type Byte = b: int | 0 <= b < 256

  /** A 32-bit word, as an unsigned number. */
  type Word = x: int | 0 <= x < 0x1_0000_0000

  function Pow2(k: nat): (p: nat)
    ensures p > 0
  {
    if k == 0 then 1 else 2 * Pow2(k - 1)
  }

  /** `x >> k` on a signed integer. */
  function Shr(x: int, k: nat): int {
    x / Pow2(k)
  }

  /** `~x`. */
  function Not(x: int): int {
    -x - 1
  }

  /** `a & m` for a non-negative `a`. */
  function And(a: nat, m: int): nat {
    if a == 0 then 0
    else 2 * And(a / 2, m / 2) + (if a % 2 == 1 && m % 2 == 1 then 1 else 0)
  }

  /** Bit `i` of `x`, counted from the least significant one. */
  predicate Bit(x: int, i: nat) {
    Shr(x, i) % 2 == 1
  }

  lemma DivPow2Step(x: int, i: nat)
    requires i > 0
    ensures Shr(x, i) == Shr(x / 2, i - 1)
  {
    var p := Pow2(i - 1);
    var q, r := x / 2 / p, x / 2 % p;
    assert x / 2 == q * p + r;
    Doubled(q, p);
    DivUnique(x, 2 * p, q, 2 * r + x % 2);
  }

  lemma DivUnique(x: int, d: int, q: int, r: int)
    requires d > 0 && 0 <= r < d && x == q * d + r
    ensures x / d == q && x % d == r
  {
    var e := x / d - q;
    assert x == (x / d) * d + x % d;
    assert e * d == r - x % d by {
      assert (x / d) * d == q * d + e * d;
    }
    MulMonotone(1, e, d);
    MulMonotone(e, -1, d);
  }

  lemma MulMonotone(a: int, b: int, d: int)
    requires d >= 0
    ensures a <= b ==> a * d <= b * d
  {
  }

  lemma NoBits(i: nat)
    ensures !Bit(0, i)
  {
    DivUnique(0, Pow2(i), 0, 0);
  }

  lemma LowBit(x: int)
    ensures Bit(x, 0) <==> x % 2 == 1
  {
  }

  /** The recursive `And` is the bitwise conjunction, at every bit position. */
  lemma {:induction false} AndIsBitwise(a: nat, m: int, i: nat)
    ensures Bit(And(a, m), i) <==> Bit(a, i) && Bit(m, i)
    decreases i
  {
    if a == 0 {
      NoBits(i);
    } else if i == 0 {
      AndLowBit(a, m);
    } else {
      AndIsBitwise(a / 2, m / 2, i - 1);
      AndHalf(a, m);
      AndFromHalves(a, m, And(a, m), i);
    }
  }

  lemma AndLowBit(a: nat, m: int)
    ensures Bit(And(a, m), 0) <==> Bit(a, 0) && Bit(m, 0)
  {
    AndParity(a, m);
    LowBit(And(a, m));
    LowBit(a);
    LowBit(m);
  }

  lemma AndParity(a: nat, m: int)
    ensures And(a, m) % 2 == 1 <==> a % 2 == 1 && m % 2 == 1
  {
    if a != 0 {
      LastBit(And(a / 2, m / 2), if a % 2 == 1 && m % 2 == 1 then 1 else 0);
    }
  }

  lemma LastBit(x: int, bit: int)
    requires 0 <= bit < 2
    ensures (2 * x + bit) % 2 == bit
  {
  }

  /** Above the lowest place, the bits of three numbers are related as those of their halves. */
  lemma AndFromHalves(a: nat, m: int, c: nat, i: nat)
    requires i > 0 && (Bit(c / 2, i - 1) <==> Bit(a / 2, i - 1) && Bit(m / 2, i - 1))
    ensures Bit(c, i) <==> Bit(a, i) && Bit(m, i)
  {
    DivPow2Step(a, i);
    DivPow2Step(m, i);
    DivPow2Step(c, i);
  }

  lemma AndHalf(a: nat, m: int)
    requires a > 0
    ensures And(a, m) / 2 == And(a / 2, m / 2)
  {
  }

  /** `a | b` for non-negative operands. */
  function Or(a: nat, b: nat): nat {
    if a == 0 && b == 0 then 0
    else 2 * Or(a / 2, b / 2) + (if a % 2 == 1 || b % 2 == 1 then 1 else 0)
  }

  /** The recursive `Or` is the bitwise disjunction. */
  lemma {:induction false} OrIsBitwise(a: nat, b: nat, i: nat)
    ensures Bit(Or(a, b), i) <==> Bit(a, i) || Bit(b, i)
    decreases i
  {
    if a == 0 && b == 0 {
      NoBits(i);
    } else if i == 0 {
      OrLowBit(a, b);
    } else {
      OrIsBitwise(a / 2, b / 2, i - 1);
      OrHalf(a, b);
      OrFromHalves(a, b, Or(a, b), i);
    }
  }

  lemma OrLowBit(a: nat, b: nat)
    ensures Bit(Or(a, b), 0) <==> Bit(a, 0) || Bit(b, 0)
  {
    OrParity(a, b);
    LowBit(Or(a, b));
    LowBit(a);
    LowBit(b);
  }

  lemma OrParity(a: nat, b: nat)
    ensures Or(a, b) % 2 == 1 <==> a % 2 == 1 || b % 2 == 1
  {
    if a != 0 || b != 0 {
      LastBit(Or(a / 2, b / 2), if a % 2 == 1 || b % 2 == 1 then 1 else 0);
    }
  }

  lemma OrFromHalves(a: nat, b: nat, c: nat, i: nat)
    requires i > 0 && (Bit(c / 2, i - 1) <==> Bit(a / 2, i - 1) || Bit(b / 2, i - 1))
    ensures Bit(c, i) <==> Bit(a, i) || Bit(b, i)
  {
    DivPow2Step(a, i);
    DivPow2Step(b, i);
    DivPow2Step(c, i);
  }

  lemma OrHalf(a: nat, b: nat)
    requires a > 0 || b > 0
    ensures Or(a, b) / 2 == Or(a / 2, b / 2)
  {
  }

  /** Bitwise operations stay within the width of their operands. */
  lemma {:induction false} BitwiseBounds(a: nat, b: nat, k: nat)
    requires a < Pow2(k) && b < Pow2(k)
    ensures And(a, b) < Pow2(k) && Or(a, b) < Pow2(k)
  {
    if k > 0 {
      BitwiseBounds(a / 2, b / 2, k - 1);
    }
  }

  lemma Pow2Of32()
    ensures Pow2(32) == 0x1_0000_0000
  {
    assert Pow2(8) == 0x100;
    Pow2Sum(8, 8);
    Pow2Sum(16, 16);
  }

  lemma {:induction false} Pow2Sum(a: nat, b: nat)
    ensures Pow2(a + b) == Pow2(a) * Pow2(b)
  {
    if b > 0 {
      Pow2Sum(a, b - 1);
      assert Pow2(a + b) == 2 * Pow2(a + (b - 1));
      Doubled(Pow2(a), Pow2(b - 1));
    }
  }

  /** The low `k` bits of `a`. */
  function Low(a: nat, k: nat): nat {
    if k == 0 then 0 else 2 * Low(a / 2, k - 1) + a % 2
  }

  lemma {:induction false} LowIsRemainder(a: nat, k: nat)
    ensures Low(a, k) == a % Pow2(k)
  {
    if k > 0 {
      LowIsRemainder(a / 2, k - 1);
      ModStep(a, Pow2(k - 1));
    }
  }

  /** Masking with `~(2^k - 1)` clears the low `k` bits. */
  lemma {:induction false} HighMask(a: nat, k: nat)
    ensures And(a, Not(Pow2(k) - 1)) == a - Low(a, k)
  {
    if k == 0 {
      AndAllOnes(a);
    } else if a == 0 {
      LowIsRemainder(0, k);
    } else {
      HighMask(a / 2, k - 1);
      HighMaskStep(a, Pow2(k - 1), Low(a / 2, k - 1));
    }
  }

  lemma AndHighMask(a: nat, k: nat)
    ensures And(a, Not(Pow2(k) - 1)) == a - a % Pow2(k)
  {
    HighMask(a, k);
    LowIsRemainder(a, k);
  }

  lemma HighMaskStep(a: nat, p: nat, low: int)
    requires a > 0 && And(a / 2, Not(p - 1)) == a / 2 - low
    ensures And(a, Not(2 * p - 1)) == a - (2 * low + a % 2)
  {
    assert Not(2 * p - 1) / 2 == Not(p - 1) && Not(2 * p - 1) % 2 == 0;
  }

  lemma ModStep(a: nat, p: nat)
    requires p > 0
    ensures a % (2 * p) == 2 * (a / 2 % p) + a % 2
  {
    var q, r := a / 2 / p, a / 2 % p;
    assert a / 2 == q * p + r;
    Doubled(q, p);
    DivUnique(a, 2 * p, q, 2 * r + a % 2);
  }

  lemma Doubled(q: int, p: int)
    ensures q * (2 * p) == 2 * (q * p)
  {
  }

  lemma {:induction false} AndAllOnes(a: nat)
    ensures And(a, -1) == a
  {
    if a > 0 {
      assert -1 / 2 == -1;
      AndAllOnes(a / 2);
    }
  }
}
