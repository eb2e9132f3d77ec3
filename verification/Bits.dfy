/**
 Unsigned machine words as natural numbers.

 The service works on 64-bit words with `|`, `&` and shifts. A word is a `nat` here, the operators are
 defined one binary digit at a time, and the lemmas give each of them its meaning on `TestBit`, or its
 arithmetic meaning where the other operand is a power-of-two mask.
 */
module Bits {

  function Pow2(k: nat): (p: nat)
    ensures p >= 1
  {
    if k == 0 then 1 else 2 * Pow2(k - 1)
  }

  predicate TestBit(x: nat, k: nat) {
    if k == 0 then x % 2 == 1 else TestBit(x / 2, k - 1)
  }

  function Or(a: nat, b: nat): nat {
    if a == 0 then b
    else if b == 0 then a
    else (if a % 2 == 1 || b % 2 == 1 then 1 else 0) + 2 * Or(a / 2, b / 2)
  }

  function And(a: nat, b: nat): nat {
    if a == 0 || b == 0 then 0
    else (if a % 2 == 1 && b % 2 == 1 then 1 else 0) + 2 * And(a / 2, b / 2)
  }

  /** `a & ~b`. */
  function AndNot(a: nat, b: nat): nat {
    if a == 0 || b == 0 then a
    else (if a % 2 == 1 && b % 2 == 0 then 1 else 0) + 2 * AndNot(a / 2, b / 2)
  }

  /** `x << k`. */
  function Shl(x: nat, k: nat): nat {
    if k == 0 then x else 2 * Shl(x, k - 1)
  }

  /** `x >> k`. */
  function Shr(x: nat, k: nat): nat {
    if k == 0 then x else Shr(x / 2, k - 1)
  }

  /** Number of binary digits of `x`: 64 minus the count of leading zeros, for a 64-bit `x`. */
  function BitLength(x: nat): nat {
    if x == 0 then 0 else 1 + BitLength(x / 2)
  }

  lemma {:induction false} TestBitZero(k: nat)
    ensures !TestBit(0, k)
  {
    if k > 0 { TestBitZero(k - 1); }
  }

  /** The last digit of a word and the digits before it. */
  lemma HalfDigit(x: nat, digit: nat, rest: nat)
    requires digit <= 1 && x == digit + 2 * rest
    ensures x % 2 == digit && x / 2 == rest
  {
  }

  lemma {:induction false} TestBitOr(a: nat, b: nat, k: nat)
    ensures TestBit(Or(a, b), k) <==> TestBit(a, k) || TestBit(b, k)
  {
    TestBitZero(k);
    if a != 0 && b != 0 {
      HalfDigit(Or(a, b), if a % 2 == 1 || b % 2 == 1 then 1 else 0, Or(a / 2, b / 2));
      if k > 0 { TestBitOr(a / 2, b / 2, k - 1); }
    }
  }

  lemma {:induction false} TestBitAnd(a: nat, b: nat, k: nat)
    ensures TestBit(And(a, b), k) <==> TestBit(a, k) && TestBit(b, k)
  {
    TestBitZero(k);
    if a != 0 && b != 0 {
      HalfDigit(And(a, b), if a % 2 == 1 && b % 2 == 1 then 1 else 0, And(a / 2, b / 2));
      if k > 0 { TestBitAnd(a / 2, b / 2, k - 1); }
    }
  }

  lemma {:induction false} TestBitAndNot(a: nat, b: nat, k: nat)
    ensures TestBit(AndNot(a, b), k) <==> TestBit(a, k) && !TestBit(b, k)
  {
    TestBitZero(k);
    if a != 0 && b != 0 {
      HalfDigit(AndNot(a, b), if a % 2 == 1 && b % 2 == 0 then 1 else 0, AndNot(a / 2, b / 2));
      if k > 0 { TestBitAndNot(a / 2, b / 2, k - 1); }
    }
  }

  /** A non-zero word has a bit set. */
  lemma {:induction false} SomeBitSet(x: nat) returns (k: nat)
    requires x != 0
    ensures TestBit(x, k)
  {
    if x % 2 == 1 {
      k := 0;
    } else {
      k := SomeBitSet(x / 2);
      k := k + 1;
    }
  }

  lemma {:induction false} TestBitPow2(b: nat, k: nat)
    ensures TestBit(Pow2(b), k) <==> k == b
  {
    if b == 0 {
      if k > 0 { TestBitZero(k - 1); }
    } else {
      assert Pow2(b) / 2 == Pow2(b - 1) && Pow2(b) % 2 == 0;
      if k > 0 { TestBitPow2(b - 1, k - 1); }
    }
  }

  /** Words that agree on every bit are equal. */
  lemma {:induction false} EqualByBits(a: nat, b: nat)
    requires forall k: nat :: TestBit(a, k) <==> TestBit(b, k)
    ensures a == b
    decreases a + b
  {
    assert TestBit(a, 0) <==> TestBit(b, 0);
    if a != 0 || b != 0 {
      forall k: nat ensures TestBit(a / 2, k) <==> TestBit(b / 2, k) {
        assert TestBit(a, k + 1) <==> TestBit(b, k + 1);
      }
      EqualByBits(a / 2, b / 2);
    }
  }

  /** `x & (2^k - 1)` is `x % 2^k`: what every `& mask` in the tables computes. */
  lemma {:induction false} AndMask(x: nat, k: nat)
    ensures And(x, Pow2(k) - 1) == x % Pow2(k)
  {
    if k > 0 {
      var p := Pow2(k - 1);
      AndMask(x / 2, k - 1);
      AndOddMask(x, p);
      HalveModulo(x, p);
    }
  }

  lemma AndOddMask(x: nat, p: nat)
    requires p >= 1
    ensures And(x, 2 * p - 1) == x % 2 + 2 * And(x / 2, p - 1)
  {
    HalfDigit(2 * p - 1, 1, p - 1);
  }

  lemma HalveModulo(x: nat, p: nat)
    requires p >= 1
    ensures x % (2 * p) == x % 2 + 2 * ((x / 2) % p)
  {
    var q, r := (x / 2) / p, (x / 2) % p;
    assert x == (2 * p) * q + (x % 2 + 2 * r) by {
      assert x / 2 == p * q + r;
    }
    assert 0 <= x % 2 + 2 * r < 2 * p;
    ModuloUnique(x, 2 * p, q, x % 2 + 2 * r);
  }

  lemma ModuloUnique(x: int, m: nat, q: int, r: nat)
    requires m >= 1 && r < m && x == m * q + r
    ensures x % m == r && x / m == q
  {
    var d := x / m - q;
    assert m * d == r - x % m by { assert x == m * (x / m) + x % m; }
    SmallMultiple(m, d);
  }

  lemma ModuloShift(x: nat, m: nat, q: nat)
    requires m >= 1
    ensures (m * q + x) % m == x % m
  {
    assert m * q + x == m * (q + x / m) + x % m by { assert x == m * (x / m) + x % m; }
    ModuloUnique(m * q + x, m, q + x / m, x % m);
  }

  /** Reducing one summand first, or one factor first, changes nothing modulo `m`. */
  lemma ModuloAdd(a: nat, b: nat, m: nat)
    requires m >= 1
    ensures (a % m + b) % m == (a + b) % m
  {
    assert a == m * (a / m) + a % m;
    ModuloShift(a % m + b, m, a / m);
  }

  lemma ModuloTimes(a: nat, k: nat, m: nat)
    requires m >= 1
    ensures (a % m * k) % m == (a * k) % m
  {
    assert a * k == m * (a / m * k) + a % m * k by { assert a == m * (a / m) + a % m; }
    ModuloShift(a % m * k, m, a / m * k);
  }

  lemma ProductBelow(a: nat, b: nat, x: nat, y: nat)
    requires a < x && b < y
    ensures a * b < x * y
  {
    assert a * b <= a * y < x * y;
  }

  lemma ProductMonotone(q: nat, a: nat, b: nat)
    requires a <= b
    ensures q * a <= q * b && a * q <= b * q
  {
  }

  lemma SmallMultiple(m: nat, d: int)
    requires -(m as int) < m * d < m
    ensures d == 0
  {
    MultipleBounds(m, d);
  }

  lemma MultipleBounds(m: nat, d: int)
    ensures d >= 1 ==> m * d >= m
    ensures d <= -1 ==> m * d <= -(m as int)
  {
    if d >= 1 {
      assert m * d >= m * 1;
    } else if d <= -1 {
      assert m * d <= m * -1;
    }
  }

  lemma {:induction false} Pow2Add(a: nat, b: nat)
    ensures Pow2(a + b) == Pow2(a) * Pow2(b)
  {
    if a > 0 { Pow2Add(a - 1, b); }
  }

  lemma {:induction false} Pow2Monotone(a: nat, b: nat)
    requires a <= b
    ensures Pow2(a) <= Pow2(b)
  {
    if a < b { Pow2Monotone(a, b - 1); }
  }

  lemma {:induction false} BitLengthBounds(x: nat)
    requires x >= 1
    ensures BitLength(x) >= 1
    ensures Pow2(BitLength(x) - 1) <= x < Pow2(BitLength(x))
  {
    if x > 1 { BitLengthBounds(x / 2); }
  }

  lemma {:induction false} BitLengthUnique(x: nat, n: nat)
    requires n >= 1 && Pow2(n - 1) <= x < Pow2(n)
    ensures BitLength(x) == n
  {
    if n > 1 { BitLengthUnique(x / 2, n - 1); }
  }

  lemma {:induction false} BitLengthMonotone(a: nat, b: nat)
    requires a <= b
    ensures BitLength(a) <= BitLength(b)
  {
    if a > 0 { BitLengthMonotone(a / 2, b / 2); }
  }

  lemma {:induction false} BitLengthOr(a: nat, b: nat)
    ensures BitLength(Or(a, b)) == if BitLength(a) >= BitLength(b) then BitLength(a) else BitLength(b)
  {
    if a != 0 && b != 0 {
      BitLengthOr(a / 2, b / 2);
      assert Or(a, b) / 2 == Or(a / 2, b / 2);
    }
  }

  // ---------------------------------------------------------------- shifts

  lemma {:induction false} ShlIsProduct(x: nat, k: nat)
    ensures Shl(x, k) == x * Pow2(k)
  {
    if k > 0 { ShlIsProduct(x, k - 1); }
  }

  lemma {:induction false} ShlAdd(x: nat, y: nat, k: nat)
    ensures Shl(x + y, k) == Shl(x, k) + Shl(y, k)
  {
    if k > 0 { ShlAdd(x, y, k - 1); }
  }

  lemma {:induction false} ShlOne(k: nat)
    ensures Shl(1, k) == Pow2(k)
  {
    if k > 0 { ShlOne(k - 1); }
  }

  lemma {:induction false} ShlPow2(a: nat, k: nat)
    ensures Shl(Pow2(a), k) == Pow2(a + k)
  {
    if k > 0 { ShlPow2(a, k - 1); }
  }

  lemma ShlMonotone(x: nat, y: nat, k: nat)
    requires x <= y
    ensures Shl(x, k) <= Shl(y, k)
  {
    ShlAdd(x, y - x, k);
  }

  /** A right shift rounds down to the multiple of 2^k below. */
  lemma {:induction false} ShrBounds(v: nat, k: nat)
    ensures Shl(Shr(v, k), k) <= v < Shl(Shr(v, k) + 1, k)
  {
    if k > 0 { ShrBounds(v / 2, k - 1); }
  }

  lemma {:induction false} ShrUnique(v: nat, k: nat, s: nat)
    requires Shl(s, k) <= v < Shl(s + 1, k)
    ensures Shr(v, k) == s
  {
    if k > 0 { ShrUnique(v / 2, k - 1, s); }
  }

  lemma {:induction false} ShrMonotone(v: nat, w: nat, k: nat)
    requires v <= w
    ensures Shr(v, k) <= Shr(w, k)
  {
    if k > 0 { ShrMonotone(v / 2, w / 2, k - 1); }
  }

  /** A mask of k ones takes off what a shift down and up again leaves. */
  lemma {:induction false} AndLowOnes(x: nat, k: nat)
    ensures And(x, Pow2(k) - 1) == x - Shl(Shr(x, k), k)
  {
    if k > 0 {
      var p := Pow2(k - 1);
      AndLowOnes(x / 2, k - 1);
      assert (2 * p - 1) % 2 == 1 && (2 * p - 1) / 2 == p - 1;
      if x == 0 { ShrBounds(0, k); }
    }
  }
}
