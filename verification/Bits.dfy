/** Unsigned machine words as natural numbers: the shifts, masks and bitwise
    operators of the C sources, and the laws that connect them bit by bit. */
module Bits {

  type byte = n: nat | n < 256

  function Pow2(n: nat): (p: nat)
    ensures p >= 1
  {
    if n == 0 then 1 else 2 * Pow2(n - 1)
  }

  /** Bit k of n. */
  predicate Bit(n: nat, k: nat) {
    if k == 0 then n % 2 == 1 else Bit(n / 2, k - 1)
  }

  function B2N(b: bool): nat { if b then 1 else 0 }

  function Or(a: nat, b: nat): nat
    decreases a + b
  {
    if a == 0 && b == 0 then 0
    else B2N(a % 2 == 1 || b % 2 == 1) + 2 * Or(a / 2, b / 2)
  }

  function And(a: nat, b: nat): nat {
    if a == 0 then 0
    else B2N(a % 2 == 1 && b % 2 == 1) + 2 * And(a / 2, b / 2)
  }

  function Shl(a: nat, s: nat): nat {
    if s == 0 then a else 2 * Shl(a, s - 1)
  }

  /** The low w bits of a: conversion to a w-bit unsigned type. */
  function Low(a: nat, w: nat): nat {
    if w == 0 then 0 else a % 2 + 2 * Low(a / 2, w - 1)
  }

  /** The complement within w bits. */
  function Not(a: nat, w: nat): nat
    requires a < Pow2(w)
  {
    Pow2(w) - 1 - a
  }

  lemma {:induction false} BitOr(a: nat, b: nat, k: nat)
    ensures Bit(Or(a, b), k) == (Bit(a, k) || Bit(b, k))
    decreases k
  {
    if a == 0 && b == 0 { ZeroBits(k); }
    else if k > 0 { BitOr(a / 2, b / 2, k - 1); }
  }

  lemma {:induction false} BitAnd(a: nat, b: nat, k: nat)
    ensures Bit(And(a, b), k) == (Bit(a, k) && Bit(b, k))
    decreases k
  {
    if a == 0 { ZeroBits(k); }
    else if k > 0 { BitAnd(a / 2, b / 2, k - 1); }
  }

  lemma {:induction false} ZeroBits(k: nat)
    ensures !Bit(0, k)
  {
    if k > 0 { ZeroBits(k - 1); }
  }

  lemma {:induction false} BitShl(a: nat, s: nat, k: nat)
    ensures Bit(Shl(a, s), k) == (s <= k && Bit(a, k - s))
    decreases s
  {
    if s > 0 && k > 0 { BitShl(a, s - 1, k - 1); }
  }

  lemma {:induction false} BitLow(a: nat, w: nat, k: nat)
    ensures Bit(Low(a, w), k) == (k < w && Bit(a, k))
    decreases w
  {
    if w == 0 { ZeroBits(k); }
    else if k > 0 { BitLow(a / 2, w - 1, k - 1); }
  }

  lemma {:induction false} BitOne(k: nat)
    ensures Bit(1, k) == (k == 0)
  {
    if k > 0 { ZeroBits(k - 1); }
  }

  /** The mask of the low w bits. */
  function Ones(w: nat): nat { Pow2(w) - 1 }

  lemma {:induction false} BitOnes(w: nat, k: nat)
    ensures Bit(Ones(w), k) == (k < w)
  {
    if w == 0 { ZeroBits(k); }
    else if k > 0 {
      assert Ones(w) / 2 == Ones(w - 1);
      BitOnes(w - 1, k - 1);
    }
  }

  lemma {:induction false} BitNot(a: nat, w: nat, k: nat)
    requires a < Pow2(w)
    ensures Bit(Not(a, w), k) == (k < w && !Bit(a, k))
    decreases w
  {
    if w == 0 { ZeroBits(k); }
    else if k > 0 {
      NotHalves(a, w);
      BitNot(a / 2, w - 1, k - 1);
    } else { NotHalves(a, w); }
  }

  lemma NotHalves(a: nat, w: nat)
    requires w > 0 && a < Pow2(w)
    ensures a / 2 < Pow2(w - 1) && Not(a, w) / 2 == Not(a / 2, w - 1) && Not(a, w) % 2 == 1 - a % 2
  {
  }

  /** Words with the same bits are equal. */
  lemma {:induction false} Extensional(a: nat, b: nat, w: nat)
    requires a < Pow2(w) && b < Pow2(w)
    requires forall k: nat | k < w :: Bit(a, k) == Bit(b, k)
    ensures a == b
    decreases w
  {
    if w > 0 {
      assert Bit(a, 0) == Bit(b, 0);
      forall k: nat | k < w - 1 ensures Bit(a / 2, k) == Bit(b / 2, k) {
        assert Bit(a, k + 1) == Bit(b, k + 1);
      }
      Extensional(a / 2, b / 2, w - 1);
    }
  }

  lemma {:induction false} OrBound(a: nat, b: nat, w: nat)
    requires a < Pow2(w) && b < Pow2(w)
    ensures Or(a, b) < Pow2(w)
    decreases w
  {
    if w > 0 { OrBound(a / 2, b / 2, w - 1); }
  }

  lemma {:induction false} AndBound(a: nat, b: nat, w: nat)
    requires b < Pow2(w)
    ensures And(a, b) < Pow2(w)
    decreases w
  {
    if w == 0 { AndZero(a); }
    else if a > 0 { AndBound(a / 2, b / 2, w - 1); }
  }

  lemma {:induction false} AndZero(a: nat)
    ensures And(a, 0) == 0
  {
    if a > 0 { AndZero(a / 2); }
  }

  lemma {:induction false} LowBound(a: nat, w: nat)
    ensures Low(a, w) < Pow2(w)
    decreases w
  {
    if w > 0 { LowBound(a / 2, w - 1); }
  }

  lemma {:induction false} LowSmall(a: nat, w: nat)
    requires a < Pow2(w)
    ensures Low(a, w) == a
    decreases w
  {
    if w > 0 { LowSmall(a / 2, w - 1); }
  }

  lemma {:induction false} OrZero(a: nat)
    ensures Or(0, a) == a
  {
    if a > 0 { OrZero(a / 2); }
  }

  /** Or-ing in bits above position s adds them. */
  lemma {:induction false} OrShl(a: nat, b: nat, s: nat)
    requires a < Pow2(s)
    ensures Or(a, Shl(b, s)) == a + Shl(b, s)
    decreases s
  {
    if s == 0 { OrZero(b); }
    else { OrShl(a / 2, b, s - 1); }
  }

  lemma {:induction false} Pow2Monotone(a: nat, b: nat)
    requires a <= b
    ensures Pow2(a) <= Pow2(b)
    ensures a < b ==> Pow2(a) < Pow2(b)
    decreases b
  {
    if a < b { Pow2Monotone(a, b - 1); }
  }

  lemma {:induction false} ShlIsTimes(a: nat, s: nat)
    ensures Shl(a, s) == a * Pow2(s)
  {
    if s > 0 { ShlIsTimes(a, s - 1); }
  }

  lemma {:induction false} Pow2Add(a: nat, b: nat)
    ensures Pow2(a + b) == Pow2(a) * Pow2(b)
  {
    if a > 0 { Pow2Add(a - 1, b); }
  }

  lemma {:induction false} LowIsMod(a: nat, w: nat)
    ensures Low(a, w) == a % Pow2(w)
  {
    if w > 0 {
      LowIsMod(a / 2, w - 1);
      ModDouble(a, Pow2(w - 1));
    }
  }

  lemma ModDouble(a: nat, p: nat)
    requires p > 0
    ensures a % (2 * p) == a % 2 + 2 * ((a / 2) % p)
  {
    var q, r := (a / 2) / p, (a / 2) % p;
    Twice(p, q);
    ModUnique(a, 2 * p, q, 2 * r + a % 2);
  }

  lemma Twice(p: int, q: int)
    ensures (2 * p) * q == 2 * (p * q)
  {
  }

  lemma ModUnique(a: int, m: int, q: int, r: int)
    requires m > 0 && 0 <= r < m && a == m * q + r
    ensures a % m == r && a / m == q
  {
    var d := a / m - q;
    assert a % m == r - m * d;
    OnlyZeroMultiple(m, d);
  }

  lemma OnlyZeroMultiple(m: int, d: int)
    requires -m < m * d < m
    ensures d == 0
  {
  }

  lemma Powers()
    ensures Pow2(7) == 0x80 && Pow2(8) == 0x100 && Pow2(16) == 0x1_0000
    ensures Pow2(31) == 0x8000_0000 && Pow2(32) == 0x1_0000_0000
    ensures Pow2(48) == 0x1_0000_0000_0000 && Pow2(63) == 0x8000_0000_0000_0000
    ensures Pow2(64) == 0x1_0000_0000_0000_0000
  {
    Powers16();
    Pow2Add(16, 16);
    Pow2Sum(16, 32, 48);
    Pow2Sum(32, 32, 64);
    assert Pow2(32) == 2 * Pow2(31);
    assert Pow2(64) == 2 * Pow2(63);
  }

  lemma Powers16()
    ensures Pow2(7) == 0x80 && Pow2(8) == 0x100 && Pow2(16) == 0x1_0000
  {
    assert Pow2(4) == 16;
    assert Pow2(7) == 8 * Pow2(4);
    Pow2Sum(8, 8, 16);
  }

  lemma Pow2Sum(a: nat, b: nat, c: nat)
    requires a + b == c
    ensures Pow2(c) == Pow2(a) * Pow2(b)
  {
    Pow2Add(a, b);
  }
}
