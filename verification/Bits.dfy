/**
 * Bitwise arithmetic on natural numbers, for the 32-bit operators of JavaScript
 * numbers and for the unbounded operators of BigInt.
 */
module Bits {
  import opened Arithmetic

  function And(a: nat, b: nat): nat {
    if a == 0 || b == 0 then 0
    else 2 * And(a / 2, b / 2) + (if a % 2 == 1 && b % 2 == 1 then 1 else 0)
  }

  function Or(a: nat, b: nat): nat {
    if a == 0 then b
    else if b == 0 then a
    else 2 * Or(a / 2, b / 2) + (if a % 2 == 1 || b % 2 == 1 then 1 else 0)
  }

  lemma Doubled(p: nat, q: nat)
    ensures 2 * p * q == 2 * (p * q) && p * q >= 0
  {
  }

  lemma {:induction false} PowAdd(m: nat, n: nat)
    ensures Pow2(m + n) == Pow2(m) * Pow2(n)
  {
    if m > 0 {
      PowAdd(m - 1, n);
      Doubled(Pow2(m - 1), Pow2(n));
    }
  }

  lemma {:induction false} PowGrows(m: nat, n: nat)
    requires m <= n
    ensures Pow2(m) <= Pow2(n)
  {
    if m < n {
      PowGrows(m, n - 1);
    }
  }

  lemma Pow16()
    ensures Pow2(16) == 0x1_0000
  {
    assert Pow2(4) == 16;
    PowAdd(4, 4);
    PowAdd(8, 8);
  }

  lemma Pow32()
    ensures Pow2(32) == 0x1_0000_0000 && Pow2(31) == 0x8000_0000
  {
    Pow16();
    PowAdd(16, 16);
  }

  /** Halving shifts quotient and remainder by a power of two down by one bit. */
  lemma Halve(x: nat, h: nat)
    ensures x % Pow2(h + 1) == 2 * ((x / 2) % Pow2(h)) + x % 2
    ensures x / Pow2(h + 1) == (x / 2) / Pow2(h)
  {
    var p := Pow2(h);
    var q, r := (x / 2) / p, (x / 2) % p;
    assert x / 2 == p * q + r;
    assert x == (2 * p) * q + (2 * r + x % 2);
    QuotientUnique(x, 2 * p, q, 2 * r + x % 2);
  }

  lemma AndEven(a: nat, b: nat)
    ensures And(a, 2 * b) == 2 * And(a / 2, b)
  {
    assert (2 * b) / 2 == b && (2 * b) % 2 == 0;
  }

  lemma AndOdd(a: nat, b: nat)
    ensures And(a, 2 * b + 1) == 2 * And(a / 2, b) + a % 2
  {
    assert (2 * b + 1) / 2 == b && (2 * b + 1) % 2 == 1;
    if b == 0 {
      assert And(a / 2, 0) == 0;
    }
  }

  lemma LowMaskStep(x: nat, p: nat, k: nat)
    requires k > 0 && p == Pow2(k - 1) && And(x / 2, p - 1) == (x / 2) % p
    ensures And(x, 2 * p - 1) == x % Pow2(k)
  {
    hide And;
    AndOdd(x, p - 1);
    Halve(x, k - 1);
  }

  /** Masking with the low `k` ones is the remainder modulo 2^k. */
  lemma {:induction false} AndLowMask(x: nat, k: nat)
    ensures And(x, Pow2(k) - 1) == x % Pow2(k)
    decreases k
  {
    if k == 0 {
      QuotientUnique(x, 1, x, 0);
    } else {
      hide And;
      AndLowMask(x / 2, k - 1);
      LowMaskStep(x, Pow2(k - 1), k);
    }
  }

  lemma AndAll(x: nat, width: nat)
    requires x < Pow2(width)
    ensures And(x, Pow2(width) - Pow2(0)) == x - x % Pow2(0)
  {
    hide And;
    AndLowMask(x, width);
    QuotientUnique(x, Pow2(width), 0, x);
    QuotientUnique(x, 1, x, 0);
  }

  lemma DoublePow(n: nat)
    requires n > 0
    ensures Pow2(n) == 2 * Pow2(n - 1)
  {
  }

  /** Masking with `width - h` ones above `h` zeros clears the low `h` bits. */
  lemma {:induction false} AndHighMask(x: nat, width: nat, h: nat)
    requires h <= width && x < Pow2(width)
    ensures Pow2(h) <= Pow2(width)
    ensures And(x, Pow2(width) - Pow2(h)) == x - x % Pow2(h)
    decreases h
  {
    hide And, Pow2;
    PowGrows(h, width);
    if h == 0 {
      AndAll(x, width);
    } else {
      DoublePow(width);
      DoublePow(h);
      PowGrows(h - 1, width - 1);
      AndHighMask(x / 2, width - 1, h - 1);
      HighMaskStep(x, Pow2(width - 1), Pow2(h - 1), h);
    }
  }

  lemma HighMaskStep(x: nat, w: nat, p: nat, h: nat)
    requires h > 0 && p == Pow2(h - 1) && p <= w
    requires And(x / 2, w - p) == x / 2 - (x / 2) % p
    ensures And(x, 2 * w - 2 * p) == x - x % Pow2(h)
  {
    hide And;
    Halve(x, h - 1);
    AndEven(x, w - p);
  }

  lemma OrHalves(a: nat, b: nat)
    ensures Or(a, b) == 2 * Or(a / 2, b / 2) + (if a % 2 == 1 || b % 2 == 1 then 1 else 0)
  {
    if a == 0 {
      assert Or(0, b / 2) == b / 2;
    } else if b == 0 {
      assert Or(a / 2, 0) == a / 2;
    }
  }

  lemma OrStep(half: nat, low: nat)
    requires Or(half, low / 2) == half + low / 2
    ensures Or(2 * half, low) == 2 * half + low
  {
    hide Or;
    OrHalves(2 * half, low);
    assert 2 * half / 2 == half && 2 * half % 2 == 0;
  }

  /** Or of numbers without a common bit is their sum. */
  lemma {:induction false} OrDisjoint(q: nat, h: nat, low: nat)
    requires low < Pow2(h)
    ensures Pow2(h) * q >= 0
    ensures Or(Pow2(h) * q, low) == Pow2(h) * q + low
    decreases h
  {
    if h > 0 {
      hide Or;
      Doubled(Pow2(h - 1), q);
      OrDisjoint(q, h - 1, low / 2);
      OrStep(Pow2(h - 1) * q, low);
    }
  }
}
