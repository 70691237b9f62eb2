/** Bitwise operators on natural numbers, as the C operators act on unsigned words. */
module Bits {
  import opened Arithmetic

  /** Bit `i` of `x`. */
  predicate Bit(x: nat, i: nat)
    decreases i
  {
    if i == 0 then x % 2 == 1 else Bit(x / 2, i - 1)
  }

  function Digit(b: bool): nat { if b then 1 else 0 }

  function Or(a: nat, b: nat): nat {
    if a == 0 && b == 0 then 0 else 2 * Or(a / 2, b / 2) + Digit(a % 2 == 1 || b % 2 == 1)
  }

  function And(a: nat, b: nat): nat {
    if a == 0 || b == 0 then 0 else 2 * And(a / 2, b / 2) + Digit(a % 2 == 1 && b % 2 == 1)
  }

  function Xor(a: nat, b: nat): nat {
    if a == 0 && b == 0 then 0 else 2 * Xor(a / 2, b / 2) + Digit((a % 2 == 1) != (b % 2 == 1))
  }

  /** Complement of an `n`-bit word. */
  function Not(x: nat, n: nat): nat
    requires x < Pow2(n)
  {
    Pow2(n) - 1 - x
  }

  lemma Halve(x: nat, d: bool)
    ensures (2 * x + Digit(d)) / 2 == x && ((2 * x + Digit(d)) % 2 == 1) == d
  {
  }

  lemma {:induction false} ZeroBits(i: nat)
    ensures !Bit(0, i)
  {
    if i > 0 { ZeroBits(i - 1); }
  }

  lemma {:induction false} OrBit(a: nat, b: nat, i: nat)
    ensures Bit(Or(a, b), i) <==> Bit(a, i) || Bit(b, i)
    decreases i
  {
    if a == 0 && b == 0 {
      ZeroBits(i);
    } else {
      Halve(Or(a / 2, b / 2), a % 2 == 1 || b % 2 == 1);
      if i > 0 { OrBit(a / 2, b / 2, i - 1); }
    }
  }

  lemma {:induction false} AndBit(a: nat, b: nat, i: nat)
    ensures Bit(And(a, b), i) <==> Bit(a, i) && Bit(b, i)
    decreases i
  {
    if a == 0 || b == 0 {
      ZeroBits(i);
    } else {
      Halve(And(a / 2, b / 2), a % 2 == 1 && b % 2 == 1);
      if i > 0 { AndBit(a / 2, b / 2, i - 1); }
    }
  }

  lemma {:induction false} XorBit(a: nat, b: nat, i: nat)
    ensures Bit(Xor(a, b), i) <==> Bit(a, i) != Bit(b, i)
    decreases i
  {
    if a == 0 && b == 0 {
      ZeroBits(i);
    } else {
      Halve(Xor(a / 2, b / 2), (a % 2 == 1) != (b % 2 == 1));
      if i > 0 { XorBit(a / 2, b / 2, i - 1); }
    }
  }

  lemma {:induction false} Pow2Bit(k: nat, i: nat)
    ensures Bit(Pow2(k), i) <==> i == k
    decreases i
  {
    if k == 0 {
      if i > 0 { ZeroBits(i - 1); }
    } else {
      Halve(Pow2(k - 1), false);
      if i > 0 { Pow2Bit(k - 1, i - 1); }
    }
  }

  lemma {:induction false} NotBit(x: nat, n: nat, i: nat)
    requires x < Pow2(n) && i < n
    ensures Bit(Not(x, n), i) <==> !Bit(x, i)
    decreases i
  {
    assert Pow2(n) == 2 * Pow2(n - 1);
    assert x / 2 < Pow2(n - 1);
    assert Not(x, n) == 2 * Not(x / 2, n - 1) + Digit(x % 2 == 0);
    Halve(Not(x / 2, n - 1), x % 2 == 0);
    if i > 0 { NotBit(x / 2, n - 1, i - 1); }
  }

  /** Combining `n`-bit words gives an `n`-bit word. */
  lemma {:induction false} WordOr(a: nat, b: nat, n: nat)
    requires a < Pow2(n) && b < Pow2(n)
    ensures Or(a, b) < Pow2(n)
    decreases n
  {
    if n > 0 && (a != 0 || b != 0) { WordOr(a / 2, b / 2, n - 1); }
  }

  lemma {:induction false} WordXor(a: nat, b: nat, n: nat)
    requires a < Pow2(n) && b < Pow2(n)
    ensures Xor(a, b) < Pow2(n)
    decreases n
  {
    if n > 0 && (a != 0 || b != 0) { WordXor(a / 2, b / 2, n - 1); }
  }

  lemma {:induction false} AndLess(a: nat, b: nat)
    ensures And(a, b) <= a && And(a, b) <= b
  {
    if a != 0 && b != 0 { AndLess(a / 2, b / 2); }
  }

  lemma {:induction false} Pow2Less(k: nat, n: nat)
    requires k < n
    ensures Pow2(k) < Pow2(n)
    decreases n
  {
    if k + 1 < n { Pow2Less(k, n - 1); }
  }

  /** Masking with 2^k - 1 is reduction modulo 2^k. */
  lemma {:induction false} MaskIsMod(x: nat, k: nat)
    ensures And(x, Pow2(k) - 1) == x % Pow2(k)
    decreases k
  {
    hide And;
    if k == 0 {
      assert Pow2(0) == 1;
      AndLess(x, 0);
    } else if x == 0 {
      AndLess(0, Pow2(k) - 1);
    } else {
      hide Pow2;
      MaskIsMod(x / 2, k - 1);
      TwoPow(k);
      MaskStep(x, Pow2(k - 1));
    }
  }

  lemma TwoPow(k: nat)
    requires k > 0
    ensures Pow2(k) == 2 * Pow2(k - 1)
  {
  }

  lemma AndStep(x: nat, m: nat)
    requires x > 0 && m > 0
    ensures And(x, 2 * m - 1) == 2 * And(x / 2, m - 1) + x % 2
  {
    assert (2 * m - 1) / 2 == m - 1 && (2 * m - 1) % 2 == 1;
  }

  lemma MaskStep(x: nat, m: nat)
    requires x > 0 && m > 0 && And(x / 2, m - 1) == x / 2 % m
    ensures And(x, 2 * m - 1) == x % (2 * m)
  {
    hide And;
    AndStep(x, m);
    HalfMod(x, m);
  }

  lemma HalfMod(x: nat, m: nat)
    requires m > 0
    ensures x % (2 * m) == 2 * (x / 2 % m) + x % 2
  {
    var h := x / 2;
    var q := h / m;
    assert h == m * q + h % m;
    assert x == 2 * h + x % 2;
    assert x == 2 * (m * q) + 2 * (h % m) + x % 2;
    assert 2 * (m * q) == (2 * m) * q;
    DivUnique(x, 2 * m, q);
  }

  /** A word is determined by its bits. */
  lemma {:induction false} SameBits(x: nat, y: nat, n: nat)
    requires x < Pow2(n) && y < Pow2(n) && forall i: nat :: i < n ==> Bit(x, i) == Bit(y, i)
    ensures x == y
    decreases n
  {
    if n > 0 {
      assert Bit(x, 0) == Bit(y, 0);
      forall i: nat | i < n - 1 ensures Bit(x / 2, i) == Bit(y / 2, i) {
        assert Bit(x, i + 1) == Bit(y, i + 1);
      }
      SameBits(x / 2, y / 2, n - 1);
    }
  }

  /** The bits of a shifted word. */
  lemma {:induction false} BitShift(x: nat, j: nat, m: nat)
    ensures x / Pow2(j) >= 0 && Bit(x / Pow2(j), m) == Bit(x, j + m)
    decreases j
  {
    if j > 0 {
      hide Bit;
      BitShift(x / 2, j - 1, m);
      BitHalf(x, j + m);
      assert x / Pow2(j) == x / 2 / Pow2(j - 1) by { TwoPow(j); DivDiv(x, 2, Pow2(j - 1)); }
    }
  }

  lemma BitHalf(x: nat, k: nat)
    requires k > 0
    ensures Bit(x, k) == Bit(x / 2, k - 1)
  {
  }

  /** The low bits of a word. */
  lemma {:induction false} BitLow(x: nat, n: nat, m: nat)
    requires m < n
    ensures Bit(x % Pow2(n), m) == Bit(x, m)
    decreases n
  {
    HalfMod(x, Pow2(n - 1));
    if m > 0 { BitLow(x / 2, n - 1, m - 1); }
  }
}
