/** 64-bit division built from the x86 instruction that divides 64 bits by 32 bits
    (lib/arithmetic.c). Machine words are integers with explicit wrap-around. */
module Arithmetic {

  const TWO31: int := 0x8000_0000
  const TWO32: int := 0x1_0000_0000
  const TWO63: int := 0x8000_0000_0000_0000
  const TWO64: int := 0x1_0000_0000_0000_0000

  ghost predicate IsU32(x: int) { 0 <= x < TWO32 }
  ghost predicate IsU64(x: int) { 0 <= x < TWO64 }
  ghost predicate IsS64(x: int) { -TWO63 <= x < TWO63 }

  function Pow2(k: nat): (p: int)
    ensures p >= 1
  {
    if k == 0 then 1 else 2 * Pow2(k - 1)
  }

  lemma {:induction false} Pow2Add(j: nat, k: nat)
    ensures Pow2(j + k) == Pow2(j) * Pow2(k)
  {
    if j > 0 {
      Pow2Add(j - 1, k);
      assert Pow2(j + k) == 2 * Pow2(j - 1 + k);
    }
  }

  /** Conversion to a 64-bit or 32-bit unsigned word keeps the low bits. */
  function ToU64(x: int): (w: int) ensures IsU64(w) { x % TWO64 }
  function ToU32(x: int): (w: int) ensures IsU32(w) { x % TWO32 }

  /** Reading the low bits as two's complement. */
  function ToS64(x: int): (w: int)
    ensures IsS64(w)
  {
    if x % TWO64 < TWO63 then x % TWO64 else x % TWO64 - TWO64
  }
  function ToS32(x: int): (w: int)
    ensures -TWO31 <= w < TWO31
  {
    if x % TWO32 < TWO31 then x % TWO32 else x % TWO32 - TWO32
  }

  /** Division as C defines it: the quotient is truncated toward zero. */
  function TruncDiv(n: int, d: int): (q: int)
    requires d != 0
  {
    var a, b := Abs(n), Abs(d);
    if (n < 0) == (d < 0) then a / b else -(a / b)
  }

  function Abs(n: int): int { if n >= 0 then n else -n }

  // Facts about division.

  lemma MulMono(a: int, b: int, c: int)
    requires a <= b && c >= 0
    ensures a * c <= b * c
  {
  }

  lemma DivBounds(n: int, d: int)
    requires d > 0 && n >= 0
    ensures (n / d) * d <= n < (n / d) * d + d
    ensures 0 <= n / d <= n
  {
    assert n == (n / d) * d + n % d;
    if n / d > n { MulMono(1, d, n / d); }
  }

  lemma DivUnique(n: int, d: int, q: int)
    requires d > 0 && q * d <= n < q * d + d
    ensures n / d == q
  {
    var q' := n / d;
    assert n == q' * d + n % d;
    assert (q' - q) * d == q' * d - q * d;
    assert -d < (q' - q) * d < d;
    SmallMultiple(q' - q, d);
  }

  lemma SmallMultiple(k: int, d: int)
    requires d > 0 && -d < k * d < d
    ensures k == 0
  {
    if k > 0 { MulMono(1, k, d); }
    if k < 0 { MulMono(k, -1, d); }
  }

  lemma DivDiv(n: int, b: int, c: int)
    requires b > 0 && c > 0 && n >= 0
    ensures b * c > 0 && n / b / c == n / (b * c)
  {
    var m := n / b;
    var q := m / c;
    DivBounds(n, b);
    DivBounds(m, c);
    MulMono(q * c, m, b);
    MulMono(m + 1, q * c + c, b);
    assert q * c * b == q * (b * c) && (q * c + c) * b == q * (b * c) + b * c;
    assert (m + 1) * b == m * b + b;
    assert b * c > 0 by { MulMono(1, b, c); }
    DivUnique(n, b * c, q);
  }

  /** A smaller divisor gives a quotient that is no smaller. */
  lemma DivAntitone(n: int, d: int, e: int)
    requires 0 < e <= d && n >= 0
    ensures n / d <= n / e
  {
    DivBounds(n, d);
    DivBounds(n, e);
    MulMono(e, d, n / d);
    assert e * (n / d) == (n / d) * e && d * (n / d) == (n / d) * d;
    assert (n / e + 1) * e == (n / e) * e + e;
    if n / d > n / e {
      MulMono(n / e + 1, n / d, e);
    }
  }

  lemma DivUpper(n: int, d: int, q: int)
    requires d > 0 && n >= 0 && n < q * d + d
    ensures n / d <= q
  {
    DivBounds(n, d);
    assert (q + 1) * d == q * d + d;
    if n / d > q {
      MulMono(q + 1, n / d, d);
    }
  }

  lemma DivLess(n: int, d: int, q: int)
    requires d > 0 && n >= 0 && n < q * d
    ensures n / d < q
  {
    assert (q - 1) * d + d == q * d;
    DivUpper(n, d, q - 1);
  }

  /** divl: traps unless the quotient fits in 32 bits. */
  function Divl(n: int, d: int): (q: int)
    requires IsU64(n) && IsU32(d) && d != 0 && n / d < TWO32
  {
    n / d
  }

  /** nlz: the number of leading zero bits of a nonzero 32-bit word. */
  method Nlz(x0: int) returns (n: nat)
    requires IsU32(x0) && x0 != 0
    ensures n <= 31 && TWO31 <= Shl(x0, n) < TWO32
  {
    Pow2Values();
    hide Shl, ToU32, Pow2;
    var x := x0;
    n := 0;
    ShlZero(x0);
    if x <= 0x0000_FFFF {
      ShlStep(x0, n, x, 16, 0x1_0000);
      n, x := n + 16, ToU32(Shl(x, 16));
    }
    assert 0x1_0000 <= x < TWO32 && x == Shl(x0, n) && n <= 16;
    if x <= 0x00FF_FFFF {
      ShlStep(x0, n, x, 8, 0x100);
      n, x := n + 8, ToU32(Shl(x, 8));
    }
    assert 0x100_0000 <= x < TWO32 && x == Shl(x0, n) && n <= 24;
    if x <= 0x0FFF_FFFF {
      ShlStep(x0, n, x, 4, 0x10);
      n, x := n + 4, ToU32(Shl(x, 4));
    }
    assert 0x1000_0000 <= x < TWO32 && x == Shl(x0, n) && n <= 28;
    if x <= 0x3FFF_FFFF {
      ShlStep(x0, n, x, 2, 4);
      n, x := n + 2, ToU32(Shl(x, 2));
    }
    assert 0x4000_0000 <= x < TWO32 && x == Shl(x0, n) && n <= 30;
    if x <= 0x7FFF_FFFF {
      ShlStep(x0, n, x, 1, 2);
      n := n + 1;
    }
  }

  /** The shifts `x << k` and `x >> k`, before truncation to a word. */
  function Shl(x: int, k: nat): int { x * Pow2(k) }
  function Shr(x: int, k: nat): int { x / Pow2(k) }

  lemma ShlZero(x: int)
    ensures Shl(x, 0) == x
  {
  }

  lemma Pow2Values()
    ensures Pow2(1) == 2 && Pow2(2) == 4 && Pow2(4) == 0x10 && Pow2(8) == 0x100
    ensures Pow2(16) == 0x1_0000 && Pow2(32) == TWO32
  {
    Pow2Add(16, 16);
  }

  /** One step of nlz: shifting once more composes, and loses no bits if there is room. */
  lemma ShlStep(x0: int, n: nat, x: int, k: nat, p: int)
    requires x == Shl(x0, n) && Pow2(k) == p && 0 <= x * p < TWO32
    ensures ToU32(Shl(x, k)) == x * p == Shl(x0, n + k)
  {
    Pow2Add(n, k);
    ShlAssoc(x0, Pow2(n), p);
  }

  lemma ShlAssoc(x: int, a: int, b: int)
    ensures x * a * b == x * (a * b)
  {
  }

  /** The argument in udiv64's comment: dividing the high word first leaves a quotient that
      fits in 32 bits. */
  lemma SmallDivisor(n: int, d: int)
    requires IsU64(n) && 0 < d < TWO32
    ensures var n1, n0 := n / TWO32, n % TWO32;
            && TWO32 * (n1 % d) + n0 < TWO64
            && (TWO32 * (n1 % d) + n0) / d < TWO32
            && (TWO32 * (n1 % d) + n0) / d + TWO32 * (n1 / d) == n / d
  {
    var n1, n0 := n / TWO32, n % TWO32;
    var m, t := TWO32 * (n1 % d) + n0, TWO32 * (n1 / d);
    assert n1 == (n1 / d) * d + n1 % d;
    assert n == m + t * d by { assert t * d == TWO32 * ((n1 / d) * d); }
    DivBounds(m, d);
    DivLess(m, d, TWO32);
    assert (m / d + t) * d == (m / d) * d + t * d;
    DivUnique(n, d, m / d + t);
  }

  /** The quotient estimate for a divisor of more than 32 bits. `k` is 2 to the number of
      divisor bits that the estimate ignores; `p` is 2 to the normalising shift. */
  lemma Estimate(n: int, d: int, p: int, k: int, v: int)
    requires IsU64(n) && d > 0
    requires p * k == TWO32 && k >= 2 && k % 2 == 0 && p > 0
    requires v == d / k && TWO31 <= v
    ensures v * k > 0 && n / d <= n / (v * k) <= n / d + 1
  {
    var D, e, Q := v * k, d % k, n / d;
    assert d == D + e;
    assert D > 0 by { MulMono(1, v, k); }
    DivAntitone(n, d, D);
    DivBounds(n, d);
    QuotientSmall(n, d, p, k, D);
    Slack(Q, e, p, k, D);
    assert Q * d + d == Q * D + D + (Q + 1) * e by { assert Q * d == Q * D + Q * e; }
    assert (Q + 1) * D + D == Q * D + D + D;
    DivUpper(n, D, Q + 1);
  }

  lemma QuotientSmall(n: int, d: int, p: int, k: int, D: int)
    requires IsU64(n) && p * k == TWO32 && p > 0 && k > 0
    requires D <= d && TWO31 * k <= D
    ensures n / d + 1 <= 2 * p
  {
    assert 2 * p * (TWO31 * k) == TWO32 * (p * k) == TWO64;
    MulMono(TWO31 * k, d, 2 * p);
    DivLess(n, d, 2 * p);
  }

  lemma Slack(Q: int, e: int, p: int, k: int, D: int)
    requires p * k == TWO32 && k >= 2 && k % 2 == 0 && TWO31 * k <= D && p > 0
    requires 0 <= e < k && 0 <= Q && Q + 1 <= 2 * p
    ensures (Q + 1) * e <= D
  {
    MulMono(e, k - 1, Q + 1);
    MulMono(Q + 1, 2 * p, k - 1);
    assert e * (Q + 1) == (Q + 1) * e && (k - 1) * (Q + 1) == (Q + 1) * (k - 1);
    assert 2 * p * (k - 1) == 2 * TWO32 - 2 * p;
    if k > 2 {
      assert k >= 4;
    }
  }

  /** What udiv64 computes from the normalised divisor is the estimate above. */
  lemma ShiftedQuotient(n: int, d: int, s: nat)
    requires IsU64(n) && IsU64(d) && d >= TWO32 && s <= 31
    requires TWO31 <= Shl(d / TWO32, s) < TWO32
    ensures 0 <= Shl(d, s) < TWO64
    ensures var v := Shl(d, s) / TWO32;
            && TWO31 <= v < TWO32
            && n / 2 / v < TWO32
            && n / d <= Shr(n / 2 / v, 31 - s) <= n / d + 1
  {
    hide Pow2;
    Pow2Split(s);
    ShiftedQuotientBy(n, d, Pow2(s), Pow2(32 - s), Pow2(31 - s));
  }

  lemma Pow2Split(s: nat)
    requires s <= 31
    ensures Pow2(s) * Pow2(32 - s) == TWO32 && Pow2(32 - s) == 2 * Pow2(31 - s)
  {
    Pow2Add(s, 32 - s);
    Pow2Values();
  }

  lemma ShiftedQuotientBy(n: int, d: int, p: int, k: int, h: int)
    requires IsU64(n) && IsU64(d) && d >= TWO32
    requires p > 0 && h > 0 && k == 2 * h && p * k == TWO32
    requires TWO31 <= (d / TWO32) * p < TWO32
    ensures d * p < TWO64
    ensures var v := d * p / TWO32;
            TWO31 <= v < TWO32 && n / 2 / v < TWO32 && n / d <= n / 2 / v / h <= n / d + 1
  {
    NormalisedDivisor(d, p, k);
    var v := d * p / TWO32;
    assert v == d / k by { ScaledDiv(d, p, k); }
    DivLess(n / 2, v, TWO32);
    assert n / 2 / v / h == n / (v * k) by {
      DivDiv(n / 2, v, h);
      DivDiv(n, 2, v * h);
      assert 2 * (v * h) == v * k;
    }
    Estimate(n, d, p, k, v);
  }

  lemma ScaledDiv(d: int, p: int, k: int)
    requires p > 0 && k > 0 && d >= 0
    ensures p * k > 0 && d * p / (p * k) == d / k
  {
    var v := d / k;
    DivBounds(d, k);
    MulMono(v * k, d, p);
    MulMono(d + 1, v * k + k, p);
    assert v * k * p == v * (p * k) && (v * k + k) * p == v * (p * k) + p * k;
    assert (d + 1) * p == d * p + p;
    assert p * k > 0 by { MulMono(1, p, k); }
    DivUnique(d * p, p * k, v);
  }

  lemma NormalisedDivisor(d: int, p: int, k: int)
    requires IsU64(d) && d >= TWO32 && p * k == TWO32 && p > 0 && k > 0
    requires TWO31 <= (d / TWO32) * p < TWO32
    ensures d * p < TWO64 && TWO31 <= d * p / TWO32 < TWO32
  {
    var d1, d0 := d / TWO32, d % TWO32;
    assert d * p == TWO32 * (d1 * p) + d0 * p;
    // d1 * p is a multiple of p below p * k, so it is at most p * (k - 1).
    if d1 >= k { MulMono(k, d1, p); }
    MulMono(d1, k - 1, p);
    assert (k - 1) * p == TWO32 - p;
    MulMono(d0, TWO32 - 1, p);
    MulMono(0, d0, p);
    DivLess(d * p, TWO32, TWO32);
  }

  lemma QuotientIsU64(n: int, d: int)
    requires IsU64(n) && d > 0
    ensures IsU64(n / d)
  {
    DivBounds(n, d);
  }

  lemma FitsU64(x: int)
    requires IsU64(x)
    ensures ToU64(x) == x
  {
  }

  /** udiv64, divisor below 2^32: neither divl step traps. */
  method UdivSmall(n: int, d: int) returns (q: int)
    requires IsU64(n) && 0 < d < TWO32
    ensures q == n / d && IsU64(q)
  {
    QuotientIsU64(n, d);
    SmallDivisor(n, d);
    var n1, n0, d0 := ToU32(n / TWO32), ToU32(n), ToU32(d);
    assert n1 == n / TWO32 && d0 == d;
    var m := TWO32 * (n1 % d0) + n0;
    assert 0 <= m;
    hide ToU64;
    FitsU64(m);
    FitsU64(n / d);
    q := ToU64(Divl(ToU64(m), d0) + TWO32 * (n1 / d0));
  }

  /** udiv64, larger divisor: the estimate from the normalised divisor is the true quotient
      or one more, and one test corrects it. */
  method UdivLarge(n: int, d: int) returns (q: int)
    requires IsU64(n) && IsU64(d) && TWO32 <= d <= n
    ensures q == n / d && IsU64(q)
  {
    QuotientIsU64(n, d);
    var d1 := ToU32(d / TWO32);
    assert d1 == d / TWO32;
    hide ToU64, ToU32, Shl, Shr;
    var s := Nlz(d1);
    ShiftedQuotient(n, d, s);
    FitsU64(Shl(d, s));
    q := Shr(Divl(n / 2, ToU64(Shl(d, s)) / TWO32), 31 - s);
    CorrectFacts(n, d, q);
    var rem := n - (q - 1) * d;
    FitsU64(rem);
    if ToU64(rem) < d {
      q := q - 1;
    }
  }

  /** udiv64: unsigned 64-bit division. */
  method Udiv64(n: int, d: int) returns (q: int)
    requires IsU64(n) && IsU64(d) && d != 0
    ensures q == n / d && IsU64(q)
  {
    if d / TWO32 == 0 {
      q := UdivSmall(n, d);
    } else if n < d {
      q := 0;
      DivUnique(n, d, 0);
    } else {
      q := UdivLarge(n, d);
    }
  }

  /** The final test tells an exact estimate from one that is one too big. */
  lemma CorrectFacts(n: int, d: int, q: int)
    requires IsU64(n) && 0 < d <= n && n / d <= q <= n / d + 1
    ensures 1 <= q && 0 <= n - (q - 1) * d < TWO64
    ensures n / d == if n - (q - 1) * d < d then q - 1 else q
  {
    var Q := n / d;
    DivBounds(n, d);
    assert (Q - 1) * d == Q * d - d;
    assert Q >= 1 by { if Q <= 0 { MulMono(Q, 0, d); } }
    MulMono(0, Q - 1, d);
  }

  /** umod64: the remainder, narrowed to 32 bits by its return type; so it is exact just when
      the remainder fits. */
  method Umod64(n: int, d: int) returns (r: int)
    requires IsU64(n) && IsU64(d) && d != 0
    ensures r == (n % d) % TWO32
    ensures r == n % d <==> n % d < TWO32
  {
    var q := Udiv64(n, d);
    assert n - d * q == n % d;
    r := ToU32(ToU64(n - d * q));
  }

  /** umod64 is exact for every dividend exactly when the divisor is at most 2^32. */
  lemma Umod64Exact(d: int)
    requires IsU64(d) && d != 0
    ensures (forall n :: IsU64(n) ==> n % d < TWO32) <==> d <= TWO32
  {
    if d > TWO32 {
      DivUnique(d - 1, d, 0);
      assert (d - 1) / d == 0 && (d - 1) % d == d - 1 && IsU64(d - 1);
    }
  }

  function AbsU64(n: int): (a: int)
    requires IsS64(n)
    ensures a == Abs(n)
  {
    if n >= 0 then n else ToU64(-ToU64(n))
  }

  /** sdiv64: signed division truncates toward zero; the one quotient that does not fit,
      INT64_MIN / -1, wraps to INT64_MIN. */
  method Sdiv64(n: int, d: int) returns (q: int)
    requires IsS64(n) && IsS64(d) && d != 0
    ensures IsS64(q) && q == ToS64(TruncDiv(n, d))
    ensures q == TruncDiv(n, d) <==> !(n == -TWO63 && d == -1)
  {
    hide ToS64;
    var nAbs, dAbs := AbsU64(n), AbsU64(d);
    var qAbs := Udiv64(nAbs, dAbs);
    QuotientRange(n, d);
    q := if (n < 0) == (d < 0) then ToS64(qAbs) else ToS64(-ToS64(qAbs));
    WrapQuotient(qAbs);
  }

  lemma WrapQuotient(q: int)
    requires 0 <= q <= TWO63
    ensures ToS64(-ToS64(q)) == -q == ToS64(-q)
    ensures ToS64(q) == (if q == TWO63 then -q else q)
  {
  }

  lemma QuotientRange(n: int, d: int)
    requires IsS64(n) && IsS64(d) && d != 0
    ensures 0 <= Abs(n) / Abs(d) <= TWO63
    ensures Abs(n) / Abs(d) == TWO63 <==> n == -TWO63 && Abs(d) == 1
  {
    DivBounds(Abs(n), Abs(d));
    if Abs(d) > 1 {
      DivAntitone(Abs(n), Abs(d), 2);
    }
  }

  /** smod64: the remainder has the dividend's sign and is narrowed to 32 bits. */
  method Smod64(n: int, d: int) returns (r: int)
    requires IsS64(n) && IsS64(d) && d != 0
    ensures r == ToS32(n - d * TruncDiv(n, d))
    ensures r == n - d * TruncDiv(n, d) <==> -TWO31 <= n - d * TruncDiv(n, d) < TWO31
  {
    var q := Sdiv64(n, d);
    SignedRemainder(n, d);
    r := ToS32(ToS64(n - d * q));
    RemainderFits(n - d * TruncDiv(n, d), d);
    assert d * q == d * TruncDiv(n, d) || (n == -TWO63 && d == -1 && d * q == TWO63 && n - d * TruncDiv(n, d) == 0);
    hide TruncDiv;
  }

  lemma RemainderFits(r: int, d: int)
    requires IsS64(d) && -Abs(d) < r < Abs(d)
    ensures ToS64(r) == r
    ensures ToS32(r) == r <==> -TWO31 <= r < TWO31
    ensures ToS32(ToS64(-TWO64)) == 0 == ToS32(0)
  {
  }

  /** smod64 is exact for every dividend exactly when the divisor is at most 2^31 in magnitude. */
  lemma Smod64Exact(d: int)
    requires IsS64(d) && d != 0
    ensures (forall n :: IsS64(n) ==> -TWO31 <= n - d * TruncDiv(n, d) < TWO31) <==> Abs(d) <= TWO31
  {
    if Abs(d) <= TWO31 {
      forall n | IsS64(n) ensures -TWO31 <= n - d * TruncDiv(n, d) < TWO31 {
        SignedRemainder(n, d);
      }
    } else {
      DivUnique(TWO31, Abs(d), 0);
      assert TruncDiv(TWO31, d) == 0 && IsS64(TWO31);
      assert TWO31 - d * TruncDiv(TWO31, d) == TWO31;
    }
  }

  /** The truncated remainder is smaller than the divisor and has the dividend's sign. */
  lemma SignedRemainder(n: int, d: int)
    requires d != 0
    ensures var r := n - d * TruncDiv(n, d);
            && -Abs(d) < r < Abs(d)
            && (n >= 0 ==> r >= 0) && (n <= 0 ==> r <= 0)
  {
    var a, b := Abs(n), Abs(d);
    var m := a / b;
    DivBounds(a, b);
    assert d * TruncDiv(n, d) == if n >= 0 then m * b else -(m * b) by {
      assert d * m == if d > 0 then m * b else -(m * b);
      assert d * (-m) == -(d * m);
    }
  }
}
