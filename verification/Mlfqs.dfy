/** 17.14 fixed-point arithmetic and the updates of the multi-level feedback queue scheduler
    (threads/fixedpoint.h, threads/thread.c), in 32-bit two's complement. */
module Mlfqs {
  import opened Arithmetic

  const F := 16384
  const PRI_MAX := 63
  const TIMER_FREQ := 100
  const NICE_MAX := 20

  /** CPU usage of a thread: its niceness and its recent_cpu. */
  datatype Usage = Usage(nice: int, recent: int)

  /** The low 32 bits of a result, read as a C `int`. */
  function Wrap(x: int): (w: int) { ToS32(x) }

  function IntToFp(n: int): (x: int) { Wrap(n * F) }

  /** FP_TO_INT_NEAREST. */
  function Nearest(x: int): (n: int) {
    if x >= 0 then TruncDiv(Wrap(x + F / 2), F) else TruncDiv(Wrap(x - F / 2), F)
  }

  /** ADD_FP_INT. */
  function AddInt(x: int, n: int): (y: int) { Wrap(x + IntToFp(n)) }

  /** MUL_FP and DIV_FP work on 64 bits; no product of two 32-bit numbers overflows those. */
  function MulFp(x: int, y: int): (z: int) { TruncDiv(x * y, F) }
  function DivFp(x: int, y: int): (z: int)
    requires y != 0
  {
    TruncDiv(x * F, y)
  }

  /** update_load_avg. */
  function NextLoadAvg(loadAvg: int, ready: int): (l: int) {
    Wrap(DivFp(Wrap(loadAvg * 59), IntToFp(60)) + TruncDiv(IntToFp(ready), 60))
  }

  /** The decay factor in update_recent_cpu. A zero denominator would trap; the bounds below
      keep it positive. */
  function Coeff(loadAvg: int): (c: int) {
    var twice := Wrap(loadAvg * 2);
    var denominator := Wrap(twice + IntToFp(1));
    if denominator == 0 then 0 else Wrap(DivFp(twice, denominator))
  }

  /** update_recent_cpu. */
  function NextUsage(u: Usage, loadAvg: int): (v: Usage) {
    u.(recent := Wrap(MulFp(Coeff(loadAvg), u.recent) + IntToFp(u.nice)))
  }

  /** update_thread_priority. */
  function PriorityOf(u: Usage): (p: int)
    ensures 0 <= p <= PRI_MAX
  {
    var p := Nearest(Wrap(Wrap(IntToFp(PRI_MAX) - TruncDiv(u.recent, 4)) - Wrap(IntToFp(u.nice) * 2)));
    if p > PRI_MAX then PRI_MAX else if p < 0 then 0 else p
  }

  /** thread_get_load_avg and thread_get_recent_cpu: 100 times the value. */
  function Reported(x: int): (n: int) { Nearest(Wrap(x * 100)) }

  /** The largest recent_cpu when at most `n` threads are runnable at any time. */
  function RecentMax(n: nat): (b: int) { (2 * n + 1) * (TIMER_FREQ + NICE_MAX) * F }

  ghost predicate Fits(x: int) { -TWO31 <= x < TWO31 }

  lemma WrapFits(x: int)
    requires Fits(x)
    ensures Wrap(x) == x
  {
  }

  /** For up to 545 runnable threads the bound itself fits in 32 bits, and for 546 it does not. */
  lemma RecentMaxFits(n: nat)
    ensures Fits(RecentMax(n)) <==> n <= 545
  {
  }

  /** load_avg stays between 0 and the number of runnable threads, and nothing overflows. */
  lemma LoadAvgBound(n: nat, loadAvg: int, ready: int)
    requires n <= 545 && 0 <= loadAvg <= n * F && 0 <= ready <= n
    ensures Fits(loadAvg * 59) && Fits(ready * F)
    ensures NextLoadAvg(loadAvg, ready) == loadAvg * 59 / 60 + ready * F / 60
    ensures 0 <= NextLoadAvg(loadAvg, ready) <= n * F
  {
    WrapFits(loadAvg * 59);
    WrapFits(ready * F);
    assert IntToFp(60) == 60 * F;
    assert DivFp(loadAvg * 59, 60 * F) == loadAvg * 59 / 60 by {
      ScaledDiv(loadAvg * 59, F, 60);
    }
    var r := loadAvg * 59 / 60 + ready * F / 60;
    assert 0 <= r <= n * F;
    WrapFits(r);
  }

  /** The decay factor is below one, by enough for the bound on recent_cpu to hold. */
  lemma CoeffBound(n: nat, loadAvg: int)
    requires n <= 545 && 0 <= loadAvg <= n * F
    ensures 0 <= Coeff(loadAvg) < F
    ensures Coeff(loadAvg) * (2 * n + 1) <= 2 * n * F
  {
    var l := 2 * loadAvg;
    CoeffAlgebra(n, l, l * F / (l + F));
    assert IntToFp(1) == F;
    hide ToS32;
    WrapFits(l);
    WrapFits(l + F);
    WrapFits(l * F / (l + F));
    assert loadAvg * 2 == l;
  }

  lemma CoeffAlgebra(n: nat, l: int, c: int)
    requires 0 <= l <= 2 * n * F && c == l * F / (l + F)
    ensures 0 <= c < F && c * (2 * n + 1) <= 2 * n * F
  {
    DivBounds(l * F, l + F);
    assert c * (l + F) == c * l + c * F;
    assert F * (l + F) == F * l + F * F;
    if c >= F {
      MulMono(F, c, l + F);
    }
    // c * F <= l * (F - c) <= 2 * n * F * (F - c)
    MulMono(l, 2 * n * F, F - c);
    assert l * (F - c) == l * F - c * l;
    assert 2 * n * F * (F - c) == F * (2 * n * (F - c));
    assert 2 * n * (F - c) == 2 * n * F - 2 * n * c;
    assert c * (2 * n + 1) == 2 * n * c + c;
  }

  /** After the once-per-second update recent_cpu is back within the bound less one second's
      ticks, and nothing overflows. */
  lemma RecentBound(n: nat, u: Usage, loadAvg: int)
    requires n <= 545 && 0 <= loadAvg <= n * F
    requires -RecentMax(n) <= u.recent <= RecentMax(n) && -NICE_MAX <= u.nice <= NICE_MAX
    ensures NextUsage(u, loadAvg).recent == MulFp(Coeff(loadAvg), u.recent) + u.nice * F
    ensures -(RecentMax(n) - TIMER_FREQ * F) <= NextUsage(u, loadAvg).recent <= RecentMax(n) - TIMER_FREQ * F
  {
    var c := Coeff(loadAvg);
    CoeffBound(n, loadAvg);
    RecentAlgebra(n, c, Abs(u.recent));
    ScaledBound(c, u.recent, 2 * n * 120 * F);
    hide ToS32, Coeff, MulFp;
    WrapFits(u.nice * F);
    WrapFits(MulFp(c, u.recent) + u.nice * F);
  }

  lemma RecentAlgebra(n: nat, c: int, a: int)
    requires 0 <= c && c * (2 * n + 1) <= 2 * n * F && 0 <= a <= RecentMax(n)
    ensures a * c <= 2 * n * 120 * F * F
  {
    MulMono(a, RecentMax(n), c);
    assert RecentMax(n) * c == (c * (2 * n + 1)) * (120 * F);
  }

  lemma ScaledBound(c: int, r: int, m: int)
    requires c >= 0 && m >= 0 && Abs(r) * c <= m * F
    ensures -m <= MulFp(c, r) <= m
  {
    assert c * r == if r >= 0 then Abs(r) * c else -(Abs(r) * c);
  }

  /** The value update_thread_priority rounds: PRI_MAX - recent_cpu / 4 - nice * 2. */
  function RawPriority(u: Usage): (x: int) {
    PRI_MAX * F - TruncDiv(u.recent, 4) - u.nice * F * 2
  }

  /** The per-slice priority update computes without overflow. */
  lemma PriorityFits(n: nat, u: Usage)
    requires n <= 545
    requires -RecentMax(n) <= u.recent <= RecentMax(n) && -NICE_MAX <= u.nice <= NICE_MAX
    ensures Fits(RawPriority(u) + F / 2) && Fits(RawPriority(u) - F / 2)
    ensures PriorityOf(u) == var p := TruncDiv(RawPriority(u) + (if RawPriority(u) >= 0 then F / 2 else -F / 2), F);
                             if p > PRI_MAX then PRI_MAX else if p < 0 then 0 else p
  {
    var q, x := TruncDiv(u.recent, 4), RawPriority(u);
    assert -RecentMax(n) <= q <= RecentMax(n) && -RecentMax(545) / 4 - 1 <= q <= RecentMax(545) / 4;
    hide ToS32, TruncDiv;
    WrapFits(PRI_MAX * F);
    WrapFits(PRI_MAX * F - q);
    WrapFits(u.nice * F);
    WrapFits(u.nice * F * 2);
    WrapFits(x);
    WrapFits(x + F / 2);
    WrapFits(x - F / 2);
  }

  // How close the fixed-point results come to the formulas they stand for.

  /** load_avg = (59/60) * load_avg + (1/60) * ready_threads, rounded down by less than two units. */
  lemma LoadAvgAccurate(n: nat, loadAvg: int, ready: int)
    requires n <= 545 && 0 <= loadAvg <= n * F && 0 <= ready <= n
    ensures var next := NextLoadAvg(loadAvg, ready);
            60 * next <= 59 * loadAvg + ready * F < 60 * next + 120
  {
    LoadAvgBound(n, loadAvg, ready);
  }

  /** recent_cpu = (2 * load_avg) / (2 * load_avg + 1) * recent_cpu + nice, within one unit plus one
      part in 2^14 of recent_cpu; all terms are multiplied by the denominator. */
  lemma RecentAccurate(n: nat, u: Usage, loadAvg: int)
    requires n <= 545 && 0 <= loadAvg <= n * F
    requires -RecentMax(n) <= u.recent <= RecentMax(n) && -NICE_MAX <= u.nice <= NICE_MAX
    ensures var d := 2 * loadAvg + F;
            Abs(NextUsage(u, loadAvg).recent * d - (2 * loadAvg * u.recent + u.nice * F * d)) * F
            <= (Abs(u.recent) + F) * d
  {
    RecentBound(n, u, loadAvg);
    CoeffIs(n, loadAvg);
    var c := Coeff(loadAvg);
    var m := MulFp(c, u.recent);
    hide Coeff, NextUsage, MulFp;
    DecayAccurate(2 * loadAvg, c, u.recent);
    Regroup(m, u.nice * F, 2 * loadAvg + F, 2 * loadAvg * u.recent);
  }

  lemma Regroup(m: int, k: int, d: int, x: int)
    ensures (m + k) * d - (x + k * d) == m * d - x
  {
  }

  lemma CoeffIs(n: nat, loadAvg: int)
    requires n <= 545 && 0 <= loadAvg <= n * F
    ensures Coeff(loadAvg) == 2 * loadAvg * F / (2 * loadAvg + F)
  {
    var l := 2 * loadAvg;
    CoeffAlgebra(n, l, l * F / (l + F));
    assert IntToFp(1) == F;
    hide ToS32;
    WrapFits(l);
    WrapFits(l + F);
    WrapFits(l * F / (l + F));
    assert loadAvg * 2 == l;
  }

  lemma DecayAccurate(l: int, c: int, r: int)
    requires 0 <= l && c == l * F / (l + F)
    ensures Abs(MulFp(c, r) * (l + F) - l * r) * F <= (Abs(r) + F) * (l + F)
  {
    var m, d := MulFp(c, r), l + F;
    var e, rem := l * F - c * d, c * r - m * F;
    DivBounds(l * F, d);
    TruncRemainder(c, r);
    hide MulFp;
    DecayEquation(l, c, r, m, rem, d, F, e);
    AbsMul(e, r, d);
    AbsMul(rem, d, F);
    AbsSum(e * r, rem * d);
    AbsScale(m * d - l * r, F);
    assert (Abs(r) + F) * d == Abs(r) * d + F * d;
  }

  lemma TruncRemainder(c: int, r: int)
    ensures Abs(c * r - MulFp(c, r) * F) < F
  {
  }

  lemma DecayEquation(l: int, c: int, r: int, m: int, rem: int, d: int, f: int, e: int)
    requires c * d == l * f - e && c * r == m * f + rem
    ensures (m * d - l * r) * f == -(e * r + rem * d)
  {
    calc {
      (m * d - l * r) * f;
      (m * f) * d - (l * f) * r;
      (c * r - rem) * d - (c * d + e) * r;
      { assert (c * r - rem) * d == c * r * d - rem * d; assert (c * d + e) * r == c * d * r + e * r; }
      c * r * d - rem * d - c * d * r - e * r;
    }
    assert c * r * d == c * d * r;
  }

  lemma AbsSum(a: int, b: int)
    ensures Abs(a + b) <= Abs(a) + Abs(b) && Abs(-(a + b)) == Abs(a + b)
  {
  }

  /** If one factor is at most `d` in magnitude, so is the product at most `d` times the other. */
  lemma AbsMul(a: int, b: int, d: int)
    requires Abs(a) <= d
    ensures Abs(a * b) <= Abs(b) * d
  {
    assert Abs(a * b) == Abs(a) * Abs(b) by {
      assert (-a) * b == -(a * b) && a * (-b) == -(a * b) && (-a) * (-b) == a * b;
    }
    MulMono(Abs(a), d, Abs(b));
  }

  lemma AbsScale(a: int, f: int)
    requires f > 0
    ensures Abs(a * f) == Abs(a) * f
  {
  }

  /** priority = PRI_MAX - recent_cpu / 4 - nice * 2, rounded to the nearest integer and kept
      within 0 and PRI_MAX. */
  lemma PriorityAccurate(n: nat, u: Usage)
    requires n <= 545
    requires -RecentMax(n) <= u.recent <= RecentMax(n) && -NICE_MAX <= u.nice <= NICE_MAX
    ensures var exact := 4 * PRI_MAX * F - u.recent - 8 * u.nice * F;   // four times the value, in units of 1/F
            && (0 < PriorityOf(u) < PRI_MAX ==> Abs(4 * F * PriorityOf(u) - exact) <= 2 * F + 3)
            && (PriorityOf(u) == 0 ==> exact <= 2 * F + 3)
            && (PriorityOf(u) == PRI_MAX ==> exact >= 4 * F * PRI_MAX - 2 * F - 3)
  {
    PriorityFits(n, u);
    hide PriorityOf;
    var x := RawPriority(u);
    assert Abs(4 * TruncDiv(u.recent, 4) - u.recent) <= 3;
    RoundHalf(x);
  }

  lemma RoundHalf(x: int)
    ensures var p := TruncDiv(x + (if x >= 0 then F / 2 else -F / 2), F); Abs(F * p - x) <= F / 2
  {
  }

  // What is reported.

  /** `n` is the integer nearest to `v`, in units of 1/F, halves being rounded away from zero. */
  ghost predicate IsNearest(n: int, v: int) {
    if v >= 0 then -F < 2 * (F * n - v) <= F else -F <= 2 * (F * n - v) < F
  }

  /** The number has a 32-bit form with room for rounding it. */
  ghost predicate RoundingFits(v: int) { if v >= 0 then Fits(v + F / 2) else Fits(v - F / 2) }

  lemma WrapTurns(x: int) returns (k: int)
    ensures Wrap(x) == x - k * TWO32 && Fits(Wrap(x))
  {
    k := if x % TWO32 < TWO31 then x / TWO32 else x / TWO32 + 1;
  }

  /** thread_get_load_avg and thread_get_recent_cpu return the nearest integer to 100 times the value
      exactly if that does not overflow 32 bits. */
  lemma ReportedExact(x: int)
    ensures IsNearest(Reported(x), x * 100) <==> RoundingFits(x * 100)
  {
    var v := x * 100;
    var w := Wrap(v);
    var y := if w >= 0 then w + F / 2 else w - F / 2;
    var k := WrapTurns(v);
    var j := WrapTurns(y);
    hide ToS32;
    var z := Wrap(y);
    assert Reported(x) == TruncDiv(z, F);
    assert z == y - j * TWO32;
    if RoundingFits(v) {
      WrapFits(v);
      WrapFits(y);
      RoundsAway(v);
    } else {
      TurnsShow(v, w, y, z, k, j);
    }
  }

  lemma RoundsAway(v: int)
    ensures IsNearest(TruncDiv(v + (if v >= 0 then F / 2 else -F / 2), F), v)
  {
  }

  /** After a turn, one way or there and back, the result is another. */
  lemma TurnsShow(v: int, w: int, y: int, z: int, k: int, j: int)
    requires w == v - k * TWO32 && Fits(w) && z == y - j * TWO32 && Fits(z)
    requires y == (if w >= 0 then w + F / 2 else w - F / 2) && !RoundingFits(v)
    ensures !IsNearest(TruncDiv(z, F), v)
  {
    assert z == v + (if w >= 0 then F / 2 else -F / 2) - (k + j) * TWO32;
    if k + j == 0 { assert (w >= 0) != (v >= 0); }
  }
}
