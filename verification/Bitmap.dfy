/** Bitmaps packed into 32-bit words, and the first-fit scan (lib/kernel/bitmap.c). */
module Bitmap {
  import opened Wrappers
  import opened Arithmetic
  import opened Bits

  const ELEM_BITS: nat := 32

  /** The `cnt` bits from `i` on exist and all equal `value`. */
  predicate Group(v: seq<bool>, i: nat, cnt: nat, value: bool) {
    i + cnt <= |v| && forall k :: i <= k < i + cnt ==> v[k] == value
  }

  /** The first such group at or after `start`. */
  ghost predicate FirstGroup(v: seq<bool>, start: nat, cnt: nat, value: bool, r: Option<nat>) {
    match r
    case None => forall i: nat :: start <= i ==> !Group(v, i, cnt, value)
    case Some(i) =>
      start <= i && Group(v, i, cnt, value) && forall j: nat :: start <= j < i ==> !Group(v, j, cnt, value)
  }

  /** The bits with `cnt` of them from `start` on set to `value`. */
  function SetRange(v: seq<bool>, start: nat, cnt: nat, value: bool): (r: seq<bool>)
    requires start + cnt <= |v|
    ensures |r| == |v|
    ensures forall k :: 0 <= k < |v| ==> r[k] == if start <= k < start + cnt then value else v[k]
  {
    seq(|v|, k requires 0 <= k < |v| => if start <= k < start + cnt then value else v[k])
  }

  /** There is at most one answer to a scan. */
  lemma FirstGroupUnique(v: seq<bool>, start: nat, cnt: nat, value: bool, r: Option<nat>, s: Option<nat>)
    requires FirstGroup(v, start, cnt, value, r) && FirstGroup(v, start, cnt, value, s)
    ensures r == s
  {
    assert r.Some? ==> Group(v, r.value, cnt, value);
    assert s.Some? ==> Group(v, s.value, cnt, value);
  }

  /** The answer to a scan. */
  function Scanned(v: seq<bool>, start: nat, cnt: nat, value: bool): (r: Option<nat>)
    ensures FirstGroup(v, start, cnt, value, r)
    decreases |v| + 1 - start
  {
    if start + cnt > |v| then None
    else if Group(v, start, cnt, value) then Some(start)
    else Scanned(v, start + 1, cnt, value)
  }

  class Bitmap {
    const bitCnt: nat
    const bits: array<nat>

    ghost predicate Words()
      reads bits
    {
      && bits.Length == (bitCnt + ELEM_BITS - 1) / ELEM_BITS
      && forall w :: 0 <= w < bits.Length ==> bits[w] < Pow2(ELEM_BITS)
    }

    ghost predicate BitAt(i: nat)
      requires i / ELEM_BITS < bits.Length
      reads bits
    {
      Bit(bits[i / ELEM_BITS], i % ELEM_BITS)
    }

    /** All bits of the words, one by one. */
    ghost function Raw(): (v: seq<bool>)
      requires Words()
      reads bits
      ensures |v| == ELEM_BITS * bits.Length && bitCnt <= |v|
      ensures forall i :: 0 <= i < |v| ==> i / ELEM_BITS < bits.Length && v[i] == BitAt(i)
    {
      seq(ELEM_BITS * bits.Length, i requires 0 <= i < ELEM_BITS * bits.Length reads bits => BitAt(i))
    }

    /** The bits past the last one are off. */
    ghost predicate Valid()
      reads bits
    {
      Words() && forall i :: bitCnt <= i < |Raw()| ==> !Raw()[i]
    }

    ghost function Contents(): (v: seq<bool>)
      requires Valid()
      reads bits
      ensures |v| == bitCnt && v == Raw()[..bitCnt]
    {
      Raw()[..bitCnt]
    }

    constructor (n: nat)
      ensures bitCnt == n && Valid() && Contents() == seq(n, _ => false) && fresh(bits)
    {
      bitCnt := n;
      bits := new nat[(n + ELEM_BITS - 1) / ELEM_BITS](_ => 0);
      new;
      forall i | 0 <= i < |Raw()| ensures !BitAt(i) { ZeroBits(i % ELEM_BITS); }
    }

    /** After a write to one word, of which only bit `idx` changed. */
    lemma WordWritten(idx: nat, value: bool, was: seq<bool>)
      requires Words() && idx < bitCnt && |was| == |Raw()| && forall i :: bitCnt <= i < |was| ==> !was[i]
      requires forall i: nat :: i < |was| && i / ELEM_BITS != idx / ELEM_BITS ==> Raw()[i] == was[i]
      requires forall i: nat :: i < |was| && i / ELEM_BITS == idx / ELEM_BITS ==>
                 Raw()[i] == if i % ELEM_BITS == idx % ELEM_BITS then value else was[i]
      ensures Valid() && Contents() == was[..bitCnt][idx := value]
    {
      forall i | 0 <= i < |was| ensures Raw()[i] == was[idx := value][i] {
        SamePlace(i, idx);
      }
    }

    method Mark(idx: nat)
      requires Valid() && idx < bitCnt
      modifies bits
      ensures Valid() && Contents() == old(Contents())[idx := true]
    {
      hide Pow2, Bit, Or;
      ghost var was := Raw();
      var w, mask := idx / ELEM_BITS, Pow2(idx % ELEM_BITS);
      ghost var before := bits[w];
      Pow2Less(idx % ELEM_BITS, ELEM_BITS);
      WordOr(bits[w], mask, ELEM_BITS);
      bits[w] := Or(bits[w], mask);
      forall i: nat | i < |was| && i / ELEM_BITS == w
        ensures Raw()[i] == if i % ELEM_BITS == idx % ELEM_BITS then true else was[i]
      {
        OrBit(before, mask, i % ELEM_BITS);
        Pow2Bit(idx % ELEM_BITS, i % ELEM_BITS);
      }
      WordWritten(idx, true, was);
    }

    method Reset(idx: nat)
      requires Valid() && idx < bitCnt
      modifies bits
      ensures Valid() && Contents() == old(Contents())[idx := false]
    {
      hide Pow2, Bit, And, Not;
      ghost var was := Raw();
      Pow2Less(idx % ELEM_BITS, ELEM_BITS);
      var w, mask := idx / ELEM_BITS, Pow2(idx % ELEM_BITS);
      ghost var before := bits[w];
      AndLess(bits[w], Not(mask, ELEM_BITS));
      bits[w] := And(bits[w], Not(mask, ELEM_BITS));
      forall i: nat | i < |was| && i / ELEM_BITS == w
        ensures Raw()[i] == if i % ELEM_BITS == idx % ELEM_BITS then false else was[i]
      {
        AndBit(before, Not(mask, ELEM_BITS), i % ELEM_BITS);
        NotBit(mask, ELEM_BITS, i % ELEM_BITS);
        Pow2Bit(idx % ELEM_BITS, i % ELEM_BITS);
      }
      WordWritten(idx, false, was);
    }

    method Flip(idx: nat)
      requires Valid() && idx < bitCnt
      modifies bits
      ensures Valid() && Contents() == old(Contents())[idx := !old(Contents())[idx]]
    {
      hide Pow2, Bit, Xor;
      ghost var was := Raw();
      var w, mask := idx / ELEM_BITS, Pow2(idx % ELEM_BITS);
      ghost var before := bits[w];
      Pow2Less(idx % ELEM_BITS, ELEM_BITS);
      WordXor(bits[w], mask, ELEM_BITS);
      bits[w] := Xor(bits[w], mask);
      forall i: nat | i < |was| && i / ELEM_BITS == w
        ensures Raw()[i] == if i % ELEM_BITS == idx % ELEM_BITS then !was[idx] else was[i]
      {
        XorBit(before, mask, i % ELEM_BITS);
        Pow2Bit(idx % ELEM_BITS, i % ELEM_BITS);
      }
      WordWritten(idx, !was[idx], was);
    }

    method Test(idx: nat) returns (b: bool)
      requires Valid() && idx < bitCnt
      ensures b == Contents()[idx]
    {
      hide Pow2, Bit, And;
      b := And(bits[idx / ELEM_BITS], Pow2(idx % ELEM_BITS)) != 0;
      SingleBit(bits[idx / ELEM_BITS], idx % ELEM_BITS);
    }

    method SetMultiple(start: nat, cnt: nat, value: bool)
      requires Valid() && start + cnt <= bitCnt
      modifies bits
      ensures Valid() && Contents() == SetRange(old(Contents()), start, cnt, value)
    {
      hide Valid, Raw, BitAt;
      ghost var was := Contents();
      for i := 0 to cnt
        invariant Valid() && Contents() == SetRange(was, start, i, value)
      {
        if value { Mark(start + i); } else { Reset(start + i); }
        SetOne(was, start, i, value);
      }
    }

    /** Whether some of the `cnt` bits from `start` on equals `value`. */
    method Contains(start: nat, cnt: nat, value: bool) returns (b: bool)
      requires Valid() && start + cnt <= bitCnt
      ensures b <==> !Group(Contents(), start, cnt, !value)
    {
      hide Valid, Raw, BitAt;
      for i := 0 to cnt
        invariant Group(Contents(), start, i, !value)
      {
        var t := Test(start + i);
        if t == value {
          assert Contents()[start + i] == value;
          return true;
        }
      }
      return false;
    }

    method Scan(start: nat, cnt: nat, value: bool) returns (r: Option<nat>)
      requires Valid() && start <= bitCnt
      ensures r == Scanned(Contents(), start, cnt, value)
    {
      hide Valid, Raw, BitAt, Group;
      if cnt <= bitCnt {
        var i := start;
        while i <= bitCnt - cnt
          invariant start <= i
          invariant forall j: nat :: start <= j < i ==> !Group(Contents(), j, cnt, value)
        {
          var b := Contains(i, cnt, !value);
          if !b {
            FirstGroupUnique(Contents(), start, cnt, value, Some(i), Scanned(Contents(), start, cnt, value));
            return Some(i);
          }
          i := i + 1;
        }
      }
      TooLate(Contents(), cnt, value);
      FirstGroupUnique(Contents(), start, cnt, value, None, Scanned(Contents(), start, cnt, value));
      return None;
    }

    method ScanAndFlip(start: nat, cnt: nat, value: bool) returns (r: Option<nat>)
      requires Valid() && start <= bitCnt
      modifies bits
      ensures Valid() && r == Scanned(old(Contents()), start, cnt, value)
      ensures Contents() == match r {
              case None => old(Contents())
              case Some(i) => SetRange(old(Contents()), i, cnt, !value) }
    {
      hide Valid, Raw, BitAt;
      r := Scan(start, cnt, value);
      if r.Some? { SetMultiple(r.value, cnt, !value); }
    }
  }

  /** The bitmap holds these bits. */
  ghost predicate Is(m: Bitmap, v: seq<bool>)
    reads m.bits
  {
    m.Valid() && m.Contents() == v
  }

  lemma SamePlace(i: nat, j: nat)
    ensures i / ELEM_BITS == j / ELEM_BITS && i % ELEM_BITS == j % ELEM_BITS ==> i == j
  {
    assert ELEM_BITS == 32;
  }

  /** Testing a bit with a one-bit mask. */
  lemma SingleBit(x: nat, k: nat)
    ensures And(x, Pow2(k)) != 0 <==> Bit(x, k)
  {
    hide And;
    AndBit(x, Pow2(k), k);
    Pow2Bit(k, k);
    if And(x, Pow2(k)) == 0 { ZeroBits(k); }
    if !Bit(x, k) { AndPow2(x, k); }
  }

  lemma {:induction false} AndPow2(x: nat, k: nat)
    requires !Bit(x, k)
    ensures And(x, Pow2(k)) == 0
  {
    if x > 0 && k > 0 {
      Halve(Pow2(k - 1), false);
      AndPow2(x / 2, k - 1);
    } else if x > 0 {
      assert Pow2(0) == 1 && And(x / 2, 0) == 0;
    }
  }

  lemma SetOne(v: seq<bool>, start: nat, i: nat, value: bool)
    requires start + i < |v|
    ensures SetRange(v, start, i, value)[start + i := value] == SetRange(v, start, i + 1, value)
  {
  }

  lemma TooLate(v: seq<bool>, cnt: nat, value: bool)
    ensures forall i: nat :: |v| < i + cnt ==> !Group(v, i, cnt, value)
  {
  }
}
