/** The hash table and its rehashing (lib/kernel/hash.c). */
module HashTable {
  import opened Wrappers
  import opened Arithmetic
  import opened Bits
  import opened Orders

  // Powers of two.

  /** turn_off_least_1bit. */
  function TurnOff(x: nat): nat
    requires x > 0
  {
    And(x, x - 1)
  }

  lemma {:induction false} AndSelf(x: nat)
    ensures And(x, x) == x
  {
    if x > 0 { AndSelf(x / 2); }
  }

  lemma TurnOffOdd(m: nat)
    ensures TurnOff(2 * m + 1) == 2 * m
  {
    hide And;
    AndSelf(m);
    AndTwice(m);
  }

  lemma AndTwice(m: nat)
    ensures And(2 * m + 1, 2 * m) == 2 * And(m, m)
  {
    assert (2 * m + 1) / 2 == m && 2 * m / 2 == m && 2 * m % 2 == 0;
  }

  lemma TurnOffEven(m: nat)
    requires m > 0
    ensures TurnOff(2 * m) == 2 * TurnOff(m)
  {
    assert (2 * m - 1) / 2 == m - 1;
  }

  /** Turning off the lowest bit keeps the highest, if it is not the same one. */
  lemma {:induction false} TurnOffTop(x: nat, k: nat)
    requires Pow2(k) <= x < 2 * Pow2(k)
    ensures if x == Pow2(k) then TurnOff(x) == 0 else Pow2(k) <= TurnOff(x) < x
    decreases k
  {
    hide And;
    if k == 0 {
      assert x == 1;
      TurnOffOdd(0);
    } else {
      TurnOffTop(x / 2, k - 1);
      if x % 2 == 0 { TurnOffEven(x / 2); } else { TurnOffOdd(x / 2); }
    }
  }

  /** The highest power of two not above `x`. */
  ghost function TopPower(x: nat): (k: nat)
    requires x > 0
    ensures Pow2(k) <= x < 2 * Pow2(k)
  {
    if x == 1 then 0 else TopPower(x / 2) + 1
  }

  lemma Pow2LessEq(j: nat, k: nat)
    requires j <= k
    ensures Pow2(j) <= Pow2(k)
  {
    if j < k { Pow2Less(j, k); }
  }

  /** is_power_of_2 tells what it says. */
  lemma PowerTest(x: nat)
    requires x > 0
    ensures TurnOff(x) == 0 <==> x == Pow2(TopPower(x))
  {
    TurnOffTop(x, TopPower(x));
  }

  /** The loop of rehash that makes a power of two: the largest one not above `n`. */
  method PowerBelow(n: nat) returns (r: nat)
    requires n >= 4
    ensures r == Pow2(TopPower(n)) && 4 <= r <= n < 2 * r
  {
    hide And, Pow2, TopPower;
    ghost var k := TopPower(n);
    TopAtLeast(n);
    r := n;
    while !(r != 0 && TurnOff(r) == 0)
      invariant Pow2(k) <= r < 2 * Pow2(k) && Pow2(k) >= 4 && r <= n
      decreases r
    {
      TurnOffTop(r, k);
      r := TurnOff(r);
    }
    TurnOffTop(r, k);
  }

  lemma TopAtLeast(n: nat)
    requires n >= 4
    ensures Pow2(TopPower(n)) >= 4
  {
    var k := TopPower(n);
    assert Pow2(1) == 2;
    if k < 2 { Pow2LessEq(k, 1); }
    Pow2LessEq(2, k);
    assert Pow2(2) == 4;
  }

  // The elements of all buckets.

  ghost function All<E>(b: seq<seq<E>>): multiset<E> {
    if b == [] then multiset{} else multiset(b[0]) + All(b[1..])
  }

  lemma {:induction false} AllUpdate<E>(b: seq<seq<E>>, i: nat, s: seq<E>)
    requires i < |b|
    ensures All(b[i := s]) + multiset(b[i]) == All(b) + multiset(s)
  {
    if i == 0 {
      assert b[0 := s][1..] == b[1..];
    } else {
      assert b[i := s][1..] == b[1..][i - 1 := s];
      AllUpdate(b[1..], i - 1, s);
      var r, a, c := All(b[1..][i - 1 := s]), All(b[1..]), multiset(b[0]);
      assert b[i] == b[1..][i - 1] && All(b[i := s]) == c + r && All(b) == c + a;
      assert c + r + multiset(b[i]) == c + (r + multiset(b[i])) == c + (a + multiset(s)) == c + a + multiset(s);
    }
  }

  lemma {:induction false} AllHas<E>(b: seq<seq<E>>, e: E)
    ensures e in All(b) <==> exists i :: 0 <= i < |b| && e in b[i]
  {
    if b != [] {
      AllHas(b[1..], e);
      if e in All(b[1..]) {
        var i :| 0 <= i < |b[1..]| && e in b[1..][i];
        assert e in b[i + 1];
      }
      if exists i :: 0 < i < |b| && e in b[i] {
        var i :| 0 < i < |b| && e in b[i];
        assert e in b[1..][i - 1];
      }
    }
  }

  lemma {:induction false} AllEmpty<E>(b: seq<seq<E>>)
    requires forall i :: 0 <= i < |b| ==> b[i] == []
    ensures All(b) == multiset{}
  {
    if b != [] { AllEmpty(b[1..]); }
  }

  // The table.

  /** The bucket an element belongs in, in a table of `n` buckets. */
  function Slot(h: nat, n: nat): nat
    requires n > 0
  {
    And(h, n - 1)
  }

  /** In a table whose size is a power of two, that is the hash value modulo the size. */
  lemma SlotInRange(h: nat, k: nat)
    ensures Slot(h, Pow2(k)) == h % Pow2(k) && Slot(h, Pow2(k)) < Pow2(k)
  {
    MaskIsMod(h, k);
  }

  /** Elements of type E with keys of type K. `less` compares keys, and elements with equal keys
      have equal hash values; that is what the callers promise. */
  class Hash<K(!new, ==), E(!new, ==)> {
    const hash: E -> nat
    const less: (E, E) -> bool
    ghost const key: E -> K
    var buckets: seq<seq<E>>
    var elemCnt: nat
    /** The finite map that the table stands for. */
    ghost var contents: map<K, E>

    ghost predicate Consistent()
    {
      && (forall a, b :: !less(a, b) && !less(b, a) <==> key(a) == key(b))
      && (forall a, b :: key(a) == key(b) ==> hash(a) == hash(b))
    }

    /** Every element sits in its bucket. */
    ghost predicate InPlace(b: seq<seq<E>>)
    {
      |b| > 0 && forall i, e :: 0 <= i < |b| && e in b[i] ==> i == Slot(hash(e), |b|)
    }

    /** The buckets hold the elements of the map, each exactly once. */
    ghost predicate Holds(b: seq<seq<E>>, m: map<K, E>)
    {
      && (forall k :: k in m ==> key(m[k]) == k)
      && (forall e :: All(b)[e] == if key(e) in m && m[key(e)] == e then 1 else 0)
    }

    ghost predicate Valid()
      reads this
    {
      && Consistent()
      && (exists k: nat :: k >= 2 && |buckets| == Pow2(k))
      && InPlace(buckets) && Holds(buckets, contents) && elemCnt == |contents|
    }

    ghost function Lookup(m: map<K, E>, e: E): Option<E>
    {
      if key(e) in m then Some(m[key(e)]) else None
    }

    /** A table with its first four buckets. */
    constructor (h: E -> nat, l: (E, E) -> bool, ghost k: E -> K)
      requires forall a, b :: !l(a, b) && !l(b, a) <==> k(a) == k(b)
      requires forall a, b :: k(a) == k(b) ==> h(a) == h(b)
      ensures hash == h && less == l && key == k && Valid() && contents == map[]
    {
      hash, less, key := h, l, k;
      buckets := [[], [], [], []];
      elemCnt := 0;
      contents := map[];
      new;
      assert Pow2(2) == 4;
      AllEmpty(buckets);
    }

    /** find_bucket. */
    method FindBucket(e: E) returns (i: nat)
      requires Valid()
      ensures i == Slot(hash(e), |buckets|) < |buckets|
    {
      ghost var k: nat :| k >= 2 && |buckets| == Pow2(k);
      SlotInRange(hash(e), k);
      i := And(hash(e), |buckets| - 1);
    }

    /** The element with the same key as `e`, if any, is in the bucket `e` belongs in. */
    lemma Present(e: E)
      requires Valid()
      ensures key(e) in contents ==>
                Slot(hash(e), |buckets|) < |buckets| && contents[key(e)] in buckets[Slot(hash(e), |buckets|)]
    {
      hide Slot, Pow2, All;
      if key(e) in contents {
        AllHas(buckets, contents[key(e)]);
        assert contents[key(e)] in All(buckets);
      }
    }

    /** find_elem in the bucket `e` belongs in. */
    method Find(e: E) returns (r: Option<E>)
      requires Valid()
      ensures r == Lookup(contents, e)
      ensures r.Some? ==> Slot(hash(e), |buckets|) < |buckets| && r.value in buckets[Slot(hash(e), |buckets|)]
    {
      hide Slot, Pow2, All;
      var i := FindBucket(e);
      Present(e);
      var j := 0;
      while j < |buckets[i]|
        invariant j <= |buckets[i]| && forall n :: 0 <= n < j ==> key(buckets[i][n]) != key(e)
      {
        var f := buckets[i][j];
        if !less(f, e) && !less(e, f) {
          AllHas(buckets, f);
          return Some(f);
        }
        j := j + 1;
      }
      r := None;
    }
  
    /** An element joins the front of its bucket. */
    lemma PushedFront(b: seq<seq<E>>, e: E)
      requires InPlace(b) && Slot(hash(e), |b|) < |b|
      ensures var s := Slot(hash(e), |b|);
              InPlace(b[s := [e] + b[s]]) && All(b[s := [e] + b[s]]) == All(b) + multiset{e}
    {
      hide Slot, All;
      var s := Slot(hash(e), |b|);
      AllUpdate(b, s, [e] + b[s]);
      var x, y := All(b[s := [e] + b[s]]), multiset(b[s]);
      assert multiset([e] + b[s]) == multiset{e} + y;
      assert x + y == All(b) + multiset{e} + y;
      assert x == x + y - y == All(b) + multiset{e} + y - y;
    }

    /** The elements of one old bucket move to a new table. */
    method MoveBucket(table: seq<seq<E>>, bucket: seq<E>, ghost k: nat) returns (r: seq<seq<E>>)
      requires InPlace(table) && |table| == Pow2(k)
      ensures |r| == |table| && InPlace(r) && All(r) == All(table) + multiset(bucket)
    {
      hide Slot, All, Pow2, InPlace;
      r := table;
      var j := 0;
      while j < |bucket|
        invariant j <= |bucket| && |r| == |table| && InPlace(r) && All(r) == All(table) + multiset(bucket[..j])
      {
        var e := bucket[j];
        SlotInRange(hash(e), k);
        PushedFront(r, e);
        SlotIs(hash(e), |r|);
        var s := And(hash(e), |r| - 1);
        assert bucket[..j + 1] == bucket[..j] + [e];
        r := r[s := [e] + r[s]];
        j := j + 1;
      }
      assert bucket[..j] == bucket;
    }

    /** All elements move to a new table of `n` buckets. */
    method MoveAll(n: nat, ghost k: nat) returns (table: seq<seq<E>>)
      requires n == Pow2(k)
      ensures |table| == n && InPlace(table) && All(table) == All(buckets)
    {
      hide Slot, All, Pow2;
      table := seq(n, _ => []);
      AllEmpty(table);
      assert InPlace(table);
      hide InPlace;
      var i := 0;
      NoneLeft(buckets[..0]);
      while i < |buckets|
        invariant i <= |buckets| && |table| == n && InPlace(table) && All(table) == All(buckets[..i])
      {
        AllSnoc(buckets[..i], buckets[i]);
        assert buckets[..i + 1] == buckets[..i] + [buckets[i]];
        table := MoveBucket(table, buckets[i], k);
        i := i + 1;
      }
      assert buckets[..i] == buckets;
    }

    /** rehash: the elements move to a table of a better size, if it can be allocated. */
    method Rehash(allocOk: bool)
      requires Valid()
      modifies this`buckets
      ensures Valid()
      ensures |buckets| == if allocOk then BestCount(elemCnt) else old(|buckets|)
    {
      hide Slot, All, Pow2, TopPower;
      var n := elemCnt / 2;
      if n < 4 { n := 4; }
      ghost var k := TopPower(n);
      n := PowerBelow(n);
      PowerAtLeast(k);
      if n != |buckets| && allocOk { buckets := MoveAll(n, k); }
    }
  
    /** insert_elem of an element whose key is not in the table. */
    method InsertElem(e: E)
      requires Valid() && key(e) !in contents
      modifies this`buckets, this`elemCnt, this`contents
      ensures Valid() && contents == old(contents)[key(e) := e] && |buckets| == |old(buckets)|
    {
      hide Slot, All, Pow2;
      var i := FindBucket(e);
      PushedFront(buckets, e);
      ghost var was := All(buckets);
      buckets := buckets[i := [e] + buckets[i]];
      elemCnt := elemCnt + 1;
      contents := contents[key(e) := e];
      assert All(buckets) == was + multiset{e};
    }

    /** An element leaves its bucket. */
    lemma TakenOut(b: seq<seq<E>>, i: nat, e: E)
      requires InPlace(b) && i < |b| && e in b[i]
      ensures var r := b[i := Removed(b[i], e)]; InPlace(r) && All(r) == All(b) - multiset{e} && e in All(b)
    {
      hide Slot, All, Removed;
      AllUpdate(b, i, Removed(b[i], e));
      RemovedMultiset(b[i], e);
      DropOne(All(b[i := Removed(b[i], e)]), All(b), multiset(b[i]), multiset(Removed(b[i], e)), e);
    }

    lemma HoldsDrop(b: seq<seq<E>>, r: seq<seq<E>>, m: map<K, E>, e: E)
      requires Holds(b, m) && key(e) in m && m[key(e)] == e && All(r) == All(b) - multiset{e}
      ensures Holds(r, m - {key(e)})
    {
      hide All;
    }

    /** remove_elem of an element that is in the table. */
    method RemoveElem(e: E)
      requires Valid() && key(e) in contents && contents[key(e)] == e
      modifies this`buckets, this`elemCnt, this`contents
      ensures Valid() && contents == old(contents) - {key(e)} && |buckets| == |old(buckets)|
    {
      hide Slot, All, Pow2, Holds, InPlace, Removed, Consistent;
      var i := FindBucket(e);
      Present(e);
      TakenOut(buckets, i, e);
      HoldsDrop(buckets, buckets[i := Removed(buckets[i], e)], contents, e);
      MapDrop(contents, key(e));
      buckets := buckets[i := Removed(buckets[i], e)];
      elemCnt := elemCnt - 1;
      contents := contents - {key(e)};
    }

    /** hash_insert: adds `e` unless its key is there, and returns the element that was there. */
    method Insert(e: E, allocOk: bool) returns (was: Option<E>)
      requires Valid()
      modifies this
      ensures Valid() && was == Lookup(old(contents), e)
      ensures contents == if was.None? then old(contents)[key(e) := e] else old(contents)
    {
      hide InPlace, Holds, Consistent;
      was := Find(e);
      if was.None? { InsertElem(e); }
      Rehash(allocOk);
    }

    /** hash_replace: puts `e` in the place of whatever had its key. */
    method Replace(e: E, allocOk: bool) returns (was: Option<E>)
      requires Valid()
      modifies this
      ensures Valid() && was == Lookup(old(contents), e) && contents == old(contents)[key(e) := e]
    {
      was := Find(e);
      if was.Some? {
        assert key(was.value) == key(e);
        RemoveElem(was.value);
        assert (old(contents) - {key(e)})[key(e) := e] == old(contents)[key(e) := e];
      }
      InsertElem(e);
      Rehash(allocOk);
    }

    /** hash_delete. */
    method Delete(e: E, allocOk: bool) returns (was: Option<E>)
      requires Valid()
      modifies this
      ensures Valid() && was == Lookup(old(contents), e) && contents == old(contents) - {key(e)}
    {
      was := Find(e);
      if was.Some? {
        assert key(was.value) == key(e);
        RemoveElem(was.value);
        Rehash(allocOk);
      } else {
        assert contents - {key(e)} == contents;
      }
    }
  }

  /** hash_init; `room` tells whether the first four buckets could be had. */
  method HashInit<K(!new, ==), E(!new, ==)>(h: E -> nat, l: (E, E) -> bool, ghost k: E -> K, room: bool)
    returns (r: Option<Hash<K, E>>)
    requires forall a, b :: !l(a, b) && !l(b, a) <==> k(a) == k(b)
    requires forall a, b :: k(a) == k(b) ==> h(a) == h(b)
    ensures r.Some? <==> room
    ensures r.Some? ==>
              && fresh(r.value) && r.value.hash == h && r.value.less == l && r.value.key == k
              && r.value.Valid() && r.value.contents == map[]
  {
    r := None;
    if room {
      var t := new Hash(h, l, k);
      r := Some(t);
    }
  }

  lemma {:induction false} RemovedMultiset<E>(s: seq<E>, e: E)
    requires e in s
    ensures multiset(Removed(s, e)) + multiset{e} == multiset(s)
    ensures forall x :: x in Removed(s, e) ==> x in s
  {
    assert s == [s[0]] + s[1..];
    if s[0] != e { RemovedMultiset(s[1..], e); }
  }

  lemma DropOne<E>(r: multiset<E>, a: multiset<E>, b: multiset<E>, c: multiset<E>, e: E)
    requires r + b == a + c && c + multiset{e} == b
    ensures r == a - multiset{e} && e in a
  {
    assert r + (c + multiset{e}) == a + c;
    assert r + multiset{e} + c == a + c;
    assert r + multiset{e} == r + multiset{e} + c - c == a + c - c == a;
  }

  lemma MapDrop<K, E>(m: map<K, E>, k: K)
    requires k in m
    ensures |m| == |m - {k}| + 1
  {
    assert m == (m - {k})[k := m[k]];
  }

  /** The size rehash aims at: about one bucket for two elements, a power of two, at least four. */
  ghost function BestCount(n: nat): nat { Pow2(TopPower(if n / 2 < 4 then 4 else n / 2)) }

  /** With eight elements or more a bucket of a table of that size holds two to four on average. */
  lemma BestLoad(n: nat)
    ensures BestCount(n) >= 4
    ensures if n < 8 then BestCount(n) == 4 else 2 * BestCount(n) <= n < 4 * BestCount(n)
  {
    var x := if n / 2 < 4 then 4 else n / 2;
    FirstPowers(TopPower(x));
  }

  lemma FirstPowers(k: nat)
    ensures if k < 2 then Pow2(k) <= 2 else if k == 2 then Pow2(k) == 4 else Pow2(k) >= 8
  {
    assert Pow2(2) == 4 && Pow2(3) == 8;
    if k > 2 { Pow2LessEq(3, k); }
  }

  lemma SlotIs(h: nat, n: nat)
    requires n > 0
    ensures Slot(h, n) == And(h, n - 1)
  {
  }

  lemma PowerAtLeast(k: nat)
    ensures Pow2(k) >= 4 ==> k >= 2
  {
    assert Pow2(0) == 1 && Pow2(1) == 2;
  }

  lemma {:induction false} AllSnoc<E>(b: seq<seq<E>>, s: seq<E>)
    ensures All(b + [s]) == All(b) + multiset(s)
  {
    if b != [] {
      assert (b + [s])[1..] == b[1..] + [s];
      AllSnoc(b[1..], s);
    } else {
      assert b + [s] == [s];
      assert [s][1..] == [];
    }
  }

  lemma NoneLeft<E>(b: seq<seq<E>>)
    requires b == []
    ensures All(b) == multiset{}
  {
  }
}
