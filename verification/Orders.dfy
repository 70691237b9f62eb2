/** Orders given by a C-style `less` callback: what it means for a sequence to be
    sorted and for one sequence to be a stable rearrangement of another, and the
    insertion sort that serves as the reference for every sort in the kernel. */
module Orders {

  /** `less` is a strict weak order on the elements of `s`. */
  ghost predicate StrictWeak<T>(less: (T, T) -> bool, s: seq<T>) {
    && (forall a, b :: a in s && b in s && less(a, b) ==> !less(b, a))
    && (forall a, b, c :: a in s && b in s && c in s && less(a, c) ==> less(a, b) || less(b, c))
  }

  ghost predicate Distinct<T>(s: seq<T>) {
    forall i, j :: 0 <= i < j < |s| ==> s[i] != s[j]
  }

  /** No later element is less than an earlier one. */
  ghost predicate Sorted<T>(less: (T, T) -> bool, s: seq<T>) {
    forall i, j :: 0 <= i < j < |s| ==> !less(s[j], s[i])
  }

  /** `a` occurs somewhere before `b` in `s`. */
  ghost predicate Before<T>(s: seq<T>, a: T, b: T) {
    exists i, j :: 0 <= i < j < |s| && s[i] == a && s[j] == b
  }

  /** `r` rearranges `s` without ever swapping two elements that were already in order;
      in particular equal elements keep their order. */
  ghost predicate StablePerm<T>(less: (T, T) -> bool, s: seq<T>, r: seq<T>) {
    && multiset(s) == multiset(r)
    && forall i, j :: 0 <= i < j < |s| && !less(s[j], s[i]) ==> Before(r, s[i], s[j])
  }

  /** The first element that `x` is less than, or the end. */
  function InsertIndex<T>(less: (T, T) -> bool, s: seq<T>, x: T): (p: nat)
    ensures p <= |s|
    ensures forall k :: 0 <= k < p ==> !less(x, s[k])
    ensures p < |s| ==> less(x, s[p])
  {
    if s == [] || less(x, s[0]) then 0 else 1 + InsertIndex(less, s[1..], x)
  }

  /** Where `list_insert_ordered` puts an element: before the first element it is less than. */
  function InsertOrdered<T>(less: (T, T) -> bool, s: seq<T>, x: T): (r: seq<T>)
    ensures |r| == |s| + 1
    ensures multiset(r) == multiset(s) + multiset{x}
  {
    var p := InsertIndex(less, s, x);
    assert s == s[..p] + s[p..];
    s[..p] + [x] + s[p..]
  }

  /** Reference sort: insert the elements one by one. */
  function StableSort<T>(less: (T, T) -> bool, s: seq<T>): (r: seq<T>)
    ensures |r| == |s|
    ensures multiset(r) == multiset(s)
  {
    if s == [] then []
    else
      assert s == s[..|s| - 1] + [s[|s| - 1]];
      InsertOrdered(less, StableSort(less, s[..|s| - 1]), s[|s| - 1])
  }

  /** The sequence without the first occurrence of `x`. */
  function Removed<T(==)>(s: seq<T>, x: T): (r: seq<T>)
    ensures forall y :: y in r ==> y in s
    ensures forall y :: y in s && y != x ==> y in r
  {
    if s == [] then [] else if s[0] == x then s[1..] else [s[0]] + Removed(s[1..], x)
  }

  lemma {:induction false} RemovedDistinct<T>(s: seq<T>, x: T)
    requires Distinct(s)
    ensures Distinct(Removed(s, x)) && x !in Removed(s, x)
  {
    if s != [] {
      RemovedDistinct(s[1..], x);
      assert s[0] !in s[1..];
      ConsDistinct(s[0], Removed(s[1..], x));
      assert s[0] == x ==> x !in s[1..];
    }
  }

  lemma ConsDistinct<T>(x: T, r: seq<T>)
    requires Distinct(r) && x !in r
    ensures Distinct([x] + r)
  {
  }

  lemma PermElems<T>(s: seq<T>, r: seq<T>)
    requires multiset(s) == multiset(r)
    ensures |s| == |r|
    ensures forall x :: x in s <==> x in r
  {
    assert |multiset(s)| == |s| && |multiset(r)| == |r|;
    forall x ensures x in s <==> x in r {
      assert x in s <==> x in multiset(s);
      assert x in r <==> x in multiset(r);
    }
  }

  /** A rearrangement of pairwise different elements has pairwise different elements. */
  lemma PermDistinct<T>(s: seq<T>, r: seq<T>)
    requires multiset(s) == multiset(r) && Distinct(s)
    ensures Distinct(r)
  {
    forall i, j | 0 <= i < j < |r| ensures r[i] != r[j] {
      if r[i] == r[j] {
        var x := r[i];
        assert r == r[..i] + [x] + r[i + 1..j] + [x] + r[j + 1..];
        assert multiset(r)[x] >= 2;
        DistinctCount(s, x);
      }
    }
  }

  lemma {:induction false} DistinctCount<T>(s: seq<T>, x: T)
    requires Distinct(s)
    ensures multiset(s)[x] <= 1
  {
    if s != [] {
      assert s == [s[0]] + s[1..];
      DistinctCount(s[1..], x);
      if s[0] == x {
        assert x !in s[1..];
        assert multiset(s[1..])[x] == 0;
      }
    }
  }

  lemma StablePermRefl<T>(less: (T, T) -> bool, s: seq<T>)
    ensures StablePerm(less, s, s)
  {
  }

  lemma StablePermTrans<T>(less: (T, T) -> bool, s: seq<T>, r: seq<T>, t: seq<T>)
    requires StablePerm(less, s, r) && StablePerm(less, r, t)
    ensures StablePerm(less, s, t)
  {
    forall i, j | 0 <= i < j < |s| && !less(s[j], s[i]) ensures Before(t, s[i], s[j]) {
      assert Before(r, s[i], s[j]);
      var i', j' :| 0 <= i' < j' < |r| && r[i'] == s[i] && r[j'] == s[j];
      assert Before(t, r[i'], r[j']);
    }
  }

  /** Element `q` of `s` moved left to position `p`. */
  function MoveLeft<T>(s: seq<T>, p: nat, q: nat): seq<T>
    requires p <= q < |s|
  {
    s[..p] + [s[q]] + s[p..q] + s[q + 1..]
  }

  /** Moving an element left over strictly greater ones is a stable step. */
  lemma MoveLeftStable<T>(less: (T, T) -> bool, s: seq<T>, p: nat, q: nat)
    requires p <= q < |s|
    requires forall x :: p <= x < q ==> less(s[q], s[x])
    ensures StablePerm(less, s, MoveLeft(s, p, q))
  {
    var t := MoveLeft(s, p, q);
    MoveLeftPerm(s, p, q);
    forall i, j | 0 <= i < j < |s| && !less(s[j], s[i]) ensures Before(t, s[i], s[j]) {
      assert t[MovedIndex(p, q, i)] == s[i] && t[MovedIndex(p, q, j)] == s[j];
      assert MovedIndex(p, q, i) < MovedIndex(p, q, j);
    }
  }

  function MovedIndex(p: nat, q: nat, i: nat): nat {
    if i < p || i > q then i else if i == q then p else i + 1
  }

  lemma MoveLeftPerm<T>(s: seq<T>, p: nat, q: nat)
    requires p <= q < |s|
    ensures multiset(MoveLeft(s, p, q)) == multiset(s)
  {
    assert s == s[..p] + s[p..q] + [s[q]] + s[q + 1..];
    SwapMiddle(s[..p], s[p..q], [s[q]], s[q + 1..]);
  }

  lemma SwapMiddle<T>(a: seq<T>, b: seq<T>, c: seq<T>, d: seq<T>)
    ensures multiset(a + b + c + d) == multiset(a + c + b + d)
  {
  }

  /** In a sorted sequence a new element can be compared with its neighbours only. */
  lemma {:induction false} AdjacentSorted<T>(less: (T, T) -> bool, s: seq<T>)
    requires StrictWeak(less, s)
    requires forall i :: 0 < i < |s| ==> !less(s[i], s[i - 1])
    ensures Sorted(less, s)
  {
    if |s| > 1 {
      var s' := s[..|s| - 1];
      AdjacentSorted(less, s');
      var n := |s| - 1;
      forall i | 0 <= i < n ensures !less(s[n], s[i]) {
        if i < n - 1 {
          assert !less(s'[n - 1], s'[i]);
          assert !less(s[n], s[n - 1]);
        }
      }
    }
  }

  /** Ordered insertion into a sorted sequence keeps it sorted and puts the new element
      after its equals. */
  lemma InsertOrderedSorted<T>(less: (T, T) -> bool, s: seq<T>, x: T)
    requires StrictWeak(less, s + [x]) && Sorted(less, s)
    ensures Sorted(less, InsertOrdered(less, s, x))
    ensures StablePerm(less, s + [x], InsertOrdered(less, s, x))
  {
    var p := InsertIndex(less, s, x);
    InsertPoint(less, s, x, p);
    InsertedSorted(less, s, x, p);
    var sx := s + [x];
    assert s[..p] + [x] + s[p..] == MoveLeft(sx, p, |s|);
    MoveLeftStable(less, sx, p, |s|);
  }

  lemma InsertPoint<T>(less: (T, T) -> bool, s: seq<T>, x: T, p: nat)
    requires StrictWeak(less, s + [x]) && Sorted(less, s)
    requires p <= |s| && (p < |s| ==> less(x, s[p]))
    ensures forall k :: p <= k < |s| ==> less(x, s[k]) && !less(s[k], x)
  {
    assert x in s + [x];
    forall k | p <= k < |s| ensures less(x, s[k]) && !less(s[k], x) {
      assert s[p] in s + [x] && s[k] in s + [x];
      assert p < k ==> !less(s[k], s[p]);
    }
  }

  lemma InsertedSorted<T>(less: (T, T) -> bool, s: seq<T>, x: T, p: nat)
    requires Sorted(less, s) && p <= |s|
    requires forall k :: 0 <= k < p ==> !less(x, s[k])
    requires forall k :: p <= k < |s| ==> !less(s[k], x)
    ensures Sorted(less, s[..p] + [x] + s[p..])
  {
    var r := s[..p] + [x] + s[p..];
    forall i, j | 0 <= i < j < |r| ensures !less(r[j], r[i]) {
      assert r[i] == if i < p then s[i] else if i == p then x else s[i - 1];
      assert r[j] == if j < p then s[j] else if j == p then x else s[j - 1];
    }
  }

  /** The reference sort sorts, and is stable. */
  lemma {:induction false} StableSortCorrect<T>(less: (T, T) -> bool, s: seq<T>)
    requires StrictWeak(less, s)
    ensures Sorted(less, StableSort(less, s))
    ensures StablePerm(less, s, StableSort(less, s))
  {
    if s != [] {
      var n := |s| - 1;
      var s', x := s[..n], s[n];
      assert s == s' + [x];
      StableSortCorrect(less, s');
      var r := StableSort(less, s');
      assert StrictWeak(less, r + [x]) by {
        PermElems(s', r);
        assert forall y :: y in r + [x] <==> y in s;
      }
      InsertOrderedSorted(less, r, x);
      StablePermAppend(less, s', r, x);
      StablePermTrans(less, s, r + [x], InsertOrdered(less, r, x));
    }
  }

  lemma StablePermAppend<T>(less: (T, T) -> bool, s: seq<T>, r: seq<T>, x: T)
    requires StablePerm(less, s, r)
    ensures StablePerm(less, s + [x], r + [x])
  {
    PermElems(s, r);
    var sx, rx := s + [x], r + [x];
    forall i, j | 0 <= i < j < |sx| && !less(sx[j], sx[i]) ensures Before(rx, sx[i], sx[j]) {
      if j < |s| {
        assert Before(r, s[i], s[j]);
        var i', j' :| 0 <= i' < j' < |r| && r[i'] == s[i] && r[j'] == s[j];
        assert rx[i'] == sx[i] && rx[j'] == sx[j];
      } else {
        assert s[i] in r;
        var i' :| 0 <= i' < |r| && r[i'] == s[i];
        assert rx[i'] == sx[i] && rx[|r|] == sx[j];
      }
    }
  }

  /** `t` orders every pair of elements of `r` as `r` does. */
  ghost predicate Agrees<T>(r: seq<T>, t: seq<T>) {
    forall i, j :: 0 <= i < j < |r| ==> Before(t, r[i], r[j])
  }

  /** Two arrangements of the same distinct elements that order every pair alike are equal. */
  lemma {:induction false} SameBefore<T>(r: seq<T>, t: seq<T>)
    requires Distinct(r) && Distinct(t) && multiset(r) == multiset(t) && Agrees(r, t)
    ensures r == t
  {
    PermElems(r, t);
    if r != [] {
      SameHead(r, t);
      AgreesTail(r, t);
      PermTail(r);
      PermTail(t);
      SameBefore(r[1..], t[1..]);
    }
  }

  lemma AgreesTail<T>(r: seq<T>, t: seq<T>)
    requires Distinct(r) && |r| == |t| > 0 && r[0] == t[0] && Agrees(r, t)
    ensures Agrees(r[1..], t[1..])
  {
    forall i, j | 0 <= i < j < |r[1..]| ensures Before(t[1..], r[1..][i], r[1..][j]) {
      BeforeTail(t, r[i + 1], r[j + 1]);
    }
  }

  lemma PermTail<T>(r: seq<T>)
    requires r != []
    ensures multiset(r[1..]) == multiset(r) - multiset{r[0]}
  {
    assert r == [r[0]] + r[1..];
  }

  lemma SameHead<T>(r: seq<T>, t: seq<T>)
    requires Distinct(t) && |r| == |t| > 0 && t[0] in r && Agrees(r, t)
    ensures r[0] == t[0]
  {
    var k :| 0 <= k < |r| && r[k] == t[0];
    assert k > 0 ==> Before(t, r[0], r[k]);
  }

  lemma BeforeTail<T>(t: seq<T>, a: T, b: T)
    requires t != [] && a != t[0] && Before(t, a, b)
    ensures Before(t[1..], a, b)
  {
    var i, j :| 0 <= i < j < |t| && t[i] == a && t[j] == b;
    assert t[1..][i - 1] == a && t[1..][j - 1] == b;
  }

  /** A sorted stable rearrangement of distinct elements is unique: it is the reference sort. */
  lemma StableSortUnique<T>(less: (T, T) -> bool, s: seq<T>, r: seq<T>)
    requires StrictWeak(less, s) && Distinct(s)
    requires Sorted(less, r) && StablePerm(less, s, r)
    ensures r == StableSort(less, s)
  {
    var t := StableSort(less, s);
    StableSortCorrect(less, s);
    PermDistinct(s, r);
    PermDistinct(s, t);
    PermElems(s, r);
    forall i, j | 0 <= i < j < |r| ensures Before(t, r[i], r[j]) {
      SortedOrder(less, s, r, t, i, j);
    }
    SameBefore(r, t);
  }

  lemma SortedOrder<T>(less: (T, T) -> bool, s: seq<T>, r: seq<T>, t: seq<T>, i: int, j: int)
    requires StrictWeak(less, s) && Distinct(s) && Distinct(r) && Distinct(t)
    requires Sorted(less, r) && StablePerm(less, s, r)
    requires Sorted(less, t) && StablePerm(less, s, t)
    requires 0 <= i < j < |r|
    ensures Before(t, r[i], r[j])
  {
    PermElems(s, r);
    PermElems(s, t);
    var a, b := r[i], r[j];
    assert a in s && b in s && a in t && b in t;
    var i', j' :| 0 <= i' < |s| && s[i'] == a && 0 <= j' < |s| && s[j'] == b;
    if i' < j' {
      assert Before(t, s[i'], s[j']);
    } else {
      assert i' != j';
      assert !less(a, b) ==> Before(r, s[j'], s[i']);
      assert less(a, b);
      var m, n :| 0 <= m < |t| && t[m] == a && 0 <= n < |t| && t[n] == b;
      assert m != n;
    }
  }
}
