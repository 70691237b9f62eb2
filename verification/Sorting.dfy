/** Heapsort in place and binary search (lib/stdlib.c: heapify, sort, binary_search). */
module Sorting {
  import opened Wrappers
  type Compare<!T> = (T, T) -> int

  /** What the callers promise of a comparison function: strcmp-type results. */
  ghost predicate Consistent<T(!new)>(cmp: Compare<T>) {
    && (forall a, b :: cmp(a, b) > 0 <==> cmp(b, a) < 0)
    && (forall a, b, c :: cmp(a, b) <= 0 && cmp(b, c) <= 0 ==> cmp(a, c) <= 0)
  }

  ghost predicate Sorted<T(!new)>(cmp: Compare<T>, s: seq<T>) {
    forall i, j :: 0 <= i < j < |s| ==> cmp(s[i], s[j]) <= 0
  }

  /** The element with 1-based index `i` is not below its children among the first `n`. */
  ghost predicate Above<T(!new)>(cmp: Compare<T>, s: seq<T>, n: nat, i: nat)
    requires n <= |s|
  {
    && (1 <= i && 2 * i <= n ==> cmp(s[2 * i - 1], s[i - 1]) <= 0)
    && (1 <= i && 2 * i + 1 <= n ==> cmp(s[2 * i], s[i - 1]) <= 0)
  }

  /** Node `j` is in the subtree of node `i`. */
  predicate Under(i: nat, j: nat)
    requires i > 0
  {
    j == i || (j > i && Under(i, j / 2))
  }

  /** The heap condition in the subtree of `i`. */
  ghost predicate HeapUnder<T(!new)>(cmp: Compare<T>, s: seq<T>, n: nat, i: nat)
    requires n <= |s| && i > 0
  {
    forall j: nat :: Under(i, j) ==> Above(cmp, s, n, j)
  }

  /** The same, except at `i` itself. */
  ghost predicate HeapBelow<T(!new)>(cmp: Compare<T>, s: seq<T>, n: nat, i: nat)
    requires n <= |s| && i > 0
  {
    forall j: nat :: Under(i, j) && j != i ==> Above(cmp, s, n, j)
  }

  /** The first `n` elements are permuted, the others stay. */
  ghost predicate Perm<T(!new)>(s: seq<T>, t: seq<T>, n: nat)
    requires n <= |s|
  {
    |t| == |s| && multiset(t[..n]) == multiset(s[..n]) && t[n..] == s[n..]
  }

  function Swapped<T>(s: seq<T>, i: nat, j: nat): (r: seq<T>)
    requires 1 <= i <= |s| && 1 <= j <= |s|
    ensures |r| == |s|
  {
    s[i - 1 := s[j - 1]][j - 1 := s[i - 1]]
  }

  lemma SwapPerm<T(!new)>(s: seq<T>, n: nat, i: nat, j: nat)
    requires n <= |s| && 1 <= i <= n && 1 <= j <= n
    ensures Perm(s, Swapped(s, i, j), n)
  {
    var t := Swapped(s, i, j);
    assert t[..n] == s[..n][i - 1 := s[j - 1]][j - 1 := s[i - 1]];
  }

  lemma PermTrans<T(!new)>(s: seq<T>, t: seq<T>, u: seq<T>, n: nat)
    requires n <= |s| && Perm(s, t, n) && Perm(t, u, n)
    ensures Perm(s, u, n)
  {
  }

  // Subtrees.

  lemma UnderChild(i: nat, j: nat)
    requires i > 0 && Under(i, j)
    ensures Under(i, 2 * j) && Under(i, 2 * j + 1) && j >= i
  {
  }

  lemma {:induction false} UnderTrans(i: nat, j: nat, k: nat)
    requires i > 0 && j > 0 && Under(i, j) && Under(j, k)
    ensures Under(i, k)
    decreases k
  {
    if k != j { UnderTrans(i, j, k / 2); }
  }

  /** A node of the subtree of `i`, other than `i`, is in that of one of its children. */
  lemma {:induction false} UnderSplit(i: nat, j: nat)
    requires i > 0 && Under(i, j) && j != i
    ensures Under(2 * i, j) || Under(2 * i + 1, j)
    decreases j
  {
    if j / 2 != i { UnderSplit(i, j / 2); }
  }

  lemma {:induction false} SiblingsApart(i: nat, j: nat)
    requires i > 0
    ensures !(Under(2 * i, j) && Under(2 * i + 1, j))
    decreases j
  {
    if j > 2 * i + 1 { SiblingsApart(i, j / 2); }
  }

  /** Everything in a subtree is at most its root, when the heap condition holds in it. */
  lemma {:induction false} RootIsMax<T(!new)>(cmp: Compare<T>, s: seq<T>, n: nat, i: nat, j: nat)
    requires Consistent(cmp) && 1 <= i && n <= |s| && HeapUnder(cmp, s, n, i) && Under(i, j) && j <= n
    ensures cmp(s[j - 1], s[i - 1]) <= 0
    decreases j
  {
    if j != i {
      RootIsMax(cmp, s, n, i, j / 2);
      assert Above(cmp, s, n, j / 2);
    }
  }

  // Heapify.

  /** While an element floats down from `i`, only node `p`, where it is now, may be out of order,
      and even its children are in order with its parent. */
  ghost predicate Sifting<T(!new)>(cmp: Compare<T>, s: seq<T>, n: nat, i: nat, p: nat)
    requires n <= |s| && i > 0
  {
    && Under(i, p) && p <= n
    && (forall j: nat :: Under(i, j) && j != p ==> Above(cmp, s, n, j))
    && (p != i ==> GrandOk(cmp, s, n, p))
  }

  ghost predicate GrandOk<T(!new)>(cmp: Compare<T>, s: seq<T>, n: nat, p: nat)
    requires n <= |s|
  {
    && (2 <= p && 2 * p <= n ==> cmp(s[2 * p - 1], s[p / 2 - 1]) <= 0)
    && (2 <= p && 2 * p + 1 <= n ==> cmp(s[2 * p], s[p / 2 - 1]) <= 0)
  }

  /** `m` is the largest of node `p` and its children. */
  ghost predicate Largest<T(!new)>(cmp: Compare<T>, s: seq<T>, n: nat, p: nat, m: nat)
    requires n <= |s| && 1 <= p <= n
  {
    && (m == p || m == 2 * p || m == 2 * p + 1) && m <= n && cmp(s[p - 1], s[m - 1]) <= 0
    && (2 * p <= n ==> cmp(s[2 * p - 1], s[m - 1]) <= 0) && (2 * p + 1 <= n ==> cmp(s[2 * p], s[m - 1]) <= 0)
  }

  /** After the swap with the larger child the element is out of order at most there. */
  lemma SiftStep<T(!new)>(cmp: Compare<T>, s: seq<T>, n: nat, i: nat, p: nat, m: nat)
    requires Consistent(cmp) && n <= |s| && i > 0 && 1 <= p && Sifting(cmp, s, n, i, p) && Largest(cmp, s, n, p, m)
    requires m != p
    ensures Sifting(cmp, Swapped(s, p, m), n, i, m)
  {
    hide Consistent, Above, Under, GrandOk;
    var t := Swapped(s, p, m);
    UnderChild(i, p);
    GrandStep(cmp, s, n, p, m);
    forall j: nat | Under(i, j) && j != m ensures Above(cmp, t, n, j) {
      OtherNode(cmp, s, n, i, p, m, j);
    }
  }

  lemma GrandStep<T(!new)>(cmp: Compare<T>, s: seq<T>, n: nat, p: nat, m: nat)
    requires n <= |s| && 1 <= p <= n && Largest(cmp, s, n, p, m) && m != p && Above(cmp, s, n, m)
    ensures GrandOk(cmp, Swapped(s, p, m), n, m)
  {
  }

  lemma OtherNode<T(!new)>(cmp: Compare<T>, s: seq<T>, n: nat, i: nat, p: nat, m: nat, j: nat)
    requires Consistent(cmp) && n <= |s| && i > 0 && 1 <= p && Sifting(cmp, s, n, i, p) && Largest(cmp, s, n, p, m)
    requires m != p
    requires Under(i, j) && j != m
    ensures Above(cmp, Swapped(s, p, m), n, j)
  {
    hide Consistent;
    if j != p { assert Above(cmp, s, n, j); }
  }

  lemma SiftDone<T(!new)>(cmp: Compare<T>, s: seq<T>, n: nat, i: nat, p: nat)
    requires n <= |s| && i > 0 && 1 <= p && Sifting(cmp, s, n, i, p) && Largest(cmp, s, n, p, p)
    ensures HeapUnder(cmp, s, n, i)
  {
    forall j: nat | Under(i, j) ensures Above(cmp, s, n, j) { }
  }

  /** Outside the subtree of `i`, nothing has changed. */
  ghost predicate Outside<T(!new)>(s: seq<T>, t: seq<T>, i: nat)
    requires i > 0
  {
    |t| == |s| && forall j: nat :: 1 <= j <= |s| && !Under(i, j) ==> t[j - 1] == s[j - 1]
  }

  lemma OutsideStep<T(!new)>(s: seq<T>, t: seq<T>, i: nat, p: nat, m: nat)
    requires i > 0 && Outside(s, t, i) && Under(i, p) && Under(i, m) && 1 <= p <= |s| && 1 <= m <= |s|
    ensures Outside(s, Swapped(t, p, m), i)
  {
  }

  method Heapify<T(!new)>(a: array<T>, first: nat, n: nat, cmp: Compare<T>)
    requires Consistent(cmp) && 1 <= first <= n <= a.Length && HeapBelow(cmp, a[..], n, first)
    modifies a
    ensures HeapUnder(cmp, a[..], n, first) && Perm(old(a[..]), a[..], n) && Outside(old(a[..]), a[..], first)
  {
    hide Consistent, Above, Under, Outside, Perm, GrandOk;
    ghost var s := a[..];
    SiftStart(cmp, s, n, first);
    var i := first;
    while true
      invariant first <= i <= n && Sifting(cmp, a[..], n, first, i) && Perm(s, a[..], n) && Outside(s, a[..], first)
      decreases n - i
    {
      var max := i;
      if 2 * i <= n && cmp(a[2 * i - 1], a[max - 1]) > 0 { max := 2 * i; }
      if 2 * i + 1 <= n && cmp(a[2 * i], a[max - 1]) > 0 { max := 2 * i + 1; }
      ChildrenOrdered(cmp, a[..], n, i, max);
      if max == i {
        SiftDone(cmp, a[..], n, first, i);
        return;
      }
      ghost var t := a[..];
      SiftStep(cmp, t, n, first, i, max);
      SwapPerm(t, n, i, max);
      PermTrans(s, t, Swapped(t, i, max), n);
      UnderChild(first, i);
      OutsideStep(s, t, first, i, max);
      a[i - 1], a[max - 1] := a[max - 1], a[i - 1];
      assert a[..] == Swapped(t, i, max);
      i := max;
    }
  }

  /** The two comparisons of heapify find the largest. */
  lemma ChildrenOrdered<T(!new)>(cmp: Compare<T>, s: seq<T>, n: nat, p: nat, m: nat)
    requires Consistent(cmp) && n <= |s| && 1 <= p <= n
    requires var l := if 2 * p <= n && cmp(s[2 * p - 1], s[p - 1]) > 0 then 2 * p else p;
             m == if 2 * p + 1 <= n && cmp(s[2 * p], s[l - 1]) > 0 then 2 * p + 1 else l
    ensures Largest(cmp, s, n, p, m)
  {
    assert cmp(s[p - 1], s[p - 1]) == 0;
  }

  lemma SiftStart<T(!new)>(cmp: Compare<T>, s: seq<T>, n: nat, i: nat)
    requires n <= |s| && 1 <= i <= n && HeapBelow(cmp, s, n, i)
    ensures Sifting(cmp, s, n, i, i) && Perm(s, s, n) && Outside(s, s, i)
  {
  }

  // Heapsort.

  /** The heap condition at all nodes from `lo` on. */
  ghost predicate HeapFrom<T(!new)>(cmp: Compare<T>, s: seq<T>, n: nat, lo: nat)
    requires n <= |s|
  {
    forall j: nat :: lo <= j && 1 <= j ==> Above(cmp, s, n, j)
  }

  lemma Leaves<T(!new)>(cmp: Compare<T>, s: seq<T>, n: nat)
    requires n <= |s|
    ensures HeapFrom(cmp, s, n, n / 2 + 1)
  {
  }

  lemma {:induction false} UnderBelow(i: nat, j: nat)
    requires i > 0 && Under(i, j)
    ensures j >= i
  {
  }

  lemma BuildStart<T(!new)>(cmp: Compare<T>, s: seq<T>, n: nat, i: nat)
    requires n <= |s| && 1 <= i && HeapFrom(cmp, s, n, i + 1)
    ensures HeapBelow(cmp, s, n, i)
  {
    hide Above;
    forall j: nat | Under(i, j) && j != i ensures Above(cmp, s, n, j) { UnderBelow(i, j); }
  }

  lemma BuildStep<T(!new)>(cmp: Compare<T>, s: seq<T>, t: seq<T>, n: nat, i: nat)
    requires n <= |s| && 1 <= i && HeapFrom(cmp, s, n, i + 1) && Outside(s, t, i) && HeapUnder(cmp, t, n, i)
    ensures HeapFrom(cmp, t, n, i)
  {
    forall j: nat | i <= j ensures Above(cmp, t, n, j) {
      if !Under(i, j) {
        assert Above(cmp, s, n, j);
        assert !Under(i, 2 * j) && !Under(i, 2 * j + 1);
      }
    }
  }

  lemma {:induction false} UnderOne(j: nat)
    requires j >= 1
    ensures Under(1, j)
  {
    if j > 1 { UnderOne(j / 2); }
  }

  /** The first `n` elements are a heap, the rest is sorted and not below any of them. */
  ghost predicate Partly<T(!new)>(cmp: Compare<T>, s: seq<T>, n: nat) {
    && n <= |s| && HeapFrom(cmp, s, n, 1) && Sorted(cmp, s[n..])
    && (forall x, y :: x in s[..n] && y in s[n..] ==> cmp(x, y) <= 0)
  }

  /** Taking the maximum off the heap: the sorted part grows by it. */
  lemma TakeMax<T(!new)>(cmp: Compare<T>, s: seq<T>, n: nat)
    requires Consistent(cmp) && 2 <= n && Partly(cmp, s, n)
    ensures var t := Swapped(s, 1, n);
            && HeapBelow(cmp, t, n - 1, 1) && Sorted(cmp, t[n - 1..])
            && (forall x, y :: x in t[..n - 1] && y in t[n - 1..] ==> cmp(x, y) <= 0)
  {
    hide Above;
    var t := Swapped(s, 1, n);
    HeapRest(cmp, s, n);
    MaxFirst(cmp, s, n);
    assert t[n - 1..] == [s[0]] + s[n..];
    assert s[0] in s[..n];
    forall x | x in t[..n - 1] ensures x in s[..n] { TakenIn(s, n, x); }
  }

  lemma TakenIn<T(!new)>(s: seq<T>, n: nat, x: T)
    requires 2 <= n <= |s| && x in Swapped(s, 1, n)[..n - 1]
    ensures x in s[..n]
  {
    var t := Swapped(s, 1, n);
    var j :| 0 <= j < n - 1 && t[j] == x;
    assert s[..n][if j == 0 then n - 1 else j] == x;
  }

  lemma MaxFirst<T(!new)>(cmp: Compare<T>, s: seq<T>, n: nat)
    requires Consistent(cmp) && 1 <= n <= |s| && HeapFrom(cmp, s, n, 1)
    ensures forall x :: x in s[..n] ==> cmp(x, s[0]) <= 0
  {
    hide Above, Consistent;
    forall j: nat | Under(1, j) ensures Above(cmp, s, n, j) { }
    forall x | x in s[..n] ensures cmp(x, s[0]) <= 0 {
      var j :| 0 <= j < n && s[..n][j] == x;
      UnderOne(j + 1);
      RootIsMax(cmp, s, n, 1, j + 1);
    }
  }

  lemma HeapRest<T(!new)>(cmp: Compare<T>, s: seq<T>, n: nat)
    requires 2 <= n <= |s| && HeapFrom(cmp, s, n, 1)
    ensures HeapBelow(cmp, Swapped(s, 1, n), n - 1, 1)
  {
    var t := Swapped(s, 1, n);
    forall j: nat | Under(1, j) && j != 1 ensures Above(cmp, t, n - 1, j) { assert Above(cmp, s, n, j); }
  }

  /** Restoring the heap does not disturb the sorted part. */
  lemma Restored<T(!new)>(cmp: Compare<T>, t: seq<T>, u: seq<T>, n: nat)
    requires 1 <= n <= |t| && Perm(t, u, n) && HeapUnder(cmp, u, n, 1) && Sorted(cmp, t[n..])
    requires forall x, y :: x in t[..n] && y in t[n..] ==> cmp(x, y) <= 0
    ensures Partly(cmp, u, n)
  {
    hide Above, Sorted;
    forall j: nat | 1 <= j ensures Above(cmp, u, n, j) { UnderOne(j); }
    forall x | x in u[..n] ensures x in t[..n] { assert x in multiset(u[..n]); }
  }

  lemma PermRefl<T(!new)>(s: seq<T>)
    ensures Perm(s, s, |s|)
  {
  }

  /** The first loop of sort. */
  method BuildHeap<T(!new)>(a: array<T>, cmp: Compare<T>)
    requires Consistent(cmp)
    modifies a
    ensures HeapFrom(cmp, a[..], a.Length, 1) && Perm(old(a[..]), a[..], a.Length)
  {
    hide Consistent, Above, Outside, HeapFrom, HeapUnder, HeapBelow, Perm;
    ghost var s := a[..];
    var n := a.Length;
    Leaves(cmp, s, n);
    PermRefl(s);
    var i := n / 2;
    while i > 0
      invariant 0 <= i <= n / 2 && HeapFrom(cmp, a[..], n, i + 1) && Perm(s, a[..], n)
    {
      ghost var t := a[..];
      BuildStart(cmp, t, n, i);
      Heapify(a, i, n, cmp);
      BuildStep(cmp, t, a[..], n, i);
      PermTrans(s, t, a[..], n);
      i := i - 1;
    }
  }

  /** One round of the second loop: the maximum of the heap of `n` goes to its place. */
  method MoveMax<T(!new)>(a: array<T>, n: nat, cmp: Compare<T>)
    requires Consistent(cmp) && 2 <= n <= a.Length && Partly(cmp, a[..], n)
    modifies a
    ensures Partly(cmp, a[..], n - 1) && Perm(old(a[..]), a[..], a.Length)
  {
    hide Consistent, Above, Outside, HeapUnder, HeapBelow, Partly, Sorted, Perm;
    ghost var t := a[..];
    TakeMax(cmp, t, n);
    SwapPerm(t, a.Length, 1, n);
    a[0], a[n - 1] := a[n - 1], a[0];
    ghost var u := a[..];
    assert u == Swapped(t, 1, n);
    Heapify(a, 1, n - 1, cmp);
    Restored(cmp, u, a[..], n - 1);
    PermWider(u, a[..], n - 1, a.Length);
    PermTrans(t, u, a[..], a.Length);
  }

  /** Any array is left sorted, with the same elements. */
  method Sort<T(!new)>(a: array<T>, cmp: Compare<T>)
    requires Consistent(cmp)
    modifies a
    ensures Sorted(cmp, a[..]) && multiset(a[..]) == multiset(old(a[..]))
  {
    hide Consistent, HeapFrom, Partly, Sorted, Perm;
    ghost var s := a[..];
    BuildHeap(a, cmp);
    WholeHeap(cmp, a[..]);
    var i := a.Length;
    while i > 1
      invariant 0 <= i <= a.Length && Partly(cmp, a[..], i) && Perm(s, a[..], a.Length)
    {
      ghost var t := a[..];
      MoveMax(a, i, cmp);
      PermTrans(s, t, a[..], a.Length);
      i := i - 1;
    }
    AllSorted(cmp, a[..], i);
    PermWhole(s, a[..]);
  }

  lemma PermWhole<T(!new)>(s: seq<T>, t: seq<T>)
    requires Perm(s, t, |s|)
    ensures multiset(t) == multiset(s)
  {
    assert s[..|s|] == s && t[..|s|] == t;
  }

  lemma PermWider<T(!new)>(s: seq<T>, t: seq<T>, m: nat, n: nat)
    requires m <= n <= |s| && Perm(s, t, m)
    ensures Perm(s, t, n)
  {
    assert s[..n] == s[..m] + s[m..][..n - m] && t[..n] == t[..m] + t[m..][..n - m];
    assert s[n..] == s[m..][n - m..] && t[n..] == t[m..][n - m..];
  }

  lemma WholeHeap<T(!new)>(cmp: Compare<T>, s: seq<T>)
    requires HeapFrom(cmp, s, |s|, 1)
    ensures Partly(cmp, s, |s|)
  {
  }

  lemma AllSorted<T(!new)>(cmp: Compare<T>, s: seq<T>, n: nat)
    requires Partly(cmp, s, n) && n <= 1
    ensures Sorted(cmp, s)
  {
    hide HeapFrom;
    forall i, j | 0 <= i < j < |s| ensures cmp(s[i], s[j]) <= 0 {
      assert s[j] == s[n..][j - n];
      if i < n { assert s[i] in s[..n] && s[j] in s[n..]; } else { assert s[i] == s[n..][i - n]; }
    }
  }

  // Binary search.

  /** An element of the sorted array equal to the key, if and only if there is one. */
  method BinarySearch<T(!new)>(key: T, a: array<T>, cmp: Compare<T>) returns (r: Option<nat>)
    requires Consistent(cmp) && Sorted(cmp, a[..])
    ensures r.Some? ==> r.value < a.Length && cmp(key, a[r.value]) == 0
    ensures r.None? ==> forall i :: 0 <= i < a.Length ==> cmp(key, a[i]) != 0
  {
    var first, last := 0, a.Length;
    while first < last
      invariant first <= last <= a.Length
      invariant forall i :: 0 <= i < first ==> cmp(key, a[i]) > 0
      invariant forall i :: last <= i < a.Length ==> cmp(key, a[i]) < 0
    {
      var middle := first + (last - first) / 2;
      var c := cmp(key, a[middle]);
      if c < 0 {
        Beyond(cmp, key, a[..], middle);
        last := middle;
      } else if c > 0 {
        Before(cmp, key, a[..], middle);
        first := middle + 1;
      } else {
        return Some(middle);
      }
    }
    r := None;
  }

  lemma Beyond<T(!new)>(cmp: Compare<T>, key: T, s: seq<T>, m: nat)
    requires Consistent(cmp) && Sorted(cmp, s) && m < |s| && cmp(key, s[m]) < 0
    ensures forall i :: m <= i < |s| ==> cmp(key, s[i]) < 0
  {
    forall i | m <= i < |s| ensures cmp(key, s[i]) < 0 {
      assert cmp(s[m], key) > 0;
      assert i > m ==> cmp(s[m], s[i]) <= 0;
    }
  }

  lemma Before<T(!new)>(cmp: Compare<T>, key: T, s: seq<T>, m: nat)
    requires Consistent(cmp) && Sorted(cmp, s) && m < |s| && cmp(key, s[m]) > 0
    ensures forall i :: 0 <= i <= m ==> cmp(key, s[i]) > 0
  {
    forall i | 0 <= i <= m ensures cmp(key, s[i]) > 0 {
      assert i < m ==> cmp(s[i], s[m]) <= 0;
    }
  }
}
