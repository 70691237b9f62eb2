/** The kernel's intrusive doubly linked list (lib/kernel/list.c): list elements carry
    `prev` and `next` links that every operation rewrites in place. */
module IntrusiveList {
  import opened Wrappers
  import opened Orders

  /** struct list_elem. `owner` is the structure it is part of, as list_entry finds it; the head
      and tail of a list are part of none. */
  class Elem {
    const owner: Option<nat>
    var prev: Elem?
    var next: Elem?

    constructor (o: Option<nat>)
      ensures owner == o && prev == null && next == null
    {
      owner, prev, next := o, null, null;
    }
  }

  /** Neighbours in `s` are linked to each other, in both directions. */
  ghost predicate Linked(s: seq<Elem>)
    reads s
  {
    && Distinct(s)
    && (forall i {:trigger s[i].next} :: 0 <= i < |s| - 1 ==> s[i].next == s[i + 1])
    && (forall i {:trigger s[i].prev} :: 0 < i < |s| ==> s[i].prev == s[i - 1])
  }

  class List {
    const head: Elem
    const tail: Elem
    /** The whole chain from `head` to `tail`, both included. */
    ghost var nodes: seq<Elem>
    ghost var repr: set<Elem>

    ghost predicate Valid()
      reads this, repr
    {
      && (forall x :: x in nodes ==> x in repr)
      && |nodes| >= 2 && nodes[0] == head && nodes[|nodes| - 1] == tail
      && head.prev == null && tail.next == null
      && Linked(nodes)
    }

    /** The interior elements: what the list contains. */
    ghost function Elems(): (s: seq<Elem>)
      requires Valid()
      reads this, repr
    {
      nodes[1..|nodes| - 1]
    }

    constructor ()
      ensures Valid() && Elems() == [] && fresh(repr) && repr == {head, tail} && head.owner.None? && tail.owner.None?
    {
      head := new Elem(None);
      tail := new Elem(None);
      nodes := [head, tail];
      repr := {head, tail};
      new;
      head.next := tail;
      tail.prev := head;
    }

    /** list_insert: ELEM goes just before BEFORE, which is at index `p` of the chain. */
    method Insert(before: Elem, elem: Elem, ghost p: nat)
      requires Valid() && 1 <= p < |nodes| && nodes[p] == before && elem !in nodes
      modifies this, repr, elem
      ensures Valid() && repr == old(repr) + {elem}
      ensures nodes == old(nodes[..p] + [elem] + nodes[p..])
      ensures Elems() == old(Elems()[..p - 1] + [elem] + Elems()[p - 1..])
    {
      // The four link assignments are those of list_splice with FIRST == LAST == ELEM.
      WithOne(nodes, p, elem);
      hide Linked, Disjoint;
      PasteRange(before, elem, elem, nodes, p, [elem]);
      nodes := nodes[..p] + [elem] + nodes[p..];
      repr := repr + {elem};
    }

    /** list_remove: unlinks ELEM, which is at index `p`, and returns its successor. */
    method Remove(elem: Elem, ghost p: nat) returns (after: Elem)
      requires Valid() && 1 <= p < |nodes| - 1 && nodes[p] == elem
      modifies this, repr
      ensures Valid() && repr == old(repr) - {elem}
      ensures nodes == old(nodes[..p] + nodes[p + 1..])
      ensures Elems() == old(Elems()[..p - 1] + Elems()[p..])
      ensures after == nodes[p]
    {
      // The two link assignments are those of list_splice with FIRST == LAST == ELEM.
      after := elem.next;
      WithoutOne(nodes, p);
      hide Linked, Disjoint, Without;
      CutRange(elem, elem, nodes, p, p + 1);
      nodes := Without(nodes, p, p + 1);
      repr := repr - {elem};
    }

    /** list_insert_ordered: before the first element that ELEM is less than. */
    method InsertInOrder(elem: Elem, less: (Elem, Elem) -> bool)
      requires Valid() && elem !in nodes
      modifies this, repr, elem
      ensures Valid() && repr == old(repr) + {elem}
      ensures Elems() == InsertOrdered(less, old(Elems()), elem)
    {
      var e := head.next;
      ghost var p := 1;
      while e != tail
        invariant 1 <= p < |nodes| && e == nodes[p]
        invariant forall k :: 0 <= k < p - 1 ==> !less(elem, Elems()[k])
        decreases |nodes| - p
      {
        if less(elem, e) { break; }
        e := e.next;
        p := p + 1;
      }
      assert p - 1 == InsertIndex(less, Elems(), elem) by {
        assert p < |nodes| - 1 ==> Elems()[p - 1] == e;
      }
      Insert(e, elem, p);
    }

    /** list_pop_front. */
    method PopFront() returns (front: Elem)
      requires Valid() && Elems() != []
      modifies this, repr
      ensures front == old(Elems()[0])
      ensures Valid() && repr == old(repr) - {front} && Elems() == old(Elems()[1..])
    {
      front := head.next;
      var _ := Remove(front, 1);
    }

    /** list_front. */
    method Front() returns (front: Elem)
      requires Valid() && Elems() != []
      ensures front == Elems()[0]
    {
      front := head.next;
    }

    /** list_empty. */
    method IsEmpty() returns (b: bool)
      requires Valid()
      ensures b <==> Elems() == []
    {
      b := head.next == tail;
    }

    /** list_size. */
    method Size() returns (n: nat)
      requires Valid()
      ensures n == |Elems()|
    {
      var e := head.next;
      n := 0;
      while e != tail
        invariant n < |nodes| - 1 && e == nodes[n + 1]
        decreases |nodes| - n
      {
        n := n + 1;
        e := e.next;
      }
    }
  }

  ghost predicate Disjoint<T>(a: seq<T>, b: seq<T>) {
    forall i, j :: 0 <= i < |a| && 0 <= j < |b| ==> a[i] != b[j]
  }

  lemma WithOne<T>(s: seq<T>, p: nat, x: T)
    requires 1 <= p < |s|
    ensures var t := s[..p] + [x] + s[p..];
            && |t| == |s| + 1 && t[0] == s[0] && t[|t| - 1] == s[|s| - 1] && (forall y :: y in t ==> y in s || y == x)
            && t[1..|t| - 1] == s[1..|s| - 1][..p - 1] + [x] + s[1..|s| - 1][p - 1..]
  {
  }

  lemma WithoutOne<T>(s: seq<T>, p: nat)
    requires Distinct(s) && 1 <= p < |s| - 1
    ensures var t := Without(s, p, p + 1);
            && t == s[..p] + s[p + 1..] && |t| == |s| - 1 && t[0] == s[0] && t[|t| - 1] == s[|s| - 1]
            && t[p] == s[p + 1]
            && (forall x :: x in t ==> x in s && x != s[p])
            && t[1..|t| - 1] == s[1..|s| - 1][..p - 1] + s[1..|s| - 1][p..]
  {
    var t := Without(s, p, p + 1);
    forall x | x in t ensures x in s && x != s[p] {
      var i :| 0 <= i < |t| && t[i] == x;
      assert x == s[if i < p then i else i + 1];
    }
  }

  /** Two chains whose ends are linked make one chain. */
  lemma JoinLinked(a: seq<Elem>, b: seq<Elem>)
    requires Linked(a) && Linked(b) && a != [] && b != []
    requires a[|a| - 1].next == b[0] && b[0].prev == a[|a| - 1]
    requires Disjoint(a, b)
    ensures Linked(a + b)
  {
  }

  /** First half of list_splice: takes `s[q..r]`, from FIRST through LAST, out of the chain. */
  method CutRange(first: Elem, last: Elem, ghost s: seq<Elem>, ghost q: nat, ghost r: nat)
    requires Linked(s) && 1 <= q < r < |s| && first == s[q] && last == s[r - 1]
    modifies s
    ensures Linked(Without(s, q, r)) && Linked(s[q..r]) && Disjoint(Without(s, q, r), s[q..r])
    ensures s[0].prev == old(s[0].prev) && s[|s| - 1].next == old(s[|s| - 1].next)
  {
    first.prev.next := last.next;
    last.next.prev := first.prev;
    JoinLinked(s[..q], s[r..]);
  }

  /** Second half of list_splice: links the range `m`, from FIRST through LAST, into the chain
      `t` just before BEFORE. */
  method PasteRange(before: Elem, first: Elem, last: Elem, ghost t: seq<Elem>, ghost p: nat, ghost m: seq<Elem>)
    requires Linked(t) && Linked(m) && m != [] && 1 <= p < |t| && before == t[p]
    requires first == m[0] && last == m[|m| - 1]
    requires Disjoint(t, m)
    modifies t, m
    ensures Linked(t[..p] + m + t[p..])
    ensures t[0].prev == old(t[0].prev) && t[|t| - 1].next == old(t[|t| - 1].next)
  {
    ghost var a, b := t[..p], t[p..];
    assert a[|a| - 1] == t[p - 1] && b[0] == t[p];
    first.prev := before.prev;
    last.next := before;
    before.prev.next := first;
    before.prev := last;
    assert Linked(a) && Linked(b) && Linked(m);
    JoinLinked(a, m);
    JoinLinked(a + m, b);
  }

  /** The chain `s` without the elements from index `q` up to `r`. */
  ghost function Without<T>(s: seq<T>, q: nat, r: nat): seq<T>
    requires q <= r <= |s|
  {
    s[..q] + s[r..]
  }

  /** The chain `s` with the slice `q..r` moved before index `p` of the rest. */
  ghost function Spliced<T>(s: seq<T>, p: nat, q: nat, r: nat): seq<T>
    requires q <= r <= |s| && p <= |Without(s, q, r)|
  {
    Without(s, q, r)[..p] + s[q..r] + Without(s, q, r)[p..]
  }

  lemma SplicedEnds<T>(s: seq<T>, p: nat, q: nat, r: nat)
    requires 1 <= q <= r < |s| && 1 <= p < |Without(s, q, r)|
    ensures |Spliced(s, p, q, r)| == |s|
    ensures Spliced(s, p, q, r)[0] == Without(s, q, r)[0] == s[0]
    ensures var t := Without(s, q, r); Spliced(s, p, q, r)[|s| - 1] == t[|t| - 1] == s[|s| - 1]
    ensures forall x :: x in Spliced(s, p, q, r) ==> x in s
    ensures q == r ==> Spliced(s, p, q, r) == s
  {
    var t := Without(s, q, r);
    assert forall x :: x in t ==> x in s;
    assert forall x :: x in t[..p] ==> x in t;
    assert forall x :: x in t[p..] ==> x in t;
  }

  /** list_splice inside one list: FIRST up to LAST (exclusive), the slice `q..r` of the chain,
      moves just before BEFORE, which is at index `p` of the rest of the chain. */
  method Splice(before: Elem, first: Elem, last: Elem, ghost l: List, ghost p: nat, ghost q: nat, ghost r: nat)
    requires l.Valid() && 1 <= q <= r < |l.nodes| && first == l.nodes[q] && last == l.nodes[r]
    requires 1 <= p < |Without(l.nodes, q, r)| && before == Without(l.nodes, q, r)[p]
    modifies l, l.repr
    ensures l.Valid() && l.repr == old(l.repr)
    ensures l.nodes == old(Spliced(l.nodes, p, q, r))
  {
    ghost var s := l.nodes;
    SplicedEnds(s, p, q, r);
    if first == last {
      return;
    }
    var last' := last.prev;
    assert last' == s[r - 1];
    hide Linked, Disjoint, Without;
    CutRange(first, last', s, q, r);
    PasteRange(before, first, last', Without(s, q, r), p, s[q..r]);
    l.nodes := Spliced(s, p, q, r);
  }

  /** The range `s[q..r]`, from FIRST through LAST, moves from one chain into another. */
  method MoveRange(before: Elem, first: Elem, last: Elem, ghost d: seq<Elem>, ghost p: nat, ghost s: seq<Elem>,
                   ghost q: nat, ghost r: nat)
    requires Linked(s) && Linked(d) && forall x :: x in d ==> x !in s
    requires 1 <= q < r < |s| && first == s[q] && last == s[r - 1] && 1 <= p < |d| && before == d[p]
    modifies s, d
    ensures Linked(Without(s, q, r)) && Linked(d[..p] + s[q..r] + d[p..])
    ensures s[0].prev == old(s[0].prev) && s[|s| - 1].next == old(s[|s| - 1].next)
    ensures d[0].prev == old(d[0].prev) && d[|d| - 1].next == old(d[|d| - 1].next)
  {
    AcrossEnds(d, s, p, q, r);
    ghost var t, m := Without(s, q, r), s[q..r];
    hide Disjoint, Without;
    CutRange(first, last, s, q, r);
    assert forall i :: 0 <= i < |d| ==> d[i] in d;
    assert Linked(d);
    PasteRange(before, first, last, d, p, m);
    assert forall i :: 0 <= i < |t| ==> t[i] in t && t[i] !in d && t[i] !in m;
  }

  /** list_splice from one list into another. */
  method SpliceAcross(before: Elem, first: Elem, last: Elem, ghost to: List, ghost from: List,
                      ghost p: nat, ghost q: nat, ghost r: nat)
    requires to.Valid() && from.Valid() && to != from && to.repr !! from.repr
    requires 1 <= q <= r < |from.nodes| && first == from.nodes[q] && last == from.nodes[r]
    requires 1 <= p < |to.nodes| && before == to.nodes[p]
    modifies to, to.repr, from, from.repr
    ensures to.Valid() && from.Valid() && from.nodes == old(Without(from.nodes, q, r))
    ensures to.nodes == old(to.nodes[..p] + from.nodes[q..r] + to.nodes[p..])
    ensures to.repr + from.repr == old(to.repr + from.repr) && to.repr !! from.repr
  {
    ghost var s, d := from.nodes, to.nodes;
    ghost var moved := set x | x in s[q..r];
    if first == last {
      assert Without(s, q, r) == s && d[..p] + s[q..r] + d[p..] == d;
      return;
    }
    var last' := last.prev;
    assert last' == s[r - 1];
    AcrossEnds(d, s, p, q, r);
    hide Linked, Disjoint, Without;
    MoveRange(before, first, last', d, p, s, q, r);
    from.nodes, to.nodes := Without(s, q, r), d[..p] + s[q..r] + d[p..];
    from.repr, to.repr := from.repr - moved, to.repr + moved;
  }

  lemma AcrossEnds<T>(d: seq<T>, s: seq<T>, p: nat, q: nat, r: nat)
    requires Distinct(s) && 1 <= q < r < |s| && 1 <= p < |d| && forall x :: x in d ==> x !in s
    ensures var t := Without(s, q, r);
            && |t| >= 2 && t[0] == s[0] && t[|t| - 1] == s[|s| - 1] && Disjoint(d, s[q..r])
            && (forall x :: x in t ==> x in s && x !in s[q..r])
    ensures var u := d[..p] + s[q..r] + d[p..];
            && |u| >= 2 && u[0] == d[0] && u[|u| - 1] == d[|d| - 1] && (forall x :: x in u ==> x in d || x in s[q..r])
  {
    var t := Without(s, q, r);
    forall i, j | 0 <= i < |d| && 0 <= j < r - q ensures d[i] != s[q..r][j] {
      assert d[i] in d && s[q..r][j] == s[q + j] && s[q + j] in s;
    }
    forall x | x in t ensures x in s && x !in s[q..r] {
      var i :| 0 <= i < |t| && t[i] == x;
      assert x == s[if i < q then i else i + (r - q)];
    }
  }

  /** Number of maximal nondecreasing runs of `s`: one, plus one per descent. */
  ghost function Runs<T>(less: (T, T) -> bool, s: seq<T>): nat {
    if |s| < 2 then |s|
    else Runs(less, s[1..]) + if less(s[1], s[0]) then 1 else 0
  }

  lemma {:induction false} RunsConcat<T>(less: (T, T) -> bool, a: seq<T>, b: seq<T>)
    requires a != [] && b != []
    ensures Runs(less, a + b) ==
            Runs(less, a) + Runs(less, b) - if less(b[0], a[|a| - 1]) then 0 else 1
  {
    var s := a + b;
    assert s[1..] == a[1..] + b;
    if |a| > 1 {
      RunsConcat(less, a[1..], b);
    } else {
      assert s[1..] == b;
    }
  }

  lemma {:induction false} RunsSorted<T>(less: (T, T) -> bool, s: seq<T>)
    requires s != []
    ensures Runs(less, s) >= 1
    ensures Runs(less, s) == 1 <==> forall i :: 0 < i < |s| ==> !less(s[i], s[i - 1])
  {
    if |s| > 1 {
      RunsSorted(less, s[1..]);
      if Runs(less, s) == 1 {
        forall i | 0 < i < |s| ensures !less(s[i], s[i - 1]) {
          if i > 1 { assert !less(s[1..][i - 1], s[1..][i - 2]); }
        }
      } else if !less(s[1], s[0]) {
        var i :| 0 < i < |s[1..]| && less(s[1..][i], s[1..][i - 1]);
        assert less(s[i + 1], s[i]);
      }
    }
  }

  /** find_end_of_run: the end (exclusive) of the run that starts at A, not after B. */
  method FindEndOfRun(a: Elem, b: Elem, less: (Elem, Elem) -> bool, ghost l: List, ghost i: nat, ghost j: nat)
    returns (end: Elem, ghost k: nat)
    requires l.Valid() && 1 <= i < j < |l.nodes| && a == l.nodes[i] && b == l.nodes[j]
    ensures i < k <= j && end == l.nodes[k]
    ensures forall x :: i < x < k ==> !less(l.nodes[x], l.nodes[x - 1])
    ensures k < j ==> less(l.nodes[k], l.nodes[k - 1])
    ensures end in l.nodes[i + 1..j + 1] && (end != b ==> less(end, end.prev))
  {
    end := a.next;
    k := i + 1;
    while end != b && !less(end, end.prev)
      invariant i < k <= j && end == l.nodes[k]
      invariant forall x :: i < x < k ==> !less(l.nodes[x], l.nodes[x - 1])
      decreases j - k
    {
      end := end.next;
      k := k + 1;
    }
  }

  /** A merge in progress on `s[i..k]`: everything before `a` is in its final place, and the
      rest of the first range, `a..b`, and of the second, `b..k`, could each follow it. */
  ghost predicate Merging<T>(less: (T, T) -> bool, s: seq<T>, i: nat, a: nat, b: nat, k: nat) {
    && i <= a <= b <= k < |s|
    && (forall x, y :: i <= x < y < b ==> !less(s[y], s[x]))
    && (forall x, y :: b <= x < y < k ==> !less(s[y], s[x]))
    && (forall x, y :: i <= x < a && b <= y < k ==> !less(s[y], s[x]))
  }

  lemma MergeKeep<T>(less: (T, T) -> bool, s: seq<T>, i: nat, a: nat, b: nat, k: nat, dom: seq<T>)
    requires StrictWeak(less, dom) && Merging(less, s, i, a, b, k) && a < b < k
    requires forall x :: i <= x < k ==> s[x] in dom
    requires !less(s[b], s[a])
    ensures Merging(less, s, i, a + 1, b, k)
  {
    forall y | b <= y < k ensures !less(s[y], s[a]) {
      assert b < y ==> !less(s[y], s[b]);
      assert s[y] in dom && s[b] in dom && s[a] in dom;
    }
  }

  lemma MergeMove<T>(less: (T, T) -> bool, s: seq<T>, i: nat, a: nat, b: nat, k: nat, dom: seq<T>)
    requires StrictWeak(less, dom) && Merging(less, s, i, a, b, k) && a < b < k
    requires forall x :: i <= x < k ==> s[x] in dom
    requires less(s[b], s[a])
    ensures Merging(less, MoveLeft(s, a, b), i, a + 1, b + 1, k)
    ensures StablePerm(less, s, MoveLeft(s, a, b))
  {
    forall x | a <= x < b ensures less(s[b], s[x]) && !less(s[x], s[b]) {
      assert a < x ==> !less(s[x], s[a]);
      assert s[x] in dom && s[b] in dom && s[a] in dom;
    }
    MoveLeftStable(less, s, a, b);
    MovedMerging(less, s, i, a, b, k);
  }

  lemma MovedMerging<T>(less: (T, T) -> bool, s: seq<T>, i: nat, a: nat, b: nat, k: nat)
    requires Merging(less, s, i, a, b, k) && a < b < k
    requires forall x :: a <= x < b ==> !less(s[x], s[b])
    ensures Merging(less, MoveLeft(s, a, b), i, a + 1, b + 1, k)
  {
    var t := MoveLeft(s, a, b);
    MoveLeftAt(s, a, b);
    assert t[a] == s[b];
    assert forall x :: b < x < k ==> t[x] == s[x];
    forall x, y | i <= x < y < b + 1 ensures !less(t[y], t[x]) {
      assert t[x] == if x < a then s[x] else if x == a then s[b] else s[x - 1];
      assert t[y] == if y < a then s[y] else if y == a then s[b] else s[y - 1];
    }
  }

  lemma MoveLeftAt<T>(s: seq<T>, a: nat, b: nat)
    requires a <= b < |s|
    ensures forall x :: 0 <= x < |s| ==>
              MoveLeft(s, a, b)[x] == if x < a || x > b then s[x] else if x == a then s[b] else s[x - 1]
  {
    var u := s[..a] + [s[b]] + s[a..b];
    assert MoveLeft(s, a, b) == u + s[b + 1..];
    assert forall x :: 0 <= x <= b ==> u[x] == if x < a then s[x] else if x == a then s[b] else s[x - 1];
  }

  /** What inplace_merge keeps true between two steps, starting from `s0`. */
  ghost predicate MergeInv<T>(less: (T, T) -> bool, s0: seq<T>, s: seq<T>,
                              i: nat, a: nat, b: nat, k: nat, dom: seq<T>) {
    && |s| == |s0|
    && Merging(less, s, i, a, b, k)
    && StablePerm(less, s0, s)
    && s[..i] == s0[..i] && s[k..] == s0[k..]
    && forall x :: i <= x < k ==> s[x] in dom
  }

  lemma MergeInvMove<T>(less: (T, T) -> bool, s0: seq<T>, s: seq<T>,
                        i: nat, a: nat, b: nat, k: nat, dom: seq<T>)
    requires StrictWeak(less, dom) && MergeInv(less, s0, s, i, a, b, k, dom)
    requires a < b < k && less(s[b], s[a])
    ensures MergeInv(less, s0, MoveLeft(s, a, b), i, a + 1, b + 1, k, dom)
  {
    hide StrictWeak, StablePerm, Merging, MoveLeft;
    MergeBounds(less, s, i, a, b, k);
    var t := MoveLeft(s, a, b);
    MergeMove(less, s, i, a, b, k, dom);
    StablePermTrans(less, s0, s, t);
    MovedWithin(s, i, a, b, k, dom);
  }

  lemma MergeBounds<T>(less: (T, T) -> bool, s: seq<T>, i: nat, a: nat, b: nat, k: nat)
    requires Merging(less, s, i, a, b, k)
    ensures i <= a <= b <= k < |s|
  {
  }

  lemma MovedWithin<T>(s: seq<T>, i: nat, a: nat, b: nat, k: nat, dom: seq<T>)
    requires i <= a < b < k < |s| && forall x :: i <= x < k ==> s[x] in dom
    ensures var t := MoveLeft(s, a, b);
            && |t| == |s| && t[..i] == s[..i] && t[k..] == s[k..] && (forall x :: i <= x < k ==> t[x] in dom)
  {
    var t := MoveLeft(s, a, b);
    MoveLeftAt(s, a, b);
    forall x | i <= x < k ensures t[x] in dom {
      assert t[x] == s[x] || t[x] == s[b] || t[x] == s[x - 1];
    }
  }

  /** inplace_merge: merges the sorted ranges A0..A1B0 and A1B0..B1 by moving elements of the
      second range left, one at a time. */
  method InplaceMerge(a0: Elem, a1b0: Elem, b1: Elem, less: (Elem, Elem) -> bool,
                      ghost l: List, ghost i: nat, ghost j: nat, ghost k: nat, ghost dom: seq<Elem>)
    requires l.Valid() && 1 <= i < j < k < |l.nodes|
    requires a0 == l.nodes[i] && a1b0 == l.nodes[j] && b1 == l.nodes[k]
    requires StrictWeak(less, dom) && MergeInv(less, l.nodes, l.nodes, i, i, j, k, dom)
    modifies l, l.repr
    ensures l.Valid() && l.repr == old(l.repr)
    ensures MergeInv(less, old(l.nodes), l.nodes, i, i, k, k, dom)
    ensures Sorted(less, l.nodes[i..k])
  {
    var a0, a1b0 := a0, a1b0;
    hide MergeInv, StrictWeak, Sorted;
    ghost var a, b := i, j;
    ghost var s0 := l.nodes;
    while a0 != a1b0 && a1b0 != b1
      invariant l.Valid() && l.repr == old(l.repr)
      invariant i <= a <= b <= k < |l.nodes| && |l.nodes| == |s0|
      invariant MergeInv(less, s0, l.nodes, i, a, b, k, dom)
      invariant a0 == l.nodes[a] && a1b0 == l.nodes[b] && b1 == l.nodes[k]
      decreases k - b, b - a
    {
      ghost var s := l.nodes;
      if !less(a1b0, a0) {
        MergeInvKeep(less, s0, s, i, a, b, k, dom);
        a0 := a0.next;
        a := a + 1;
      } else {
        MergeInvMove(less, s0, s, i, a, b, k, dom);
        a1b0 := a1b0.next;
        MoveOne(a0, a1b0.prev, a1b0, l, a, b);
        a := a + 1;
        b := b + 1;
      }
    }
    MergeDone(less, s0, l.nodes, i, a, b, k, dom);
  }

  lemma MergeDone<T>(less: (T, T) -> bool, s0: seq<T>, s: seq<T>,
                     i: nat, a: nat, b: nat, k: nat, dom: seq<T>)
    requires MergeInv(less, s0, s, i, a, b, k, dom) && (a == b || b == k)
    ensures MergeInv(less, s0, s, i, i, k, k, dom)
    ensures Sorted(less, s[i..k])
  {
    assert Merging(less, s, i, a, b, k);
    assert forall x, y :: i <= x < y < k ==> !less(s[y], s[x]);
    var r := s[i..k];
    forall x, y | 0 <= x < y < |r| ensures !less(r[y], r[x]) {
      assert r[x] == s[i + x] && r[y] == s[i + y];
    }
  }

  lemma MergeInvKeep<T>(less: (T, T) -> bool, s0: seq<T>, s: seq<T>,
                        i: nat, a: nat, b: nat, k: nat, dom: seq<T>)
    requires StrictWeak(less, dom) && MergeInv(less, s0, s, i, a, b, k, dom)
    requires a < b < k && !less(s[b], s[a])
    ensures MergeInv(less, s0, s, i, a + 1, b, k, dom)
  {
    MergeKeep(less, s, i, a, b, k, dom);
  }

  method MoveOne(before: Elem, first: Elem, last: Elem, ghost l: List, ghost a: nat, ghost b: nat)
    requires l.Valid() && 1 <= a < b < |l.nodes| - 1
    requires before == l.nodes[a] && first == l.nodes[b] && last == l.nodes[b + 1]
    modifies l, l.repr
    ensures l.Valid() && l.repr == old(l.repr) && l.nodes == old(MoveLeft(l.nodes, a, b))
  {
    ghost var s := l.nodes;
    assert Without(s, b, b + 1)[a] == s[a];
    Splice(before, first, last, l, a, b, b + 1);
    assert l.nodes == MoveLeft(s, a, b);
  }

  ghost function Interior<T>(s: seq<T>): seq<T>
    requires |s| >= 2
  {
    s[1..|s| - 1]
  }

  /** One pass of list_sort has dealt with the chain up to index `i` and written `cnt` runs;
      `s0` is the chain at the start of the pass. Each run written used up two. */
  ghost predicate PassInv<T>(less: (T, T) -> bool, s0: seq<T>, s: seq<T>, i: nat, cnt: nat, dom: seq<T>) {
    && 1 <= i < |s| == |s0|
    && StablePerm(less, s0, s)
    && (forall x :: 0 < x < |s| - 1 ==> s[x] in dom)
    && Runs(less, s[1..i]) <= cnt
    && 2 * cnt + Runs(less, s[i..|s| - 1]) <= Runs(less, Interior(s0))
  }

  /** What a finished pass has achieved. */
  ghost predicate PassDone<T>(less: (T, T) -> bool, s0: seq<T>, s: seq<T>, cnt: nat, dom: seq<T>) {
    && |s| == |s0| >= 2
    && StablePerm(less, s0, s)
    && (forall x :: 0 < x < |s| - 1 ==> s[x] in dom)
    && Runs(less, Interior(s)) <= cnt
    && (cnt > 1 ==> cnt < Runs(less, Interior(s0)))
  }

  lemma PassStart<T>(less: (T, T) -> bool, s: seq<T>, dom: seq<T>)
    requires |s| >= 2 && forall x :: 0 < x < |s| - 1 ==> s[x] in dom
    ensures PassInv(less, s, s, 1, 0, dom)
  {
    StablePermRefl(less, s);
  }

  /** Two adjacent runs `i..j` and `j..k`: the range they cover counts as two. */
  lemma TwoRuns<T>(less: (T, T) -> bool, s: seq<T>, i: nat, j: nat, k: nat, n: nat)
    requires i < j < k <= n <= |s|
    requires forall x :: i < x < j ==> !less(s[x], s[x - 1])
    requires forall x :: j < x < k ==> !less(s[x], s[x - 1])
    requires less(s[j], s[j - 1]) && (k < n ==> less(s[k], s[k - 1]))
    ensures Runs(less, s[i..n]) == 2 + Runs(less, s[k..n])
  {
    LeadingRun(less, s, i, j, n);
    LeadingRun(less, s, j, k, n);
  }

  lemma LeadingRun<T>(less: (T, T) -> bool, s: seq<T>, i: nat, j: nat, n: nat)
    requires i < j <= n <= |s|
    requires forall x :: i < x < j ==> !less(s[x], s[x - 1])
    requires j < n ==> less(s[j], s[j - 1])
    ensures Runs(less, s[i..n]) == 1 + Runs(less, s[j..n])
  {
    var a, b := s[i..j], s[j..n];
    assert s[i..n] == a + b;
    forall x | 0 < x < |a| ensures !less(a[x], a[x - 1]) {
      assert a[x] == s[i + x] && a[x - 1] == s[i + x - 1];
    }
    RunsSorted(less, a);
    if b != [] {
      assert b[0] == s[j] && a[|a| - 1] == s[j - 1];
      RunsConcat(less, a, b);
    } else {
      assert a + b == a;
    }
  }

  lemma OneMoreRun<T>(less: (T, T) -> bool, s: seq<T>, i: nat, k: nat)
    requires 1 <= i < k <= |s|
    requires forall x :: i < x < k ==> !less(s[x], s[x - 1])
    ensures Runs(less, s[1..k]) <= Runs(less, s[1..i]) + 1
  {
    var a, b := s[1..i], s[i..k];
    RunsSorted(less, b);
    assert s[1..k] == a + b;
    if a != [] {
      RunsConcat(less, a, b);
    }
  }

  lemma SameSlice<T>(s: seq<T>, r: seq<T>, k: nat, a: nat, b: nat)
    requires |s| == |r| && k <= a <= b <= |s| && s[k..] == r[k..]
    ensures s[a..b] == r[a..b]
  {
    forall x | a <= x < b ensures s[x] == r[x] {
      assert s[x] == s[k..][x - k] && r[x] == r[k..][x - k];
    }
  }

  lemma SamePrefix<T>(s: seq<T>, r: seq<T>, i: nat, a: nat)
    requires |s| == |r| && a <= i <= |s| && s[..i] == r[..i]
    ensures s[a..i] == r[a..i]
  {
    forall x | a <= x < i ensures s[x] == r[x] {
      assert s[x] == s[..i][x] && r[x] == r[..i][x];
    }
  }

  lemma PassMerge<T>(less: (T, T) -> bool, s0: seq<T>, s: seq<T>, s': seq<T>,
                     i: nat, j: nat, k: nat, cnt: nat, dom: seq<T>)
    requires PassInv(less, s0, s, i, cnt, dom) && i < j < k < |s|
    requires forall x :: i < x < j ==> !less(s[x], s[x - 1])
    requires forall x :: j < x < k ==> !less(s[x], s[x - 1])
    requires less(s[j], s[j - 1]) && (k < |s| - 1 ==> less(s[k], s[k - 1]))
    requires MergeInv(less, s, s', i, i, k, k, dom)
    ensures PassInv(less, s0, s', k, cnt + 1, dom)
  {
    hide StablePerm, Runs;
    StablePermTrans(less, s0, s, s');
    var n := |s| - 1;
    TwoRuns(less, s, i, j, k, n);
    SameSlice(s, s', k, k, n);
    SamePrefix(s, s', i, 1);
    MergedInOrder(less, s', i, k);
    OneMoreRun(less, s', i, k);
    InDomain(s, s', i, k, dom);
  }

  lemma MergedInOrder<T>(less: (T, T) -> bool, s: seq<T>, i: nat, k: nat)
    requires Merging(less, s, i, i, k, k)
    ensures forall x :: i < x < k ==> !less(s[x], s[x - 1])
  {
  }

  lemma InDomain<T>(s: seq<T>, s': seq<T>, i: nat, k: nat, dom: seq<T>)
    requires |s| == |s'| && 0 < i <= k < |s| && s[..i] == s'[..i] && s[k..] == s'[k..]
    requires (forall x :: 0 < x < |s| - 1 ==> s[x] in dom) && forall x :: i <= x < k ==> s'[x] in dom
    ensures forall x :: 0 < x < |s| - 1 ==> s'[x] in dom
  {
    forall x | 0 < x < |s| - 1 ensures s'[x] in dom {
      assert x < i ==> s'[x] == s'[..i][x] == s[..i][x] == s[x];
      assert k <= x ==> s'[x] == s'[k..][x - k] == s[k..][x - k] == s[x];
    }
  }

  lemma PassLastRun<T>(less: (T, T) -> bool, s0: seq<T>, s: seq<T>, i: nat, cnt: nat, dom: seq<T>)
    requires PassInv(less, s0, s, i, cnt, dom) && i < |s| - 1
    requires forall x :: i < x < |s| - 1 ==> !less(s[x], s[x - 1])
    ensures PassDone(less, s0, s, cnt + 1, dom)
  {
    OneMoreRun(less, s, i, |s| - 1);
    RunsSorted(less, s[i..|s| - 1]);
  }

  lemma PassComplete<T>(less: (T, T) -> bool, s0: seq<T>, s: seq<T>, cnt: nat, dom: seq<T>)
    requires |s| >= 2 && PassInv(less, s0, s, |s| - 1, cnt, dom)
    ensures PassDone(less, s0, s, cnt, dom)
  {
  }

  /** Adjacent order on a range makes it a sorted range, ready to be merged. */
  lemma RunSorted<T>(less: (T, T) -> bool, s: seq<T>, i: nat, j: nat, dom: seq<T>)
    requires StrictWeak(less, dom) && i <= j <= |s|
    requires forall x :: i <= x < j ==> s[x] in dom
    requires forall x :: i < x < j ==> !less(s[x], s[x - 1])
    ensures forall x, y :: i <= x < y < j ==> !less(s[y], s[x])
  {
    var r := s[i..j];
    assert StrictWeak(less, r) by {
      forall x | x in r ensures x in dom {
        var z :| 0 <= z < |r| && r[z] == x;
        assert s[i + z] == x;
      }
    }
    forall x | 0 < x < |r| ensures !less(r[x], r[x - 1]) {
      assert r[x] == s[i + x] && r[x - 1] == s[i + x - 1];
    }
    AdjacentSorted(less, r);
    forall x, y | i <= x < y < j ensures !less(s[y], s[x]) {
      assert r[x - i] == s[x] && r[y - i] == s[y];
    }
  }

  lemma MergeStart<T>(less: (T, T) -> bool, s: seq<T>, i: nat, j: nat, k: nat, dom: seq<T>)
    requires StrictWeak(less, dom) && 1 <= i < j < k < |s|
    requires forall x :: 0 < x < |s| - 1 ==> s[x] in dom
    requires forall x :: i < x < j ==> !less(s[x], s[x - 1])
    requires forall x :: j < x < k ==> !less(s[x], s[x - 1])
    ensures MergeInv(less, s, s, i, i, j, k, dom)
  {
    RunSorted(less, s, i, j, dom);
    RunSorted(less, s, j, k, dom);
    StablePermRefl(less, s);
  }

  /** One pass of list_sort's outer loop: merges adjacent runs pairwise. */
  method SortPass(l: List, less: (Elem, Elem) -> bool, ghost dom: seq<Elem>) returns (outputRunCnt: nat)
    requires l.Valid() && StrictWeak(less, dom)
    requires forall x :: 0 < x < |l.nodes| - 1 ==> l.nodes[x] in dom
    modifies l, l.repr
    ensures l.Valid() && l.repr == old(l.repr)
    ensures PassDone(less, old(l.nodes), l.nodes, outputRunCnt, dom)
  {
    hide PassInv, PassDone, MergeInv, StrictWeak;
    outputRunCnt := 0;
    var a0 := l.head.next;
    ghost var i, s0 := 1, l.nodes;
    PassStart(less, s0, dom);
    while a0 != l.tail
      invariant l.Valid() && l.repr == old(l.repr) && |l.nodes| == |s0|
      invariant 1 <= i < |l.nodes| && a0 == l.nodes[i]
      invariant PassInv(less, s0, l.nodes, i, outputRunCnt, dom)
      decreases |l.nodes| - i
    {
      ghost var s := l.nodes;
      var a1b0, j := FindEndOfRun(a0, l.tail, less, l, i, |l.nodes| - 1);
      if a1b0 == l.tail {
        PassLastRun(less, s0, s, i, outputRunCnt, dom);
        outputRunCnt := outputRunCnt + 1;
        return;
      }
      var b1, k := FindEndOfRun(a1b0, l.tail, less, l, j, |l.nodes| - 1);
      PassInDom(less, s0, s, i, outputRunCnt, dom);
      MergeStart(less, s, i, j, k, dom);
      InplaceMerge(a0, a1b0, b1, less, l, i, j, k, dom);
      MergeEnds(less, s, l.nodes, i, k, dom);
      PassMerge(less, s0, s, l.nodes, i, j, k, outputRunCnt, dom);
      outputRunCnt := outputRunCnt + 1;
      a0 := b1;
      i := k;
    }
    PassComplete(less, s0, l.nodes, outputRunCnt, dom);
  }

  lemma PassInDom<T>(less: (T, T) -> bool, s0: seq<T>, s: seq<T>, i: nat, cnt: nat, dom: seq<T>)
    requires PassInv(less, s0, s, i, cnt, dom)
    ensures forall x :: 0 < x < |s| - 1 ==> s[x] in dom
  {
  }

  lemma MergeEnds<T>(less: (T, T) -> bool, s: seq<T>, s': seq<T>, i: nat, k: nat, dom: seq<T>)
    requires MergeInv(less, s, s', i, i, k, k, dom)
    ensures |s'| == |s| && k < |s| && s'[k] == s[k]
  {
    assert s'[k] == s'[k..][0] && s[k] == s[k..][0];
  }

  lemma InteriorPerm<T>(s: seq<T>)
    requires |s| >= 2
    ensures multiset(Interior(s)) == multiset(s) - multiset{s[0]} - multiset{s[|s| - 1]}
  {
    assert s == [s[0]] + Interior(s) + [s[|s| - 1]];
  }

  /** A stable rearrangement that keeps both ends rearranges the interior stably. */
  lemma InteriorStable<T>(less: (T, T) -> bool, s: seq<T>, r: seq<T>)
    requires |s| == |r| >= 2 && Distinct(r) && StablePerm(less, s, r)
    requires s[0] == r[0] && s[|s| - 1] == r[|r| - 1] && Distinct(s)
    ensures StablePerm(less, Interior(s), Interior(r))
  {
    InteriorPerm(s);
    InteriorPerm(r);
    forall i, j | 0 <= i < j < |Interior(s)| && !less(Interior(s)[j], Interior(s)[i])
      ensures Before(Interior(r), Interior(s)[i], Interior(s)[j])
    {
      assert Before(r, s[i + 1], s[j + 1]);
      InteriorBefore(r, s[i + 1], s[j + 1]);
    }
  }

  lemma InteriorBefore<T>(r: seq<T>, a: T, b: T)
    requires |r| >= 2 && Before(r, a, b) && a != r[0] && b != r[|r| - 1]
    ensures Before(Interior(r), a, b)
  {
    var x, y :| 0 <= x < y < |r| && r[x] == a && r[y] == b;
    assert Interior(r)[x - 1] == a && Interior(r)[y - 1] == b;
  }

  /** The passes so far turned `s0` into `s`, which has at most `cnt` runs. */
  ghost predicate Progress<T>(less: (T, T) -> bool, s0: seq<T>, s: seq<T>, cnt: nat, dom: seq<T>) {
    && |s| == |s0| >= 2
    && StablePerm(less, s0, s)
    && (forall x :: 0 < x < |s| - 1 ==> s[x] in dom)
    && Runs(less, Interior(s)) <= cnt
  }

  lemma ProgressStep<T>(less: (T, T) -> bool, s0: seq<T>, s: seq<T>, s': seq<T>, cnt: nat, cnt': nat, dom: seq<T>)
    requires Progress(less, s0, s, cnt, dom) && PassDone(less, s, s', cnt', dom)
    ensures Progress(less, s0, s', cnt', dom) && (cnt' > 1 ==> cnt' < cnt)
  {
    StablePermTrans(less, s0, s, s');
  }

  lemma ProgressDone<T>(less: (T, T) -> bool, s0: seq<T>, s: seq<T>, cnt: nat)
    requires |s0| >= 2 && StrictWeak(less, Interior(s0)) && Distinct(s0) && Distinct(s)
    requires Progress(less, s0, s, cnt, Interior(s0)) && cnt <= 1
    requires s0[0] == s[0] && s0[|s0| - 1] == s[|s| - 1]
    ensures Sorted(less, Interior(s)) && StablePerm(less, Interior(s0), Interior(s))
    ensures Interior(s) == StableSort(less, Interior(s0))
  {
    InteriorStable(less, s0, s);
    SingleRunSorted(less, Interior(s0), Interior(s));
    StableSortUnique(less, Interior(s0), Interior(s));
  }

  lemma SingleRunSorted<T>(less: (T, T) -> bool, s: seq<T>, r: seq<T>)
    requires StrictWeak(less, s) && multiset(s) == multiset(r) && Runs(less, r) <= 1
    ensures Sorted(less, r)
  {
    PermElems(s, r);
    if r != [] {
      RunsSorted(less, r);
      AdjacentSorted(less, r);
    }
  }

  /** list_sort: passes over the list, merging adjacent runs, until one run is left. Every pass
      leaves strictly fewer runs, so this terminates; no pass swaps elements already in order,
      so the result is the stable sort of the same nodes. */
  method Sort(l: List, less: (Elem, Elem) -> bool)
    requires l.Valid() && StrictWeak(less, l.Elems())
    modifies l, l.repr
    ensures l.Valid() && l.repr == old(l.repr)
    ensures Sorted(less, l.Elems()) && StablePerm(less, old(l.Elems()), l.Elems())
    ensures l.Elems() == StableSort(less, old(l.Elems()))
  {
    ghost var s0, dom := l.nodes, l.Elems();
    assert dom == Interior(s0);
    ghost var cnt0: nat := Runs(less, dom);
    assert Progress(less, s0, s0, cnt0, dom) by { StablePermRefl(less, s0); }
    hide StrictWeak, StablePerm, Sorted, PassDone, Progress;
    assert l.Valid();
    var outputRunCnt := SortPass(l, less, dom);
    ProgressStep(less, s0, s0, l.nodes, cnt0, outputRunCnt, dom);
    while outputRunCnt > 1
      invariant l.Valid() && l.repr == old(l.repr)
      invariant Progress(less, s0, l.nodes, outputRunCnt, dom)
      decreases outputRunCnt
    {
      ghost var s := l.nodes;
      ProgressInDom(less, s0, s, outputRunCnt, dom);
      var cnt := SortPass(l, less, dom);
      ProgressStep(less, s0, s, l.nodes, outputRunCnt, cnt, dom);
      outputRunCnt := cnt;
    }
    assert Interior(l.nodes) == l.Elems();
    ProgressDone(less, s0, l.nodes, outputRunCnt);
  }

  lemma ProgressInDom<T>(less: (T, T) -> bool, s0: seq<T>, s: seq<T>, cnt: nat, dom: seq<T>)
    requires Progress(less, s0, s, cnt, dom)
    ensures forall x :: 0 < x < |s| - 1 ==> s[x] in dom
  {
  }
}
