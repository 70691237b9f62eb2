/** The ready list, the sleeping list and the waiters of semaphores, as intrusive lists that
    threads are moved between (threads/thread.c, threads/synch.c, devices/timer.c over
    lib/kernel/list.c). A struct thread has one element for the ready list and the waiters and
    another for the sleeping list; as it is on at most one of the lists, one element stands for
    both here. */
module ThreadLists {
  import opened Wrappers
  import opened Orders
  import opened IntrusiveList
  import opened Kernel

  datatype Place = ReadyList | SleepingList | WaitersOf(sema: SemaId)

  /** Comparing list elements is comparing the threads they are part of. */
  function ByOwner(less: (Tid, Tid) -> bool): (Elem, Elem) -> bool {
    (a: Elem, b: Elem) => a.owner.Some? && b.owner.Some? && less(a.owner.value, b.owner.value)
  }

  ghost predicate OwnersOk(elem: map<Tid, Elem>) {
    forall t :: t in elem ==> elem[t].owner == Some(t)
  }

  ghost predicate Known(elem: map<Tid, Elem>, q: seq<Tid>) {
    forall t :: t in q ==> t in elem
  }

  /** The elements of the threads of a list. */
  ghost function Nodes(elem: map<Tid, Elem>, q: seq<Tid>): (s: seq<Elem>)
    requires Known(elem, q)
    ensures |s| == |q| && forall i :: 0 <= i < |q| ==> s[i] == elem[q[i]]
  {
    seq(|q|, i requires 0 <= i < |q| => elem[q[i]])
  }

  lemma {:induction false} NodesIndex(elem: map<Tid, Elem>, less: (Tid, Tid) -> bool, q: seq<Tid>, t: Tid)
    requires OwnersOk(elem) && Known(elem, q) && t in elem
    ensures InsertIndex(ByOwner(less), Nodes(elem, q), elem[t]) == InsertIndex(less, q, t)
  {
    if q != [] && !less(t, q[0]) {
      assert Known(elem, q[1..]);
      NodesIndex(elem, less, q[1..], t);
      assert Nodes(elem, q)[1..] == Nodes(elem, q[1..]);
    }
  }

  lemma NodesInsert(elem: map<Tid, Elem>, less: (Tid, Tid) -> bool, q: seq<Tid>, t: Tid)
    requires OwnersOk(elem) && Known(elem, q) && t in elem
    ensures Known(elem, InsertOrdered(less, q, t))
    ensures InsertOrdered(ByOwner(less), Nodes(elem, q), elem[t]) == Nodes(elem, InsertOrdered(less, q, t))
  {
    NodesIndex(elem, less, q, t);
    var p := InsertIndex(less, q, t);
    NodesSplit(elem, q, p, t);
  }

  lemma NodesSplit(elem: map<Tid, Elem>, q: seq<Tid>, p: nat, t: Tid)
    requires Known(elem, q) && t in elem && p <= |q|
    ensures Known(elem, q[..p] + [t] + q[p..])
    ensures Nodes(elem, q)[..p] + [elem[t]] + Nodes(elem, q)[p..] == Nodes(elem, q[..p] + [t] + q[p..])
  {
  }

  lemma {:induction false} NodesSort(elem: map<Tid, Elem>, less: (Tid, Tid) -> bool, q: seq<Tid>)
    requires OwnersOk(elem) && Known(elem, q)
    ensures Known(elem, StableSort(less, q))
    ensures StableSort(ByOwner(less), Nodes(elem, q)) == Nodes(elem, StableSort(less, q))
  {
    if q != [] {
      var n := |q| - 1;
      assert Known(elem, q[..n]);
      NodesSort(elem, less, q[..n]);
      NodesInsert(elem, less, StableSort(less, q[..n]), q[n]);
      assert Nodes(elem, q)[..n] == Nodes(elem, q[..n]);
    }
  }

  lemma NodesWeak(elem: map<Tid, Elem>, less: (Tid, Tid) -> bool, q: seq<Tid>)
    requires OwnersOk(elem) && Known(elem, q) && StrictWeak(less, q)
    ensures StrictWeak(ByOwner(less), Nodes(elem, q))
  {
    forall x | x in Nodes(elem, q) ensures x.owner.Some? && x.owner.value in q {
      var i :| 0 <= i < |q| && Nodes(elem, q)[i] == x;
    }
  }

  /** The list holds exactly the elements of the threads `q`, in that order. */
  ghost predicate Holds(l: List, elem: map<Tid, Elem>, q: seq<Tid>)
    reads l, l.repr
  {
    && Known(elem, q) && l.Valid()
    && (forall x :: x in l.repr ==> x in l.nodes)
    && l.Elems() == Nodes(elem, q)
  }

  /** A thread that is not on the list has its element outside it. */
  lemma Outside(l: List, elem: map<Tid, Elem>, q: seq<Tid>, t: Tid)
    requires Holds(l, elem, q) && OwnersOk(elem) && t in elem && t !in q
    requires l.head.owner.None? && l.tail.owner.None?
    ensures elem[t] !in l.repr && elem[t] !in l.nodes
  {
    forall i | 0 <= i < |l.nodes| ensures l.nodes[i] != elem[t] {
      assert 0 < i < |l.nodes| - 1 ==> l.Elems()[i - 1] == elem[q[i - 1]] && q[i - 1] in q;
    }
  }

  /** A valid list's chain is its head, its elements and its tail. */
  lemma ChainIs(l: List)
    requires l.Valid()
    ensures forall x :: x in l.nodes <==> x == l.head || x == l.tail || x in l.Elems()
  {
    assert l.nodes == [l.head] + l.Elems() + [l.tail];
  }

  method InsertOne(l: List, t: Tid, less: (Tid, Tid) -> bool, elem: map<Tid, Elem>, ghost q: seq<Tid>)
    requires Holds(l, elem, q) && OwnersOk(elem) && t in elem && elem[t] !in l.nodes
    modifies l, l.repr, elem[t]
    ensures Holds(l, elem, InsertOrdered(less, q, t)) && l.repr == old(l.repr) + {elem[t]}
  {
    hide InsertOrdered, ByOwner, List.Valid;
    NodesInsert(elem, less, q, t);
    ChainIs(l);
    l.InsertInOrder(elem[t], ByOwner(less));
    InOrdered(ByOwner(less), Nodes(elem, q), elem[t]);
    ChainIs(l);
  }

  lemma InOrdered<T>(less: (T, T) -> bool, s: seq<T>, x: T)
    ensures forall y :: y in InsertOrdered(less, s, x) <==> y in s || y == x
  {
    assert forall y :: y in InsertOrdered(less, s, x) <==> y in multiset(InsertOrdered(less, s, x));
  }

  method PopOne(l: List, elem: map<Tid, Elem>, ghost q: seq<Tid>) returns (t: Tid)
    requires Holds(l, elem, q) && OwnersOk(elem) && q != []
    modifies l, l.repr
    ensures t == q[0] && t in elem && Holds(l, elem, q[1..]) && l.repr == old(l.repr) - {elem[t]}
  {
    hide List.Valid;
    ChainIs(l);
    assert Nodes(elem, q)[1..] == Nodes(elem, q[1..]);
    var e := l.PopFront();
    ChainIs(l);
    t := e.owner.value;
  }

  method SortOne(l: List, less: (Tid, Tid) -> bool, elem: map<Tid, Elem>, ghost q: seq<Tid>)
    requires Holds(l, elem, q) && OwnersOk(elem) && StrictWeak(less, q)
    modifies l, l.repr
    ensures Holds(l, elem, StableSort(less, q)) && l.repr == old(l.repr)
  {
    hide StableSort, ByOwner, List.Valid, StrictWeak;
    NodesSort(elem, less, q);
    NodesWeak(elem, less, q);
    ChainIs(l);
    Sort(l, ByOwner(less));
    PermElems(Nodes(elem, q), StableSort(ByOwner(less), Nodes(elem, q)));
    ChainIs(l);
  }

  // The lists together.

  /** No two lists have an element in common. */
  ghost predicate Apart(reprs: map<Place, set<Elem>>) {
    forall v, w :: v in reprs && w in reprs && v != w ==> reprs[v] !! reprs[w]
  }

  ghost predicate Within(reprs: map<Place, set<Elem>>, cells: set<Elem>) {
    forall w :: w in reprs ==> reprs[w] <= cells
  }

  lemma ApartPut(reprs: map<Place, set<Elem>>, cells: set<Elem>, w: Place, x: Elem)
    requires Apart(reprs) && Within(reprs, cells) && w in reprs && x in cells
    requires forall v :: v in reprs ==> x !in reprs[v]
    ensures Apart(reprs[w := reprs[w] + {x}]) && Within(reprs[w := reprs[w] + {x}], cells)
  {
  }

  lemma ApartLess(reprs: map<Place, set<Elem>>, cells: set<Elem>, w: Place, s: set<Elem>)
    requires Apart(reprs) && Within(reprs, cells) && w in reprs && s <= reprs[w]
    ensures Apart(reprs[w := s]) && Within(reprs[w := s], cells)
  {
  }

  ghost predicate Empty(l: List)
    reads l, l.repr
  {
    l.Valid() && l.Elems() == [] && l.head.owner.None? && l.tail.owner.None? && forall x :: x in l.repr ==> x in l.nodes
  }

  method NewList() returns (l: List)
    ensures fresh(l) && fresh(l.repr) && Empty(l)
  {
    l := new List();
  }

  /** Lists that are all different, with no element in common. */
  ghost predicate AllEmpty(a: map<Place, List>, reprs: map<Place, set<Elem>>)
    reads a.Values, set w, x | w in a && x in a[w].repr :: x
  {
    && reprs.Keys == a.Keys && (forall w :: w in a ==> Empty(a[w]) && a[w].repr == reprs[w])
    && (forall v, w :: v in a && w in a && v != w ==> a[v] != a[w])
  }

  method NewLists(places: set<Place>) returns (a: map<Place, List>, ghost reprs: map<Place, set<Elem>>,
                  ghost used: set<Elem>)
    ensures a.Keys == places && AllEmpty(a, reprs) && Apart(reprs) && Within(reprs, used)
  {
    hide Empty, Apart, Within;
    a, reprs, used := map[], map[], {};
    assert Apart(reprs) && Within(reprs, used) by { NoneApart(used); }
    var todo := places;
    while todo != {}
      invariant todo <= places && a.Keys == places - todo
      invariant AllEmpty(a, reprs) && Apart(reprs) && Within(reprs, used)
      decreases |todo|
    {
      var w :| w in todo;
      var l := NewList();
      ApartNew(reprs, used, w, l.repr);
      a, reprs, used := a[w := l], reprs[w := l.repr], used + l.repr;
      todo := todo - {w};
    }
  }

  lemma EmptyHolds(l: List, elem: map<Tid, Elem>)
    requires Empty(l)
    ensures Holds(l, elem, []) && l.head.owner.None? && l.tail.owner.None?
  {
  }

  lemma MoreCells(reprs: map<Place, set<Elem>>, used: set<Elem>, cells: set<Elem>)
    requires Within(reprs, used) && used <= cells
    ensures Within(reprs, cells)
  {
  }

  lemma NoneApart(used: set<Elem>)
    ensures Apart(map[]) && Within(map[], used)
  {
  }

  lemma ApartNew(reprs: map<Place, set<Elem>>, used: set<Elem>, w: Place, s: set<Elem>)
    requires Apart(reprs) && Within(reprs, used) && s !! used
    ensures Apart(reprs[w := s]) && Within(reprs[w := s], used + s)
  {
  }

  method NewElems(threads: set<Tid>) returns (e: map<Tid, Elem>)
    ensures e.Keys == threads && OwnersOk(e)
  {
    e := map[];
    var todo := threads;
    while todo != {}
      invariant todo <= threads && e.Keys == threads - todo && OwnersOk(e)
      decreases |todo|
    {
      var t :| t in todo;
      var x := new Elem(Some(t));
      e := e[t := x];
      todo := todo - {t};
    }
  }

  class Lists {
    const at: map<Place, List>
    const elem: map<Tid, Elem>
    ghost const cells: set<Elem>
    /** The threads on each list. */
    ghost var queue: map<Place, seq<Tid>>

    /** No two lists are the same, and only heads and tails belong to no thread. */
    ghost predicate Distinguished() {
      && (forall v, w :: v in at && w in at && v != w ==> at[v] != at[w])
      && (forall w :: w in at ==> at[w].head.owner.None? && at[w].tail.owner.None?)
      && OwnersOk(elem) && (forall t :: t in elem ==> elem[t] in cells)
    }

    /** list_init of every list, with threads that are on none. */
    constructor (places: set<Place>, threads: set<Tid>)
      ensures Valid() && at.Keys == places && elem.Keys == threads && queue == map w | w in places :: []
    {
      hide Apart, Within, Empty, Holds, OwnersOk;
      var e := NewElems(threads);
      var a, reprs, used := NewLists(places);
      at, elem := a, e;
      cells := used + e.Values;
      queue := map w | w in places :: [];
      new;
      assert Reprs() == reprs;
      MoreCells(reprs, used, cells);
      forall w | w in at ensures Holds(at[w], elem, []) && at[w].head.owner.None? && at[w].tail.owner.None? {
        EmptyHolds(at[w], elem);
      }
    }

    ghost function Reprs(): map<Place, set<Elem>>
      reads at.Values
    {
      map w | w in at :: at[w].repr
    }

    ghost predicate Valid()
      reads this, at.Values, cells
      ensures Valid() ==> queue.Keys == at.Keys
    {
      Distinguished() && queue.Keys == at.Keys && AllHold(queue)
    }

    /** The lists hold these threads, and share no element. */
    ghost predicate AllHold(qs: map<Place, seq<Tid>>)
      reads at.Values, cells
    {
      && Apart(Reprs()) && Within(Reprs(), cells)
      && (forall w :: w in at ==> w in qs && w in Reprs() && Holds(at[w], elem, qs[w]))
    }

    lemma AllHoldBut(qs: map<Place, seq<Tid>>, w: Place, q: seq<Tid>)
      requires Apart(Reprs()) && Within(Reprs(), cells) && at.Keys <= qs.Keys && w in at
      requires (forall v :: v in at && v != w ==> v in Reprs() && Holds(at[v], elem, qs[v]))
      requires w in Reprs() && Holds(at[w], elem, q)
      ensures AllHold(qs[w := q])
    {
      hide Holds, Apart, Within;
    }

    /** The thread is on none of the lists. */
    ghost predicate Off(t: Tid)
      reads this
    {
      forall w :: w in queue ==> t !in queue[w]
    }

    lemma ApartFrom(w: Place)
      requires Apart(Reprs()) && Within(Reprs(), cells) && w in at
      ensures at[w].repr <= cells && forall v :: v in at && v != w ==> at[v].repr !! at[w].repr
    {
      assert w in Reprs();
      forall v | v in at && v != w ensures at[v].repr !! at[w].repr {
        assert v in Reprs();
      }
    }

    lemma OutsideAll(t: Tid)
      requires Valid() && t in elem && Off(t)
      ensures forall v :: v in at ==> elem[t] !in at[v].repr && elem[t] !in at[v].nodes
    {
      hide Holds, Apart, Within;
      forall v | v in at ensures elem[t] !in at[v].repr && elem[t] !in at[v].nodes {
        Outside(at[v], elem, queue[v], t);
      }
    }

    /** list_insert_ordered of a thread that is on no list. */
    method Insert(w: Place, t: Tid, less: (Tid, Tid) -> bool)
      requires Valid() && w in at && t in elem && Off(t)
      modifies this, at.Values, cells
      ensures Valid() && queue == old(queue)[w := InsertOrdered(less, old(queue)[w], t)]
    {
      hide InsertOrdered, AllHold;
      OutsideAll(t);
      InsertAt(w, t, less, queue);
      queue := queue[w := InsertOrdered(less, queue[w], t)];
    }

    method InsertAt(w: Place, t: Tid, less: (Tid, Tid) -> bool, ghost qs: map<Place, seq<Tid>>)
      requires Distinguished() && AllHold(qs) && w in at && t in elem
      requires forall v :: v in at ==> elem[t] !in at[v].repr && elem[t] !in at[v].nodes
      modifies at.Values, cells
      ensures AllHold(qs[w := InsertOrdered(less, qs[w], t)])
    {
      hide Holds, InsertOrdered, Apart, Within;
      ghost var reprs := Reprs();
      ApartPut(reprs, cells, w, elem[t]);
      ApartFrom(w);
      InsertOne(at[w], t, less, elem, qs[w]);
      assert Reprs() == reprs[w := reprs[w] + {elem[t]}];
      AllHoldBut(qs, w, InsertOrdered(less, qs[w], t));
    }

    /** list_pop_front; the thread taken off is returned. */
    method Pop(w: Place) returns (t: Tid)
      requires Valid() && w in at && queue[w] != []
      modifies this, at.Values, cells
      ensures t == old(queue)[w][0] && t in elem && Valid() && queue == old(queue)[w := old(queue)[w][1..]]
    {
      hide AllHold;
      t := PopAt(w, queue);
      queue := queue[w := queue[w][1..]];
    }

    method PopAt(w: Place, ghost qs: map<Place, seq<Tid>>) returns (t: Tid)
      requires Distinguished() && AllHold(qs) && w in at && w in qs && qs[w] != []
      modifies at.Values, cells
      ensures t == qs[w][0] && t in elem && AllHold(qs[w := qs[w][1..]])
    {
      hide Holds, Apart, Within;
      ghost var reprs := Reprs();
      ApartFrom(w);
      t := PopOne(at[w], elem, qs[w]);
      ApartLess(reprs, cells, w, at[w].repr);
      assert Reprs() == reprs[w := at[w].repr];
      AllHoldBut(qs, w, qs[w][1..]);
    }

    /** list_sort. */
    method SortBy(w: Place, less: (Tid, Tid) -> bool)
      requires Valid() && w in at && StrictWeak(less, queue[w])
      modifies this, at.Values, cells
      ensures Valid() && queue == old(queue)[w := StableSort(less, old(queue)[w])]
    {
      hide Holds, Apart, Within, StableSort, StrictWeak;
      ghost var reprs := Reprs();
      ApartFrom(w);
      SortOne(at[w], less, elem, queue[w]);
      assert Reprs() == reprs;
      AllHoldBut(queue, w, StableSort(less, queue[w]));
      hide AllHold;
      queue := queue[w := StableSort(less, queue[w])];
    }

    /** list_sort, then list_pop_front. */
    method PopLeast(w: Place, less: (Tid, Tid) -> bool) returns (t: Tid)
      requires Valid() && w in at && StrictWeak(less, queue[w]) && queue[w] != []
      modifies this, at.Values, cells
      ensures var q := StableSort(less, old(queue)[w]);
              q != [] && t == q[0] && queue == old(queue)[w := q[1..]]
      ensures t in elem && Valid()
    {
      hide StableSort, StrictWeak, Valid;
      SortBy(w, less);
      t := Pop(w);
    }

    /** list_empty, list_front and list_size. */
    method IsEmpty(w: Place) returns (b: bool)
      requires Valid() && w in at
      ensures b <==> queue[w] == []
    {
      assert Holds(at[w], elem, queue[w]);
      b := at[w].IsEmpty();
    }

    method First(w: Place) returns (t: Tid)
      requires Valid() && w in at && queue[w] != []
      ensures t == queue[w][0] && t in elem
    {
      assert Holds(at[w], elem, queue[w]);
      var e := at[w].Front();
      t := e.owner.value;
    }

    method Length(w: Place) returns (n: nat)
      requires Valid() && w in at
      ensures n == |queue[w]|
    {
      assert Holds(at[w], elem, queue[w]);
      n := at[w].Size();
    }
  }
}
