/** Priority donation: what the walk in lock_acquire achieves (threads/synch.c). */
module Donation {
  import opened Wrappers
  import opened Orders
  import opened Kernel
  import opened KernelInv
  import opened KernelSteps

  /** The thread that holds the lock `t` is waiting for. */
  ghost function Succ(s: State, t: Tid): Option<Tid> {
    if t in s.info && s.info[t].waitingLock.Some? && s.info[t].waitingLock.value in s.locks
    then s.locks[s.info[t].waitingLock.value].holder
    else None
  }

  /** Every thread named by a lock or a wait exists. */
  ghost predicate Linked(s: State) {
    && s.info.Keys == s.prio.Keys
    && (forall t :: t in s.info && s.info[t].waitingLock.Some? ==> s.info[t].waitingLock.value in s.locks)
    && (forall l :: l in s.locks && s.locks[l].holder.Some? ==> s.locks[l].holder.value in s.prio)
  }

  ghost predicate EdgeOk(s: State, t: Tid) {
    t in s.prio && Succ(s, t).Some? && Succ(s, t).value in s.prio ==> s.prio[t] <= s.prio[Succ(s, t).value]
  }

  /** Every holder's priority is at least that of each thread waiting on its locks. */
  ghost predicate Covers(s: State) { forall t :: t in s.prio ==> EdgeOk(s, t) }

  /** The same, but for the one thread `x`. */
  ghost predicate CoversExcept(s: State, x: Tid) { forall t :: t in s.prio && t != x ==> EdgeOk(s, t) }

  /** The thread at which a walk of at most `d` locks from `t` stops. */
  ghost function WalkEnd(s: State, t: Tid, d: nat): Tid
    decreases d
  {
    if d == 0 || Succ(s, t).None? then t else WalkEnd(s, Succ(s, t).value, d - 1)
  }

  /** The `k`-th thread on the chain of waits from `t`. */
  ghost function Nth(s: State, t: Tid, k: nat): Option<Tid>
    decreases k
  {
    if k == 0 then Some(t) else if Succ(s, t).None? then None else Nth(s, Succ(s, t).value, k - 1)
  }

  /** The first `k` links from `t` do not run in a circle. */
  ghost predicate Acyclic(s: State, t: Tid, k: nat) {
    forall i: nat, j: nat :: i < j <= k && Nth(s, t, j).Some? ==> Nth(s, t, i) != Nth(s, t, j)
  }

  // The walk leaves the graph of waits alone.

  lemma SameGraph(s: State, r: State)
    requires OnlyPriorities(s, r)
    ensures forall t :: Succ(r, t) == Succ(s, t)
    ensures Linked(s) ==> Linked(r)
  {
  }

  lemma {:induction false} SameNth(s: State, r: State, t: Tid, k: nat)
    requires forall u :: Succ(r, u) == Succ(s, u)
    ensures Nth(r, t, k) == Nth(s, t, k)
    decreases k
  {
    if k > 0 && Succ(s, t).Some? { SameNth(s, r, Succ(s, t).value, k - 1); }
  }

  lemma {:induction false} SameEnd(s: State, r: State, t: Tid, d: nat)
    requires forall u :: Succ(r, u) == Succ(s, u)
    ensures WalkEnd(r, t, d) == WalkEnd(s, t, d)
    decreases d
  {
    if d > 0 && Succ(s, t).Some? { SameEnd(s, r, Succ(s, t).value, d - 1); }
  }

  lemma StepEdge(s: State, t: Tid)
    requires Linked(s) && t in s.prio && Succ(s, t).Some?
    ensures var l, h := s.info[t].waitingLock.value, Succ(s, t).value;
            && l in s.locks && h in s.prio && h in s.info
            && (forall d: nat :: d > 0 ==> Donate(s, t, d) == Donate(DonateEdge(s, t, l, h), h, d - 1))
  {
  }

  /** One donation repairs the edge from `t`; only the edge from the holder may now be broken. */
  lemma EdgeCovers(s: State, t: Tid, l: LockId, h: Tid)
    requires Linked(s) && t in s.prio && l in s.locks && h in s.prio && h in s.info
    requires s.info[t].waitingLock == Some(l) && s.locks[l].holder == Some(h) && CoversExcept(s, t)
    ensures CoversExcept(DonateEdge(s, t, l, h), h)
  {
    var r := DonateEdge(s, t, l, h);
    DonateEdgeOnly(s, t, l, h);
    SameGraph(s, r);
    forall u | u in r.prio && u != h ensures EdgeOk(r, u) {
      assert u != t ==> EdgeOk(s, u);
    }
  }

  ghost predicate NoneLowered(s: State, r: State) {
    forall u :: u in s.prio ==> u in r.prio && s.prio[u] <= r.prio[u]
  }

  lemma NoneLoweredTrans(s: State, r: State, q: State)
    requires NoneLowered(s, r) && NoneLowered(r, q)
    ensures NoneLowered(s, q)
  {
  }

  /** One edge, as the walk takes it. */
  lemma WalkStep(s: State, t: Tid, d: nat) returns (r: State, h: Tid)
    requires Linked(s) && t in s.prio && CoversExcept(s, t) && d > 0 && Succ(s, t).Some?
    ensures h == Succ(s, t).value && Donate(s, t, d) == Donate(r, h, d - 1)
    ensures WalkEnd(s, t, d) == WalkEnd(r, h, d - 1)
    ensures Linked(r) && h in r.prio && CoversExcept(r, h) && NoneLowered(s, r)
    ensures forall u :: Succ(r, u) == Succ(s, u)
    ensures h in s.prio && r.prio == s.prio[h := Max(s.prio[h], s.prio[t])]
    ensures t in s.info && h in s.info && s.info[t].waitingLock.Some? && s.info[t].waitingLock.value in s.locks
    ensures r == DonateEdge(s, t, s.info[t].waitingLock.value, h)
  {
    hide OnlyPriorities, Linked, CoversExcept;
    StepEdge(s, t);
    WaitEdge(s, t);
    var l := s.info[t].waitingLock.value;
    h := Succ(s, t).value;
    r := DonateEdge(s, t, l, h);
    EdgeCovers(s, t, l, h);
    DonateEdgeOnly(s, t, l, h);
    SameGraph(s, r);
    SameEnd(s, r, h, d - 1);
  }

  /** The walk ends on any graph of waits, circular or not. It never lowers a priority, and
      afterwards the only edge that can violate the rule is the one where it stopped. */
  lemma {:induction false} WalkCovers(s: State, t: Tid, d: nat)
    requires Linked(s) && t in s.prio && CoversExcept(s, t)
    ensures var r, e := Donate(s, t, d), WalkEnd(s, t, d);
            && e in r.prio && CoversExcept(r, e)
            && (Covers(r) <==> EdgeOk(r, e))
            && NoneLowered(s, r)
    decreases d
  {
    hide Donate, Succ, Linked, EdgeOk, NoneLowered;
    DonateBase(s, t, d);
    if d > 0 && Succ(s, t).Some? {
      var r, h := WalkStep(s, t, d);
      WalkCovers(r, h, d - 1);
      NoneLoweredTrans(s, r, Donate(r, h, d - 1));
    }
  }

  lemma WaitEdge(s: State, t: Tid)
    requires Linked(s) && t in s.prio && Succ(s, t).Some?
    ensures t in s.info && s.info[t].waitingLock.Some?
    ensures s.info[t].waitingLock.value in s.locks && s.locks[s.info[t].waitingLock.value].holder == Succ(s, t)
  {
  }

  lemma DonateBase(s: State, t: Tid, d: nat)
    requires Linked(s) && t in s.prio && CoversExcept(s, t)
    ensures d == 0 || Succ(s, t).None? ==>
              var r := Donate(s, t, d);
              r.prio == s.prio && CoversExcept(r, t) && (Covers(r) <==> EdgeOk(r, t)) && NoneLowered(s, r)
  {
    if d == 0 || Succ(s, t).None? {
      var r := Donate(s, t, d);
      DonateOnlyPriorities(s, t, d);
      SameGraph(s, r);
      assert r.prio == s.prio;
      assert forall u :: u in s.prio ==> (EdgeOk(r, u) <==> EdgeOk(s, u));
    }
  }

  // Chains that do not run in a circle.

  lemma AcyclicTail(s: State, r: State, t: Tid, h: Tid, k: nat)
    requires Succ(s, t) == Some(h) && Acyclic(s, t, k + 1)
    requires forall u :: Succ(r, u) == Succ(s, u)
    ensures Acyclic(r, h, k)
    ensures forall i: nat :: i <= k ==> Nth(s, h, i) != Some(t)
  {
    forall i: nat, j: nat | i < j <= k && Nth(r, h, j).Some? ensures Nth(r, h, i) != Nth(r, h, j) {
      SameNth(s, r, h, i);
      SameNth(s, r, h, j);
      assert Nth(s, t, i + 1) != Nth(s, t, j + 1);
    }
    forall i: nat | i <= k ensures Nth(s, h, i) != Some(t) {
      assert Nth(s, t, 0) == Some(t);
      assert Nth(s, t, i + 1) == Nth(s, h, i);
    }
  }

  /** Priorities do not fall along a chain whose edges are all in order. */
  lemma {:induction false} ChainRises(s: State, x: Tid, t: Tid, d: nat)
    requires Linked(s) && t in s.prio && CoversExcept(s, x)
    requires forall i: nat :: i <= d ==> Nth(s, t, i) != Some(x)
    ensures WalkEnd(s, t, d) in s.prio && s.prio[t] <= s.prio[WalkEnd(s, t, d)]
    decreases d
  {
    if d > 0 && Succ(s, t).Some? {
      assert Nth(s, t, 0) == Some(t);
      assert EdgeOk(s, t);
      var h := Succ(s, t).value;
      forall i: nat | i <= d - 1 ensures Nth(s, h, i) != Some(x) {
        assert Nth(s, t, i + 1) == Nth(s, h, i);
      }
      ChainRises(s, x, h, d - 1);
    }
  }

  lemma {:induction false} EndIsNth(s: State, t: Tid, d: nat)
    ensures Nth(s, t, d).Some? ==> Nth(s, t, d) == Some(WalkEnd(s, t, d))
    ensures Nth(s, t, d + 1).Some? ==> Nth(s, t, d).Some? && Nth(s, t, d + 1) == Succ(s, WalkEnd(s, t, d))
    ensures Nth(s, t, d + 1).None? ==> Succ(s, WalkEnd(s, t, d)).None?
    decreases d
  {
    if Succ(s, t).Some? {
      var h := Succ(s, t).value;
      assert Nth(s, h, 0) == Some(h);
      assert Nth(s, t, d + 1) == Nth(s, h, d);
      if d > 0 {
        assert Nth(s, t, d) == Nth(s, h, d - 1);
        EndIsNth(s, h, d - 1);
      }
    }
  }

  /** The priority the walk leaves at its last thread, and at the one just beyond its reach. */
  lemma {:induction false} EndValue(s: State, t: Tid, d: nat)
    requires Linked(s) && t in s.prio && CoversExcept(s, t) && Acyclic(s, t, d + 1)
    ensures var r, e := Donate(s, t, d), WalkEnd(s, t, d);
            && e in s.prio && e in r.prio && r.prio[e] == Max(s.prio[e], s.prio[t])
            && (Succ(s, e).Some? ==> Succ(s, e).value in s.prio && Succ(s, e).value in r.prio
                                     && r.prio[Succ(s, e).value] == s.prio[Succ(s, e).value])
    decreases d
  {
    hide Donate, CoversExcept, EdgeOk, Acyclic;
    DonateBase(s, t, d);
    if d > 0 && Succ(s, t).Some? {
      var r, h := WalkStep(s, t, d);
      AcyclicTail(s, r, t, h, d);
      EndValue(r, h, d - 1);
      ChainRises(s, t, h, d - 1);
      SameEnd(s, r, h, d - 1);
      Beyond(r, h, d - 1);
    }
  }

  /** The thread beyond the reach of a walk is none of those the walk visits. */
  lemma Beyond(s: State, t: Tid, d: nat)
    requires Acyclic(s, t, d + 1)
    ensures Succ(s, WalkEnd(s, t, d)) != Some(t)
  {
    EndIsNth(s, t, d);
    assert Nth(s, t, 0) == Some(t);
  }

  /** On a chain that does not run in a circle, the walk restores the rule exactly when the
      chain ends within its reach, or the first thread beyond it has priority enough already. */
  lemma WalkExact(s: State, t: Tid, d: nat)
    requires Linked(s) && t in s.prio && CoversExcept(s, t) && Acyclic(s, t, d + 1)
    ensures Covers(Donate(s, t, d)) <==>
              (Nth(s, t, d + 1).Some? && Nth(s, t, d + 1).value in s.prio ==>
                 s.prio[t] <= s.prio[Nth(s, t, d + 1).value])
  {
    hide Donate, CoversExcept, Acyclic, Linked, Nth, WalkEnd;
    var r, e := Donate(s, t, d), WalkEnd(s, t, d);
    WalkCovers(s, t, d);
    EndValue(s, t, d);
    EndIsNth(s, t, d);
    DonateOnlyPriorities(s, t, d);
    SameGraph(s, r);
    EndCovered(s, t, d);
  }

  lemma EndCovered(s: State, t: Tid, d: nat)
    requires Linked(s) && t in s.prio && CoversExcept(s, t) && Acyclic(s, t, d + 1) && WalkEnd(s, t, d) in s.prio
    ensures WalkEnd(s, t, d) != t ==> EdgeOk(s, WalkEnd(s, t, d))
  {
  }

  // The walk as lock_acquire uses it.

  lemma WaitsExist(mlfqs: bool, pc: Pcs, info: map<Tid, Info>, locks: map<LockId, Lock>, semas: Semas)
    requires ListsOk(mlfqs, pc, info, locks) && pc.Keys == info.Keys && PcOk(pc, locks.Keys, semas.Keys)
    requires LockKeysOk(locks.Keys, semas.Keys)
    ensures forall t :: t in info && info[t].waitingLock.Some? ==> info[t].waitingLock.value in locks
    ensures forall t :: t in info && pc[t].User? ==> info[t].waitingLock.None?
  {
    forall t | t in info
      ensures info[t].waitingLock.Some? ==> info[t].waitingLock.value in locks
      ensures pc[t].User? ==> info[t].waitingLock.None?
    {
      hide Distinct;
      assert ThreadOk(mlfqs, pc[t], info[t], locks.Keys);
    }
  }

  lemma HoldersExist(pc: Pcs, info: map<Tid, Info>, locks: map<LockId, Lock>)
    requires HolderOk(pc, info, locks)
    ensures forall l :: l in locks && locks[l].holder.Some? ==> locks[l].holder.value in info
  {
  }

  lemma InvLinked(s: State, l: LockId)
    requires Inv(s) && s.pc[s.current].User? && l in s.locks
    ensures s.current in s.info && s.current in s.prio && Succ(s, s.current).None? && Linked(s) && Linked(Waiting(s, l))
  {
    hide ReadyOk, BlockedOk, WaitOk, SleepOk, SemaOk, LockOk, QueueOk, ListsOk, LockKeysOk, PcOk, HolderOk;
    WaitsExist(s.mlfqs, s.pc, s.info, s.locks, s.semas);
    HoldersExist(s.pc, s.info, s.locks);
    assert Linked(s);
  }

  lemma NewEdge(s: State, l: LockId)
    requires s.current in s.info && Succ(s, s.current).None? && Covers(s)
    ensures CoversExcept(Waiting(s, l), s.current)
  {
    var r := Waiting(s, l);
    forall t | t in r.prio && t != s.current ensures EdgeOk(r, t) {
      assert EdgeOk(s, t);
      assert Succ(r, t) == Succ(s, t);
    }
  }

  /** lock_acquire in a reachable state where every holder covers its waiters. Whatever the graph
      of waits, no priority falls; if the chain of waits from the new waiter does not run in a
      circle, the rule holds again with the new edge exactly when the tenth thread of the chain
      does not exist or already has the new waiter's priority. */
  lemma AcquireDonates(s: State, l: LockId)
    requires Inv(s) && !s.mlfqs && s.pc[s.current].User? && l in s.locks && s.locks[l].holder.Some? && Covers(s)
    ensures s.current in s.info && s.current in s.prio
    ensures NoneLowered(s, EnterAcquire(s, l))
    ensures var w, c := Waiting(s, l), s.current;
            var beyond := Nth(w, c, MAX_DONATION_DEPTH + 2);
            Acyclic(w, c, MAX_DONATION_DEPTH + 2) ==>
              (Covers(EnterAcquire(s, l)) <==>
                 (beyond.Some? && beyond.value in s.prio ==> s.prio[c] <= s.prio[beyond.value]))
  {
    hide Inv, Donate, Linked, CoversExcept, Acyclic, Nth, Covers, Succ, NoneLowered;
    InvLinked(s, l);
    NewEdge(s, l);
    var w := Waiting(s, l);
    WalkCovers(w, s.current, 1 + MAX_DONATION_DEPTH);
    if Acyclic(w, s.current, MAX_DONATION_DEPTH + 2) { WalkExact(w, s.current, 1 + MAX_DONATION_DEPTH); }
    SamePriorities(s, w, EnterAcquire(s, l));
  }

  lemma SamePriorities(s: State, w: State, r: State)
    requires s.prio == w.prio && NoneLowered(w, r)
    ensures NoneLowered(s, r)
  {
  }

  // What the other operations do with donated priorities.

  /** thread_set_priority leaves the thread with the maximum of its new base priority and its
      donated one, exactly unless its priority was not above the new one and the donation is. */
  lemma SetPriorityExact(s: State, p: int)
    requires !s.mlfqs && s.current in s.prio && s.current in s.info
    ensures var r, c := SetPriority(s, p), s.current;
            && r == s.(info := r.info, prio := r.prio) && r.info == s.info[c := s.info[c].(base := p)]
            && r.prio.Keys == s.prio.Keys && (forall t :: t in s.prio && t != c ==> r.prio[t] == s.prio[t])
            && (r.prio[c] == Max(p, s.info[c].donated) <==> !(s.prio[c] <= p < s.info[c].donated))
            && (s.prio[c] <= p < s.info[c].donated ==> r.prio[c] == p)
  {
  }

  /** lock_release: what is left of the thread's locks, sorted, and as its donation the highest of
      their recorded priorities, or the lowest priority there is. */
  lemma ReleaseRecomputes(s: State, l: LockId)
    requires Inv(s) && !s.mlfqs && s.pc[s.current].User? && l in s.locks && s.locks[l].holder == Some(s.current)
    ensures var r, c := BeginRelease(s, l), s.current;
            && c in s.info && c in r.info
            && (forall k :: k in r.info[c].locks <==> k in s.info[c].locks && k != l)
            && Sorted(LockGreater(s.locks), r.info[c].locks)
            && (r.info[c].locks == [] ==> r.info[c].donated == PRI_MIN)
            && (r.info[c].locks != [] ==> IsHighest(s.locks, r.info[c].locks, r.info[c].donated))
  {
    hide ReadyOk, BlockedOk, WaitOk, SleepOk, SemaOk, LockOk, HolderOk, QueueOk, StableSort, Removed, Distinct,
         LockGreater;
    var c := s.current;
    assert ThreadOk(s.mlfqs, s.pc[c], s.info[c], s.locks.Keys);
    ReleasedList(s.locks, s.info[c].locks, l);
  }

  /** `p` is the highest priority recorded by the locks of the list. */
  ghost predicate IsHighest(locks: map<LockId, Lock>, q: seq<LockId>, p: int) {
    && (forall k :: k in q ==> k in locks && locks[k].maxPriority <= p)
    && (exists k :: k in q && k in locks && locks[k].maxPriority == p)
  }

  lemma ReleasedList(locks: map<LockId, Lock>, own: seq<LockId>, l: LockId)
    requires Distinct(own) && forall k :: k in own ==> k in locks
    ensures var q := StableSort(LockGreater(locks), Removed(own, l));
            && (forall k :: k in q <==> k in own && k != l) && Sorted(LockGreater(locks), q)
            && (q != [] ==> q[0] in locks && IsHighest(locks, q, locks[q[0]].maxPriority))
  {
    hide StableSort, Removed;
    RemovedDistinct(own, l);
    var s := Removed(own, l);
    StableSortCorrect(LockGreater(locks), s);
    PermElems(s, StableSort(LockGreater(locks), s));
    var q := StableSort(LockGreater(locks), s);
    if q != [] {
      forall k | k in q ensures locks[k].maxPriority <= locks[q[0]].maxPriority {
        var i :| 0 <= i < |q| && q[i] == k;
        if i > 0 { assert !LockGreater(locks)(q[i], q[0]); }
      }
      assert q[0] in q;
    }
  }

  /** lock_acquire, once it has the lock: the lock records the highest priority among the threads
      still waiting for it, or the lowest priority there is. */
  lemma AcquireRecomputes(s: State, l: LockId)
    requires !s.mlfqs && l in s.locks && OfLock(l) in s.semas && s.current in s.info && s.current in s.prio
    requires Distinct(s.semas[OfLock(l)].waiters) && forall t :: t in s.semas[OfLock(l)].waiters ==> t in s.prio
    ensures var r, q := Acquired(s, l), s.semas[OfLock(l)].waiters;
            && l in r.locks && r.locks[l].holder == Some(s.current) && l in r.info[s.current].held
            && (q == [] ==> r.locks[l].maxPriority == PRI_MIN)
            && (forall t :: t in q ==> s.prio[t] <= r.locks[l].maxPriority)
            && (q != [] ==> exists t :: t in q && s.prio[t] == r.locks[l].maxPriority)
  {
    hide StableSort, InsertOrdered;
    SortedThreads(s.prio, s.semas[OfLock(l)].waiters);
    var q := StableSort(PrioGreater(s.prio), s.semas[OfLock(l)].waiters);
    assert q != [] ==> q[0] in q;
  }
}
