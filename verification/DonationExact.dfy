/** Exactly what the walk of lock_acquire gives to whom (threads/synch.c, thread_donate_priority). */
module DonationExact {
  import opened Wrappers
  import opened Kernel
  import opened KernelInv
  import opened KernelSteps
  import opened Donation

  /** Thread `x` is one of the first `d` threads that `t` waits for, directly or not. */
  ghost predicate OnChain(s: State, t: Tid, d: nat, x: Tid) {
    exists i: nat :: 1 <= i <= d && Nth(s, t, i) == Some(x)
  }

  /** One of the first `d` threads of the chain, `t` included, waits on lock `l`. */
  ghost predicate WaitedOn(s: State, t: Tid, d: nat, l: LockId) {
    exists i: nat :: i < d && WaitsAt(s, t, i, l)
  }

  /** The thread `i` places along the chain waits on lock `l`. */
  ghost predicate WaitsAt(s: State, t: Tid, i: nat, l: LockId) {
    Nth(s, t, i).Some? && Nth(s, t, i).value in s.info && s.info[Nth(s, t, i).value].waitingLock == Some(l)
  }

  lemma ChainTail(s: State, r: State, t: Tid, h: Tid, d: nat, x: Tid)
    requires Succ(s, t) == Some(h) && d > 0 && forall u :: Succ(r, u) == Succ(s, u)
    ensures OnChain(s, t, d, x) <==> x == h || OnChain(r, h, d - 1, x)
  {
    assert Nth(s, h, 0) == Some(h);
    assert Nth(s, t, 1) == Nth(s, h, 0);
    if i: nat :| 1 <= i <= d && Nth(s, t, i) == Some(x) {
      assert Nth(s, h, i - 1) == Some(x);
      SameNth(s, r, h, i - 1);
    }
    if i: nat :| 1 <= i <= d - 1 && Nth(r, h, i) == Some(x) {
      SameNth(s, r, h, i);
      assert Nth(s, t, i + 1) == Some(x);
    }
  }

  lemma ChainAlone(s: State, t: Tid, d: nat, x: Tid)
    requires Succ(s, t).None? || d == 0
    ensures !OnChain(s, t, d, x)
  {
  }

  /** The thread the walk starts from is not on its own chain. */
  lemma NotOwnChain(s: State, t: Tid, d: nat)
    requires Acyclic(s, t, d)
    ensures !OnChain(s, t, d, t)
  {
    assert Nth(s, t, 0) == Some(t);
  }

  /** Along the chain, after its first edge, no priority is below that of the first holder. */
  lemma Rises(s: State, t: Tid, h: Tid, d: nat, x: Tid)
    requires Linked(s) && h in s.prio && CoversExcept(s, t) && OnChain(s, h, d, x)
    requires forall i: nat :: i <= d ==> Nth(s, h, i) != Some(t)
    ensures x in s.prio && s.prio[h] <= s.prio[x]
  {
    hide Linked, CoversExcept, Nth, WalkEnd;
    var i: nat :| 1 <= i <= d && Nth(s, h, i) == Some(x);
    ChainRises(s, t, h, i);
    EndIsNth(s, h, i);
  }

  /** Every thread on the chain gets the priority of the thread the walk starts from, if its own is
      lower, and no other thread's priority changes. */
  lemma {:induction false} WalkGives(s: State, t: Tid, d: nat, x: Tid)
    requires Linked(s) && t in s.prio && CoversExcept(s, t) && Acyclic(s, t, d) && x in s.prio
    ensures var r := Donate(s, t, d);
            x in r.prio && r.prio[x] == if OnChain(s, t, d, x) then Max(s.prio[x], s.prio[t]) else s.prio[x]
    decreases d
  {
    hide Donate, Linked, CoversExcept, Acyclic, Succ, OnChain, Nth;
    DonateBase(s, t, d);
    if d == 0 || Succ(s, t).None? {
      ChainAlone(s, t, d, x);
    } else {
      var r, h := WalkStep(s, t, d);
      AcyclicTail(s, r, t, h, d - 1);
      WalkGives(r, h, d - 1, x);
      ChainTail(s, r, t, h, d, x);
      NotOwnChain(r, h, d - 1);
      ChainTail(s, s, t, h, d, x);
      if OnChain(s, h, d - 1, x) { Rises(s, t, h, d - 1, x); }
    }
  }

  // What is recorded.

  lemma WaitedTail(s: State, r: State, t: Tid, h: Tid, d: nat, l: LockId)
    requires Succ(s, t) == Some(h) && d > 0 && forall u :: Succ(r, u) == Succ(s, u)
    requires r.info.Keys == s.info.Keys && forall u :: u in s.info ==> r.info[u].waitingLock == s.info[u].waitingLock
    ensures WaitedOn(s, t, d, l) <==> (t in s.info && s.info[t].waitingLock == Some(l)) || WaitedOn(r, h, d - 1, l)
  {
    assert Nth(s, t, 0) == Some(t);
    if i: nat :| i < d && WaitsAt(s, t, i, l) {
      if i > 0 {
        assert Nth(s, t, i) == Nth(s, h, i - 1);
        SameNth(s, r, h, i - 1);
        assert WaitsAt(r, h, i - 1, l);
      }
    }
    if t in s.info && s.info[t].waitingLock == Some(l) { assert WaitsAt(s, t, 0, l); }
    if i: nat :| i < d - 1 && WaitsAt(r, h, i, l) {
      SameNth(s, r, h, i);
      assert Nth(s, t, i + 1) == Nth(s, h, i);
      assert WaitsAt(s, t, i + 1, l);
    }
  }

  /** The walk touches no lock and no thread off the chain. */
  lemma {:induction false} WalkLeaves(s: State, t: Tid, d: nat, x: Tid, l: LockId)
    requires Linked(s) && t in s.prio && CoversExcept(s, t)
    ensures var r := Donate(s, t, d);
            && (x in s.info && !OnChain(s, t, d, x) ==> x in r.info && r.info[x] == s.info[x])
            && (l in s.locks && !WaitedOn(s, t, d, l) ==> l in r.locks && r.locks[l] == s.locks[l])
    decreases d
  {
    hide Donate, Linked, CoversExcept, Succ, OnChain, Nth, WaitedOn;
    DonateStops(s, t, d, x, l);
    if d > 0 && Succ(s, t).Some? {
      var r, h := WalkStep(s, t, d);
      SameWaits(s, t, s.info[t].waitingLock.value, h);
      WalkLeaves(r, h, d - 1, x, l);
      ChainTail(s, r, t, h, d, x);
      WaitedTail(s, r, t, h, d, l);
    }
  }

  lemma DonateStops(s: State, t: Tid, d: nat, x: Tid, l: LockId)
    requires Linked(s) && t in s.prio
    ensures d == 0 || Succ(s, t).None? ==>
              var r := Donate(s, t, d);
              && r.info == s.info
              && (l in s.locks && !WaitedOn(s, t, d, l) ==> l in r.locks && r.locks[l] == s.locks[l])
  {
    if d > 0 && t in s.info && s.info[t].waitingLock == Some(l) { FirstWaits(s, t, d, l); }
    hide WaitedOn;
  }

  lemma FirstWaits(s: State, t: Tid, d: nat, l: LockId)
    requires d > 0 && t in s.info && s.info[t].waitingLock == Some(l)
    ensures WaitedOn(s, t, d, l)
  {
    NthZero(s, t);
    assert WaitsAt(s, t, 0, l);
  }

  lemma NthZero(s: State, t: Tid)
    ensures Nth(s, t, 0) == Some(t)
  {
  }

  lemma {:induction false} NthSucc(s: State, t: Tid, i: nat)
    requires Nth(s, t, i).Some?
    ensures Nth(s, t, i + 1) == Succ(s, Nth(s, t, i).value)
    decreases i
  {
    if i > 0 {
      var h := Succ(s, t).value;
      assert Nth(s, t, i) == Nth(s, h, i - 1) && Nth(s, t, i + 1) == Nth(s, h, i);
      NthSucc(s, h, i - 1);
    } else if Succ(s, t).Some? {
      NthZero(s, Succ(s, t).value);
    }
  }

  lemma NthTail(s: State, r: State, t: Tid, h: Tid, i: nat)
    requires Succ(s, t) == Some(h) && i > 0 && forall u :: Succ(r, u) == Succ(s, u)
    ensures Nth(s, t, i) == Nth(r, h, i - 1)
  {
    SameNth(s, r, h, i - 1);
  }

  /** The last lock of the chain, that nobody holds. */
  lemma LastLock(s: State, t: Tid, d: nat, i: nat, l: LockId)
    requires Linked(s) && t in s.prio && Succ(s, t).None? && i < d && WaitsAt(s, t, i, l)
    ensures i == 0 && l in s.locks && s.locks[l].holder.None?
    ensures var k := s.locks[l];
            Donate(s, t, d) == s.(locks := s.locks[l := k.(maxPriority := Max(k.maxPriority, s.prio[t]))])
  {
  }

  /** Nobody further along the chain waits on the lock of an earlier thread. */
  lemma LocksApart(s: State, t: Tid, d: nat, h: Tid, i: nat, l: LockId)
    requires Acyclic(s, t, d) && Succ(s, t) == Some(h) && 0 < i < d && WaitsAt(s, t, i, l) && l in s.locks
    ensures t in s.info && s.info[t].waitingLock != Some(l) && s.locks[l].holder != Some(h)
  {
    hide Acyclic;
    NthZero(s, t);
    NthSucc(s, t, 0);
    NthSucc(s, t, i);
    Differ(s, t, d, 1, i + 1);
  }

  lemma Differ(s: State, t: Tid, d: nat, i: nat, j: nat)
    requires Acyclic(s, t, d) && i < j <= d
    ensures Nth(s, t, j).Some? ==> Nth(s, t, i) != Nth(s, t, j)
  {
  }

  lemma NotWaited(s: State, r: State, t: Tid, h: Tid, d: nat, l: LockId)
    requires Acyclic(s, t, d) && Succ(s, t) == Some(h) && d > 0 && forall u :: Succ(r, u) == Succ(s, u)
    requires r.info.Keys == s.info.Keys && forall u :: u in s.info ==> r.info[u].waitingLock == s.info[u].waitingLock
    requires t in s.info && s.info[t].waitingLock == Some(l) && l in s.locks
    ensures !WaitedOn(r, h, d - 1, l)
  {
    hide Acyclic, Nth, Succ;
    forall i: nat | i < d - 1 ensures !WaitsAt(r, h, i, l) {
      NthTail(s, r, t, h, i + 1);
      if WaitsAt(s, t, i + 1, l) { LocksApart(s, t, d, h, i + 1, l); }
    }
  }

  lemma SameWaits(s: State, t: Tid, l: LockId, h: Tid)
    requires t in s.prio && l in s.locks && h in s.prio && h in s.info
    ensures var r := DonateEdge(s, t, l, h);
            r.info.Keys == s.info.Keys && forall u :: u in s.info ==> r.info[u].waitingLock == s.info[u].waitingLock
  {
  }

  /** Each lock on the chain records the priority of the thread that waits for it, as it is after the
      walk, and so does its holder, unless they had recorded a higher one. */
  lemma {:induction false} WalkRecords(s: State, t: Tid, d: nat, i: nat, l: LockId)
    requires Linked(s) && t in s.prio && CoversExcept(s, t) && Acyclic(s, t, d)
    requires i < d && WaitsAt(s, t, i, l) && l in s.locks && Nth(s, t, i).value in s.prio
    ensures var r, y := Donate(s, t, d), Nth(s, t, i).value;
            && y in r.prio && l in r.locks && r.locks[l].maxPriority == Max(s.locks[l].maxPriority, r.prio[y])
            && (s.locks[l].holder.Some? ==>
                  var h := s.locks[l].holder.value;
                  h in s.info && h in r.info && r.info[h].donated == Max(s.info[h].donated, r.prio[y]))
    decreases d
  {
    hide Donate, Linked, CoversExcept, Acyclic, Succ, OnChain, Nth, WaitedOn;
    NthZero(s, t);
    if Succ(s, t).None? {
      LastLock(s, t, d, i, l);
    } else {
      var r, h := WalkStep(s, t, d);
      AcyclicTail(s, r, t, h, d - 1);
      WaitEdge(s, t);
      SameWaits(s, t, s.info[t].waitingLock.value, h);
      if i == 0 {
        NotOwnChain(r, h, d - 1);
        NotWaited(s, r, t, h, d, l);
        WalkLeaves(r, h, d - 1, h, l);
        WalkGives(s, t, d, t);
        NotOwnChain(s, t, d);
      } else {
        NthTail(s, r, t, h, i);
        LocksApart(s, t, d, h, i, l);
        WalkRecords(r, h, d - 1, i - 1, l);
      }
    }
  }

  // The walk as lock_acquire uses it.

  /** lock_acquire in a reachable state where every holder covers its waiters, along a chain of waits
      that does not run in a circle. The nine threads it waits for first, directly or not, get its
      priority if theirs is lower; no other thread's priority changes, nor what is recorded off the
      chain; and on it each lock and each holder records the priority of the waiter. */
  lemma AcquireGives(s: State, l: LockId, x: Tid, i: nat, k: LockId)
    requires Inv(s) && !s.mlfqs && s.pc[s.current].User? && l in s.locks && s.locks[l].holder.Some? && Covers(s)
    requires s.current in s.info && s.current in s.prio && x in s.prio && k in s.locks
    requires Acyclic(Waiting(s, l), s.current, 1 + MAX_DONATION_DEPTH)
    ensures var w, c, r, n := Waiting(s, l), s.current, EnterAcquire(s, l), 1 + MAX_DONATION_DEPTH;
            && x in r.prio && x in r.info && x in s.info && k in r.locks
            && r.prio[x] == (if OnChain(w, c, n, x) then Max(s.prio[x], s.prio[c]) else s.prio[x])
            && (!OnChain(w, c, n, x) ==> r.info[x].donated == s.info[x].donated)
            && (!WaitedOn(w, c, n, k) ==> r.locks[k] == s.locks[k])
            && (i < n && WaitsAt(w, c, i, k) && s.locks[k].holder == Some(x) ==>
                  var y := Nth(w, c, i).value;
                  && y in r.prio
                  && r.locks[k].maxPriority == Max(s.locks[k].maxPriority, r.prio[y])
                  && r.info[x].donated == Max(s.info[x].donated, r.prio[y]))
  {
    hide Inv, Donate, Linked, CoversExcept, Acyclic, Nth, Covers, Succ, OnChain, WaitedOn;
    InvLinked(s, l);
    NewEdge(s, l);
    var w, c, n := Waiting(s, l), s.current, 1 + MAX_DONATION_DEPTH;
    WalkGives(w, c, n, x);
    WalkLeaves(w, c, n, x, k);
    DonateOnlyPriorities(w, c, n);
    SameThreads(w);
    if i < n && WaitsAt(w, c, i, k) { WalkRecords(w, c, n, i, k); }
  }

  lemma SameThreads(s: State)
    requires Linked(s)
    ensures s.info.Keys == s.prio.Keys
  {
  }
}
