/** What the single operations on threads, semaphores and locks do, exactly (threads/thread.c,
    threads/synch.c). */
module KernelExact {
  import opened Wrappers
  import opened Orders
  import opened Mlfqs
  import opened Kernel
  import opened KernelInv
  import opened KernelSteps
  import opened KernelTheorems
  import opened WaitOrder
  import opened ReadyOrder

  /** Switching changes who runs and takes that thread off the ready list, and nothing else. */
  lemma Switched(s: State)
    requires Distinct(s.ready) && forall t :: t in s.ready ==> t in s.prio
    ensures var r := Schedule(s);
            && r == s.(status := s.status[r.current := Running], ready := r.ready, current := r.current)
            && (if s.ready == [] then r.current == s.idle else r.current in s.ready)
            && forall t :: t in r.ready <==> t in s.ready && t != r.current
  {
    hide Distinct, StableSort;
    if s.ready != [] {
      var q := if s.mlfqs then s.ready else StableSort(PrioGreater(s.prio), s.ready);
      SortedThreads(s.prio, s.ready);
      FirstOut(q);
    }
  }

  lemma FirstOut(q: seq<Tid>)
    requires Distinct(q) && q != []
    ensures forall t :: t in q[1..] <==> t in q && t != q[0]
  {
    assert q == [q[0]] + q[1..];
  }

  lemma Standing(s: State)
    requires Inv(s)
    ensures Domains(s) && s.current in s.status && s.current in s.pc && s.current in s.info && s.current in s.prio
    ensures s.current in s.usage && forall l :: l in s.locks <==> OfLock(l) in s.semas
    ensures s.current != s.idle ==> forall t :: t in s.ready ==> t != s.current
  {
    hide ReadyOk, WaitOk, SemaOk, LockOk, HolderOk, ListsOk, QueueOk, BlockedOk;
    ReadyIs(s);
  }

  // Semaphores.

  /** sema_down goes on exactly if the value is positive, and then takes one and does not give up the
      processor. Otherwise the thread blocks as a waiter, and the value stays 0. */
  lemma DownExact(s: State, d: SemaId)
    requires Inv(s) && d in s.semas && s.pc[s.current] == Down(d)
    ensures s.current in s.info && s.current in s.prio && (d.OfLock? ==> d.lock in s.locks)
    ensures if s.semas[d].value > 0 then GoesOn(s, TryDown(s, d), d) else Waits(s, TryDown(s, d), d)
  {
    hide Inv, InsertOrdered, StableSort, Schedule, Distinct, GoesOn, Waits;
    Standing(s);
    if s.semas[d].value == 0 { DownWaits(s, d); } else { DownGoesOn(s, d); }
  }

  ghost predicate GoesOn(s: State, r: State, d: SemaId) {
    && r.current == s.current && r.status == s.status && r.ready == s.ready && r.prio == s.prio
    && r.pc == s.pc[s.current := User]
    && d in s.semas && d in r.semas && r.semas[d].value == s.semas[d].value - 1
    && r.semas == s.semas[d := r.semas[d]] && (forall t :: t in r.semas[d].waiters <==> t in s.semas[d].waiters)
  }

  ghost predicate Waits(s: State, r: State, d: SemaId) {
    var c := s.current;
    && r.current != c && c in r.status && r.status[c] == Blocked && r.pc == s.pc[c := Down(d)] && r.prio == s.prio
    && d in r.semas && r.semas[d].value == 0 && c in r.semas[d].waiters && r.semas == s.semas[d := r.semas[d]]
    && r.locks == s.locks && r.info == s.info
  }

  lemma DownWaits(s: State, d: SemaId)
    requires Inv(s) && d in s.semas && s.pc[s.current] == Down(d) && s.semas[d].value == 0
    ensures Waits(s, Schedule(Enqueued(s, d)), d)
  {
    hide Inv, InsertOrdered, Schedule, Distinct;
    CurrentFacts(s);
    ReadyIs(s);
    InsertedIn(PrioGreater(s.prio), s.semas[d].waiters, s.current);
    Switched(Enqueued(s, d));
    OtherRuns(s);
  }

  lemma DownGoesOn(s: State, d: SemaId)
    requires Inv(s) && d in s.semas && s.semas[d].value > 0
    requires s.current in s.info && s.current in s.prio && (d.OfLock? ==> d.lock in s.locks)
    ensures GoesOn(s, TryDown(s, d), d)
  {
    hide Inv, InsertOrdered, StableSort, Distinct, LockGreater;
    WaiterFacts(s, d);
    if !s.mlfqs { SortedThreads(s.prio, s.semas[d].waiters); }
  }

  lemma OtherRuns(s: State)
    requires Inv(s) && s.pc[s.current].Down?
    ensures s.current != s.idle
  {
    CurrentFacts(s);
  }

  /** sema_init and lock_init: the value given, or one; nobody waits, and nobody holds the lock. */
  lemma InitExact(s: State, n: nat, v: nat, l: LockId)
    requires Inv(s) && v <= UINT_MAX && Plain(n) !in s.semas && l !in s.locks
    ensures Domains(s) && s.current in s.status && Enabled(s, SemaInitStep(n, v)) && Enabled(s, LockInitStep(l))
    ensures Next(s, SemaInitStep(n, v)) == s.(semas := s.semas[Plain(n) := Sema(v, [], v, 0, 0)])
    ensures Next(s, LockInitStep(l)) ==
            s.(locks := s.locks[l := Lock(None, 0)], semas := s.semas[OfLock(l) := Sema(1, [], 1, 0, 0)])
  {
    hide Inv, Domains;
    Standing(s);
  }

  /** sema_try_down takes one exactly if the value is positive; otherwise nothing changes. */
  lemma TryDownExact(s: State, n: nat)
    requires Inv(s) && Plain(n) in s.semas
    ensures Domains(s) && s.current in s.status && Enabled(s, SemaTryDownStep(n))
    ensures var r, m := Next(s, SemaTryDownStep(n)), s.semas[Plain(n)];
            if m.value > 0 then r == s.(semas := s.semas[Plain(n) := m.(value := m.value - 1, downs := m.downs + 1)])
            else r == s
  {
    hide Inv, Domains;
    Standing(s);
  }

  /** lock_try_acquire, up to the end: it succeeds exactly if the lock's semaphore has not been taken. */
  lemma TryLockExact(s: State, l: LockId)
    requires Inv(s) && l in s.locks
    ensures OfLock(l) in s.semas && s.current in s.info
    ensures var r, c := TryLock(s, l), s.current;
            if s.semas[OfLock(l)].value == 0 then r == s
            else
              var q := TryLockHolder(r, l);
              && r.pc == s.pc[c := TryHeld(l)] && q.pc == s.pc[c := User]
              && q.current == c && q.prio == s.prio && q.ready == s.ready && q.status == s.status
              && q.locks == s.locks[l := s.locks[l].(holder := Some(c))]
              && OfLock(l) in q.semas && q.semas == s.semas[OfLock(l) := q.semas[OfLock(l)]]
              && q.semas[OfLock(l)].value == 0 && c in q.info && q.info == s.info[c := q.info[c]]
              && l in q.info[c].held && (!s.mlfqs ==> l in q.info[c].locks)
  {
    hide Inv, InsertOrdered, LockGreater;
    CurrentFacts(s);
    LockValue(s, l);
    var c := s.current;
    if s.semas[OfLock(l)].value != 0 && !s.mlfqs {
      InsertedIn(LockGreater(s.locks[l := s.locks[l].(holder := Some(c))]), s.info[c].locks, l);
    }
  }

  lemma LockValue(s: State, l: LockId)
    requires Inv(s) && l in s.locks
    ensures OfLock(l) in s.semas && s.semas[OfLock(l)].value <= 1
  {
    hide ReadyOk, WaitOk, SemaOk, HolderOk, ListsOk, QueueOk, BlockedOk, SleepOk, RunOk;
  }

  /** lock_release as a whole, its four parts run one after the other. */
  ghost function ReleaseAll(s: State, l: LockId): State
    requires l in s.locks && s.current in s.info && s.current in s.prio && OfLock(l) in s.semas
  {
    var b := ReleaseUp(ReleaseHolder(BeginRelease(s, l), l), l);
    UpIs(GivenUp(ReleaseHolder(BeginRelease(s, l), l), l), OfLock(l));
    SetPriority(b, b.info[s.current].base).(pc := b.pc[s.current := User])
  }

  /** It leaves the lock free and nobody's, and the thread with the maximum of its base priority and
      what is still donated to it, exactly unless its priority was not above the base and the
      donation is. */
  lemma ReleaseExact(s: State, l: LockId)
    requires Inv(s) && s.pc[s.current].User? && l in s.locks && s.locks[l].holder == Some(s.current)
    ensures s.current in s.info && s.current in s.prio && OfLock(l) in s.semas
    ensures s.current in BeginRelease(s, l).info
    ensures GivenBack(s, ReleaseAll(s, l), l, BeginRelease(s, l).info[s.current])
  {
    hide Inv, SemaUp, StableSort, Removed, LockGreater;
    CurrentFacts(s);
    TakenValue(s, l);
    UpIs(GivenUp(ReleaseHolder(BeginRelease(s, l), l), l), OfLock(l));
  }

  ghost predicate GivenBack(s: State, r: State, l: LockId, i: Info)
    requires s.current in s.info && s.current in s.prio && l in s.locks
  {
    var c := s.current;
    && r.current == c && r.pc == s.pc[c := User] && r.locks == s.locks[l := s.locks[l].(holder := None)]
    && OfLock(l) in r.semas && r.semas[OfLock(l)].value == 1
    && r.info == s.info[c := i.(held := s.info[c].held - {l})] && i.base == s.info[c].base
    && c in r.prio && r.prio == s.prio[c := r.prio[c]]
    && r.prio[c] == (if s.mlfqs then s.prio[c]
                     else if s.prio[c] <= i.base < i.donated then i.base else Max(i.base, i.donated))
  }

  lemma TakenValue(s: State, l: LockId)
    requires Inv(s) && s.pc[s.current].User? && l in s.locks && s.locks[l].holder == Some(s.current)
    ensures OfLock(l) in s.semas && s.semas[OfLock(l)].value == 0
  {
    hide ReadyOk, WaitOk, SemaOk, ListsOk, QueueOk, BlockedOk, SleepOk;
    CurrentFacts(s);
    assert s.current in Holders(s.info, l);
  }

  // Threads.

  /** thread_create: the new thread is ready, with the priority asked for or, in MLFQS mode, the
      default and its parent's figures; it holds nothing and nothing has been donated to it. For the
      others nothing changes. */
  lemma CreateExact(s: State, t: Tid, p: int)
    requires Inv(s) && t !in s.status && s.current in s.usage
    ensures var r := Create(s, t, p);
            && r.current == s.current && r.semas == s.semas && r.locks == s.locks && r.sleeping == s.sleeping
            && t in r.ready && r.status == s.status[t := Ready] && r.pc == s.pc[t := User]
            && r.prio == s.prio[t := if s.mlfqs then 31 else p]
            && r.info == s.info[t := Info(p, 0, None, [], {})]
            && r.usage == s.usage[t := if s.mlfqs then s.usage[s.current] else Usage(0, 0)]
  {
    hide Inv, InsertOrdered;
    InsertedIn(PrioGreater(Create(s, t, p).prio), s.ready, t);
  }

  /** Where thread_unblock puts a thread: the ready threads keep their order, and it is behind exactly
      those up to whom none has a lower priority. */
  lemma UnblockPlace(s: State, t: Tid, k: nat)
    requires Inv(s) && t in s.prio && t !in s.ready && k < |s.ready|
    ensures forall u :: u in s.ready ==> u in s.prio
    ensures var w, r := s.ready, Unblock(s, t);
            && t in r.ready && (forall a, b :: Before(w, a, b) ==> Before(r.ready, a, b))
            && (Before(r.ready, w[k], t) <==> forall i :: 0 <= i <= k ==> s.prio[w[i]] >= s.prio[t])
  {
    hide Inv, InsertOrdered, Before, Distinct;
    ReadyIs(s);
    InsertPlace(PrioGreater(s.prio), s.ready, t, k);
    forall a, b | Before(s.ready, a, b) ensures Before(Unblock(s, t).ready, a, b) {
      InsertKeeps(PrioGreater(s.prio), s.ready, t, a, b);
    }
  }

  /** thread_exit: every trace of the thread is gone, and nothing else changes but who runs. */
  lemma ExitExact(s: State)
    requires Inv(s) && s.pc[s.current].User? && s.info[s.current].held == {} && s.current != s.idle
    ensures var r, c := Schedule(Exited(s)), s.current;
            && r.prio == s.prio - {c} && r.info == s.info - {c} && r.pc == s.pc - {c} && r.usage == s.usage - {c}
            && r.semas == s.semas && r.locks == s.locks && r.sleeping == s.sleeping && c !in r.status
            && r.current != c && c !in r.ready && (forall t :: t in s.ready ==> t == r.current || t in r.ready)
  {
    hide Inv, Schedule, Distinct;
    ReadyIs(s);
    var c := s.current;
    assert forall t :: t in s.ready ==> t in s.prio - {c};
    Switched(Exited(s));
  }

  /** timer_sleep returns at once for a time that is not positive; otherwise the thread blocks until
      the tick asked for. */
  lemma SleepExact(s: State, n: int)
    requires Inv(s) && s.pc[s.current].User? && s.ticks + n <= INT64_MAX
    ensures Domains(s) && s.current in s.status && Enabled(s, SleepStep(n))
    ensures var r, c := Next(s, SleepStep(n)), s.current;
            && (n <= 0 ==> r == s)
            && (n > 0 ==> c in r.sleeping && r.wakeup == s.wakeup[c := s.ticks + n] && c in r.status
                          && r.status[c] == Blocked && r.current != c)
  {
    hide Inv, Schedule, InsertOrdered, Distinct, Domains;
    Standing(s);
    CurrentFacts(s);
    ReadyIs(s);
    var c := s.current;
    if n > 0 {
      InsertedIn(WakesBefore(s.wakeup[c := s.ticks + n]), s.sleeping, c);
      Switched(FallAsleep(s, n));
    }
  }
}
