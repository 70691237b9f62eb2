/** The invariant of the kernel state machine, and the proof that every step keeps it. */
module KernelInv {
  import opened Wrappers
  import opened Orders
  import opened Kernel

  type Statuses = map<Tid, Status>
  type Pcs = map<Tid, Pc>
  type Semas = map<SemaId, Sema>

  /** Exactly one thread is running, or none while a switch is under way. */
  ghost predicate RunOk(status: Statuses, current: Tid, run: Option<Tid>) {
    && (forall t :: t in status ==> (status[t] == Running <==> run == Some(t)))
    && (run.Some? ==> run.value == current && current in status)
  }

  /** The ready list holds exactly the ready threads, once each; the idle thread is never on it. */
  ghost predicate ReadyOk(status: Statuses, ready: seq<Tid>, idle: Tid) {
    && Distinct(ready)
    && (forall t :: t in ready <==> t in status && t != idle && status[t] == Ready)
  }

  /** A blocked thread has a reason: a semaphore, the alarm clock, or being the idle thread. */
  ghost predicate BlockedOk(status: Statuses, pc: Pcs, idle: Tid) {
    forall t :: t in status && t in pc ==>
      && (pc[t].Idling? <==> t == idle)
      && (status[t] == Blocked ==> pc[t].Down? || pc[t].Asleep? || pc[t].Idling?)
      && (pc[t].Asleep? ==> status[t] == Blocked)
  }

  ghost predicate BlockedOn(status: Statuses, pc: Pcs, t: Tid, id: SemaId) {
    t in status && t in pc && status[t] == Blocked && pc[t] == Down(id)
  }

  /** The waiters of a semaphore are exactly the threads blocked on it, once each. */
  ghost predicate WaitOk(status: Statuses, pc: Pcs, semas: Semas) {
    forall id :: id in semas ==> WaitersOk(status, pc, id, semas[id].waiters)
  }

  ghost predicate WaitersOk(status: Statuses, pc: Pcs, id: SemaId, waiters: seq<Tid>) {
    Distinct(waiters) && forall t :: t in waiters <==> BlockedOn(status, pc, t, id)
  }

  /** The sleeping list holds exactly the sleepers, once each, in order of their wake-up ticks,
      which all lie in the future. */
  ghost predicate SleepOk(pc: Pcs, sleeping: seq<Tid>, wakeup: map<Tid, int>, ticks: int) {
    && Distinct(sleeping)
    && (forall t :: t in sleeping <==> t in pc && pc[t].Asleep?)
    && Sorted(WakesBefore(wakeup), sleeping)
    && (forall t :: t in sleeping ==> t in wakeup && wakeup[t] > ticks)
  }

  /** The threads that have been woken from a semaphore, or have just called sema_down, and have
      yet to test its value. */
  ghost function Woken(status: Statuses, pc: Pcs, id: SemaId): set<Tid> {
    set t | t in status && t in pc && pc[t] == Down(id) && status[t] != Blocked
  }

  /** Conservation, and no lost wake-up: while threads are blocked on a semaphore, its value
      never exceeds the number of threads about to test it. */
  ghost predicate SemaOk(status: Statuses, pc: Pcs, semas: Semas) {
    forall id :: id in semas ==> OneSemaOk(status, pc, id, semas[id])
  }

  ghost predicate OneSemaOk(status: Statuses, pc: Pcs, id: SemaId, m: Sema) {
    && m.value + m.downs == m.init + m.ups
    && (m.waiters != [] ==> m.value <= |Woken(status, pc, id)|)
  }

  /** The threads that have taken a lock and not given it back. */
  ghost function Holders(info: map<Tid, Info>, l: LockId): set<Tid> {
    set t | t in info && l in info[t].held
  }

  /** Mutual exclusion: a free lock has value one and no holder, a taken one value zero and
      exactly one. */
  ghost predicate LockOk(info: map<Tid, Info>, locks: map<LockId, Lock>, semas: Semas) {
    forall l :: l in locks && OfLock(l) in semas ==>
      |Holders(info, l)| + semas[OfLock(l)].value == 1 && semas[OfLock(l)].init == 1
  }

  /** The windows in which `holder` lags behind. */
  ghost predicate Between(p: Pc, l: LockId) { p == TryHeld(l) || p == Releasing2(l) }

  /** `holder` names the thread that holds the lock, except in those windows. */
  ghost predicate HolderOk(pc: Pcs, info: map<Tid, Info>, locks: map<LockId, Lock>) {
    && (forall l, t :: l in locks && t in info && t in pc ==>
          (locks[l].holder == Some(t) <==> l in info[t].held && !Between(pc[t], l)))
    && (forall l :: l in locks && locks[l].holder.Some? ==> locks[l].holder.value in info)
  }

  /** A thread's list of locks and its `waiting_lock` agree with what it holds and does. */
  ghost predicate ListsOk(mlfqs: bool, pc: Pcs, info: map<Tid, Info>, locks: map<LockId, Lock>) {
    forall t :: t in info && t in pc ==> ThreadOk(mlfqs, pc[t], info[t], locks.Keys)
  }

  ghost predicate ThreadOk(mlfqs: bool, p: Pc, i: Info, locks: set<LockId>) {
    && Distinct(i.locks)
    && i.held <= locks
    && (forall l :: l in i.locks <==> !mlfqs && l in i.held && !Between(p, l) && p != Releasing(l))
    && (p.TryHeld? || p.Releasing? || p.Releasing2? ==> p.lock in i.held)
    && (i.waitingLock.Some? <==> !mlfqs && p.Down? && p.sema.OfLock?)
    && (i.waitingLock.Some? ==> i.waitingLock.value == p.sema.lock)
    && (p.Down? && p.sema.OfLock? ==> p.sema.lock !in i.held)
  }

  /** In MLFQS mode the ready list is always sorted. */
  ghost predicate QueueOk(mlfqs: bool, prio: map<Tid, int>, ready: seq<Tid>) {
    mlfqs ==> Sorted(PrioGreater(prio), ready)
  }

  ghost predicate InvRun(s: State, run: Option<Tid>) {
    && Domains(s)
    && RunOk(s.status, s.current, run)
    && ReadyOk(s.status, s.ready, s.idle)
    && BlockedOk(s.status, s.pc, s.idle)
    && WaitOk(s.status, s.pc, s.semas)
    && SleepOk(s.pc, s.sleeping, s.wakeup, s.ticks)
    && SemaOk(s.status, s.pc, s.semas)
    && LockOk(s.info, s.locks, s.semas)
    && HolderOk(s.pc, s.info, s.locks)
    && ListsOk(s.mlfqs, s.pc, s.info, s.locks)
    && QueueOk(s.mlfqs, s.prio, s.ready)
  }

  /** What holds between any two steps. */
  ghost predicate Inv(s: State) { InvRun(s, Some(s.current)) }

  // Lists of threads.

  lemma PrioWeak(prio: map<Tid, int>, s: seq<Tid>)
    requires forall t :: t in s ==> t in prio
    ensures StrictWeak(PrioGreater(prio), s)
  {
  }

  /** Sorting a list of threads: the same threads, the first of highest priority. */
  lemma SortedThreads(prio: map<Tid, int>, s: seq<Tid>)
    requires Distinct(s) && forall t :: t in s ==> t in prio
    ensures var q := StableSort(PrioGreater(prio), s);
            && Distinct(q) && |q| == |s| && (forall t :: t in q <==> t in s)
            && Sorted(PrioGreater(prio), q)
            && (q != [] ==> forall t :: t in s ==> prio[t] <= prio[q[0]])
  {
    var q := StableSort(PrioGreater(prio), s);
    PrioWeak(prio, s);
    StableSortCorrect(PrioGreater(prio), s);
    PermDistinct(s, q);
    PermElems(s, q);
    SortedFirst(prio, q);
  }

  lemma SortedFirst(prio: map<Tid, int>, q: seq<Tid>)
    requires Sorted(PrioGreater(prio), q) && forall t :: t in q ==> t in prio
    ensures q != [] ==> forall t :: t in q ==> prio[t] <= prio[q[0]]
  {
    if q != [] {
      forall t | t in q ensures prio[t] <= prio[q[0]] {
        var i :| 0 <= i < |q| && q[i] == t;
        assert i > 0 ==> !PrioGreater(prio)(q[i], q[0]);
      }
    }
  }

  /** Ordered insertion of a new element. */
  lemma Inserted<T>(less: (T, T) -> bool, s: seq<T>, x: T)
    requires Distinct(s) && x !in s
    ensures var r := InsertOrdered(less, s, x);
            Distinct(r) && forall t :: t in r <==> t in s || t == x
  {
    var p := InsertIndex(less, s, x);
    var r := InsertOrdered(less, s, x);
    assert r == s[..p] + [x] + s[p..];
    forall t ensures t in r <==> t in s || t == x {
      assert t in s <==> t in s[..p] || t in s[p..];
    }
  }

  /** In MLFQS mode an insertion keeps the ready list sorted. */
  lemma InsertedSortedThreads(prio: map<Tid, int>, s: seq<Tid>, x: Tid)
    requires Sorted(PrioGreater(prio), s) && x in prio && forall t :: t in s ==> t in prio
    ensures Sorted(PrioGreater(prio), InsertOrdered(PrioGreater(prio), s, x))
  {
    PrioWeak(prio, s + [x]);
    InsertOrderedSorted(PrioGreater(prio), s, x);
  }

  lemma DistinctTail<T>(q: seq<T>)
    requires Distinct(q) && q != []
    ensures Distinct(q[1..]) && forall t :: t in q[1..] <==> t in q && t != q[0]
  {
    assert q == [q[0]] + q[1..];
  }

  // Scheduling.

  /** next_thread_to_run picks a ready thread of the highest priority, or the idle thread when
      no thread is ready. */
  lemma NextThreadFacts(s: State)
    requires Distinct(s.ready) && (forall t :: t in s.ready ==> t in s.prio) && QueueOk(s.mlfqs, s.prio, s.ready)
    ensures var (next, rest) := NextThread(s);
            && (s.ready == [] ==> next == s.idle && rest == [])
            && (s.ready != [] ==> next in s.ready && forall t :: t in s.ready ==> s.prio[t] <= s.prio[next])
            && Distinct(rest) && (forall t :: t in rest <==> t in s.ready && t != next)
            && QueueOk(s.mlfqs, s.prio, rest)
  {
    if s.ready != [] {
      if s.mlfqs {
        QueueHead(s.prio, s.ready);
      } else {
        SortedThreads(s.prio, s.ready);
        QueueHead(s.prio, StableSort(PrioGreater(s.prio), s.ready));
      }
    }
  }

  lemma QueueHead(prio: map<Tid, int>, q: seq<Tid>)
    requires q != [] && Distinct(q) && Sorted(PrioGreater(prio), q) && forall t :: t in q ==> t in prio
    ensures forall t :: t in q ==> prio[t] <= prio[q[0]]
    ensures Distinct(q[1..]) && Sorted(PrioGreater(prio), q[1..])
    ensures forall t :: t in q[1..] <==> t in q && t != q[0]
  {
    SortedFirst(prio, q);
    DistinctTail(q);
  }

  /** Statuses that differ only between Running and Ready, and for the idle thread. */
  ghost predicate SameBlocked(status: Statuses, status': Statuses, pc: Pcs) {
    && status'.Keys == status.Keys
    && forall t :: t in status && t in pc && !pc[t].Idling? ==> (status[t] == Blocked <==> status'[t] == Blocked)
  }

  lemma SameBlockedLists(status: Statuses, status': Statuses, pc: Pcs, semas: Semas, idle: Tid)
    requires SameBlocked(status, status', pc)
    requires WaitOk(status, pc, semas) && SemaOk(status, pc, semas) && BlockedOk(status, pc, idle)
    ensures WaitOk(status', pc, semas) && SemaOk(status', pc, semas) && BlockedOk(status', pc, idle)
  {
    forall id | id in semas
      ensures WaitersOk(status', pc, id, semas[id].waiters) && OneSemaOk(status', pc, id, semas[id])
    {
      assert forall t :: BlockedOn(status, pc, t, id) <==> BlockedOn(status', pc, t, id);
      assert Woken(status, pc, id) == Woken(status', pc, id);
      assert WaitersOk(status, pc, id, semas[id].waiters) && OneSemaOk(status, pc, id, semas[id]);
    }
  }

  /** The thread switched to runs and leaves the ready list. */
  lemma SwitchTo(status: Statuses, pc: Pcs, current: Tid, ready: seq<Tid>, idle: Tid, next: Tid, rest: seq<Tid>)
    requires RunOk(status, current, None) && ReadyOk(status, ready, idle) && BlockedOk(status, pc, idle)
    requires idle in status && status.Keys == pc.Keys
    requires if ready == [] then next == idle else next in ready
    requires Distinct(rest) && forall t :: t in rest <==> t in ready && t != next
    ensures next in status && status[next] != Running
    ensures RunOk(status[next := Running], next, Some(next))
    ensures ReadyOk(status[next := Running], rest, idle)
    ensures SameBlocked(status, status[next := Running], pc)
  {
    assert next in status;
  }

  lemma ReadyFacts(s: State, run: Option<Tid>)
    requires InvRun(s, run)
    ensures Distinct(s.ready) && forall t :: t in s.ready ==> t in s.prio
  {
  }

  lemma ScheduleInv(s: State)
    requires InvRun(s, None)
    ensures Inv(Schedule(s))
  {
    hide RunOk, ReadyOk, BlockedOk, WaitOk, SleepOk, SemaOk, LockOk, HolderOk, ListsOk, QueueOk, LockKeysOk, PcOk,
         NextThread, Distinct, SameBlocked;
    ReadyFacts(s, None);
    NextThreadFacts(s);
    var (next, rest) := NextThread(s);
    SwitchTo(s.status, s.pc, s.current, s.ready, s.idle, next, rest);
    SameBlockedLists(s.status, s.status[next := Running], s.pc, s.semas, s.idle);
    UpdateKeys(s.status, next, Running);
  }

  // Changes of the current thread's place in the code.

  /** The running thread moves to `p`, from a place outside sema_down. */
  lemma MovePc(status: Statuses, pc: Pcs, semas: Semas, idle: Tid, c: Tid, p: Pc)
    requires c in status && c in pc && status[c] == Running && !pc[c].Down? && !pc[c].Idling?
    requires !p.Asleep? && !p.Idling?
    requires BlockedOk(status, pc, idle) && WaitOk(status, pc, semas) && SemaOk(status, pc, semas)
    ensures BlockedOk(status, pc[c := p], idle) && WaitOk(status, pc[c := p], semas)
    ensures SemaOk(status, pc[c := p], semas)
  {
    var pc' := pc[c := p];
    forall id | id in semas
      ensures WaitersOk(status, pc', id, semas[id].waiters) && OneSemaOk(status, pc', id, semas[id])
    {
      assert WaitersOk(status, pc, id, semas[id].waiters) && OneSemaOk(status, pc, id, semas[id]);
      assert forall t :: BlockedOn(status, pc, t, id) <==> BlockedOn(status, pc', t, id);
      SubsetSize(Woken(status, pc, id), Woken(status, pc', id));
    }
  }

  lemma SubsetSize<T>(a: set<T>, b: set<T>)
    requires a <= b
    ensures |a| <= |b|
  {
    assert b == a + (b - a);
  }

  lemma MoveSleep(pc: Pcs, sleeping: seq<Tid>, wakeup: map<Tid, int>, ticks: int, c: Tid, p: Pc)
    requires SleepOk(pc, sleeping, wakeup, ticks) && c in pc && !pc[c].Asleep? && !p.Asleep?
    ensures SleepOk(pc[c := p], sleeping, wakeup, ticks)
  {
  }

  /** Locks do not depend on where a thread is, outside the windows around `holder`. */
  lemma MoveHolder(pc: Pcs, info: map<Tid, Info>, locks: map<LockId, Lock>, c: Tid, p: Pc)
    requires HolderOk(pc, info, locks) && c in pc
    requires !pc[c].TryHeld? && !pc[c].Releasing2? && !p.TryHeld? && !p.Releasing2?
    ensures HolderOk(pc[c := p], info, locks)
  {
  }

  // sema_down.

  /** A thread that finds value zero joins the waiters. */
  lemma BlockOn(status: Statuses, pc: Pcs, semas: Semas, idle: Tid, c: Tid, id: SemaId, w: seq<Tid>)
    requires c in status && c in pc && status[c] == Running && pc[c] == Down(id) && id in semas
    requires semas[id].value == 0
    requires Distinct(w) && forall t :: t in w <==> t in semas[id].waiters || t == c
    requires BlockedOk(status, pc, idle) && WaitOk(status, pc, semas) && SemaOk(status, pc, semas)
    ensures var status', semas' := status[c := Blocked], semas[id := semas[id].(waiters := w)];
            BlockedOk(status', pc, idle) && WaitOk(status', pc, semas') && SemaOk(status', pc, semas')
  {
    var status', semas' := status[c := Blocked], semas[id := semas[id].(waiters := w)];
    forall i | i in semas'
      ensures WaitersOk(status', pc, i, semas'[i].waiters) && OneSemaOk(status', pc, i, semas'[i])
    {
      assert WaitersOk(status, pc, i, semas[i].waiters) && OneSemaOk(status, pc, i, semas[i]);
      assert forall t :: BlockedOn(status', pc, t, i) <==> BlockedOn(status, pc, t, i) || (i == id && t == c);
      if i != id {
        assert Woken(status, pc, i) == Woken(status', pc, i);
      }
    }
  }

  lemma BlockReady(status: Statuses, ready: seq<Tid>, idle: Tid, c: Tid)
    requires RunOk(status, c, Some(c)) && ReadyOk(status, ready, idle)
    ensures RunOk(status[c := Blocked], c, None) && ReadyOk(status[c := Blocked], ready, idle)
  {
  }

  /** The value and history of no lock's semaphore change. */
  lemma LockWaiters(info: map<Tid, Info>, locks: map<LockId, Lock>, semas: Semas, id: SemaId, m: Sema)
    requires LockOk(info, locks, semas) && id in semas
    requires id.Plain? || (m.value == semas[id].value && m.init == semas[id].init)
    ensures LockOk(info, locks, semas[id := m])
  {
  }

  lemma EnqueuedWaiters(s: State, id: SemaId)
    requires Inv(s) && id in s.semas && s.pc[s.current] == Down(id)
    ensures var w := InsertOrdered(PrioGreater(s.prio), s.semas[id].waiters, s.current);
            Distinct(w) && forall t :: t in w <==> t in s.semas[id].waiters || t == s.current
  {
    assert WaitersOk(s.status, s.pc, id, s.semas[id].waiters);
    Inserted(PrioGreater(s.prio), s.semas[id].waiters, s.current);
  }

  lemma CurrentFacts(s: State)
    requires Inv(s)
    ensures s.current in s.status && s.current in s.pc && s.status[s.current] == Running
    ensures s.current in s.info && s.current in s.prio && s.current in s.usage && s.current in s.wakeup
    ensures !s.pc[s.current].Asleep? && (s.pc[s.current].Idling? <==> s.current == s.idle)
  {
  }

  lemma EnqueuedInv(s: State, id: SemaId)
    requires Inv(s) && s.current in s.pc && s.pc[s.current] == Down(id) && id in s.semas && s.semas[id].value == 0
    ensures InvRun(Enqueued(s, id), None)
  {
    hide RunOk, ReadyOk, BlockedOk, WaitOk, SleepOk, SemaOk, LockOk, HolderOk, ListsOk, QueueOk, LockKeysOk, PcOk,
         InsertOrdered, PrioGreater, Distinct;
    CurrentFacts(s);
    EnqueuedWaiters(s, id);
    var r, c := Enqueued(s, id), s.current;
    BlockOn(s.status, s.pc, s.semas, s.idle, c, id, r.semas[id].waiters);
    BlockReady(s.status, s.ready, s.idle, c);
    LockWaiters(s.info, s.locks, s.semas, id, r.semas[id]);
    UpdateKeys(s.status, c, Blocked);
    UpdateKeys(s.semas, id, r.semas[id]);
    assert r.pc == s.pc;
  }

  /** A thread in sema_down finds a positive value, takes one and leaves. */
  lemma TakeOne(status: Statuses, pc: Pcs, semas: Semas, idle: Tid, c: Tid, id: SemaId, w: seq<Tid>)
    requires c in status && c in pc && status[c] == Running && pc[c] == Down(id) && id in semas && c != idle
    requires semas[id].value > 0
    requires Distinct(w) && |w| == |semas[id].waiters| && forall t :: t in w <==> t in semas[id].waiters
    requires BlockedOk(status, pc, idle) && WaitOk(status, pc, semas) && SemaOk(status, pc, semas)
    ensures var m := semas[id];
            var pc', semas' := pc[c := User], semas[id := m.(value := m.value - 1, downs := m.downs + 1, waiters := w)];
            BlockedOk(status, pc', idle) && WaitOk(status, pc', semas') && SemaOk(status, pc', semas')
  {
    var m := semas[id];
    var pc', semas' := pc[c := User], semas[id := m.(value := m.value - 1, downs := m.downs + 1, waiters := w)];
    forall i | i in semas'
      ensures WaitersOk(status, pc', i, semas'[i].waiters) && OneSemaOk(status, pc', i, semas'[i])
    {
      assert WaitersOk(status, pc, i, semas[i].waiters) && OneSemaOk(status, pc, i, semas[i]);
      assert forall t :: BlockedOn(status, pc', t, i) <==> BlockedOn(status, pc, t, i);
      if i == id {
        assert Woken(status, pc', i) == Woken(status, pc, i) - {c} && c in Woken(status, pc, i);
      } else {
        assert Woken(status, pc', i) == Woken(status, pc, i);
      }
    }
  }

  lemma TakePlainInv(s: State, id: SemaId)
    requires Inv(s) && s.current in s.pc && s.pc[s.current] == Down(id) && id.Plain? && id in s.semas
    requires s.semas[id].value > 0
    ensures Inv(Take(s, id).(pc := s.pc[s.current := User]))
  {
    hide RunOk, ReadyOk, BlockedOk, WaitOk, SleepOk, SemaOk, LockOk, HolderOk, ListsOk, QueueOk, LockKeysOk, PcOk,
         Distinct;
    CurrentFacts(s);
    WaitersFacts(s, id);
    var r, c := Take(s, id).(pc := s.pc[s.current := User]), s.current;
    TakeOne(s.status, s.pc, s.semas, s.idle, c, id, s.semas[id].waiters);
    MoveSleep(s.pc, s.sleeping, s.wakeup, s.ticks, c, User);
    MoveHolder(s.pc, s.info, s.locks, c, User);
    LeavePlain(s.mlfqs, s.pc, s.info, s.locks, c, id);
    LeavePc(s.pc, s.locks.Keys, s.semas.Keys, c, User);
    LockWaiters(s.info, s.locks, s.semas, id, r.semas[id]);
    UpdateKeys(s.semas, id, r.semas[id]);
    UpdateKeys(s.pc, c, User);
  }

  lemma WaitersFacts(s: State, id: SemaId)
    requires InvNoLock(s) && id in s.semas
    ensures Distinct(s.semas[id].waiters)
    ensures forall t :: t in s.semas[id].waiters ==>
              t in s.status && t in s.prio && t in s.pc && t != s.idle && t != s.current
    ensures forall t :: t in s.semas[id].waiters ==> s.status[t] == Blocked && s.pc[t] == Down(id)
  {
    assert WaitersOk(s.status, s.pc, id, s.semas[id].waiters);
    forall t | t in s.semas[id].waiters
      ensures t in s.status && t in s.prio && t in s.pc && t != s.idle && t != s.current && s.status[t] == Blocked
      ensures s.pc[t] == Down(id)
    {
      assert BlockedOn(s.status, s.pc, t, id);
    }
  }

  lemma LeavePlain(mlfqs: bool, pc: Pcs, info: map<Tid, Info>, locks: map<LockId, Lock>, c: Tid, id: SemaId)
    requires ListsOk(mlfqs, pc, info, locks) && c in pc && c in info
    requires pc[c].User? || (pc[c] == Down(id) && id.Plain?)
    ensures ListsOk(mlfqs, pc[c := User], info, locks)
    ensures id.Plain? ==> ListsOk(mlfqs, pc[c := Down(id)], info, locks)
  {
    assert ThreadOk(mlfqs, pc[c], info[c], locks.Keys);
    assert ThreadOk(mlfqs, User, info[c], locks.Keys);
    assert id.Plain? ==> ThreadOk(mlfqs, Down(id), info[c], locks.Keys);
  }

  lemma LeavePc(pc: Pcs, locks: set<LockId>, semas: set<SemaId>, c: Tid, p: Pc)
    requires PcOk(pc, locks, semas) && (p.Down? ==> p.sema in semas)
    requires p.TryHeld? || p.Releasing? || p.Releasing2? ==> p.lock in locks
    ensures PcOk(pc[c := p], locks, semas)
  {
  }

  // The end of lock_acquire.

  lemma AcquireLock(info: map<Tid, Info>, locks: map<LockId, Lock>, semas: Semas, c: Tid, l: LockId, i: Info, k: Lock,
                    m: Sema)
    requires LockOk(info, locks, semas) && l in locks && OfLock(l) in semas && c in info
    requires semas[OfLock(l)].value > 0 && m.value == semas[OfLock(l)].value - 1 && m.init == semas[OfLock(l)].init
    requires i.held == info[c].held + {l}
    ensures LockOk(info[c := i], locks[l := k], semas[OfLock(l) := m])
    ensures forall t :: t in info ==> l !in info[t].held
  {
    var info', semas' := info[c := i], semas[OfLock(l) := m];
    assert |Holders(info, l)| == 0;
    assert forall t :: t in info ==> t !in Holders(info, l);
    forall x | x in locks && OfLock(x) in semas'
      ensures |Holders(info', x)| + semas'[OfLock(x)].value == 1 && semas'[OfLock(x)].init == 1
    {
      if x == l {
        assert Holders(info', l) == {c};
      } else {
        assert Holders(info', x) == Holders(info, x);
      }
    }
  }

  lemma AcquireHolder(pc: Pcs, info: map<Tid, Info>, locks: map<LockId, Lock>, c: Tid, l: LockId, i: Info, k: Lock,
                      p: Pc)
    requires HolderOk(pc, info, locks) && l in locks && c in info && c in pc && pc[c].Down?
    requires forall t :: t in info ==> l !in info[t].held
    requires i.held == info[c].held + {l}
    requires (p.User? && k.holder == Some(c)) || (p == TryHeld(l) && k == locks[l])
    ensures HolderOk(pc[c := p], info[c := i], locks[l := k])
  {
  }

  lemma AcquireLists(mlfqs: bool, pc: Pcs, info: map<Tid, Info>, locks: map<LockId, Lock>, c: Tid, l: LockId, k: Lock)
    requires ListsOk(mlfqs, pc, info, locks) && l in locks && c in info && c in pc && pc[c] == Down(OfLock(l))
    ensures ListsOk(mlfqs, pc[c := User], info[c := HolderInfo(mlfqs, locks[l := k], info[c], l)], locks[l := k])
  {
    assert ThreadOk(mlfqs, pc[c], info[c], locks.Keys);
    assert locks[l := k].Keys == locks.Keys;
    Inserted(LockGreater(locks[l := k]), info[c].locks, l);
    assert ThreadOk(mlfqs, User, HolderInfo(mlfqs, locks[l := k], info[c], l), locks.Keys);
  }

  lemma StillWaitingFacts(mlfqs: bool, prio: map<Tid, int>, waiters: seq<Tid>)
    requires Distinct(waiters) && forall t :: t in waiters ==> t in prio
    ensures var q := StillWaiting(mlfqs, prio, waiters);
            Distinct(q) && |q| == |waiters| && forall t :: t in q <==> t in waiters
  {
    SortedThreads(prio, waiters);
  }

  /** The state after lock_acquire, field by field. */
  ghost function AcquiredState(s: State, l: LockId): State
    requires l in s.locks && OfLock(l) in s.semas && s.current in s.info && s.semas[OfLock(l)].value > 0
  {
    var m, c := s.semas[OfLock(l)], s.current;
    var q := StillWaiting(s.mlfqs, s.prio, m.waiters);
    var k := TakenLock(s.mlfqs, s.prio, q, s.locks[l], c);
    s.(semas := s.semas[OfLock(l) := m.(value := m.value - 1, downs := m.downs + 1, waiters := q)],
       locks := s.locks[l := k],
       info := s.info[c := HolderInfo(s.mlfqs, s.locks[l := k], s.info[c], l)],
       pc := s.pc[c := User])
  }

  lemma AcquiredIs(s: State, l: LockId)
    requires l in s.locks && OfLock(l) in s.semas && s.current in s.info && s.current in s.prio
    requires s.semas[OfLock(l)].value > 0
    ensures Acquired(Take(s, OfLock(l)), l) == AcquiredState(s, l)
  {
    hide StillWaiting, HolderInfo, TakenLock;
    var m := s.semas[OfLock(l)];
    var q := StillWaiting(s.mlfqs, s.prio, m.waiters);
    UpdateTwice(s.semas, OfLock(l), m.(value := m.value - 1, downs := m.downs + 1),
                m.(value := m.value - 1, downs := m.downs + 1, waiters := q));
  }

  lemma AcquiredStateInv(s: State, l: LockId)
    requires Inv(s) && s.current in s.pc && s.pc[s.current] == Down(OfLock(l)) && l in s.locks
    requires OfLock(l) in s.semas && s.semas[OfLock(l)].value > 0
    requires s.current in s.info
    ensures Inv(AcquiredState(s, l))
  {
    hide RunOk, ReadyOk, BlockedOk, WaitOk, SleepOk, SemaOk, LockOk, HolderOk, ListsOk, QueueOk, LockKeysOk, PcOk,
         Distinct, StillWaiting, HolderInfo, TakenLock;
    CurrentFacts(s);
    var r, c := AcquiredState(s, l), s.current;
    var k, i, m := r.locks[l], r.info[c], r.semas[OfLock(l)];
    assert BlockedOk(s.status, r.pc, s.idle) && WaitOk(s.status, r.pc, r.semas) && SemaOk(s.status, r.pc, r.semas) by {
      WaitersFacts(s, OfLock(l));
      StillWaitingFacts(s.mlfqs, s.prio, s.semas[OfLock(l)].waiters);
      TakeOne(s.status, s.pc, s.semas, s.idle, c, OfLock(l), m.waiters);
    }
    MoveSleep(s.pc, s.sleeping, s.wakeup, s.ticks, c, User);
    assert LockOk(r.info, r.locks, r.semas) && HolderOk(r.pc, r.info, r.locks) by {
      HolderFacts(s.mlfqs, s.prio, m.waiters, s.locks, l, c, s.info[c]);
      AcquireLock(s.info, s.locks, s.semas, c, l, i, k, m);
      AcquireHolder(s.pc, s.info, s.locks, c, l, i, k, User);
    }
    AcquireLists(s.mlfqs, s.pc, s.info, s.locks, c, l, k);
    LeavePc(s.pc, s.locks.Keys, s.semas.Keys, c, User);
    UpdateKeys(s.semas, OfLock(l), m);
    UpdateKeys(s.pc, c, User);
    UpdateKeys(s.info, c, i);
    UpdateKeys(s.locks, l, k);
  }

  lemma AcquiredInv(s: State, l: LockId)
    requires Inv(s) && s.current in s.pc && s.pc[s.current] == Down(OfLock(l)) && l in s.locks
    requires OfLock(l) in s.semas && s.semas[OfLock(l)].value > 0
    requires s.current in s.info && s.current in s.prio
    ensures Inv(Acquired(Take(s, OfLock(l)), l))
  {
    hide Inv, AcquiredState;
    AcquiredIs(s, l);
    AcquiredStateInv(s, l);
  }

  lemma UpdateKeys<K, V>(m: map<K, V>, k: K, v: V)
    requires k in m
    ensures m[k := v].Keys == m.Keys
  {
  }

  lemma UpdateTwice<K, V>(m: map<K, V>, k: K, v: V, w: V)
    ensures m[k := v][k := w] == m[k := w]
  {
  }

  lemma HolderFacts(mlfqs: bool, prio: map<Tid, int>, q: seq<Tid>, locks: map<LockId, Lock>, l: LockId, c: Tid, i: Info)
    requires l in locks
    ensures TakenLock(mlfqs, prio, q, locks[l], c).holder == Some(c)
    ensures forall ls :: HolderInfo(mlfqs, ls, i, l).held == i.held + {l}
  {
  }

  lemma TryDownInv(s: State, id: SemaId)
    requires Inv(s) && s.current in s.pc && s.pc[s.current] == Down(id) && id in s.semas
    requires s.current in s.info && s.current in s.prio && (id.OfLock? ==> id.lock in s.locks)
    ensures Inv(TryDown(s, id))
  {
    hide Inv, InvRun, Enqueued, Acquired, Take, Schedule;
    if s.semas[id].value == 0 {
      EnqueuedInv(s, id);
      ScheduleInv(Enqueued(s, id));
    } else if id.Plain? {
      TakePlainInv(s, id);
    } else {
      AcquiredInv(s, id.lock);
    }
  }

  // sema_up.

  /** A waiter is woken and the value goes up: one more thread is about to test it. */
  lemma WakeOne(status: Statuses, pc: Pcs, semas: Semas, idle: Tid, id: SemaId, t: Tid, w: seq<Tid>)
    requires id in semas && BlockedOn(status, pc, t, id) && t in semas[id].waiters
    requires Distinct(w) && forall x :: x in w <==> x in semas[id].waiters && x != t
    requires BlockedOk(status, pc, idle) && WaitOk(status, pc, semas) && SemaOk(status, pc, semas)
    ensures var m := semas[id];
            var status', semas' := status[t := Ready],
                                   semas[id := m.(waiters := w, value := m.value + 1, ups := m.ups + 1)];
            BlockedOk(status', pc, idle) && WaitOk(status', pc, semas') && SemaOk(status', pc, semas')
  {
    var m := semas[id];
    var status', semas' := status[t := Ready], semas[id := m.(waiters := w, value := m.value + 1, ups := m.ups + 1)];
    assert WaitersOk(status, pc, id, m.waiters) && OneSemaOk(status, pc, id, m);
    WokenHere(status, pc, id, m, t, w);
    forall i | i in semas'
      ensures WaitersOk(status', pc, i, semas'[i].waiters) && OneSemaOk(status', pc, i, semas'[i])
    {
      if i != id {
        assert WaitersOk(status, pc, i, semas[i].waiters) && OneSemaOk(status, pc, i, semas[i]);
        WokenElsewhere(status, pc, i, semas[i], t);
      }
    }
  }

  lemma WokenHere(status: Statuses, pc: Pcs, id: SemaId, m: Sema, t: Tid, w: seq<Tid>)
    requires WaitersOk(status, pc, id, m.waiters) && OneSemaOk(status, pc, id, m)
    requires BlockedOn(status, pc, t, id) && t in m.waiters
    requires Distinct(w) && forall x :: x in w <==> x in m.waiters && x != t
    ensures WaitersOk(status[t := Ready], pc, id, w)
    ensures OneSemaOk(status[t := Ready], pc, id, m.(waiters := w, value := m.value + 1, ups := m.ups + 1))
  {
    var status' := status[t := Ready];
    assert Woken(status', pc, id) == Woken(status, pc, id) + {t} && t !in Woken(status, pc, id);
    assert m.waiters != [];
  }

  lemma WokenElsewhere(status: Statuses, pc: Pcs, i: SemaId, m: Sema, t: Tid)
    requires WaitersOk(status, pc, i, m.waiters) && OneSemaOk(status, pc, i, m)
    requires t in status && t in pc && pc[t] != Down(i)
    ensures WaitersOk(status[t := Ready], pc, i, m.waiters) && OneSemaOk(status[t := Ready], pc, i, m)
  {
    assert Woken(status[t := Ready], pc, i) == Woken(status, pc, i);
  }

  lemma RaiseValue(status: Statuses, pc: Pcs, semas: Semas, id: SemaId)
    requires id in semas && semas[id].waiters == []
    requires WaitOk(status, pc, semas) && SemaOk(status, pc, semas)
    ensures var m := semas[id];
            var semas' := semas[id := m.(value := m.value + 1, ups := m.ups + 1)];
            WaitOk(status, pc, semas') && SemaOk(status, pc, semas')
  {
    assert WaitersOk(status, pc, id, semas[id].waiters) && OneSemaOk(status, pc, id, semas[id]);
    var m := semas[id];
    var semas' := semas[id := m.(value := m.value + 1, ups := m.ups + 1)];
    forall i | i in semas'
      ensures WaitersOk(status, pc, i, semas'[i].waiters) && OneSemaOk(status, pc, i, semas'[i])
    {
      assert WaitersOk(status, pc, i, semas[i].waiters) && OneSemaOk(status, pc, i, semas[i]);
    }
  }

  /** A blocked thread becomes ready. */
  lemma MakeReady(mlfqs: bool, status: Statuses, prio: map<Tid, int>, ready: seq<Tid>, idle: Tid, current: Tid,
                  run: Option<Tid>, t: Tid)
    requires RunOk(status, current, run) && ReadyOk(status, ready, idle) && QueueOk(mlfqs, prio, ready)
    requires t in status && status[t] == Blocked && t != idle && status.Keys == prio.Keys
    ensures var status', ready' := status[t := Ready], InsertOrdered(PrioGreater(prio), ready, t);
            RunOk(status', current, run) && ReadyOk(status', ready', idle) && QueueOk(mlfqs, prio, ready')
  {
    Inserted(PrioGreater(prio), ready, t);
    if mlfqs {
      InsertedSortedThreads(prio, ready, t);
    }
  }

  /** The waiter that sema_up wakes has the highest priority of all waiters. */
  lemma TopWaiter(s: State, id: SemaId)
    requires InvNoLock(s) && id in s.semas && s.semas[id].waiters != []
    ensures var q := StableSort(PrioGreater(s.prio), s.semas[id].waiters);
            && q != [] && q[0] in s.semas[id].waiters && BlockedOn(s.status, s.pc, q[0], id) && q[0] != s.idle
            && Distinct(q[1..]) && (forall x :: x in q[1..] <==> x in s.semas[id].waiters && x != q[0])
            && forall x :: x in s.semas[id].waiters ==> x in s.prio && s.prio[x] <= s.prio[q[0]]
  {
    hide RunOk, ReadyOk, BlockedOk, WaitOk, SleepOk, SemaOk, LockOk, HolderOk, ListsOk, QueueOk, LockKeysOk, PcOk,
         StableSort;
    WaitersFacts(s, id);
    SortedThreads(s.prio, s.semas[id].waiters);
    DistinctTail(StableSort(PrioGreater(s.prio), s.semas[id].waiters));
  }

  /** All of the invariant but the tie between a lock's value and its holders. */
  ghost predicate InvNoLock(s: State) {
    && Domains(s)
    && RunOk(s.status, s.current, Some(s.current))
    && ReadyOk(s.status, s.ready, s.idle)
    && BlockedOk(s.status, s.pc, s.idle)
    && WaitOk(s.status, s.pc, s.semas)
    && SleepOk(s.pc, s.sleeping, s.wakeup, s.ticks)
    && SemaOk(s.status, s.pc, s.semas)
    && HolderOk(s.pc, s.info, s.locks)
    && ListsOk(s.mlfqs, s.pc, s.info, s.locks)
    && QueueOk(s.mlfqs, s.prio, s.ready)
  }

  lemma SemaUpInv(s: State, id: SemaId)
    requires InvNoLock(s) && id in s.semas
    ensures InvNoLock(SemaUp(s, id))
  {
    hide RunOk, ReadyOk, BlockedOk, WaitOk, SleepOk, SemaOk, HolderOk, ListsOk, QueueOk, LockKeysOk, PcOk,
         StableSort, InsertOrdered, PrioGreater, Distinct, BlockedOn;
    var r, m := SemaUp(s, id), s.semas[id];
    if m.waiters == [] {
      RaiseValue(s.status, s.pc, s.semas, id);
    } else {
      TopWaiterIs(s, id);
      var q := StableSort(PrioGreater(s.prio), m.waiters);
      assert BlockedOk(r.status, s.pc, s.idle)
             && WaitOk(r.status, s.pc, r.semas) && SemaOk(r.status, s.pc, r.semas) by {
        TopWaiter(s, id);
        WakeOne(s.status, s.pc, s.semas, s.idle, id, q[0], q[1..]);
      }
      MakeReady(s.mlfqs, s.status, s.prio, s.ready, s.idle, s.current, Some(s.current), q[0]);
      UpdateKeys(s.status, q[0], Ready);
    }
    UpdateKeys(s.semas, id, r.semas[id]);
  }

  lemma TopWaiterIs(s: State, id: SemaId)
    requires InvNoLock(s) && id in s.semas && s.semas[id].waiters != []
    ensures var t := StableSort(PrioGreater(s.prio), s.semas[id].waiters)[0];
            t in s.status && s.status[t] == Blocked && t != s.idle
  {
    hide RunOk, ReadyOk, BlockedOk, WaitOk, SleepOk, SemaOk, LockOk, HolderOk, ListsOk, QueueOk, LockKeysOk, PcOk,
         StableSort;
    TopWaiter(s, id);
  }
}
