/** The kernel's data as the C source keeps it, with its lists of threads as intrusive lists that
    are relinked in place, and its operations as methods. Each method is proved to take the step
    of the state machine in Kernel. */
module KernelOps {
  import opened Wrappers
  import opened Orders
  import opened Mlfqs
  import opened Kernel
  import opened KernelInv
  import opened KernelSteps
  import opened KernelRuns
  import opened ThreadLists
  import Donation

  class Machine {
    const mlfqs: bool
    const idle: Tid
    const lists: Lists
    var status: map<Tid, Status>
    var pc: map<Tid, Pc>
    var prio: map<Tid, int>
    var info: map<Tid, Info>
    var usage: map<Tid, Usage>
    var wakeup: map<Tid, int>
    var values: map<SemaId, nat>
    var locks: map<LockId, Lock>
    var current: Tid
    var ticks: int
    var loadAvg: int
    /** The semaphores with their histories. */
    ghost var semas: map<SemaId, Sema>

    constructor (s: State, ls: Lists)
      requires ls.Valid() && Held(s, ls.queue) && s.status.Keys <= ls.elem.Keys && s.idle in ls.elem
      ensures lists == ls && Valid() && View() == s
    {
      hide Lists.Valid;
      mlfqs, idle, lists := s.mlfqs, s.idle, ls;
      status, pc, prio, info, usage, wakeup := s.status, s.pc, s.prio, s.info, s.usage, s.wakeup;
      values := map id | id in s.semas :: s.semas[id].value;
      locks, current, ticks, loadAvg := s.locks, s.current, s.ticks, s.loadAvg;
      semas := s.semas;
    }

    ghost function View(): State
      reads this, lists
    {
      State(mlfqs, status, pc, prio, info, usage, wakeup, At(lists.queue, ReadyList), At(lists.queue, SleepingList),
            semas, locks, current, idle, ticks, loadAvg)
    }

    /** The lists are in order and hold the waiters of the semaphores. */
    ghost predicate Valid()
      reads this, lists, lists.at.Values, lists.cells
    {
      lists.Valid() && Tied(lists.queue, lists.elem.Keys, semas, values, status, idle)
    }

    // threads/thread.c

    method ThreadUnblock(t: Tid)
      requires Valid() && t in lists.elem && lists.Off(t)
      modifies this`status, lists, lists.at.Values, lists.cells
      ensures Valid() && View() == Unblock(old(View()), t)
    {
      hide InsertOrdered, Lists.Valid, Tied;
      TiedFacts(lists.queue, lists.elem.Keys, semas, values, status, idle);
      lists.Insert(ReadyList, t, PrioGreater(prio));
      TiedReady(old(lists.queue), lists.elem.Keys, semas, values, status, idle, lists.queue, t, Ready);
      status := status[t := Ready];
    }

    /** next_thread_to_run. */
    method NextToRun() returns (next: Tid)
      requires lists.Valid() && ReadyList in lists.at && idle in lists.elem
      requires forall t :: t in At(lists.queue, ReadyList) ==> t in prio
      modifies lists, lists.at.Values, lists.cells
      ensures lists.Valid() && next in lists.elem
      ensures var (n, rest) := NextThread(old(View())); next == n && lists.queue == old(lists.queue)[ReadyList := rest]
    {
      hide StableSort, Lists.Valid;
      var empty := lists.IsEmpty(ReadyList);
      if empty {
        assert lists.queue == lists.queue[ReadyList := []];
        return idle;
      }
      if !mlfqs {
        PrioWeak(prio, lists.queue[ReadyList]);
        lists.SortBy(ReadyList, PrioGreater(prio));
      }
      next := lists.Pop(ReadyList);
    }

    /** schedule: the running thread has already left the Running state. */
    method Switch()
      requires Valid() && forall t :: t in At(lists.queue, ReadyList) ==> t in prio
      modifies this`status, this`current, lists, lists.at.Values, lists.cells
      ensures Valid() && View() == Schedule(old(View()))
    {
      hide NextThread, Lists.Valid, Tied;
      TiedFacts(lists.queue, lists.elem.Keys, semas, values, status, idle);
      var next := NextToRun();
      TiedReady(old(lists.queue), lists.elem.Keys, semas, values, status, idle, lists.queue, next, Running);
      status := status[next := Running];
      current := next;
    }

    method ThreadYield()
      requires Valid() && Inv(View())
      modifies this`status, this`current, lists, lists.at.Values, lists.cells
      ensures Valid() && View() == Yield(old(View())) && Inv(View())
    {
      hide InsertOrdered, Schedule, Lists.Valid, Inv, PrioGreater, Tied;
      TiedFacts(lists.queue, lists.elem.Keys, semas, values, status, idle);
      CurrentOff(View(), lists.queue);
      YieldInv(View());
      InOrdered(PrioGreater(prio), At(lists.queue, ReadyList), current);
      if current != idle { lists.Insert(ReadyList, current, PrioGreater(prio)); }
      TiedReady(old(lists.queue), lists.elem.Keys, semas, values, status, idle, lists.queue, current, Ready);
      status := status[current := Ready];
      Switch();
    }

    // threads/synch.c

    /** One round of sema_down's loop: block, or take the semaphore. */
    method DownRound(id: SemaId) returns (taken: bool)
      requires Valid() && Inv(View()) && id in semas
      modifies this`semas, this`values, this`status, this`pc, this`current, lists, lists.at.Values, lists.cells
      ensures Valid() && taken == (old(semas)[id].value > 0)
      ensures View() == if taken then Take(old(View()), id) else Schedule(Enqueued(old(View()), id))
    {
      hide Schedule, InsertOrdered, Lists.Valid, Tied, Inv, PrioGreater;
      TiedFacts(lists.queue, lists.elem.Keys, semas, values, status, idle);
      TiedAt(lists.queue, lists.elem.Keys, semas, values, status, idle, id);
      CurrentOff(View(), lists.queue);
      taken := values[id] > 0;
      if taken {
        ghost var m := semas[id].(value := semas[id].value - 1, downs := semas[id].downs + 1);
        TiedSema(lists.queue, lists.elem.Keys, semas, values, status, idle, id, m);
        values := values[id := values[id] - 1];
        semas := semas[id := m];
        assert lists.queue == lists.queue[WaitersOf(id) := m.waiters];
      } else {
        Enqueue(id);
        Switch();
      }
    }

    /** The running thread joins the waiters and blocks. */
    method Enqueue(id: SemaId)
      requires Valid() && id in semas && WaitersOf(id) in lists.at && lists.Off(current) && current in lists.elem
      modifies this`semas, this`status, this`pc, lists, lists.at.Values, lists.cells
      ensures Valid() && View() == Enqueued(old(View()), id)
    {
      hide InsertOrdered, Lists.Valid, Tied, PrioGreater, Matching;
      hide Valid;
      JoinWaiters(id);
      Block(Down(id));
    }

    /** thread_block, up to its call of schedule. */
    method Block(p: Pc)
      requires Valid() && current in lists.elem
      modifies this`status, this`pc
      ensures Valid()
      ensures View() == old(View()).(status := old(status)[current := Blocked], pc := old(pc)[current := p])
    {
      hide Lists.Valid, Tied;
      TiedStatus(lists.queue, lists.elem.Keys, semas, values, status, idle, current, Blocked);
      status := status[current := Blocked];
      pc := pc[current := p];
    }

    /** The running thread joins the waiters. */
    method JoinWaiters(id: SemaId)
      requires Valid() && id in semas && WaitersOf(id) in lists.at && lists.Off(current) && current in lists.elem
      modifies this`semas, lists, lists.at.Values, lists.cells
      ensures Valid() && View() == old(View()).(semas := Enqueued(old(View()), id).semas)
    {
      hide InsertOrdered, Lists.Valid, Tied, PrioGreater, Matching;
      TiedFacts(lists.queue, lists.elem.Keys, semas, values, status, idle);
      TiedAt(lists.queue, lists.elem.Keys, semas, values, status, idle, id);
      ghost var m := semas[id].(waiters := InsertOrdered(PrioGreater(prio), semas[id].waiters, current));
      TiedSema(lists.queue, lists.elem.Keys, semas, values, status, idle, id, m);
      lists.Insert(WaitersOf(id), current, PrioGreater(prio));
      semas := semas[id := m];
    }

    /** The first of the sorted waiters leaves the list. */
    method TakeWaiter(id: SemaId) returns (t: Tid)
      requires Valid() && InvNoLock(View()) && id in semas && semas[id].waiters != []
      modifies this`semas, lists, lists.at.Values, lists.cells
      ensures var q := StableSort(PrioGreater(prio), old(semas)[id].waiters);
              && q != [] && t == q[0]
              && View() == old(View()).(semas := old(semas)[id := old(semas)[id].(waiters := q[1..])])
      ensures Valid() && t in lists.elem && lists.Off(t)
    {
      hide StableSort, Lists.Valid, Tied, PrioGreater, Matching, InvNoLock;
      TiedFacts(lists.queue, lists.elem.Keys, semas, values, status, idle);
      TiedAt(lists.queue, lists.elem.Keys, semas, values, status, idle, id);
      ghost var q := StableSort(PrioGreater(prio), semas[id].waiters);
      WaiterOff(View(), lists.queue, id, q);
      ghost var m := semas[id].(waiters := q[1..]);
      TiedSema(lists.queue, lists.elem.Keys, semas, values, status, idle, id, m);
      t := lists.PopLeast(WaitersOf(id), PrioGreater(prio));
      semas := semas[id := m];
    }

    /** That waiter becomes ready. */
    method WakeWaiter(id: SemaId)
      requires Valid() && InvNoLock(View()) && id in semas && semas[id].waiters != []
      modifies this`semas, this`status, lists, lists.at.Values, lists.cells
      ensures Valid() && View() == WaiterWoken(old(View()), id)
    {
      hide StableSort, InsertOrdered, Lists.Valid, Tied, PrioGreater, Matching, InvNoLock, Valid;
      var t := TakeWaiter(id);
      ThreadUnblock(t);
    }

    method SemaphoreUp(id: SemaId)
      requires Valid() && InvNoLock(View()) && id in semas
      modifies this`semas, this`values, this`status, lists, lists.at.Values, lists.cells
      ensures Valid() && View() == SemaUp(old(View()), id)
    {
      hide StableSort, Unblock, Lists.Valid, Tied, PrioGreater, Matching, InvNoLock;
      TiedFacts(lists.queue, lists.elem.Keys, semas, values, status, idle);
      TiedAt(lists.queue, lists.elem.Keys, semas, values, status, idle, id);
      var empty := lists.IsEmpty(WaitersOf(id));
      SemaUpIs(View(), id);
      hide Valid, SemaUp, WaiterWoken, Raised;
      if !empty { WakeWaiter(id); }
      Raise(id);
    }

    method Raise(id: SemaId)
      requires Valid() && id in semas
      modifies this`semas, this`values
      ensures Valid() && View() == old(View()).(semas := Raised(old(semas), id))
    {
      hide Lists.Valid, Tied, Matching;
      TiedAt(lists.queue, lists.elem.Keys, semas, values, status, idle, id);
      ghost var m := semas[id].(value := semas[id].value + 1, ups := semas[id].ups + 1);
      TiedSema(lists.queue, lists.elem.Keys, semas, values, status, idle, id, m);
      assert lists.queue == lists.queue[WaitersOf(id) := m.waiters];
      values := values[id := values[id] + 1];
      semas := semas[id := m];
    }

    /** The holder of `l` gets at least the priority of `t`, which waits for it. */
    method Give(t: Tid, l: LockId, h: Tid)
      requires t in prio && l in locks && h in prio && h in info
      modifies this`locks, this`prio, this`info
      ensures View() == DonateEdge(old(View()), t, l, h)
    {
      locks := locks[l := locks[l].(maxPriority := Max(locks[l].maxPriority, prio[t]))];
      info := info[h := info[h].(donated := Max(info[h].donated, prio[t]))];
      prio := prio[h := Max(prio[h], prio[t])];
    }

    /** The donation walk of lock_acquire, from the current thread, which waits for `l`. */
    method DonationWalk(l: LockId)
      requires Donation.Linked(View()) && current in info && info[current].waitingLock == Some(l)
      requires locks[l].holder.Some?
      modifies this`locks, this`prio, this`info
      ensures View() == Donate(old(View()), current, 1 + MAX_DONATION_DEPTH)
    {
      hide Donation.Linked, Donate, DonateEdge;
      ghost var all := Donate(View(), current, 1 + MAX_DONATION_DEPTH);
      LinkedEdge(View(), current, 1 + MAX_DONATION_DEPTH);
      var t := locks[l].holder.value;
      Give(current, l, t);
      var d := MAX_DONATION_DEPTH;
      while info[t].waitingLock.Some? && d > 0
        invariant Donation.Linked(View()) && t in info && t in prio
        invariant Donate(View(), t, d) == all
      {
        LinkedWait(View(), t, d);
        var next := info[t].waitingLock.value;
        if locks[next].holder.None? {
          locks := locks[next := locks[next].(maxPriority := Max(locks[next].maxPriority, prio[t]))];
          return;
        }
        LinkedEdge(View(), t, d);
        var h := locks[next].holder.value;
        Give(t, next, h);
        t, d := h, d - 1;
      }
      WalkOver(View(), t, d);
    }

    /** lock_acquire on its way to sema_down. */
    method EnterLock(l: LockId)
      requires l in locks && current in info && Donation.Linked(View()) && Donation.Linked(Waiting(View(), l))
      modifies this`pc, this`locks, this`prio, this`info
      ensures View() == EnterAcquire(old(View()), l)
    {
      hide Donation.Linked, Donate;
      pc := pc[current := Down(OfLock(l))];
      if !mlfqs {
        info := info[current := info[current].(waitingLock := Some(l))];
        if locks[l].holder.Some? { DonationWalk(l); }
      }
    }

    /** Sorts the threads still waiting for `l` and reports the priority of the first. */
    method SortWaiters(l: LockId) returns (max: int)
      requires Valid() && OfLock(l) in semas
      requires forall t :: t in semas[OfLock(l)].waiters ==> t in prio
      modifies this`semas, lists, lists.at.Values, lists.cells
      ensures Valid()
      ensures var m := old(semas)[OfLock(l)];
              var q := StableSort(PrioGreater(prio), m.waiters);
              && View() == old(View()).(semas := old(semas)[OfLock(l) := m.(waiters := q)])
              && max == if q == [] || q[0] !in prio then PRI_MIN else prio[q[0]]
    {
      hide StableSort, Lists.Valid, Tied, Matching, PrioGreater;
      var id := OfLock(l);
      TiedFacts(lists.queue, lists.elem.Keys, semas, values, status, idle);
      TiedAt(lists.queue, lists.elem.Keys, semas, values, status, idle, id);
      ghost var q := StableSort(PrioGreater(prio), semas[id].waiters);
      ghost var m := semas[id].(waiters := q);
      TiedSema(lists.queue, lists.elem.Keys, semas, values, status, idle, id, m);
      SortEmpty(PrioGreater(prio));
      SortKeeps(PrioGreater(prio), semas[id].waiters);
      max := PRI_MIN;
      var empty := lists.IsEmpty(WaitersOf(id));
      if !empty {
        PrioWeak(prio, semas[id].waiters);
        lists.SortBy(WaitersOf(id), PrioGreater(prio));
        var t := lists.First(WaitersOf(id));
        max := prio[t];
      } else {
        assert lists.queue == lists.queue[WaitersOf(id) := m.waiters];
      }
      semas := semas[id := m];
    }

    /** lock_acquire after its sema_down. */
    method FinishAcquire(l: LockId)
      requires Valid() && l in locks && OfLock(l) in semas && current in info && current in prio
      requires forall t :: t in semas[OfLock(l)].waiters ==> t in prio
      modifies this`pc, this`locks, this`info, this`semas, lists, lists.at.Values, lists.cells
      ensures Valid() && View() == Acquired(old(View()), l)
    {
      hide StableSort, HolderInfo, PrioGreater, Lists.Valid, Tied;
      if !mlfqs {
        var max := SortWaiters(l);
        BecomeHolder(l, Lock(Some(current), max));
      } else {
        assert semas == semas[OfLock(l) := semas[OfLock(l)]];
        BecomeHolder(l, locks[l].(holder := Some(current)));
      }
    }

    /** The lock is `k` now, and the running thread its holder. */
    method BecomeHolder(l: LockId, k: Lock)
      requires l in locks && current in info
      modifies this`pc, this`locks, this`info
      ensures var r := old(View()).(locks := old(locks)[l := k], pc := old(pc)[current := User]);
              View() == r.(info := r.info[current := HolderInfo(mlfqs, r.locks, r.info[current], l)])
    {
      hide InsertOrdered, LockGreater;
      locks, pc := locks[l := k], pc[current := User];
      var i := info[current].(held := info[current].held + {l});
      if !mlfqs { i := i.(waitingLock := None, locks := InsertOrdered(LockGreater(locks), i.locks, l)); }
      info := info[current := i];
    }

    /** lock_acquire until it has the lock or blocks. */
    method LockAcquire(l: LockId) returns (taken: bool)
      requires Valid() && Inv(View()) && l in locks && pc[current].User? && locks[l].holder != Some(current)
      modifies this`pc, this`locks, this`prio, this`info, this`semas, this`values, this`status, this`current
      modifies lists, lists.at.Values, lists.cells
      ensures l in old(View()).locks && OfLock(l) in EnterAcquire(old(View()), l).semas
      ensures Valid() && Inv(View()) && View() == Acquiring(old(View()), l)
      ensures taken <==> old(semas)[OfLock(l)].value > 0
    {
      hide Inv, Lists.Valid, Tied, EnterAcquire, TryDown;
      AcquireFacts(View(), l);
      EnterLock(l);
      hide Valid;
      taken := DownForLock(l);
    }

    method DownForLock(l: LockId) returns (taken: bool)
      requires Valid() && Inv(View()) && l in locks && OfLock(l) in semas && current in info && current in prio
      requires forall t :: t in semas[OfLock(l)].waiters ==> t in prio
      modifies this`pc, this`locks, this`info, this`semas, this`values, this`status, this`current
      modifies lists, lists.at.Values, lists.cells
      ensures Valid() && View() == TryDown(old(View()), OfLock(l)) && taken == (old(semas)[OfLock(l)].value > 0)
    {
      hide Inv, Acquired, Schedule, Enqueued, Valid;
      taken := DownRound(OfLock(l));
      if taken { FinishAcquire(l); }
    }

    /** lock_release up to the point where the holder is cleared. */
    method StartRelease(l: LockId)
      requires current in info && forall k :: k in info[current].locks ==> k in locks
      modifies this`pc, this`info
      ensures View() == BeginRelease(old(View()), l)
    {
      hide StableSort;
      pc := pc[current := Releasing(l)];
      if !mlfqs {
        var left := Removed(info[current].locks, l);
        var donated := PRI_MIN;
        SortEmpty(LockGreater(locks));
        if left != [] {
          SortKeeps(LockGreater(locks), left);
          left := StableSort(LockGreater(locks), left);
          donated := locks[left[0]].maxPriority;
        }
        info := info[current := info[current].(locks := left, donated := donated)];
      }
    }

    /** lock_release, without the yield that follows it: nobody holds the lock afterwards. */
    method LockRelease(l: LockId)
      requires Valid() && Inv(View()) && l in locks && pc[current].User? && locks[l].holder == Some(current)
      modifies this`pc, this`locks, this`prio, this`info, this`semas, this`values, this`status
      modifies lists, lists.at.Values, lists.cells
      ensures Valid() && Inv(View()) && View() == AfterRelease(old(View()), l)
      ensures locks == old(locks)[l := old(locks)[l].(holder := None)] && forall t :: t in info ==> l !in info[t].held
    {
      hide Inv, Valid, GivenAway, Restored, InvNoLock, GivenUp;
      ReleaseFacts(View(), l);
      GiveAway(l);
      Restore(l);
    }

    /** The lock leaves the thread's list and has no holder. */
    method GiveAway(l: LockId)
      requires Valid() && l in locks && current in info && forall k :: k in info[current].locks ==> k in locks
      modifies this`pc, this`info, this`locks
      ensures Valid() && View() == GivenAway(old(View()), l)
      ensures locks == old(locks)[l := old(locks)[l].(holder := None)]
    {
      hide BeginRelease, ReleaseHolder, Lists.Valid, Tied;
      StartRelease(l);
      ClearHolder(l);
    }

    /** The semaphore goes up, and the thread's priority is what is left to it. */
    method Restore(l: LockId)
      requires Valid() && OfLock(l) in semas && current in info && current in prio && InvNoLock(GivenUp(View(), l))
      modifies this`pc, this`prio, this`info, this`semas, this`values, this`status, lists, lists.at.Values, lists.cells
      ensures Valid() && View() == Restored(old(View()), l)
    {
      hide InvNoLock, Lists.Valid, Tied, ReleaseUp, GivenUp;
      ReleaseUpIs(View(), l);
      UpForLock(l);
      ResetPriority();
    }

    method ClearHolder(l: LockId)
      requires l in locks
      modifies this`locks, this`pc
      ensures View() == ReleaseHolder(old(View()), l) && locks == old(locks)[l := old(locks)[l].(holder := None)]
    {
      locks := locks[l := locks[l].(holder := None)];
      pc := pc[current := Releasing2(l)];
    }

    method UpForLock(l: LockId)
      requires Valid() && OfLock(l) in semas && current in info && InvNoLock(GivenUp(View(), l))
      modifies this`pc, this`info, this`semas, this`values, this`status, lists, lists.at.Values, lists.cells
      ensures Valid() && View() == ReleaseUp(old(View()), l)
    {
      hide InvNoLock, Lists.Valid, Tied, SemaUp;
      pc := pc[current := Pc.Released];
      info := info[current := info[current].(held := info[current].held - {l})];
      SemaphoreUp(OfLock(l));
    }

    /** thread_set_priority of the thread's own priority, which lock_release ends with. */
    method ResetPriority()
      requires current in info && current in prio
      modifies this`prio, this`info, this`pc
      ensures View() == SetPriority(old(View()), old(info)[current].base).(pc := old(pc)[current := User])
    {
      if !mlfqs {
        var was, i := prio[current], info[current];
        if was < i.base {
          prio := prio[current := i.base];
        } else if was > i.base {
          prio := prio[current := Max(i.base, i.donated)];
        }
      }
      pc := pc[current := User];
    }

    // devices/timer.c

    method TimerSleep(n: int)
      requires Valid() && Inv(View()) && pc[current].User?
      modifies this`wakeup, this`status, this`pc, this`current, lists, lists.at.Values, lists.cells
      ensures Valid() && View() == (if n <= 0 then old(View()) else Schedule(FallAsleep(old(View()), n))) && Inv(View())
    {
      hide Schedule, FallAsleep, Inv, Valid;
      if n > 0 {
        CurrentFacts(View());
        SleepInv(View(), n);
        ToSleep(n);
        Switch();
      }
    }

    /** The running thread joins the sleepers and blocks. */
    method ToSleep(n: int)
      requires Valid() && Inv(View())
      modifies this`wakeup, this`status, this`pc, lists, lists.at.Values, lists.cells
      ensures Valid() && View() == FallAsleep(old(View()), n)
      ensures forall t :: t in At(lists.queue, ReadyList) ==> t in prio
    {
      hide InsertOrdered, WakesBefore, Inv, Lists.Valid, Tied, Matching;
      TiedFacts(lists.queue, lists.elem.Keys, semas, values, status, idle);
      CurrentOff(View(), lists.queue);
      wakeup := wakeup[current := ticks + n];
      hide Valid;
      JoinSleepers();
      Block(Asleep);
    }

    method JoinSleepers()
      requires Valid() && current in lists.elem && lists.Off(current)
      modifies lists, lists.at.Values, lists.cells
      ensures Valid()
      ensures View() == old(View()).(sleeping := InsertOrdered(WakesBefore(wakeup), old(View()).sleeping, current))
    {
      hide InsertOrdered, WakesBefore, Lists.Valid, Tied, Matching;
      TiedFacts(lists.queue, lists.elem.Keys, semas, values, status, idle);
      lists.Insert(SleepingList, current, WakesBefore(wakeup));
      TiedQueues(old(lists.queue), lists.elem.Keys, semas, values, status, idle, lists.queue);
    }

    /** The condition of timer_interrupt's loop. */
    method SleeperDue() returns (due: bool)
      requires Valid() && forall t :: t in At(lists.queue, SleepingList) ==> t in wakeup
      ensures due <==> var q := At(lists.queue, SleepingList); q != [] && q[0] in wakeup && wakeup[q[0]] <= ticks
    {
      hide Lists.Valid, Tied, Matching;
      TiedFacts(lists.queue, lists.elem.Keys, semas, values, status, idle);
      var empty := lists.IsEmpty(SleepingList);
      if empty { return false; }
      var t := lists.First(SleepingList);
      due := wakeup[t] <= ticks;
    }

    /** The body of timer_interrupt's loop. */
    method WakeOne()
      requires Valid() && JustTicked(View()) && At(lists.queue, SleepingList) != []
      modifies this`status, this`pc, lists, lists.at.Values, lists.cells
      ensures Valid() && View() == WokenFirst(old(View())) && JustTicked(View())
      ensures At(lists.queue, SleepingList) == old(At(lists.queue, SleepingList))[1..]
    {
      hide InsertOrdered, Lists.Valid, Tied, Matching, Inv;
      TiedFacts(lists.queue, lists.elem.Keys, semas, values, status, idle);
      ghost var s := View();
      SleeperOff(s.(ticks := s.ticks - 1), lists.queue);
      WokenFirstInv(s.(ticks := s.ticks - 1));
      WokenFirstLater(s);
      var t := lists.Pop(SleepingList);
      TiedQueues(old(lists.queue), lists.elem.Keys, semas, values, status, idle, lists.queue);
      pc := pc[t := User];
      hide WokenFirst;
      WokenFirstIs(s);
      ThreadUnblock(t);
    }

    /** The loop of timer_interrupt. */
    method WakeSleepers()
      requires Valid() && JustTicked(View())
      modifies this`status, this`pc, lists, lists.at.Values, lists.cells
      ensures Valid() && View() == WakeAll(old(View()))
    {
      hide WakeAll, WokenFirst, JustTicked, Valid;
      TickedSleepers(View());
      var due := SleeperDue();
      while due
        invariant Valid() && JustTicked(View()) && WakeAll(View()) == WakeAll(old(View()))
        invariant due <==> var q := At(lists.queue, SleepingList); q != [] && q[0] in wakeup && wakeup[q[0]] <= ticks
        decreases |At(lists.queue, SleepingList)|
      {
        ghost var before := View();
        WakeOne();
        WakeFirst(before);
        TickedSleepers(View());
        due := SleeperDue();
      }
      WakeNone(View());
    }

    /** thread_foreach with update_thread_priority. */
    method UpdatePriorities()
      requires usage.Keys == prio.Keys
      modifies this`prio
      ensures prio == Reprioritised(old(View())).prio
    {
      var todo := prio.Keys;
      while todo != {}
        invariant todo <= prio.Keys == old(prio).Keys
        invariant forall t :: t in prio ==>
          prio[t] == if t in todo || t == idle then old(prio)[t] else PriorityOf(usage[t])
        decreases |todo|
      {
        var t :| t in todo;
        if t != idle { prio := prio[t := PriorityOf(usage[t])]; }
        todo := todo - {t};
      }
    }

    /** update_load_avg, and thread_foreach with update_recent_cpu. */
    method UpdateUsage()
      requires Valid()
      modifies this`usage, this`loadAvg
      ensures Valid() && View() == Decayed(old(View()))
    {
      hide NextUsage, NextLoadAvg, Lists.Valid, Tied, Matching;
      TiedFacts(lists.queue, lists.elem.Keys, semas, values, status, idle);
      var ready := lists.Length(ReadyList);
      loadAvg := NextLoadAvg(loadAvg, ready + if current != idle then 1 else 0);
      DecayUsage();
      assert usage == Decayed(old(View())).usage;
    }

    method DecayUsage()
      modifies this`usage
      ensures usage == map t | t in old(usage) :: if t == idle then old(usage)[t] else NextUsage(old(usage)[t], loadAvg)
    {
      hide NextUsage;
      var todo := usage.Keys;
      while todo != {}
        invariant todo <= usage.Keys == old(usage).Keys
        invariant forall t :: t in usage ==>
          usage[t] == if t in todo || t == idle then old(usage)[t] else NextUsage(old(usage)[t], loadAvg)
        decreases |todo|
      {
        var t :| t in todo;
        if t != idle { usage := usage[t := NextUsage(usage[t], loadAvg)]; }
        todo := todo - {t};
      }
    }

    /** Every fourth tick: new priorities, and the ready list sorted by them. */
    method Reprioritise()
      requires Valid() && usage.Keys == prio.Keys && forall t :: t in At(lists.queue, ReadyList) ==> t in prio
      modifies this`prio, lists, lists.at.Values, lists.cells
      ensures Valid() && View() == Reprioritised(old(View()))
    {
      hide StableSort, Lists.Valid, Tied, Matching, PriorityOf;
      TiedFacts(lists.queue, lists.elem.Keys, semas, values, status, idle);
      UpdatePriorities();
      PrioWeak(prio, lists.queue[ReadyList]);
      lists.SortBy(ReadyList, PrioGreater(prio));
      TiedQueues(old(lists.queue), lists.elem.Keys, semas, values, status, idle, lists.queue);
    }

    /** thread_tick in MLFQS mode. */
    method ThreadTick()
      requires Valid() && usage.Keys == prio.Keys && current in usage
      requires forall t :: t in At(lists.queue, ReadyList) ==> t in prio
      modifies this`usage, this`prio, this`loadAvg, lists, lists.at.Values, lists.cells
      ensures Valid() && View() == MlfqsTick(old(View()))
    {
      hide Decayed, Reprioritised, Lists.Valid, Tied;
      if current != idle {
        usage := usage[current := usage[current].(recent := AddInt(usage[current].recent, 1))];
      }
      assert View() == Counted(old(View()));
      hide Counted, Valid;
      if ticks % TIME_SLICE == 0 {
        Reprioritise();
        if ticks % TIMER_FREQ == 0 { UpdateUsage(); }
      }
    }

    method TimerInterrupt()
      requires Valid() && Inv(View())
      modifies this`ticks, this`usage, this`prio, this`loadAvg, this`status, this`pc,
               lists, lists.at.Values, lists.cells
      ensures Valid() && View() == Tick(old(View())) && Inv(View())
    {
      hide Inv, MlfqsTick, WakeAll, Lists.Valid, Tied;
      TickInv(View());
      TickDomains(View());
      ticks := ticks + 1;
      assert View().(ticks := ticks - 1) == old(View());
      MlfqsTickInv(View());
      hide Valid;
      if mlfqs { ThreadTick(); }
      WakeSleepers();
    }
  }

  type Queues = map<Place, seq<Tid>>

  ghost function At(queue: Queues, w: Place): seq<Tid> {
    if w in queue then queue[w] else []
  }

  /** There is a list for each semaphore, with its waiters. */
  ghost predicate Matching(queue: Queues, semas: map<SemaId, Sema>) {
    && ReadyList in queue && SleepingList in queue && (forall id :: id in semas <==> WaitersOf(id) in queue)
    && forall id :: id in semas ==> semas[id].waiters == At(queue, WaitersOf(id))
  }

  /** The machine's own fields agree with the lists. */
  ghost predicate Tied(queue: Queues, elems: set<Tid>, semas: map<SemaId, Sema>, values: map<SemaId, nat>,
                       status: map<Tid, Status>, idle: Tid)
  {
    && Matching(queue, semas) && (forall t :: t in status ==> t in elems) && idle in elems
    && (forall id :: id in values <==> id in semas) && forall id :: id in semas ==> values[id] == semas[id].value
  }

  lemma TiedFacts(queue: Queues, elems: set<Tid>, semas: map<SemaId, Sema>, values: map<SemaId, nat>,
                  status: map<Tid, Status>, idle: Tid)
    requires Tied(queue, elems, semas, values, status, idle)
    ensures ReadyList in queue && SleepingList in queue && idle in elems && Matching(queue, semas)
    ensures forall t :: t in status ==> t in elems
  {
  }

  /** A change to the ready or sleeping list and to one thread's status. */
  lemma TiedReady(queue: Queues, elems: set<Tid>, semas: map<SemaId, Sema>, values: map<SemaId, nat>,
                  status: map<Tid, Status>, idle: Tid, r: Queues, t: Tid, x: Status)
    requires Tied(queue, elems, semas, values, status, idle) && t in elems && r.Keys == queue.Keys
    requires forall id :: WaitersOf(id) in queue ==> r[WaitersOf(id)] == queue[WaitersOf(id)]
    ensures Tied(r, elems, semas, values, status[t := x], idle)
  {
  }

  lemma TiedQueues(queue: Queues, elems: set<Tid>, semas: map<SemaId, Sema>, values: map<SemaId, nat>,
                   status: map<Tid, Status>, idle: Tid, r: Queues)
    requires Tied(queue, elems, semas, values, status, idle) && r.Keys == queue.Keys
    requires forall id :: WaitersOf(id) in queue ==> r[WaitersOf(id)] == queue[WaitersOf(id)]
    ensures Tied(r, elems, semas, values, status, idle)
  {
  }

  lemma TiedStatus(queue: Queues, elems: set<Tid>, semas: map<SemaId, Sema>, values: map<SemaId, nat>,
                   status: map<Tid, Status>, idle: Tid, t: Tid, x: Status)
    requires Tied(queue, elems, semas, values, status, idle) && t in elems
    ensures Tied(queue, elems, semas, values, status[t := x], idle)
  {
  }

  lemma TiedAt(queue: Queues, elems: set<Tid>, semas: map<SemaId, Sema>, values: map<SemaId, nat>,
               status: map<Tid, Status>, idle: Tid, id: SemaId)
    requires Tied(queue, elems, semas, values, status, idle) && id in semas
    ensures WaitersOf(id) in queue && queue[WaitersOf(id)] == semas[id].waiters
    ensures id in values && values[id] == semas[id].value
  {
  }

  /** A change to one semaphore and its waiters. */
  lemma TiedSema(queue: Queues, elems: set<Tid>, semas: map<SemaId, Sema>, values: map<SemaId, nat>,
                 status: map<Tid, Status>, idle: Tid, id: SemaId, m: Sema)
    requires Tied(queue, elems, semas, values, status, idle) && id in semas
    ensures Tied(queue[WaitersOf(id) := m.waiters], elems, semas[id := m], values[id := m.value], status, idle)
    ensures m.value == semas[id].value ==> values[id := m.value] == values
  {
  }

  /** The lists hold the threads the state says. */
  ghost predicate Held(s: State, queue: Queues) {
    Matching(queue, s.semas) && s.ready == At(queue, ReadyList) && s.sleeping == At(queue, SleepingList)
  }

  // What the invariant says about the lists.

  /** The running thread is on no list. */
  lemma CurrentOff(s: State, queue: Queues)
    requires Inv(s) && Held(s, queue)
    ensures s.current in s.status && s.current in s.prio && forall w :: w in queue ==> s.current !in queue[w]
    ensures forall t :: t in s.ready ==> t in s.prio && t in s.status
  {
    hide SemaOk, LockOk, HolderOk, ListsOk, QueueOk, LockKeysOk, PcOk, Distinct, Sorted;
    var c := s.current;
    forall w | w in queue ensures c !in queue[w] {
      match w
      case ReadyList =>
      case SleepingList =>
      case WaitersOf(id) =>
        assert WaitersOk(s.status, s.pc, id, s.semas[id].waiters);
        assert c in s.semas[id].waiters <==> BlockedOn(s.status, s.pc, c, id);
    }
  }

  /** The steps of lock_release, two and two. */
  ghost function GivenAway(s: State, l: LockId): State
    requires s.current in s.info && l in s.locks
  {
    ReleaseHolder(BeginRelease(s, l), l)
  }

  ghost function Restored(s: State, l: LockId): State
    requires s.current in s.info && s.current in s.prio && OfLock(l) in s.semas
  {
    ReleaseUpIs(s, l);
    var r := ReleaseUp(s, l);
    SetPriority(r, r.info[r.current].base).(pc := r.pc[r.current := User])
  }

  ghost function AfterRelease(s: State, l: LockId): State
    requires Inv(s) && l in s.locks && s.pc[s.current].User? && s.locks[l].holder == Some(s.current)
  {
    ReleaseFacts(s, l);
    Restored(GivenAway(s, l), l)
  }

  lemma ReleaseFacts(s: State, l: LockId)
    requires Inv(s) && l in s.locks && s.pc[s.current].User? && s.locks[l].holder == Some(s.current)
    ensures s.current in s.info && (forall k :: k in s.info[s.current].locks ==> k in s.locks)
    ensures var b := GivenAway(s, l);
            && b.current in b.info && b.current in b.prio && OfLock(l) in b.semas && InvNoLock(GivenUp(b, l))
            && var f := Restored(b, l);
            Inv(f) && f.locks == b.locks && forall t :: t in f.info ==> l !in f.info[t].held
  {
    hide Inv, GivenAway, Restored, InvNoLock, GivenUp;
    CurrentFacts(s);
    OwnLocks(s);
    GivenAwayInv(s, l);
    var b := GivenAway(s, l);
    CurrentFacts(b);
    InvSemas(b, l);
    GivenUpInv(b, l);
    RestoredInv(b, l);
    FreeOfHolders(Restored(b, l), l);
  }

  lemma GivenAwayInv(s: State, l: LockId)
    requires Inv(s) && l in s.locks && s.pc[s.current].User? && s.locks[l].holder == Some(s.current)
    requires s.current in s.info
    ensures var b := GivenAway(s, l);
            Inv(b) && b.current in b.pc && b.pc[b.current] == Releasing2(l) && l in b.locks && b.current in b.info
  {
    hide Inv, BeginRelease;
    CurrentFacts(s);
    BeginReleaseInv(s, l);
    BeginReleaseIs(s, l);
    var a := BeginRelease(s, l);
    CurrentFacts(a);
    ReleaseHolderInv(a, l);
  }

  lemma RestoredInv(s: State, l: LockId)
    requires Inv(s) && s.current in s.pc && s.pc[s.current] == Releasing2(l) && l in s.locks && OfLock(l) in s.semas
    requires s.current in s.info && s.current in s.prio
    ensures var f := Restored(s, l);
            Inv(f) && f.locks == s.locks && OfLock(l) in f.semas && f.semas[OfLock(l)].value > 0
  {
    hide Inv, ReleaseUp, Max;
    ReleaseUpInv(s, l);
    ReleaseUpIs(s, l);
    ReleasePriorityInv(ReleaseUp(s, l));
  }

  lemma BeginReleaseIs(s: State, l: LockId)
    requires s.current in s.info && s.current in s.pc
    ensures var r := BeginRelease(s, l);
            && r.current == s.current && r.locks == s.locks && r.semas == s.semas && r.info.Keys == s.info.Keys
            && r.current in r.pc && r.pc[r.current] == Releasing(l)
  {
    hide StableSort, Removed;
  }

  lemma ReleaseUpIs(s: State, l: LockId)
    requires s.current in s.info && OfLock(l) in s.semas
    ensures var r := ReleaseUp(s, l);
            && r.current == s.current && r.locks == s.locks && OfLock(l) in r.semas && r.prio == s.prio
            && r.semas[OfLock(l)].value == s.semas[OfLock(l)].value + 1
            && r.current in r.info && r.current in r.pc && r.pc[r.current].Released?
  {
    hide SemaUp;
    UpIs(GivenUp(s, l), OfLock(l));
  }

  /** A lock whose semaphore is positive has no holder. */
  lemma FreeOfHolders(s: State, l: LockId)
    requires Inv(s) && l in s.locks && OfLock(l) in s.semas && s.semas[OfLock(l)].value > 0
    ensures forall t :: t in s.info ==> l !in s.info[t].held
  {
    hide RunOk, ReadyOk, BlockedOk, WaitOk, SleepOk, SemaOk, HolderOk, ListsOk, QueueOk, LockKeysOk, PcOk;
    assert |Holders(s.info, l)| == 0;
    forall t | t in s.info ensures l !in s.info[t].held { assert t !in Holders(s.info, l); }
  }

  lemma OwnLocks(s: State)
    requires Inv(s) && s.current in s.info
    ensures forall k :: k in s.info[s.current].locks ==> k in s.locks
  {
    assert ThreadOk(s.mlfqs, s.pc[s.current], s.info[s.current], s.locks.Keys);
  }

  /** The step of lock_acquire. */
  ghost function Acquiring(s: State, l: LockId): State
    requires Inv(s) && l in s.locks && s.pc[s.current].User? && s.locks[l].holder != Some(s.current)
  {
    AcquireFacts(s, l);
    TryDown(EnterAcquire(s, l), OfLock(l))
  }

  lemma AcquireFacts(s: State, l: LockId)
    requires Inv(s) && l in s.locks && s.pc[s.current].User? && s.locks[l].holder != Some(s.current)
    ensures s.current in s.info && Donation.Linked(s) && Donation.Linked(Waiting(s, l)) && OfLock(l) in s.semas
    ensures var r := EnterAcquire(s, l);
            && Inv(r) && r.semas == s.semas && r.current == s.current && l in r.locks && r.current in r.info
            && r.current in r.prio
            && Inv(TryDown(r, OfLock(l))) && (forall t :: t in r.semas[OfLock(l)].waiters ==> t in r.prio)
  {
    hide Inv, EnterAcquire, Donation.Linked, TryDown;
    CurrentFacts(s);
    Donation.InvLinked(s, l);
    EnterAcquireInv(s, l);
    var r := EnterAcquire(s, l);
    InvSemas(s, l);
    CurrentFacts(r);
    TryDownInv(r, OfLock(l));
    InvWaiters(r, OfLock(l));
  }

  lemma InvSemas(s: State, l: LockId)
    requires Inv(s) && l in s.locks
    ensures OfLock(l) in s.semas
  {
  }

  lemma InvWaiters(s: State, id: SemaId)
    requires Inv(s) && id in s.semas
    ensures forall t :: t in s.semas[id].waiters ==> t in s.prio
  {
    hide SemaOk, LockOk, HolderOk, ListsOk, QueueOk, LockKeysOk, PcOk, SleepOk;
    assert WaitersOk(s.status, s.pc, id, s.semas[id].waiters);
  }

  /** The two halves of sema_up. */
  ghost function WaiterWoken(s: State, id: SemaId): State
    requires id in s.semas && s.semas[id].waiters != []
  {
    var q := StableSort(PrioGreater(s.prio), s.semas[id].waiters);
    Unblock(s, q[0]).(semas := s.semas[id := s.semas[id].(waiters := q[1..])])
  }

  ghost function Raised(semas: map<SemaId, Sema>, id: SemaId): map<SemaId, Sema> {
    if id in semas then semas[id := semas[id].(value := semas[id].value + 1, ups := semas[id].ups + 1)] else semas
  }

  lemma SemaUpIs(s: State, id: SemaId)
    requires id in s.semas
    ensures var r := if s.semas[id].waiters == [] then s else WaiterWoken(s, id);
            SemaUp(s, id) == r.(semas := Raised(r.semas, id))
  {
    hide StableSort, InsertOrdered;
    if s.semas[id].waiters != [] {
      var q := StableSort(PrioGreater(s.prio), s.semas[id].waiters);
      UpdateTwice(s.semas, id, s.semas[id].(waiters := q[1..]), Raised(WaiterWoken(s, id).semas, id)[id]);
    }
  }

  /** A waiter is on no other list. */
  lemma WaiterOff(s: State, queue: Queues, id: SemaId, q: seq<Tid>)
    requires InvNoLock(s) && Held(s, queue) && id in s.semas && s.semas[id].waiters != []
    requires q == StableSort(PrioGreater(s.prio), s.semas[id].waiters)
    ensures StrictWeak(PrioGreater(s.prio), s.semas[id].waiters) && q != []
    ensures forall w :: w in queue ==> q[0] !in queue[WaitersOf(id) := q[1..]][w]
  {
    hide RunOk, SemaOk, HolderOk, ListsOk, QueueOk, LockKeysOk, PcOk, Distinct, Sorted, StableSort;
    TopWaiter(s, id);
    WaitersFacts(s, id);
    PrioWeak(s.prio, s.semas[id].waiters);
    var t := q[0];
    forall w | w in queue ensures t !in queue[WaitersOf(id) := q[1..]][w] {
      match w
      case ReadyList =>
      case SleepingList =>
      case WaitersOf(j) =>
        assert WaitersOk(s.status, s.pc, j, s.semas[j].waiters);
        assert t in s.semas[j].waiters <==> BlockedOn(s.status, s.pc, t, j);
    }
  }

  /** A sleeper is on no other list. */
  lemma SleeperOff(s: State, queue: Queues)
    requires Inv(s) && Held(s, queue) && s.sleeping != []
    ensures var t := s.sleeping[0];
            forall w :: w in queue ==> t !in queue[SleepingList := s.sleeping[1..]][w]
  {
    hide SemaOk, LockOk, HolderOk, ListsOk, QueueOk, LockKeysOk, PcOk, Sorted;
    var t := s.sleeping[0];
    assert t in s.sleeping;
    forall w | w in queue ensures t !in queue[SleepingList := s.sleeping[1..]][w] {
      match w
      case ReadyList =>
      case SleepingList =>
      case WaitersOf(id) =>
        assert WaitersOk(s.status, s.pc, id, s.semas[id].waiters);
        assert t in s.semas[id].waiters <==> BlockedOn(s.status, s.pc, t, id);
    }
  }

  lemma TickedSleepers(s: State)
    requires JustTicked(s)
    ensures forall t :: t in s.sleeping ==> t in s.wakeup
  {
    var r := s.(ticks := s.ticks - 1);
    assert SleepOk(r.pc, r.sleeping, r.wakeup, r.ticks);
  }

  lemma WokenFirstIs(s: State)
    requires s.sleeping != []
    ensures WokenFirst(s) == Unblock(s.(sleeping := s.sleeping[1..], pc := s.pc[s.sleeping[0] := User]), s.sleeping[0])
  {
    hide InsertOrdered;
  }

  lemma WakeFirst(s: State)
    requires s.sleeping != [] && s.sleeping[0] in s.wakeup && s.wakeup[s.sleeping[0]] <= s.ticks
    ensures WakeAll(s) == WakeAll(WokenFirst(s))
  {
  }

  lemma WakeNone(s: State)
    requires s.sleeping == [] || s.sleeping[0] !in s.wakeup || s.wakeup[s.sleeping[0]] > s.ticks
    ensures WakeAll(s) == s
  {
  }

  lemma TickDomains(s: State)
    requires Inv(s)
    ensures s.usage.Keys == s.prio.Keys && s.current in s.usage
    ensures forall t :: t in s.ready ==> t in s.prio
  {
    hide BlockedOk, WaitOk, SemaOk, LockOk, HolderOk, ListsOk, QueueOk, LockKeysOk, PcOk;
  }

  lemma SortEmpty<T(!new)>(less: (T, T) -> bool)
    ensures StableSort(less, []) == []
  {
  }

  lemma SortKeeps<T(!new)>(less: (T, T) -> bool, s: seq<T>)
    ensures forall x :: x in StableSort(less, s) ==> x in s
    ensures |StableSort(less, s)| == |s|
  {
    hide StableSort;
    PermElems(s, StableSort(less, s));
  }

  lemma LinkedWait(s: State, t: Tid, d: nat)
    requires Donation.Linked(s) && t in s.info && s.info[t].waitingLock.Some? && d > 0
    ensures t in s.prio && s.info[t].waitingLock.value in s.locks
    ensures var l := s.info[t].waitingLock.value;
            s.locks[l].holder.None? ==>
              Donate(s, t, d) ==
                s.(locks := s.locks[l := s.locks[l].(maxPriority := Max(s.locks[l].maxPriority, s.prio[t]))])
  {
  }

  lemma LinkedEdge(s: State, t: Tid, d: nat)
    requires Donation.Linked(s) && t in s.info && s.info[t].waitingLock.Some? && d > 0
    requires s.info[t].waitingLock.value in s.locks ==> s.locks[s.info[t].waitingLock.value].holder.Some?
    ensures var l := s.info[t].waitingLock.value;
            && t in s.prio && l in s.locks && s.locks[l].holder.Some?
            && var h := s.locks[l].holder.value;
               && h in s.prio && h in s.info
               && Donate(s, t, d) == Donate(DonateEdge(s, t, l, h), h, d - 1)
               && Donation.Linked(DonateEdge(s, t, l, h))
               && h in DonateEdge(s, t, l, h).info && h in DonateEdge(s, t, l, h).prio
  {
    var l := s.info[t].waitingLock.value;
    var h := s.locks[l].holder.value;
    DonateEdgeOnly(s, t, l, h);
    Donation.SameGraph(s, DonateEdge(s, t, l, h));
  }

  lemma WalkOver(s: State, t: Tid, d: nat)
    requires d == 0 || (t in s.info && s.info[t].waitingLock.None?)
    ensures Donate(s, t, d) == s
  {
  }
}
