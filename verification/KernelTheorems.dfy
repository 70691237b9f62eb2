/** What the invariant means for a kernel in any reachable state: mutual exclusion, no lost
    wake-up, who runs next, and when a sleeper wakes. */
module KernelTheorems {
  import opened Wrappers
  import opened Orders
  import opened Arithmetic
  import opened Mlfqs
  import opened Kernel
  import opened KernelInv
  import opened KernelSteps
  import opened KernelRuns

  // Semaphores and locks.

  /** In every interleaving no two threads hold the same lock. */
  lemma MutualExclusion(mlfqs: bool, steps: seq<Step>, l: LockId, t: Tid, u: Tid)
    requires Legal(Boot(mlfqs), steps)
    requires var s := After(Boot(mlfqs), steps);
             l in s.locks && t in s.info && u in s.info && l in s.info[t].held && l in s.info[u].held
    ensures t == u
    ensures var s := After(Boot(mlfqs), steps); OfLock(l) in s.semas && s.semas[OfLock(l)].value == 0
  {
    hide Legal, After, InvRun, Inv;
    BootInv(mlfqs);
    RunInv(Boot(mlfqs), steps);
    var s := After(Boot(mlfqs), steps);
    AtMostOne(s, l);
    SoleHolder(s.info, l, t);
    assert t in Holders(s.info, l);
    assert |Holders(s.info, l)| >= 1;
  }

  /** In every interleaving a semaphore's value is its initial value plus ups minus completed
      downs; and if threads are blocked while it is positive, enough threads to use it up are
      already on their way to test it. */
  lemma SemaphoreLaw(mlfqs: bool, steps: seq<Step>, id: SemaId)
    requires Legal(Boot(mlfqs), steps) && id in After(Boot(mlfqs), steps).semas
    ensures var s := After(Boot(mlfqs), steps);
            var m := s.semas[id];
            && m.value == m.init + m.ups - m.downs
            && (m.waiters != [] ==> m.value <= |Woken(s.status, s.pc, id)|)
            && (m.waiters != [] && m.value > 0 ==>
                  exists t :: t in Woken(s.status, s.pc, id) && (s.status[t] == Ready || s.status[t] == Running))
  {
    hide Legal, After, Next;
    BootInv(mlfqs);
    RunInv(Boot(mlfqs), steps);
    var s := After(Boot(mlfqs), steps);
    SemaphoreState(s, id);
  }

  lemma SemaphoreState(s: State, id: SemaId)
    requires Inv(s) && id in s.semas
    ensures var m := s.semas[id];
            && m.value == m.init + m.ups - m.downs
            && (m.waiters != [] ==> m.value <= |Woken(s.status, s.pc, id)|)
            && (m.waiters != [] && m.value > 0 ==>
                  exists t :: t in Woken(s.status, s.pc, id) && (s.status[t] == Ready || s.status[t] == Running))
  {
    hide RunOk, ReadyOk, BlockedOk, WaitOk, SleepOk, LockOk, HolderOk, ListsOk, QueueOk, LockKeysOk, PcOk;
    assert OneSemaOk(s.status, s.pc, id, s.semas[id]);
    var w := Woken(s.status, s.pc, id);
    if w != {} {
      var t :| t in w;
      assert s.status[t] == Ready || s.status[t] == Running;
    }
  }

  /** The thread that sema_up wakes is a waiter of the highest priority, and among those the first
      on the list. It becomes ready. */
  lemma UpWakesHighest(s: State, id: SemaId)
    requires Inv(s) && id in s.semas && s.semas[id].waiters != []
    ensures exists t ::
              && t in s.semas[id].waiters && t in s.prio
              && SemaUp(s, id).status == s.status[t := Ready] && t in SemaUp(s, id).ready
              && (forall x :: x in SemaUp(s, id).semas[id].waiters <==> x in s.semas[id].waiters && x != t)
              && FirstAmongHighest(s.prio, s.semas[id].waiters, t)
  {
    hide RunOk, ReadyOk, BlockedOk, WaitOk, SleepOk, SemaOk, LockOk, HolderOk, ListsOk, QueueOk, LockKeysOk, PcOk,
         StableSort, FirstAmongHighest, BlockedOn, InsertOrdered;
    var w := s.semas[id].waiters;
    var q := StableSort(PrioGreater(s.prio), w);
    TopWaiter(s, id);
    WaitersFacts(s, id);
    SortedHead(s.prio, w);
    InsertedIn(PrioGreater(s.prio), s.ready, q[0]);
    assert q[0] in s.semas[id].waiters;
  }

  lemma InsertedIn<T>(less: (T, T) -> bool, s: seq<T>, x: T)
    ensures x in InsertOrdered(less, s, x)
  {
    var p := InsertIndex(less, s, x);
    assert InsertOrdered(less, s, x)[p] == x;
  }

  /** `t` has the highest priority in `q`, and comes before every other thread of that priority. */
  ghost predicate FirstAmongHighest(prio: map<Tid, int>, q: seq<Tid>, t: Tid)
  {
    && t in q && t in prio
    && (forall x :: x in q && x in prio ==> prio[x] <= prio[t])
    && (forall x :: x in q && x in prio && x != t && prio[x] == prio[t] ==> Before(q, t, x))
  }

  lemma SortedHead(prio: map<Tid, int>, w: seq<Tid>)
    requires w != [] && Distinct(w) && forall t :: t in w ==> t in prio
    ensures FirstAmongHighest(prio, w, StableSort(PrioGreater(prio), w)[0])
  {
    var less := PrioGreater(prio);
    var q := StableSort(less, w);
    var t := q[0];
    SortedThreads(prio, w);
    PrioWeak(prio, w);
    StableSortCorrect(less, w);
    forall x | x in w && x != t && prio[x] == prio[t] ensures Before(w, t, x) {
      assert t in w;
      var i, j :| 0 <= i < |w| && w[i] == t && 0 <= j < |w| && w[j] == x;
      NotBeforeHead(q, x);
      assert !less(w[i], w[j]);
      assert !(j < i);
    }
  }

  lemma NotBeforeHead<T>(q: seq<T>, x: T)
    requires q != [] && Distinct(q)
    ensures !Before(q, x, q[0])
  {
  }

  // The scheduler.

  /** Between steps exactly one thread is running; a thread is on the ready list if and only if
      it is ready and not the idle thread; no thread is on two lists; and every blocked thread
      but the idle one is on the list that can wake it. */
  lemma ListsAreExclusive(s: State)
    requires Inv(s)
    ensures s.current in s.status && forall t :: t in s.status ==> (s.status[t] == Running <==> t == s.current)
    ensures forall t :: t in s.ready <==> t in s.status && t != s.idle && s.status[t] == Ready
    ensures forall t :: t in s.ready ==> t !in s.sleeping && forall id :: id in s.semas ==> t !in s.semas[id].waiters
    ensures forall t, id :: id in s.semas && t in s.semas[id].waiters ==>
              t !in s.sleeping && forall j :: j in s.semas && j != id ==> t !in s.semas[j].waiters
    ensures forall t :: t in s.status && t != s.idle && s.status[t] == Blocked ==>
              t in s.sleeping || exists id :: id in s.semas && t in s.semas[id].waiters
  {
    hide InvRun, Inv;
    ListMeanings(s);
    forall t | t in s.status && t != s.idle && s.status[t] == Blocked
      ensures t in s.sleeping || exists id :: id in s.semas && t in s.semas[id].waiters
    {
      if s.pc[t].Down? {
        assert BlockedOn(s.status, s.pc, t, s.pc[t].sema);
      }
    }
  }

  lemma ListMeanings(s: State)
    requires Inv(s)
    ensures s.current in s.status && forall t :: t in s.status ==> (s.status[t] == Running <==> t == s.current)
    ensures forall t :: t in s.ready <==> t in s.status && t != s.idle && s.status[t] == Ready
    ensures forall t :: t in s.sleeping <==> t in s.status && t in s.pc && s.status[t] == Blocked && s.pc[t].Asleep?
    ensures forall id :: id in s.semas ==> forall t :: t in s.semas[id].waiters <==> BlockedOn(s.status, s.pc, t, id)
    ensures forall t :: t in s.status && t != s.idle && s.status[t] == Blocked ==>
              t in s.pc && (s.pc[t].Asleep? || (s.pc[t].Down? && s.pc[t].sema in s.semas))
  {
    hide SemaOk, LockOk, HolderOk, ListsOk, QueueOk, LockKeysOk, Distinct, Sorted;
    forall id | id in s.semas
      ensures forall t :: t in s.semas[id].waiters <==> BlockedOn(s.status, s.pc, t, id)
    {
      assert WaitersOk(s.status, s.pc, id, s.semas[id].waiters);
    }
  }

  /** schedule switches to a ready thread of the highest priority, the first of those on the list;
      to the idle thread only if no thread is ready. */
  lemma NextIsHighest(s: State)
    requires InvRun(s, None)
    ensures s.ready == [] ==> Schedule(s).current == s.idle
    ensures s.ready != [] ==> FirstAmongHighest(s.prio, s.ready, Schedule(s).current)
  {
    ReadyFacts(s, None);
    if s.ready != [] {
      if s.mlfqs {
        SortedFirst(s.prio, s.ready);
        forall x | x in s.ready && x != s.ready[0] ensures Before(s.ready, s.ready[0], x) {
          var j :| 0 <= j < |s.ready| && s.ready[j] == x;
        }
      } else {
        SortedHead(s.prio, s.ready);
      }
    }
  }

  /** After thread_yield, the running thread has the highest priority of all that can run. */
  lemma YieldRunsHighest(s: State)
    requires Inv(s)
    ensures var r := Yield(s);
            && (forall t :: t in s.ready ==> r.current in s.prio && t in s.prio && s.prio[t] <= s.prio[r.current])
            && (s.current != s.idle ==>
                  r.current in s.prio && s.current in s.prio && s.prio[s.current] <= s.prio[r.current])
  {
    hide InvRun, Schedule, InsertOrdered;
    PreemptedInv(s);
    NextIsHighest(Preempted(s));
    PreemptedReady(s);
  }

  lemma PreemptedReady(s: State)
    requires Inv(s)
    ensures s.current in s.prio && (forall t :: t in s.ready ==> t in s.prio)
    ensures forall t :: t in Preempted(s).ready <==> t in s.ready || (t == s.current && t != s.idle)
  {
    if s.current != s.idle {
      Inserted(PrioGreater(s.prio), s.ready, s.current);
    }
  }

  // The alarm clock.

  /** What a step other than the timer interrupt leaves alone. */
  ghost predicate ClockKept(s: State, r: State, t: Tid) {
    r.ticks == s.ticks && t in r.sleeping && t in r.wakeup && t in s.wakeup && r.wakeup[t] == s.wakeup[t]
  }

  lemma ScheduleClock(s: State)
    ensures Schedule(s).ticks == s.ticks && Schedule(s).sleeping == s.sleeping && Schedule(s).wakeup == s.wakeup
    ensures Schedule(s).usage == s.usage && Schedule(s).loadAvg == s.loadAvg && Schedule(s).idle == s.idle
    ensures Schedule(s).mlfqs == s.mlfqs
  {
  }

  lemma TryDownClock(s: State, id: SemaId)
    requires id in s.semas && s.current in s.info && s.current in s.prio && (id.OfLock? ==> id.lock in s.locks)
    ensures var r := TryDown(s, id);
            && r.ticks == s.ticks && r.sleeping == s.sleeping && r.wakeup == s.wakeup
            && r.usage == s.usage && r.loadAvg == s.loadAvg && r.idle == s.idle && r.mlfqs == s.mlfqs
  {
    hide Schedule, StillWaiting, TakenLock, HolderInfo, InsertOrdered;
    if s.semas[id].value == 0 {
      ScheduleClock(Enqueued(s, id));
    }
  }

  /** Nothing about clocks and usage changes. */
  ghost predicate Quiet(s: State, r: State) { Clocks(r) == Clocks(s) }

  /** The fields that few steps touch. */
  ghost function Clocks(s: State): (bool, int, seq<Tid>, map<Tid, int>, map<Tid, Usage>, int, Tid) {
    (s.mlfqs, s.ticks, s.sleeping, s.wakeup, s.usage, s.loadAvg, s.idle)
  }

  lemma DownIsQuiet(s: State, step: Step)
    requires Domains(s) && s.current in s.status && Enabled(s, step)
    requires step.SemaDownStep? || step.RetestStep? || step.LockAcquireStep?
    ensures Quiet(s, Next(s, step))
  {
    hide TryDown, EnterAcquire, Domains;
    DomainsFacts(s);
    match step
    case SemaDownStep(id) => TryDownClock(s.(pc := s.pc[s.current := Down(Plain(id))]), Plain(id));
    case RetestStep => TryDownClock(s, s.pc[s.current].sema);
    case LockAcquireStep(l) =>
      DonateFrame(s, l);
      TryDownClock(EnterAcquire(s, l), OfLock(l));
  }

  lemma SwitchIsQuiet(s: State, step: Step)
    requires Domains(s) && s.current in s.status && Enabled(s, step)
    requires step.YieldStep? || step.IdleBlockStep?
    ensures Quiet(s, Next(s, step))
  {
    hide Schedule, InsertOrdered, Domains;
    ScheduleClock(Preempted(s));
    ScheduleClock(s.(status := s.status[s.current := Blocked]));
  }

  /** Only sleeping, the timer interrupt, birth, death and a new niceness touch clocks or usage. */
  lemma MostStepsAreQuiet(s: State, step: Step)
    requires Domains(s) && s.current in s.status && Enabled(s, step)
    requires !step.SleepStep? && !step.TickStep? && !step.CreateStep? && !step.ExitStep? && !step.SetNiceStep?
    ensures Quiet(s, Next(s, step))
  {
    hide Schedule, InsertOrdered, StableSort, Domains, Quiet;
    DomainsFacts(s);
    match step
    case SemaDownStep(_) => DownIsQuiet(s, step);
    case RetestStep => DownIsQuiet(s, step);
    case LockAcquireStep(_) => DownIsQuiet(s, step);
    case YieldStep => SwitchIsQuiet(s, step);
    case IdleBlockStep => SwitchIsQuiet(s, step);
    case _ => DataIsQuiet(s, step);
  }

  lemma DataIsQuiet(s: State, step: Step)
    requires Domains(s) && s.current in s.status && Enabled(s, step)
    requires step.SemaInitStep? || step.LockInitStep? || step.SemaTryDownStep? || step.SemaUpStep?
      || step.ReleasePriorityStep? || step.SetPriorityStep? || IsLockStep(step)
    ensures Quiet(s, Next(s, step))
  {
    hide InsertOrdered, StableSort, Domains, TryLock, TryLockHolder, BeginRelease, ReleaseHolder, ReleaseUp;
    DomainsFacts(s);
    match step
    case SemaInitStep(_, _) =>
    case LockInitStep(_) =>
    case SemaTryDownStep(_) =>
    case SemaUpStep(_) =>
    case ReleasePriorityStep =>
    case SetPriorityStep(_) =>
    case _ => LockIsQuiet(s, step);
  }

  ghost predicate IsLockStep(step: Step) {
    step.LockTryStep? || step.LockTryHolderStep? || step.LockReleaseStep?
    || step.ReleaseHolderStep? || step.ReleaseUpStep?
  }

  lemma LockIsQuiet(s: State, step: Step)
    requires Domains(s) && s.current in s.status && Enabled(s, step) && IsLockStep(step)
    ensures Quiet(s, Next(s, step))
  {
    hide Domains, Quiet, TryLock, TryLockHolder, BeginRelease, ReleaseHolder, ReleaseUp;
    DomainsFacts(s);
    match step
    case LockTryStep(l) => TryLockQuiet(s, l);
    case LockTryHolderStep => TryLockHolderQuiet(s, s.pc[s.current].lock);
    case LockReleaseStep(l) => ReleaseQuiet(s, l);
    case ReleaseHolderStep => ReleaseHolderQuiet(s, s.pc[s.current].lock);
    case ReleaseUpStep => ReleaseUpQuiet(s, s.pc[s.current].lock);
  }

  lemma TryLockQuiet(s: State, l: LockId)
    requires OfLock(l) in s.semas && s.current in s.info
    ensures Quiet(s, TryLock(s, l))
  {
  }

  lemma TryLockHolderQuiet(s: State, l: LockId)
    requires l in s.locks && s.current in s.info
    ensures Quiet(s, TryLockHolder(s, l))
  {
  }

  lemma ReleaseQuiet(s: State, l: LockId)
    requires s.current in s.info
    ensures Quiet(s, BeginRelease(s, l))
  {
  }

  lemma ReleaseHolderQuiet(s: State, l: LockId)
    requires l in s.locks
    ensures Quiet(s, ReleaseHolder(s, l))
  {
  }

  lemma ReleaseUpQuiet(s: State, l: LockId)
    requires OfLock(l) in s.semas && s.current in s.info
    ensures Quiet(s, ReleaseUp(s, l))
  {
    hide StableSort, InsertOrdered;
  }

  // The other steps, one by one.

  lemma SleepIs(s: State, n: int)
    requires Domains(s) && s.current in s.status && Enabled(s, SleepStep(n))
    ensures Next(s, SleepStep(n)) == if n <= 0 then s else Schedule(FallAsleep(s, n))
  {
  }

  lemma ExitIs(s: State)
    requires Domains(s) && s.current in s.status && Enabled(s, ExitStep)
    ensures Next(s, ExitStep) == Schedule(Exited(s))
  {
  }

  lemma CreateIs(s: State, t: Tid, p: int)
    requires Domains(s) && s.current in s.status && Enabled(s, CreateStep(t, p)) && s.current in s.usage
    ensures Next(s, CreateStep(t, p)) == Create(s, t, p)
  {
  }

  lemma SetNiceIs(s: State, n: int)
    requires Domains(s) && s.current in s.status && Enabled(s, SetNiceStep(n)) && s.current in s.usage
    ensures Next(s, SetNiceStep(n)) == SetNice(s, n)
  {
  }

  lemma TickIs(s: State)
    requires Domains(s) && s.current in s.status && Enabled(s, TickStep)
    ensures Next(s, TickStep) == Tick(s)
  {
  }

  /** Nothing but the timer interrupt wakes a sleeper or moves its wake-up tick. */
  lemma OthersKeepSleepers(s: State, step: Step, t: Tid)
    requires Inv(s) && Domains(s) && s.current in s.status && Enabled(s, step) && step != TickStep && t in s.sleeping
    ensures ClockKept(s, Next(s, step), t)
  {
    hide InvRun, Inv, Domains, Next, ClockKept, Quiet;
    SleeperAside(s, t);
    match step
    case SleepStep(n) => SleepKeeps(s, n, t);
    case ExitStep => ExitKeeps(s, t);
    case CreateStep(u, p) => CreateKeeps(s, u, p, t);
    case SetNiceStep(n) => SetNiceKeeps(s, n, t);
    case TickStep =>
    case _ =>
      MostStepsAreQuiet(s, step);
      QuietKeeps(s, Next(s, step), t);
  }

  lemma SleeperAside(s: State, t: Tid)
    requires Inv(s) && t in s.sleeping
    ensures t != s.current && t in s.wakeup && t in s.status && s.current in s.usage
  {
    hide Sorted, Distinct;
    SleeperFacts(s, t);
    CurrentFacts(s);
  }

  lemma QuietKeeps(s: State, r: State, t: Tid)
    requires Quiet(s, r) && t in s.sleeping && t in s.wakeup
    ensures ClockKept(s, r, t)
  {
  }

  lemma SleepKeeps(s: State, n: int, t: Tid)
    requires Domains(s) && s.current in s.status && Enabled(s, SleepStep(n)) && t in s.sleeping && t in s.wakeup
    requires t != s.current
    ensures ClockKept(s, Next(s, SleepStep(n)), t)
  {
    hide Domains, Next, Schedule, InsertOrdered;
    SleepIs(s, n);
    if n > 0 {
      ScheduleClock(FallAsleep(s, n));
      InsertedKeeps(WakesBefore(s.wakeup[s.current := s.ticks + n]), s.sleeping, s.current, t);
    }
  }

  lemma ExitKeeps(s: State, t: Tid)
    requires Domains(s) && s.current in s.status && Enabled(s, ExitStep) && t in s.sleeping && t in s.wakeup
    requires t != s.current
    ensures ClockKept(s, Next(s, ExitStep), t)
  {
    hide Domains, Next, Schedule;
    ExitIs(s);
    ScheduleClock(Exited(s));
  }

  lemma CreateKeeps(s: State, u: Tid, p: int, t: Tid)
    requires Domains(s) && s.current in s.status && Enabled(s, CreateStep(u, p)) && s.current in s.usage
    requires t in s.sleeping && t in s.wakeup && t in s.status
    ensures ClockKept(s, Next(s, CreateStep(u, p)), t)
  {
    hide Domains, Next, InsertOrdered;
    CreateIs(s, u, p);
  }

  lemma SetNiceKeeps(s: State, n: int, t: Tid)
    requires Domains(s) && s.current in s.status && Enabled(s, SetNiceStep(n)) && s.current in s.usage
    requires t in s.sleeping && t in s.wakeup
    ensures ClockKept(s, Next(s, SetNiceStep(n)), t)
  {
    hide Domains, Next, StableSort, PriorityOf;
    SetNiceIs(s, n);
  }

  lemma DomainsFacts(s: State)
    requires Domains(s) && s.current in s.status
    ensures s.current in s.pc
    ensures (s.pc[s.current].TryHeld? || s.pc[s.current].Releasing? || s.pc[s.current].Releasing2? ==>
               s.pc[s.current].lock in s.locks)
    ensures s.current in s.pc && s.current in s.info && s.current in s.prio && s.current in s.usage
    ensures s.idle in s.status
    ensures s.pc[s.current].Down? ==> s.pc[s.current].sema in s.semas
    ensures s.pc[s.current].Down? && s.pc[s.current].sema.OfLock? ==> s.pc[s.current].sema.lock in s.locks
    ensures forall l :: l in s.locks <==> OfLock(l) in s.semas
  {
  }

  lemma InsertedKeeps<T>(less: (T, T) -> bool, s: seq<T>, x: T, y: T)
    requires y in s
    ensures y in InsertOrdered(less, s, x)
  {
    var p := InsertIndex(less, s, x);
    assert y in s[..p] || y in s[p..];
  }

  /** The timer interrupt wakes the sleepers whose tick has come, and no others. */
  lemma TickWakes(s: State)
    requires Inv(s)
    ensures var r := Tick(s);
            && r.ticks == s.ticks + 1 && r.wakeup == s.wakeup
            && (forall t :: t in s.sleeping ==> t in s.wakeup && s.wakeup[t] >= r.ticks)
            && (forall t :: t in s.sleeping ==> (t in r.sleeping <==> s.wakeup[t] != r.ticks))
            && (forall t :: t in s.sleeping && s.wakeup[t] == r.ticks ==> MadeReady(r, t))
  {
    hide InvRun, Inv, MlfqsTick, WakeAll, MadeReady;
    var s1 := s.(ticks := s.ticks + 1);
    assert s1.(ticks := s1.ticks - 1) == s;
    SleepersLater(s);
    if s.mlfqs {
      MlfqsTickInv(s1);
      MlfqsTickClock(s1);
      WakeAllInv(MlfqsTick(s1));
    } else {
      WakeAllInv(s1);
    }
  }

  lemma SleepersLater(s: State)
    requires Inv(s)
    ensures forall t :: t in s.sleeping ==> t in s.wakeup && s.wakeup[t] > s.ticks
  {
  }

  /** What thread_tick does not touch. */
  ghost predicate TickKeeps(s: State, r: State) {
    && r.ticks == s.ticks && r.sleeping == s.sleeping && r.wakeup == s.wakeup
    && r.idle == s.idle && r.current == s.current && |r.ready| == |s.ready| && r.mlfqs == s.mlfqs
  }

  lemma CountedKeeps(s: State)
    ensures TickKeeps(s, Counted(s)) && Counted(s).loadAvg == s.loadAvg
  {
  }

  lemma ReprioritisedKeeps(s: State)
    ensures TickKeeps(s, Reprioritised(s)) && Reprioritised(s).loadAvg == s.loadAvg && Reprioritised(s).usage == s.usage
  {
    hide PriorityOf, PrioGreater;
  }

  lemma DecayedKeeps(s: State)
    ensures TickKeeps(s, Decayed(s))
  {
    hide NextUsage, NextLoadAvg;
  }

  lemma MlfqsTickClock(s: State)
    ensures TickKeeps(s, MlfqsTick(s))
  {
    hide Counted, Reprioritised, Decayed;
    CountedKeeps(s);
    ReprioritisedKeeps(Counted(s));
    DecayedKeeps(Reprioritised(Counted(s)));
  }

  lemma WakeAllUsage(s: State)
    ensures WakeAll(s).usage == s.usage && WakeAll(s).loadAvg == s.loadAvg && WakeAll(s).ticks == s.ticks
    ensures WakeAll(s).idle == s.idle && WakeAll(s).mlfqs == s.mlfqs
    decreases |s.sleeping|
  {
  }

  lemma TickMode(s: State)
    ensures Tick(s).mlfqs == s.mlfqs
  {
    hide MlfqsTick, WakeAll;
    var s1 := s.(ticks := s.ticks + 1);
    MlfqsTickClock(s1);
    WakeAllUsage(s1);
    WakeAllUsage(MlfqsTick(s1));
  }

  /** A sleeper stays asleep, with its wake-up tick unchanged, through any run that stops short
      of that tick. */
  lemma {:induction false} StaysAsleep(s: State, steps: seq<Step>, t: Tid)
    requires Inv(s) && Legal(s, steps) && t in s.sleeping && t in s.wakeup
    ensures After(s, steps).ticks >= s.ticks
    ensures After(s, steps).ticks < s.wakeup[t] ==>
              var r := After(s, steps); t in r.sleeping && t in r.wakeup && r.wakeup[t] == s.wakeup[t]
    decreases |steps|
  {
    hide InvRun, Inv, Next, Enabled, Domains, Tick;
    if steps != [] {
      var r := Next(s, steps[0]);
      NextInv(s, steps[0]);
      NextTicks(s, steps[0]);
      TicksGrow(r, steps[1..]);
      if steps[0] == TickStep {
        TickWakes(s);
        TickIs(s);
      } else {
        OthersKeepSleepers(s, steps[0], t);
      }
      if t in r.sleeping {
        StaysAsleep(r, steps[1..], t);
      }
    }
  }

  lemma NextTicks(s: State, step: Step)
    requires Inv(s) && Domains(s) && s.current in s.status && Enabled(s, step)
    ensures Next(s, step).ticks == s.ticks + if step == TickStep then 1 else 0
    ensures Next(s, step).mlfqs == s.mlfqs
  {
    hide InvRun, Inv, Schedule, InsertOrdered, StableSort, Domains, Tick, PriorityOf, Next;
    DomainsFacts(s);
    match step
    case SleepStep(n) =>
      SleepIs(s, n);
      ScheduleClock(FallAsleep(s, n));
    case ExitStep =>
      ExitIs(s);
      ScheduleClock(Exited(s));
    case TickStep =>
      TickIs(s);
      TickWakes(s);
      TickMode(s);
    case CreateStep(u, p) => CreateIs(s, u, p);
    case SetNiceStep(n) => SetNiceIs(s, n);
    case _ => MostStepsAreQuiet(s, step);
  }

  lemma {:induction false} TicksGrow(s: State, steps: seq<Step>)
    requires Inv(s) && Legal(s, steps)
    ensures After(s, steps).ticks >= s.ticks
    decreases |steps|
  {
    hide InvRun, Inv, Next, Enabled, Domains;
    if steps != [] {
      NextInv(s, steps[0]);
      NextTicks(s, steps[0]);
      TicksGrow(Next(s, steps[0]), steps[1..]);
    }
  }

  /** A thread that calls timer_sleep(n) with n > 0 is unblocked in exactly the interrupt that
      brings the clock n ticks further: after any run that stops before it, the thread is still
      asleep, and that interrupt makes it ready. */
  lemma AlarmIsExact(s: State, n: int, steps: seq<Step>)
    requires Inv(s) && Domains(s) && s.current in s.status && Enabled(s, SleepStep(n)) && n > 0
    requires Legal(Next(s, SleepStep(n)), steps)
    ensures var r := After(Next(s, SleepStep(n)), steps);
            && (r.ticks < s.ticks + n ==> s.current in r.sleeping)
            && (r.ticks == s.ticks + n - 1 ==> MadeReady(Tick(r), s.current) && s.current !in Tick(r).sleeping)
  {
    hide InvRun, Inv, Legal, After, Tick, Domains, InsertOrdered, Schedule, MadeReady, Next;
    var t, s1 := s.current, Next(s, SleepStep(n));
    DomainsFacts(s);
    SleepIs(s, n);
    NextInv(s, SleepStep(n));
    ScheduleClock(FallAsleep(s, n));
    InsertedIn(WakesBefore(s.wakeup[t := s.ticks + n]), s.sleeping, t);
    assert t in s1.sleeping && s1.wakeup[t] == s.ticks + n;
    StaysAsleep(s1, steps, t);
    RunInv(s1, steps);
    var r := After(s1, steps);
    TickWakes(r);
  }

  // Bounds of the MLFQS arithmetic.

  /** load_avg and recent_cpu are within their bounds for at most `n` runnable threads; in the
      course of a second recent_cpu may have gained one per tick. */
  ghost predicate UsageOk(s: State, n: nat) {
    s.ticks >= 0 && 0 <= s.loadAvg <= n * F && AllUsageOk(s.usage, s.idle, n, s.ticks % TIMER_FREQ)
  }

  /** `k` ticks into the current second. */
  ghost predicate ThreadUsageOk(u: Usage, n: nat, k: int) {
    && -NICE_MAX <= u.nice <= NICE_MAX
    && Abs(u.recent) <= RecentMax(n) - TIMER_FREQ * F + k * F
  }

  lemma CountedUsage(u: Usage, n: nat, k: int)
    requires ThreadUsageOk(u, n, k) && n <= 545 && 0 <= k < TIMER_FREQ
    ensures AddInt(u.recent, 1) == u.recent + F
    ensures ThreadUsageOk(u.(recent := AddInt(u.recent, 1)), n, k + 1)
  {
    RecentMaxFits(n);
    assert IntToFp(1) == F;
    WrapFits(u.recent + F);
  }

  lemma DecayedUsage(u: Usage, n: nat, loadAvg: int)
    requires ThreadUsageOk(u, n, TIMER_FREQ) && n <= 545 && 0 <= loadAvg <= n * F
    ensures ThreadUsageOk(NextUsage(u, loadAvg), n, 0)
  {
    RecentBound(n, u, loadAvg);
  }

  /** The usage of every thread, `k` ticks into the second. */
  ghost predicate AllUsageOk(usage: map<Tid, Usage>, idle: Tid, n: nat, k: int) {
    forall t :: t in usage ==> ThreadUsageOk(usage[t], n, if t == idle then 0 else k)
  }

  lemma CountedOk(s: State, n: nat, k: int)
    requires AllUsageOk(s.usage, s.idle, n, k) && n <= 545 && 0 <= k < TIMER_FREQ
    ensures AllUsageOk(Counted(s).usage, s.idle, n, k + 1)
  {
    hide AllUsageOk, AddInt;
    AllLater(s.usage, s.idle, n, k);
    if s.current != s.idle && s.current in s.usage {
      OneCounted(s.usage, s.idle, n, k, s.current);
    }
  }

  lemma AllLater(usage: map<Tid, Usage>, idle: Tid, n: nat, k: int)
    requires AllUsageOk(usage, idle, n, k)
    ensures AllUsageOk(usage, idle, n, k + 1)
  {
  }

  lemma OneCounted(usage: map<Tid, Usage>, idle: Tid, n: nat, k: int, c: Tid)
    requires AllUsageOk(usage, idle, n, k) && n <= 545 && 0 <= k < TIMER_FREQ && c in usage && c != idle
    ensures AllUsageOk(usage[c := usage[c].(recent := AddInt(usage[c].recent, 1))], idle, n, k + 1)
  {
    hide AddInt;
    CountedUsage(usage[c], n, k);
  }

  lemma DecayedOk(s: State, n: nat)
    requires AllUsageOk(s.usage, s.idle, n, TIMER_FREQ) && n <= 545 && 0 <= s.loadAvg <= n * F && Runnable(s) <= n
    ensures AllUsageOk(Decayed(s).usage, s.idle, n, 0) && 0 <= Decayed(s).loadAvg <= n * F
  {
    hide ThreadUsageOk, NextUsage, NextLoadAvg;
    LoadAvgBound(n, s.loadAvg, Runnable(s));
    var l := NextLoadAvg(s.loadAvg, Runnable(s));
    forall t | t in s.usage && t != s.idle ensures ThreadUsageOk(NextUsage(s.usage[t], l), n, 0) {
      DecayedUsage(s.usage[t], n, l);
    }
  }

  /** thread_tick keeps the bounds if at most `n` threads are runnable. */
  lemma TickUsage(s: State, n: nat)
    requires UsageOk(s, n) && n <= 545 && Runnable(s) <= n
    ensures UsageOk(MlfqsTick(s.(ticks := s.ticks + 1)), n)
  {
    hide AllUsageOk, Counted, Reprioritised, Decayed;
    var s1, k := s.(ticks := s.ticks + 1), s.ticks % TIMER_FREQ;
    CountedOk(s1, n, k);
    CountedKeeps(s1);
    var s2 := Counted(s1);
    ReprioritisedKeeps(s2);
    var s3 := Reprioritised(s2);
    if s1.ticks % TIME_SLICE == 0 && s1.ticks % TIMER_FREQ == 0 {
      assert k + 1 == TIMER_FREQ;
      DecayedOk(s3, n);
      DecayedKeeps(s3);
    } else {
      SecondGoesOn(s.ticks);
    }
  }

  lemma SecondGoesOn(ticks: int)
    requires ticks >= 0 && !((ticks + 1) % TIME_SLICE == 0 && (ticks + 1) % TIMER_FREQ == 0)
    ensures (ticks + 1) % TIMER_FREQ == ticks % TIMER_FREQ + 1
  {
    assert TIME_SLICE == 4 && TIMER_FREQ == 100;
    SliceDividesSecond(ticks);
  }

  lemma SliceDividesSecond(ticks: int)
    requires ticks >= 0 && !((ticks + 1) % 4 == 0 && (ticks + 1) % 100 == 0)
    ensures (ticks + 1) % 100 == ticks % 100 + 1
  {
  }

  /** A run in which at most `n` threads are ever runnable and niceness stays in range. */
  ghost predicate Calm(s: State, steps: seq<Step>, n: nat)
    requires Legal(s, steps)
    decreases |steps|
  {
    && Runnable(s) <= n
    && (steps != [] ==>
          && (steps[0].SetNiceStep? ==> -NICE_MAX <= steps[0].nice <= NICE_MAX)
          && Calm(Next(s, steps[0]), steps[1..], n))
  }

  /** Steps other than the timer interrupt change usage only through niceness, birth and death. */
  lemma OthersUsage(s: State, step: Step, n: nat)
    requires Inv(s) && Domains(s) && s.current in s.status && Enabled(s, step) && step != TickStep && UsageOk(s, n)
    requires s.mlfqs && (step.SetNiceStep? ==> -NICE_MAX <= step.nice <= NICE_MAX)
    ensures UsageOk(Next(s, step), n)
  {
    hide InvRun, Inv, Schedule, InsertOrdered, StableSort, Domains, AllUsageOk, PriorityOf, Next;
    DomainsFacts(s);
    var k := s.ticks % TIMER_FREQ;
    match step
    case SleepStep(x) =>
      SleepIs(s, x);
      ScheduleClock(FallAsleep(s, x));
    case ExitStep =>
      ExitIs(s);
      ScheduleClock(Exited(s));
      FewerUsage(s.usage, s.idle, n, k, s.current);
    case SetNiceStep(x) =>
      SetNiceIs(s, x);
      NicerUsage(s.usage, s.idle, n, k, s.current, x);
    case CreateStep(t, p) =>
      CreateIs(s, t, p);
      CurrentFacts(s);
      ChildUsage(s.usage, s.idle, n, k, s.current, t);
    case _ => MostStepsAreQuiet(s, step);
  }

  lemma FewerUsage(usage: map<Tid, Usage>, idle: Tid, n: nat, k: int, c: Tid)
    requires AllUsageOk(usage, idle, n, k)
    ensures AllUsageOk(usage - {c}, idle, n, k)
  {
  }

  lemma NicerUsage(usage: map<Tid, Usage>, idle: Tid, n: nat, k: int, c: Tid, x: int)
    requires AllUsageOk(usage, idle, n, k) && c in usage && -NICE_MAX <= x <= NICE_MAX
    ensures AllUsageOk(usage[c := usage[c].(nice := x)], idle, n, k)
  {
  }

  lemma ChildUsage(usage: map<Tid, Usage>, idle: Tid, n: nat, k: int, c: Tid, t: Tid)
    requires AllUsageOk(usage, idle, n, k) && c in usage && c != idle && t != idle
    ensures AllUsageOk(usage[t := usage[c]], idle, n, k)
  {
  }

  /** In every run in which at most `n` <= 545 threads are runnable, load_avg stays within
      [0, n] and recent_cpu within (2n+1) * (TIMER_FREQ + 20), so no update overflows. */
  lemma {:induction false} MlfqsBounds(s: State, steps: seq<Step>, n: nat)
    requires Inv(s) && s.mlfqs && UsageOk(s, n) && Legal(s, steps) && Calm(s, steps, n) && n <= 545
    ensures UsageOk(After(s, steps), n)
    ensures var r := After(s, steps);
            0 <= r.loadAvg <= n * F && forall t :: t in r.usage ==> Abs(r.usage[t].recent) <= RecentMax(n)
    decreases |steps|
  {
    hide InvRun, Inv, Next, Enabled, Domains, UsageOk;
    UsageBound(After(s, steps), n);
    if steps != [] {
      var r := Next(s, steps[0]);
      NextInv(s, steps[0]);
      NextTicks(s, steps[0]);
      if steps[0] == TickStep {
        TickUsageStep(s, n);
      } else {
        OthersUsage(s, steps[0], n);
      }
      MlfqsBounds(r, steps[1..], n);
    }
  }

  /** The same from the start of the kernel. */
  lemma MlfqsFromBoot(steps: seq<Step>, n: nat)
    requires Legal(Boot(true), steps) && Calm(Boot(true), steps, n) && n <= 545
    ensures var r := After(Boot(true), steps);
            0 <= r.loadAvg <= n * F && forall t :: t in r.usage ==> Abs(r.usage[t].recent) <= RecentMax(n)
  {
    hide Inv, Legal, After, Calm;
    BootInv(true);
    BootUsage(n);
    MlfqsBounds(Boot(true), steps, n);
  }

  lemma BootUsage(n: nat)
    ensures UsageOk(Boot(true), n)
  {
  }

  lemma UsageBound(s: State, n: nat)
    ensures UsageOk(s, n) ==>
              0 <= s.loadAvg <= n * F && forall t :: t in s.usage ==> Abs(s.usage[t].recent) <= RecentMax(n)
  {
  }

  lemma TickUsageStep(s: State, n: nat)
    requires UsageOk(s, n) && n <= 545 && Runnable(s) <= n && s.mlfqs
    requires Domains(s) && s.current in s.status && Enabled(s, TickStep)
    ensures UsageOk(Next(s, TickStep), n)
  {
    hide UsageOk, MlfqsTick, WakeAll, Next;
    TickIs(s);
    TickUsage(s, n);
    WakeAllUsage(MlfqsTick(s.(ticks := s.ticks + 1)));
    UsageFields(MlfqsTick(s.(ticks := s.ticks + 1)), Tick(s), n);
  }

  lemma UsageFields(s: State, r: State, n: nat)
    requires UsageOk(s, n) && r.usage == s.usage && r.loadAvg == s.loadAvg && r.ticks == s.ticks && r.idle == s.idle
    ensures UsageOk(r, n)
  {
  }
}
