/** Whole runs of the kernel: the invariant in every reachable state, and what follows from it. */
module KernelRuns {
  import opened Wrappers
  import opened Orders
  import opened Mlfqs
  import opened Kernel
  import opened KernelInv
  import opened KernelSteps

  // The timer interrupt.

  lemma WakeLists(status: Statuses, pc: Pcs, semas: Semas, idle: Tid, t: Tid)
    requires t in status && t in pc && pc[t].Asleep? && status[t] == Blocked
    requires BlockedOk(status, pc, idle) && WaitOk(status, pc, semas) && SemaOk(status, pc, semas)
    ensures t != idle
    ensures var status', pc' := status[t := Ready], pc[t := User];
            BlockedOk(status', pc', idle) && WaitOk(status', pc', semas) && SemaOk(status', pc', semas)
  {
    var status', pc' := status[t := Ready], pc[t := User];
    forall i | i in semas
      ensures WaitersOk(status', pc', i, semas[i].waiters) && OneSemaOk(status', pc', i, semas[i])
    {
      assert WaitersOk(status, pc, i, semas[i].waiters) && OneSemaOk(status, pc, i, semas[i]);
      assert forall x :: BlockedOn(status', pc', x, i) <==> BlockedOn(status, pc, x, i);
      assert Woken(status', pc', i) == Woken(status, pc, i);
    }
  }

  lemma WakeSleep(pc: Pcs, sleeping: seq<Tid>, wakeup: map<Tid, int>, ticks: int)
    requires SleepOk(pc, sleeping, wakeup, ticks) && sleeping != []
    ensures SleepOk(pc[sleeping[0] := User], sleeping[1..], wakeup, ticks)
  {
    DistinctTail(sleeping);
  }

  /** The body of timer_interrupt's loop. */
  function WokenFirst(s: State): State
    requires s.sleeping != []
  {
    Unblock(s, s.sleeping[0]).(sleeping := s.sleeping[1..], pc := s.pc[s.sleeping[0] := User])
  }

  lemma SleeperFacts(s: State, t: Tid)
    requires Inv(s) && t in s.sleeping
    ensures t in s.status && t in s.pc && s.pc[t].Asleep? && s.status[t] == Blocked && t in s.info && t in s.prio
    ensures t in s.wakeup
  {
  }

  lemma WokenFirstInv(s: State)
    requires Inv(s) && s.sleeping != []
    ensures Inv(WokenFirst(s))
  {
    hide RunOk, ReadyOk, BlockedOk, WaitOk, SleepOk, SemaOk, LockOk, HolderOk, ListsOk, QueueOk, LockKeysOk, PcOk,
         InsertOrdered, PrioGreater;
    var t := s.sleeping[0];
    SleeperFacts(s, t);
    WakeLists(s.status, s.pc, s.semas, s.idle, t);
    WakeSleep(s.pc, s.sleeping, s.wakeup, s.ticks);
    MakeReady(s.mlfqs, s.status, s.prio, s.ready, s.idle, s.current, Some(s.current), t);
    MoveHolder(s.pc, s.info, s.locks, t, User);
    LeaveUser(s.mlfqs, s.pc, s.info, s.locks, t);
    LeavePc(s.pc, s.locks.Keys, s.semas.Keys, t, User);
    UpdateKeys(s.status, t, Ready);
    UpdateKeys(s.pc, t, User);
  }

  /** In a sorted sleeping list the first sleeper wakes first. */
  lemma FirstSleeper(s: State)
    requires Inv(s) && s.sleeping != []
    ensures s.sleeping[0] in s.wakeup
    ensures forall t :: t in s.sleeping ==> t in s.wakeup && s.wakeup[s.sleeping[0]] <= s.wakeup[t]
  {
    forall t | t in s.sleeping ensures t in s.wakeup && s.wakeup[s.sleeping[0]] <= s.wakeup[t] {
      var i :| 0 <= i < |s.sleeping| && s.sleeping[i] == t;
      assert s.sleeping[0] in s.sleeping;
      assert i > 0 ==> !WakesBefore(s.wakeup)(s.sleeping[i], s.sleeping[0]);
    }
  }

  /** The clock has just advanced: the invariant holds but for sleepers due at this very tick. */
  ghost predicate JustTicked(s: State) { Inv(s.(ticks := s.ticks - 1)) }

  lemma NoneDue(s: State)
    requires JustTicked(s) && forall t :: t in s.sleeping ==> t in s.wakeup && s.wakeup[t] > s.ticks
    ensures Inv(s)
  {
    hide RunOk, ReadyOk, BlockedOk, WaitOk, SemaOk, LockOk, HolderOk, ListsOk, QueueOk, LockKeysOk, PcOk;
    var s1 := s.(ticks := s.ticks - 1);
    assert SleepOk(s1.pc, s1.sleeping, s1.wakeup, s1.ticks);
  }

  /** timer_interrupt wakes exactly the sleepers that are due, and the invariant holds again. */
  lemma {:induction false} WakeAllInv(s: State)
    requires JustTicked(s)
    ensures Inv(WakeAll(s))
    ensures forall t :: t in s.sleeping ==> (t in WakeAll(s).sleeping <==> s.wakeup[t] > s.ticks)
    ensures WakeAll(s).wakeup == s.wakeup && WakeAll(s).ticks == s.ticks
    ensures forall t :: t in WakeAll(s).sleeping ==> t in s.sleeping
    ensures forall t :: t in s.sleeping && s.wakeup[t] <= s.ticks ==> MadeReady(WakeAll(s), t)
    ensures forall t :: MadeReady(s, t) ==> MadeReady(WakeAll(s), t)
    decreases |s.sleeping|
  {
    hide InvRun, Unblock, MadeReady;
    var s1 := s.(ticks := s.ticks - 1);
    if s.sleeping == [] {
      NoneDue(s);
    } else {
      FirstSleeper(s1);
      if s.wakeup[s.sleeping[0]] > s.ticks {
        NoneDue(s);
      } else {
        WokenFirstInv(s1);
        var r := WokenFirst(s);
        WokenFirstLater(s);
        WakeAllInv(r);
        DistinctSleeping(s1);
      }
    }
  }

  ghost predicate MadeReady(s: State, t: Tid) {
    t in s.status && s.status[t] == Ready && t in s.pc && s.pc[t].User?
  }

  lemma WokenFirstLater(s: State)
    requires s.sleeping != []
    ensures WokenFirst(s.(ticks := s.ticks - 1)) == WokenFirst(s).(ticks := s.ticks - 1)
    ensures WokenFirst(s).sleeping == s.sleeping[1..] && WokenFirst(s).wakeup == s.wakeup
    ensures WokenFirst(s).ticks == s.ticks
    ensures MadeReady(WokenFirst(s), s.sleeping[0])
    ensures forall t :: MadeReady(s, t) ==> MadeReady(WokenFirst(s), t)
  {
  }

  lemma DistinctSleeping(s: State)
    requires Inv(s) && s.sleeping != []
    ensures forall t :: t in s.sleeping[1..] <==> t in s.sleeping && t != s.sleeping[0]
  {
    DistinctTail(s.sleeping);
  }

  // thread_tick.

  lemma UsageKeys(s: State, r: State)
    requires Inv(s) && r == s.(usage := r.usage, loadAvg := r.loadAvg) && r.usage.Keys == s.usage.Keys
    ensures Inv(r)
  {
    hide RunOk, ReadyOk, BlockedOk, WaitOk, SleepOk, SemaOk, LockOk, HolderOk, ListsOk, QueueOk, LockKeysOk, PcOk;
  }

  lemma ResortedInv(s: State, prio: map<Tid, int>)
    requires Inv(s) && prio.Keys == s.prio.Keys
    ensures Inv(s.(prio := prio, ready := StableSort(PrioGreater(prio), s.ready)))
  {
    hide RunOk, ReadyOk, BlockedOk, WaitOk, SleepOk, SemaOk, LockOk, HolderOk, ListsOk, QueueOk, LockKeysOk, PcOk,
         StableSort, PrioGreater;
    Resorted(s.mlfqs, s.status, prio, s.ready, s.idle);
  }

  lemma CountedInv(s: State)
    requires JustTicked(s)
    ensures JustTicked(Counted(s))
  {
    hide InvRun, Inv, AddInt;
    if s.current != s.idle && s.current in s.usage {
      var u := s.usage[s.current].(recent := AddInt(s.usage[s.current].recent, 1));
      UpdateKeys(s.usage, s.current, u);
      UsageKeys(s.(ticks := s.ticks - 1), s.(ticks := s.ticks - 1, usage := s.usage[s.current := u]));
    }
  }

  lemma ReprioritisedInv(s: State)
    requires JustTicked(s)
    ensures JustTicked(Reprioritised(s))
  {
    hide InvRun, Inv, StableSort, PrioGreater, PriorityOf;
    var s1 := s.(ticks := s.ticks - 1);
    ResortedInv(s1, Reprioritised(s).prio);
  }

  lemma DecayedInv(s: State)
    requires JustTicked(s)
    ensures JustTicked(Decayed(s))
  {
    hide InvRun, Inv, NextUsage, NextLoadAvg;
    UsageKeys(s.(ticks := s.ticks - 1), Decayed(s).(ticks := s.ticks - 1));
  }

  lemma MlfqsTickInv(s: State)
    requires JustTicked(s)
    ensures JustTicked(MlfqsTick(s))
  {
    hide JustTicked, Counted, Reprioritised, Decayed;
    CountedInv(s);
    ReprioritisedInv(Counted(s));
    DecayedInv(Reprioritised(Counted(s)));
  }

  lemma TickInv(s: State)
    requires Inv(s)
    ensures Inv(Tick(s))
  {
    hide Inv, InvRun, MlfqsTick, WakeAll;
    var s1 := s.(ticks := s.ticks + 1);
    assert s1.(ticks := s1.ticks - 1) == s;
    if s.mlfqs {
      MlfqsTickInv(s1);
      WakeAllInv(MlfqsTick(s1));
    } else {
      WakeAllInv(s1);
    }
  }

  /** Every step keeps the invariant. */
  lemma NextInv(s: State, step: Step)
    requires Inv(s) && Domains(s) && s.current in s.status && Enabled(s, step)
    ensures Inv(Next(s, step))
  {
    hide InvRun, Inv, TryDown, EnterAcquire, SemaUp, TryLock, TryLockHolder, BeginRelease, ReleaseHolder, ReleaseUp,
         SetPriority, SetNice, Yield, Schedule, FallAsleep, Tick, Create, Exited, Take;
    var c := s.current;
    match step
    case SemaInitStep(id, v) => SemaInitInv(s, id, v);
    case LockInitStep(l) => LockInitInv(s, l);
    case SemaDownStep(id) =>
      EnterDownInv(s, Plain(id));
      TryDownInv(s.(pc := s.pc[c := Down(Plain(id))]), Plain(id));
    case RetestStep => TryDownInv(s, s.pc[c].sema);
    case SemaTryDownStep(id) => if s.semas[Plain(id)].value > 0 { SemaTryDownInv(s, id); }
    case SemaUpStep(id) => SemaUpPlainInv(s, id);
    case LockAcquireStep(l) =>
      EnterAcquireInv(s, l);
      TryDownInv(EnterAcquire(s, l), OfLock(l));
    case LockTryStep(l) => TryLockInv(s, l);
    case LockTryHolderStep => TryLockHolderInv(s, s.pc[c].lock);
    case LockReleaseStep(l) => BeginReleaseInv(s, l);
    case ReleaseHolderStep => ReleaseHolderInv(s, s.pc[c].lock);
    case ReleaseUpStep => ReleaseUpInv(s, s.pc[c].lock);
    case ReleasePriorityStep => ReleasePriorityInv(s);
    case SetPriorityStep(p) => SetPriorityInv(s, p);
    case SetNiceStep(n) => SetNiceInv(s, n);
    case YieldStep => YieldInv(s);
    case SleepStep(n) => if n > 0 { SleepInv(s, n); }
    case TickStep => TickInv(s);
    case CreateStep(t, p) => CreateInv(s, t, p);
    case ExitStep => ExitInv(s);
    case IdleBlockStep => IdleBlockInv(s);
  }

  // Runs.

  /** A run: each step is enabled where it happens. */
  ghost predicate Legal(s: State, steps: seq<Step>)
    decreases |steps|
  {
    steps == [] ||
    (Domains(s) && s.current in s.status && Enabled(s, steps[0]) && Legal(Next(s, steps[0]), steps[1..]))
  }

  ghost function After(s: State, steps: seq<Step>): State
    requires Legal(s, steps)
    decreases |steps|
  {
    if steps == [] then s else After(Next(s, steps[0]), steps[1..])
  }

  /** When thread_start has finished: the initial thread runs and the idle thread is blocked. */
  function Boot(mlfqs: bool): State {
    var main, idle := 1, 2;
    State(mlfqs,
          map[main := Running, idle := Blocked],
          map[main := User, idle := Idling],
          map[main := PRI_DEFAULT, idle := PRI_MIN],
          map[main := Info(PRI_DEFAULT, PRI_MIN, None, [], {}), idle := Info(PRI_MIN, PRI_MIN, None, [], {})],
          map[main := Usage(0, 0), idle := Usage(0, 0)],
          map[main := 0, idle := 0],
          [], [], map[], map[], main, idle, 0, 0)
  }

  lemma BootInv(mlfqs: bool)
    ensures Inv(Boot(mlfqs))
  {
    hide RunOk, ReadyOk, BlockedOk, WaitOk, SleepOk, SemaOk, LockOk, HolderOk, ListsOk, QueueOk, LockKeysOk, PcOk,
         KeysOk;
    BootKeys(mlfqs);
    BootThreads(mlfqs);
    BootLocks(mlfqs);
  }

  lemma BootKeys(mlfqs: bool)
    ensures var s := Boot(mlfqs);
            KeysOk(s.status.Keys, s.pc.Keys, s.prio.Keys, s.info.Keys, s.usage.Keys, s.wakeup.Keys, s.idle)
  {
    var s, k := Boot(mlfqs), {1, 2};
    assert s.status.Keys == k && s.pc.Keys == k && s.prio.Keys == k;
    assert s.info.Keys == k && s.usage.Keys == k && s.wakeup.Keys == k;
  }

  lemma BootThreads(mlfqs: bool)
    ensures var s := Boot(mlfqs);
            && RunOk(s.status, s.current, Some(s.current)) && ReadyOk(s.status, s.ready, s.idle)
            && BlockedOk(s.status, s.pc, s.idle) && SleepOk(s.pc, s.sleeping, s.wakeup, s.ticks)
            && QueueOk(s.mlfqs, s.prio, s.ready) && PcOk(s.pc, s.locks.Keys, s.semas.Keys)
  {
    hide WakesBefore, PrioGreater;
  }

  lemma BootLocks(mlfqs: bool)
    ensures var s := Boot(mlfqs);
            && WaitOk(s.status, s.pc, s.semas) && SemaOk(s.status, s.pc, s.semas) && LockOk(s.info, s.locks, s.semas)
            && HolderOk(s.pc, s.info, s.locks) && ListsOk(s.mlfqs, s.pc, s.info, s.locks)
            && LockKeysOk(s.locks.Keys, s.semas.Keys)
  {
    var s := Boot(mlfqs);
    assert ThreadOk(mlfqs, User, s.info[1], s.locks.Keys);
    assert ThreadOk(mlfqs, Idling, s.info[2], s.locks.Keys);
  }

  /** The invariant holds in every state of every run, whatever the interleaving. */
  lemma {:induction false} RunInv(s: State, steps: seq<Step>)
    requires Inv(s) && Legal(s, steps)
    ensures Inv(After(s, steps))
    decreases |steps|
  {
    hide Inv, InvRun, Next, Enabled, Domains;
    if steps != [] {
      NextInv(s, steps[0]);
      RunInv(Next(s, steps[0]), steps[1..]);
    }
  }
}
