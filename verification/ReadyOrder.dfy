/** Who runs first among ready threads of equal priority (threads/thread.c). */
module ReadyOrder {
  import opened Orders
  import opened Mlfqs
  import opened Kernel
  import opened KernelInv
  import opened KernelRuns
  import opened KernelTheorems
  import opened MlfqsRules
  import opened WaitOrder

  lemma ReadyIs(s: State)
    requires Inv(s)
    ensures Distinct(s.ready) && s.current !in s.ready && (forall t :: t in s.ready ==> t in s.prio)
  {
    hide BlockedOk, WaitOk, SleepOk, SemaOk, LockOk, HolderOk, ListsOk, QueueOk, LockKeysOk, PcOk, Distinct;
  }

  /** Where thread_yield puts the running thread: the ready threads keep their order, and it is
      behind exactly those up to whom none has a lower priority. */
  lemma YieldPlace(s: State, k: nat)
    requires Inv(s) && s.current != s.idle && k < |s.ready|
    ensures s.current in s.prio && forall t :: t in s.ready ==> t in s.prio
    ensures var w, r := s.ready, Preempted(s);
            && s.current in r.ready && (forall a, b :: Before(w, a, b) ==> Before(r.ready, a, b))
            && (Before(r.ready, w[k], s.current) <==> forall i :: 0 <= i <= k ==> s.prio[w[i]] >= s.prio[s.current])
  {
    hide Inv, InsertOrdered, Before, Distinct;
    CurrentFacts(s);
    ReadyIs(s);
    var w, c, less := s.ready, s.current, PrioGreater(s.prio);
    InsertPlace(less, w, c, k);
    forall a, b | Before(w, a, b) ensures Before(InsertOrdered(less, w, c), a, b) { InsertKeeps(less, w, c, a, b); }
  }

  /** In MLFQS mode the ready list is sorted, so it is behind all threads of its own priority. */
  lemma YieldBehindEquals(s: State, t: Tid)
    requires Inv(s) && s.mlfqs && s.current != s.idle && t in s.ready
    ensures t in s.prio && s.current in s.prio
    ensures s.prio[t] == s.prio[s.current] ==> Before(Preempted(s).ready, t, s.current)
  {
    hide Inv, Before, Distinct, Preempted;
    CurrentFacts(s);
    ReadyIs(s);
    SortedReady(s);
    var k :| 0 <= k < |s.ready| && s.ready[k] == t;
    YieldPlace(s, k);
    if s.prio[t] == s.prio[s.current] {
      forall i | 0 <= i <= k ensures s.prio[s.ready[i]] >= s.prio[s.current] {
        assert s.ready[i] in s.ready;
        if i < k { assert !PrioGreater(s.prio)(s.ready[k], s.ready[i]); }
      }
    }
  }

  lemma SortedReady(s: State)
    requires Inv(s) && s.mlfqs
    ensures Sorted(PrioGreater(s.prio), s.ready)
  {
  }

  // Steps.

  /** Switching takes at most the first thread of the list, sorted unless in MLFQS mode. */
  lemma SwitchInTurn(s: State, a: Tid, b: Tid)
    requires Distinct(s.ready) && (forall t :: t in s.ready ==> t in s.prio)
    requires a in s.prio && b in s.prio && s.prio[a] == s.prio[b]
    ensures InTurn(s.ready, Schedule(s).ready, a, b)
  {
    hide Before, Distinct, StableSort;
    if Before(s.ready, a, b) {
      BeforeFacts(s.ready, a, b);
      var less := PrioGreater(s.prio);
      var q := if s.mlfqs then s.ready else StableSort(less, s.ready);
      PrioWeak(s.prio, s.ready);
      SortKeeps(less, s.ready, a, b);
      PermDistinct(s.ready, StableSort(less, s.ready));
      TailKeeps(q, a, b);
    }
  }

  lemma InsertInTurn(w: seq<Tid>, prio: map<Tid, int>, c: Tid, a: Tid, b: Tid)
    ensures InTurn(w, InsertOrdered(PrioGreater(prio), w, c), a, b)
    ensures Before(w, a, b) ==> Before(InsertOrdered(PrioGreater(prio), w, c), a, b)
  {
    hide InsertOrdered, Before;
    if Before(w, a, b) {
      InsertKeeps(PrioGreater(prio), w, c, a, b);
      BeforeFacts(InsertOrdered(PrioGreater(prio), w, c), a, b);
    }
  }

  lemma SortInTurn(w: seq<Tid>, prio: map<Tid, int>, a: Tid, b: Tid)
    requires (forall t :: t in w ==> t in prio) && a in prio && b in prio && prio[a] == prio[b]
    ensures Before(w, a, b) ==> Before(StableSort(PrioGreater(prio), w), a, b)
  {
    hide StableSort, Before;
    PrioWeak(prio, w);
    if Before(w, a, b) { SortKeeps(PrioGreater(prio), w, a, b); }
  }

  lemma BeforeInTurn(w: seq<Tid>, r: seq<Tid>, a: Tid, b: Tid)
    requires Before(w, a, b) ==> Before(r, a, b)
    ensures InTurn(w, r, a, b)
  {
  }

  lemma TurnsFrom(w: seq<Tid>, x: seq<Tid>, r: seq<Tid>, a: Tid, b: Tid)
    requires (Before(w, a, b) ==> Before(x, a, b)) && InTurn(x, r, a, b)
    ensures InTurn(w, r, a, b)
  {
  }

  /** Two ready threads of equal priority stay in order, and the later one does not run first. */
  lemma NextInTurn(s: State, step: Step, a: Tid, b: Tid)
    requires Inv(s) && Domains(s) && s.current in s.status && Enabled(s, step) && a in s.prio && b in s.prio
    requires a != s.current && b != s.current
    requires var r := Next(s, step); a in r.prio && b in r.prio && r.prio[a] == r.prio[b]
    ensures InTurn(s.ready, Next(s, step).ready, a, b)
  {
    hide Inv, Schedule, InsertOrdered, StableSort, TryDown, SemaUp, EnterAcquire, TryLock, TryLockHolder,
         BeginRelease, ReleaseHolder, ReleaseUp, SetPriority, SetNice, Yield, FallAsleep, Tick, Create, Exited, Domains,
         InTurn, Before, Distinct;
    DomainsFacts(s);
    ReadyIs(s);
    var c := s.current;
    match step
    case SemaDownStep(k) => DownTurn(s.(pc := s.pc[c := Down(Plain(k))]), Plain(k), a, b);
    case RetestStep => DownTurn(s, s.pc[c].sema, a, b);
    case LockAcquireStep(l) =>
      DonateFrame(s, l);
      DownTurn(EnterAcquire(s, l), OfLock(l), a, b);
    case SemaUpStep(k) => UpTurn(s, Plain(k), a, b);
    case ReleaseUpStep =>
      ReleaseUpIs(s, s.pc[c].lock);
      UpTurn(GivenUp(s, s.pc[c].lock), OfLock(s.pc[c].lock), a, b);
    case _ => OtherTurn(s, step, a, b);
  }

  lemma OtherTurn(s: State, step: Step, a: Tid, b: Tid)
    requires Inv(s) && Domains(s) && s.current in s.status && Enabled(s, step)
    requires var r := Next(s, step); a in r.prio && b in r.prio && r.prio[a] == r.prio[b]
    requires !step.SemaDownStep? && !step.RetestStep? && !step.LockAcquireStep? && !step.SemaUpStep?
    requires !step.ReleaseUpStep?
    ensures InTurn(s.ready, Next(s, step).ready, a, b)
  {
    hide Inv, Schedule, InsertOrdered, StableSort, TryDown, SemaUp, EnterAcquire, TryLock, TryLockHolder,
         BeginRelease, ReleaseHolder, ReleaseUp, SetPriority, SetNice, Yield, FallAsleep, Tick, Create, Exited, Domains,
         InTurn, Before, Distinct;
    DomainsFacts(s);
    ReadyIs(s);
    var c := s.current;
    match step
    case SetNiceStep(n) => NiceTurn(s, n, a, b);
    case YieldStep => YieldTurn(s, a, b);
    case SleepStep(n) =>
      BeforeInTurn(s.ready, s.ready, a, b);
      if n > 0 { SleepTurn(s, n, a, b); }
    case TickStep => TickTurn(s, a, b);
    case CreateStep(t, p) => CreateTurn(s, t, p, a, b);
    case ExitStep => ExitTurn(s, a, b);
    case IdleBlockStep =>
      var q := s.(status := s.status[c := Blocked]);
      ScheduleKeeps(q);
      SwitchInTurn(q, a, b);
    case _ =>
      SameReady(s, step);
      BeforeInTurn(s.ready, s.ready, a, b);
  }

  lemma DownTurn(s: State, d: SemaId, a: Tid, b: Tid)
    requires d in s.semas && s.current in s.info && s.current in s.prio && (d.OfLock? ==> d.lock in s.locks)
    requires Distinct(s.ready) && (forall t :: t in s.ready ==> t in s.prio)
    requires a in TryDown(s, d).prio && b in TryDown(s, d).prio && TryDown(s, d).prio[a] == TryDown(s, d).prio[b]
    ensures InTurn(s.ready, TryDown(s, d).ready, a, b)
  {
    DownPrio(s, d);
    hide InsertOrdered, StableSort, Schedule, PrioGreater, LockGreater, InTurn, Before, Distinct;
    if s.semas[d].value == 0 {
      SwitchInTurn(Enqueued(s, d), a, b);
    } else {
      BeforeInTurn(s.ready, s.ready, a, b);
    }
  }

  lemma UpTurn(s: State, d: SemaId, a: Tid, b: Tid)
    requires d in s.semas
    ensures InTurn(s.ready, SemaUp(s, d).ready, a, b)
  {
    hide InsertOrdered, StableSort, PrioGreater, InTurn, Before;
    BeforeInTurn(s.ready, s.ready, a, b);
    if s.semas[d].waiters != [] {
      InsertInTurn(s.ready, s.prio, StableSort(PrioGreater(s.prio), s.semas[d].waiters)[0], a, b);
    }
  }

  lemma NiceTurn(s: State, n: int, a: Tid, b: Tid)
    requires s.current in s.usage && (forall t :: t in s.ready ==> t in s.prio)
    requires var r := SetNice(s, n); a in r.prio && b in r.prio && r.prio[a] == r.prio[b]
    ensures InTurn(s.ready, SetNice(s, n).ready, a, b)
  {
    hide StableSort, PriorityOf, PrioGreater, InTurn, Before;
    SortInTurn(s.ready, SetNice(s, n).prio, a, b);
    BeforeInTurn(s.ready, SetNice(s, n).ready, a, b);
  }

  lemma YieldTurn(s: State, a: Tid, b: Tid)
    requires Distinct(s.ready) && s.current !in s.ready && s.current in s.prio
    requires forall t :: t in s.ready ==> t in s.prio
    requires var r := Yield(s); a in r.prio && b in r.prio && r.prio[a] == r.prio[b]
    ensures InTurn(s.ready, Yield(s).ready, a, b)
  {
    hide InsertOrdered, StableSort, Schedule, PrioGreater, InTurn, Before, Distinct;
    var p := Preempted(s);
    ScheduleKeeps(p);
    InsertInTurn(s.ready, s.prio, s.current, a, b);
    JoinDistinct(s.ready, s.prio, s.current);
    SwitchInTurn(p, a, b);
    TurnsFrom(s.ready, p.ready, Schedule(p).ready, a, b);
  }

  lemma JoinDistinct(w: seq<Tid>, prio: map<Tid, int>, c: Tid)
    requires Distinct(w) && c !in w
    ensures var r := InsertOrdered(PrioGreater(prio), w, c); Distinct(r) && forall t :: t in r <==> t in w || t == c
  {
    var r := InsertOrdered(PrioGreater(prio), w, c);
    assert Distinct(w + [c]);
    hide InsertOrdered, PrioGreater, Distinct;
    assert multiset(w + [c]) == multiset(r);
    PermDistinct(w + [c], r);
    PermElems(w + [c], r);
  }

  lemma SleepTurn(s: State, n: int, a: Tid, b: Tid)
    requires Distinct(s.ready) && (forall t :: t in s.ready ==> t in s.prio)
    requires var r := Schedule(FallAsleep(s, n)); a in r.prio && b in r.prio && r.prio[a] == r.prio[b]
    ensures InTurn(s.ready, Schedule(FallAsleep(s, n)).ready, a, b)
  {
    hide InsertOrdered, Schedule, WakesBefore, InTurn, Distinct;
    ScheduleKeeps(FallAsleep(s, n));
    SwitchInTurn(FallAsleep(s, n), a, b);
  }

  lemma CreateTurn(s: State, t: Tid, p: int, a: Tid, b: Tid)
    requires s.current in s.usage
    ensures InTurn(s.ready, Create(s, t, p).ready, a, b)
  {
    hide InsertOrdered, PrioGreater, InTurn, Before;
    InsertInTurn(s.ready, Create(s, t, p).prio, t, a, b);
  }

  lemma ExitTurn(s: State, a: Tid, b: Tid)
    requires Distinct(s.ready) && (forall t :: t in s.ready ==> t in s.prio) && s.current !in s.ready
    requires var r := Schedule(Exited(s)); a in r.prio && b in r.prio && r.prio[a] == r.prio[b]
    ensures InTurn(s.ready, Schedule(Exited(s)).ready, a, b)
  {
    hide Schedule, InTurn, Distinct;
    ScheduleKeeps(Exited(s));
    SwitchInTurn(Exited(s), a, b);
  }

  lemma TickTurn(s: State, a: Tid, b: Tid)
    requires (forall t :: t in s.ready ==> t in s.prio)
    requires var r := Tick(s); a in r.prio && b in r.prio && r.prio[a] == r.prio[b]
    ensures InTurn(s.ready, Tick(s).ready, a, b)
  {
    hide WakeAll, MlfqsTick, InTurn, Before;
    var s1 := s.(ticks := s.ticks + 1);
    var m := if s.mlfqs then MlfqsTick(s1) else s1;
    WakeAllPrio(m);
    if s.mlfqs { MlfqsTurn(s1, a, b); }
    WakeAllTurn(m, a, b);
    BeforeInTurn(s.ready, Tick(s).ready, a, b);
  }

  lemma MlfqsTurn(s: State, a: Tid, b: Tid)
    requires forall t :: t in s.ready ==> t in s.prio
    requires var r := MlfqsTick(s); a in r.prio && b in r.prio && r.prio[a] == r.prio[b]
    ensures Before(s.ready, a, b) ==> Before(MlfqsTick(s).ready, a, b)
  {
    hide MlfqsTick, Counted, Reprioritised, Decayed, Before, StableSort, PrioGreater;
    TickSlices(s);
    var c := Counted(s);
    var d := Reprioritised(c);
    ReadyParts(s);
    PartPrio(s);
    ReadyParts(c);
    PartPrio(c);
    if s.ticks % 4 == 0 {
      ReadyParts(d);
      PartPrio(d);
      SortInTurn(s.ready, d.prio, a, b);
    }
  }

  lemma ReadyParts(s: State)
    ensures Counted(s).ready == s.ready && Decayed(s).ready == s.ready
    ensures Reprioritised(s).ready == StableSort(PrioGreater(Reprioritised(s).prio), s.ready)
  {
    hide StableSort, PrioGreater, PriorityOf, NextUsage, NextLoadAvg, AddInt;
  }

  lemma {:induction false} WakeAllTurn(s: State, a: Tid, b: Tid)
    ensures Before(s.ready, a, b) ==> Before(WakeAll(s).ready, a, b)
    decreases |s.sleeping|
  {
    hide InsertOrdered, PrioGreater, Before;
    if !(s.sleeping == [] || s.sleeping[0] !in s.wakeup || s.wakeup[s.sleeping[0]] > s.ticks) {
      var t := s.sleeping[0];
      InsertInTurn(s.ready, s.prio, t, a, b);
      WakeAllTurn(Unblock(s, t).(sleeping := s.sleeping[1..], pc := s.pc[t := User]), a, b);
    }
  }

  lemma SameReady(s: State, step: Step)
    requires Domains(s) && s.current in s.status && Enabled(s, step)
    requires step.SemaInitStep? || step.LockInitStep? || step.SemaTryDownStep? || step.LockTryStep?
      || step.LockTryHolderStep? || step.LockReleaseStep? || step.ReleaseHolderStep? || step.ReleasePriorityStep?
      || step.SetPriorityStep?
    ensures Next(s, step).ready == s.ready
  {
    hide InsertOrdered, StableSort, Schedule, PrioGreater, LockGreater, Domains, TryDown, EnterAcquire, Tick, Create;
    DomainsFacts(s);
  }

  // Runs.

  ghost predicate ReadyAhead(s: State, a: Tid, b: Tid) {
    a in s.ready && b in s.ready && Before(s.ready, a, b)
  }

  /** Up to the last step of the run `a` is ready; and whenever both are there `a` and `b` have equal
      priorities. */
  ghost predicate EqualsReady(s: State, steps: seq<Step>, a: Tid, b: Tid)
    requires Legal(s, steps)
    decreases |steps|
  {
    && (a in s.prio && b in s.prio ==> s.prio[a] == s.prio[b])
    && (steps != [] ==> a in s.ready && EqualsReady(Next(s, steps[0]), steps[1..], a, b))
  }

  /** Of two ready threads of equal priority the one that is ahead runs first: as long as it is
      ready, so is the other, behind it. */
  lemma {:induction false} RunsFirst(s: State, steps: seq<Step>, a: Tid, b: Tid)
    requires Inv(s) && Legal(s, steps) && ReadyAhead(s, a, b) && EqualsReady(s, steps, a, b)
    ensures var r := After(s, steps); b in r.ready && (a in r.ready ==> ReadyAhead(r, a, b))
    decreases |steps|
  {
    hide Inv, Domains, Enabled, Next, Before;
    if steps != [] {
      var r := Next(s, steps[0]);
      ReadyIs(s);
      NextInv(s, steps[0]);
      assert EqualsReady(r, steps[1..], a, b);
      BothStay(s, steps[0], a, b);
      NextInTurn(s, steps[0], a, b);
      if a in r.ready {
        RunsFirst(r, steps[1..], a, b);
      } else {
        assert steps[1..] == [];
      }
    }
  }

  lemma BothStay(s: State, step: Step, a: Tid, b: Tid)
    requires Domains(s) && s.current in s.status && Enabled(s, step) && a in s.prio && b in s.prio
    requires a != s.current && b != s.current
    ensures a in Next(s, step).prio && b in Next(s, step).prio
  {
    hide Domains, Enabled, Next, NotLowered;
    NextNotLowered(s, step, a);
    NextNotLowered(s, step, b);
    StillThere(s, Next(s, step), a);
    StillThere(s, Next(s, step), b);
  }
}
