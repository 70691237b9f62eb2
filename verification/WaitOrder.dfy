/** Who is served first among threads of equal priority: where a thread is put on the list of
    waiters, and what becomes of the order of two waiters over a run (threads/synch.c). */
module WaitOrder {
  import opened Wrappers
  import opened Orders
  import opened Mlfqs
  import opened Kernel
  import opened KernelInv
  import opened KernelRuns
  import opened KernelTheorems
  import opened MlfqsRules

  // Lists.

  lemma BeforeFacts<T>(s: seq<T>, a: T, b: T)
    requires Before(s, a, b)
    ensures a in s && b in s && s != []
    ensures Distinct(s) ==> a != b && s[0] != b
  {
  }

  lemma BeforeAt<T>(s: seq<T>, i: nat, j: nat)
    requires i < j < |s|
    ensures Before(s, s[i], s[j])
  {
  }

  /** Inserting an element keeps the order of all others. */
  lemma InsertKeeps<T>(less: (T, T) -> bool, s: seq<T>, x: T, a: T, b: T)
    requires Before(s, a, b)
    ensures Before(InsertOrdered(less, s, x), a, b)
  {
    var i, j :| 0 <= i < j < |s| && s[i] == a && s[j] == b;
    var r, p := InsertOrdered(less, s, x), InsertIndex(less, s, x);
    var i', j' := if i < p then i else i + 1, if j < p then j else j + 1;
    assert r[i'] == a && r[j'] == b;
  }

  /** The element inserted stands behind `a` exactly if it is less than no element up to `a`. */
  lemma InsertPlace<T>(less: (T, T) -> bool, s: seq<T>, x: T, k: nat)
    requires Distinct(s) && x !in s && k < |s|
    ensures x in InsertOrdered(less, s, x)
    ensures Before(InsertOrdered(less, s, x), s[k], x) <==> forall i :: 0 <= i <= k ==> !less(x, s[i])
  {
    var r, p := InsertOrdered(less, s, x), InsertIndex(less, s, x);
    assert r[p] == x;
    if k < p {
      assert r[k] == s[k];
      assert Before(r, s[k], x);
    } else {
      assert p < |s| && less(x, s[p]);
      forall j | 0 <= j < |r| && j != p ensures r[j] != x { assert r[j] == if j < p then s[j] else s[j - 1]; }
      forall i, j | 0 <= i < j < |r| && r[j] == x ensures r[i] != s[k] { assert j == p && r[i] == s[i]; }
    }
  }

  /** Sorting keeps the order of two elements that are not out of order. */
  lemma SortKeeps<T>(less: (T, T) -> bool, s: seq<T>, a: T, b: T)
    requires StrictWeak(less, s) && Before(s, a, b) && !less(b, a)
    ensures Before(StableSort(less, s), a, b)
  {
    StableSortCorrect(less, s);
  }

  lemma TailKeeps<T>(s: seq<T>, a: T, b: T)
    requires Distinct(s) && Before(s, a, b)
    ensures b in s[1..] && (a in s[1..] ==> Before(s[1..], a, b))
  {
    var i, j :| 0 <= i < j < |s| && s[i] == a && s[j] == b;
    assert s[1..][j - 1] == b;
    if a in s[1..] {
      var k :| 0 <= k < |s[1..]| && s[1..][k] == a;
      assert s[k + 1] == a;
      assert k + 1 == i;
    }
  }

  /** The order of `a` and `b` is kept from `w` to `r`: `b` has not gone first. */
  ghost predicate InTurn(w: seq<Tid>, r: seq<Tid>, a: Tid, b: Tid) {
    Before(w, a, b) ==> b in r && (a in r ==> Before(r, a, b))
  }

  /** What becomes of a list in one step: nothing, a thread joins it, it is sorted, or it is sorted
      and its first thread leaves. */
  ghost predicate Requeued(w: seq<Tid>, r: seq<Tid>, prio: map<Tid, int>, c: Tid) {
    || r == w
    || r == InsertOrdered(PrioGreater(prio), w, c)
    || r == StableSort(PrioGreater(prio), w)
    || (w != [] && r == StableSort(PrioGreater(prio), w)[1..])
  }

  lemma RequeuedInTurn(w: seq<Tid>, r: seq<Tid>, prio: map<Tid, int>, c: Tid, a: Tid, b: Tid)
    requires Requeued(w, r, prio, c) && Distinct(w) && (forall t :: t in w ==> t in prio)
    requires a in prio && b in prio && prio[a] == prio[b]
    ensures InTurn(w, r, a, b)
  {
    if Before(w, a, b) {
      var less := PrioGreater(prio);
      BeforeFacts(w, a, b);
      InsertKeeps(less, w, c, a, b);
      PrioWeak(prio, w);
      SortKeeps(less, w, a, b);
      BeforeFacts(StableSort(less, w), a, b);
      BeforeFacts(InsertOrdered(less, w, c), a, b);
      PermDistinct(w, StableSort(less, w));
      TailKeeps(StableSort(less, w), a, b);
    }
  }

  // The waiters of a semaphore.

  /** Where a thread stands that has to wait: the others keep their order, and it is behind exactly
      those waiters up to whom none has a lower priority. */
  lemma BlockedPlace(s: State, id: SemaId, k: nat)
    requires Inv(s) && id in s.semas && s.semas[id].value == 0 && s.current in s.info && s.current in s.prio
    requires id.OfLock? ==> id.lock in s.locks
    requires k < |s.semas[id].waiters|
    ensures var w, r := s.semas[id].waiters, TryDown(s, id);
            && (forall t :: t in w ==> t in s.prio)
            && id in r.semas && s.current in r.semas[id].waiters
            && (forall a, b :: Before(w, a, b) ==> Before(r.semas[id].waiters, a, b))
            && (Before(r.semas[id].waiters, w[k], s.current) <==>
                  forall i :: 0 <= i <= k ==> s.prio[w[i]] >= s.prio[s.current])
  {
    hide Inv, InsertOrdered, StableSort, Before, Distinct, Schedule;
    var w, c := s.semas[id].waiters, s.current;
    WaiterFacts(s, id);
    var less := PrioGreater(s.prio);
    InsertPlace(less, w, c, k);
    forall a, b | Before(w, a, b) ensures Before(InsertOrdered(less, w, c), a, b) { InsertKeeps(less, w, c, a, b); }
    ScheduleKeeps(Enqueued(s, id));
  }

  /** Switching threads touches neither semaphores nor priorities. */
  lemma ScheduleKeeps(s: State)
    ensures Schedule(s).semas == s.semas && Schedule(s).prio == s.prio
  {
    hide StableSort;
  }

  lemma WaiterFacts(s: State, id: SemaId)
    requires Inv(s) && id in s.semas
    ensures var w := s.semas[id].waiters;
            Distinct(w) && s.current !in w && forall t :: t in w ==> t in s.prio && t in s.status && t != s.current
  {
    hide ReadyOk, BlockedOk, SleepOk, SemaOk, LockOk, HolderOk, ListsOk, QueueOk, LockKeysOk, PcOk, Distinct;
    assert WaitersOk(s.status, s.pc, id, s.semas[id].waiters);
  }

  /** Every step leaves the waiters alone, or adds the running thread, or sorts them, or sorts them
      and takes the first. */
  lemma NextWaiters(s: State, step: Step, id: SemaId)
    requires Domains(s) && s.current in s.status && Enabled(s, step) && id in s.semas
    ensures var r := Next(s, step);
            id in r.semas && Requeued(s.semas[id].waiters, r.semas[id].waiters, r.prio, s.current)
  {
    hide Requeued, Schedule, InsertOrdered, StableSort, TryDown, SemaUp, EnterAcquire, TryLock, TryLockHolder,
         BeginRelease, ReleaseHolder, ReleaseUp, SetPriority, SetNice, Yield, FallAsleep, Tick, Create, Exited, Domains;
    DomainsFacts(s);
    match step
    case SemaDownStep(k) => DownWaiters(s.(pc := s.pc[s.current := Down(Plain(k))]), Plain(k), id);
    case RetestStep => DownWaiters(s, s.pc[s.current].sema, id);
    case LockAcquireStep(l) =>
      DonateFrame(s, l);
      DownWaiters(EnterAcquire(s, l), OfLock(l), id);
    case SemaUpStep(k) => UpWaiters(s, Plain(k), id);
    case ReleaseUpStep =>
      ReleaseUpIs(s, s.pc[s.current].lock);
      UpWaiters(GivenUp(s, s.pc[s.current].lock), OfLock(s.pc[s.current].lock), id);
    case _ =>
      OtherWaiters(s, step, id);
      SameList(s.semas[id].waiters, Next(s, step).prio, s.current);
  }

  lemma ReleaseUpIs(s: State, l: LockId)
    requires OfLock(l) in s.semas && s.current in s.info
    ensures ReleaseUp(s, l) == SemaUp(GivenUp(s, l), OfLock(l))
    ensures GivenUp(s, l).semas == s.semas && GivenUp(s, l).current == s.current
  {
    hide SemaUp;
  }

  lemma SameList(w: seq<Tid>, prio: map<Tid, int>, c: Tid)
    ensures Requeued(w, w, prio, c)
  {
  }

  lemma DownWaiters(s: State, d: SemaId, id: SemaId)
    requires d in s.semas && s.current in s.info && s.current in s.prio && (d.OfLock? ==> d.lock in s.locks)
    requires id in s.semas
    ensures var r := TryDown(s, d);
            id in r.semas && Requeued(s.semas[id].waiters, r.semas[id].waiters, r.prio, s.current)
  {
    hide InsertOrdered, StableSort, Schedule, PrioGreater;
    if s.semas[d].value == 0 {
      ScheduleKeeps(Enqueued(s, d));
    } else if d.OfLock? {
      AcquiredWaiters(Take(s, d), d.lock, id);
      hide Acquired;
    }
  }

  lemma AcquiredWaiters(s: State, l: LockId, id: SemaId)
    requires l in s.locks && OfLock(l) in s.semas && s.current in s.info && s.current in s.prio && id in s.semas
    ensures var r := Acquired(s, l);
            id in r.semas && r.prio == s.prio
            && Requeued(s.semas[id].waiters, r.semas[id].waiters, s.prio, s.current)
  {
    hide InsertOrdered, StableSort, PrioGreater, LockGreater;
  }

  lemma UpWaiters(s: State, d: SemaId, id: SemaId)
    requires d in s.semas && id in s.semas
    ensures var r := SemaUp(s, d);
            id in r.semas && Requeued(s.semas[id].waiters, r.semas[id].waiters, r.prio, s.current)
  {
    hide InsertOrdered, StableSort, PrioGreater, Requeued;
    var m := s.semas[d];
    SameList(s.semas[id].waiters, s.prio, s.current);
    if m.waiters != [] {
      var q := StableSort(PrioGreater(s.prio), m.waiters);
      FirstLeaves(m.waiters, s.prio, s.current);
      assert SemaUp(s, d).semas == s.semas[d := m.(waiters := q[1..], value := m.value + 1, ups := m.ups + 1)];
    } else {
      assert SemaUp(s, d).semas == s.semas[d := m.(value := m.value + 1, ups := m.ups + 1)];
    }
  }

  lemma FirstLeaves(w: seq<Tid>, prio: map<Tid, int>, c: Tid)
    requires w != []
    ensures Requeued(w, StableSort(PrioGreater(prio), w)[1..], prio, c)
  {
  }

  /** The waiters of `id` are as they were. */
  ghost predicate SameWaiters(s: State, r: State, id: SemaId) {
    id in s.semas && id in r.semas && r.semas[id].waiters == s.semas[id].waiters
  }

  lemma OtherWaiters(s: State, step: Step, id: SemaId)
    requires Domains(s) && s.current in s.status && Enabled(s, step) && id in s.semas
    requires !step.SemaDownStep? && !step.RetestStep? && !step.LockAcquireStep? && !step.SemaUpStep?
    requires !step.ReleaseUpStep?
    ensures SameWaiters(s, Next(s, step), id)
  {
    hide Schedule, InsertOrdered, StableSort, TryDown, SemaUp, EnterAcquire, TryLock, TryLockHolder, BeginRelease,
         ReleaseHolder, ReleaseUp, SetPriority, SetNice, Yield, FallAsleep, Tick, Create, Exited, Domains;
    DomainsFacts(s);
    match step
    case LockTryStep(l) => TryLockWaiters(s, l, id);
    case LockTryHolderStep => TryHolderWaiters(s, s.pc[s.current].lock, id);
    case LockReleaseStep(l) => ReleaseWaiters(s, l, id);
    case ReleaseHolderStep => ReleaseWaiters(s, s.pc[s.current].lock, id);
    case ReleasePriorityStep => PriorityWaiters(s, s.info[s.current].base, id);
    case SetPriorityStep(p) => PriorityWaiters(s, p, id);
    case SetNiceStep(n) => NiceWaiters(s, n, id);
    case YieldStep => YieldWaiters(s, id);
    case SleepStep(n) => SleepWaiters(s, n, id);
    case TickStep => TickWaiters(s, id);
    case CreateStep(t, p) => CreateWaiters(s, t, p, id);
    case ExitStep => ExitWaiters(s, id);
    case IdleBlockStep => ScheduleKeeps(s.(status := s.status[s.current := Blocked]));
    case _ =>
  }

  lemma TryLockWaiters(s: State, l: LockId, id: SemaId)
    requires OfLock(l) in s.semas && s.current in s.info && id in s.semas
    ensures SameWaiters(s, TryLock(s, l), id)
  {
  }

  lemma TryHolderWaiters(s: State, l: LockId, id: SemaId)
    requires l in s.locks && s.current in s.info && id in s.semas
    ensures SameWaiters(s, TryLockHolder(s, l), id)
  {
    hide InsertOrdered, LockGreater;
  }

  lemma ReleaseWaiters(s: State, l: LockId, id: SemaId)
    requires s.current in s.info && id in s.semas
    ensures SameWaiters(s, BeginRelease(s, l), id) && (l in s.locks ==> SameWaiters(s, ReleaseHolder(s, l), id))
  {
    hide StableSort, LockGreater, Removed;
  }

  lemma PriorityWaiters(s: State, p: int, id: SemaId)
    requires s.current in s.prio && s.current in s.info && id in s.semas
    ensures SameWaiters(s, SetPriority(s, p), id)
  {
  }

  lemma NiceWaiters(s: State, n: int, id: SemaId)
    requires s.current in s.usage && id in s.semas
    ensures SameWaiters(s, SetNice(s, n), id)
  {
    hide StableSort, PrioGreater;
  }

  lemma YieldWaiters(s: State, id: SemaId)
    requires id in s.semas
    ensures SameWaiters(s, Yield(s), id)
  {
    hide InsertOrdered, Schedule, PrioGreater;
    ScheduleKeeps(Preempted(s));
  }

  lemma SleepWaiters(s: State, n: int, id: SemaId)
    requires id in s.semas
    ensures SameWaiters(s, Schedule(FallAsleep(s, n)), id)
  {
    hide InsertOrdered, Schedule, WakesBefore;
    ScheduleKeeps(FallAsleep(s, n));
  }

  lemma CreateWaiters(s: State, t: Tid, p: int, id: SemaId)
    requires s.current in s.usage && id in s.semas
    ensures SameWaiters(s, Create(s, t, p), id)
  {
    hide InsertOrdered, PrioGreater;
  }

  lemma ExitWaiters(s: State, id: SemaId)
    requires id in s.semas
    ensures SameWaiters(s, Schedule(Exited(s)), id)
  {
    hide Schedule;
    ScheduleKeeps(Exited(s));
  }

  lemma TickWaiters(s: State, id: SemaId)
    requires id in s.semas
    ensures SameWaiters(s, Tick(s), id)
  {
    hide WakeAll, Counted, Reprioritised, Decayed;
    var s1 := s.(ticks := s.ticks + 1);
    MlfqsSemas(s1);
    WakeAllSemas(if s.mlfqs then MlfqsTick(s1) else s1);
  }

  lemma MlfqsSemas(s: State)
    ensures Counted(s).semas == s.semas && Reprioritised(s).semas == s.semas && Decayed(s).semas == s.semas
    ensures MlfqsTick(s).semas == s.semas
  {
    hide Counted, Reprioritised, Decayed;
    PartSemas(s);
    PartSemas(Counted(s));
    PartSemas(Reprioritised(Counted(s)));
  }

  lemma PartSemas(s: State)
    ensures Counted(s).semas == s.semas && Reprioritised(s).semas == s.semas && Decayed(s).semas == s.semas
  {
    hide StableSort, PrioGreater, PriorityOf, NextUsage, NextLoadAvg, AddInt;
  }

  lemma {:induction false} WakeAllSemas(s: State)
    ensures WakeAll(s).semas == s.semas
    decreases |s.sleeping|
  {
    hide InsertOrdered, PrioGreater;
    if !(s.sleeping == [] || s.sleeping[0] !in s.wakeup || s.wakeup[s.sleeping[0]] > s.ticks) {
      var t := s.sleeping[0];
      WakeAllSemas(Unblock(s, t).(sleeping := s.sleeping[1..], pc := s.pc[t := User]));
    }
  }

  // Priorities.

  /** Thread `x` is still there, and without MLFQS its priority is no lower. */
  ghost predicate NotLowered(s: State, r: State, x: Tid) {
    x in s.prio ==> x in r.prio && (!s.mlfqs ==> s.prio[x] <= r.prio[x])
  }

  lemma SamePrio(s: State, r: State, x: Tid)
    requires r.prio == s.prio
    ensures NotLowered(s, r, x)
  {
  }

  /** Nothing but its own doing lowers a thread's priority, or ends it. */
  lemma NextNotLowered(s: State, step: Step, x: Tid)
    requires Domains(s) && s.current in s.status && Enabled(s, step) && x != s.current
    ensures NotLowered(s, Next(s, step), x)
  {
    hide Schedule, InsertOrdered, StableSort, TryDown, SemaUp, EnterAcquire, TryLock, TryLockHolder, BeginRelease,
         ReleaseHolder, ReleaseUp, SetPriority, SetNice, Yield, FallAsleep, Tick, Create, Exited, Domains, NotLowered;
    DomainsFacts(s);
    DomainsKeys(s);
    var c := s.current;
    match step
    case SemaDownStep(k) =>
      DownPrio(s.(pc := s.pc[c := Down(Plain(k))]), Plain(k));
      SamePrio(s, Next(s, step), x);
    case RetestStep =>
      DownPrio(s, s.pc[c].sema);
      SamePrio(s, Next(s, step), x);
    case LockAcquireStep(l) =>
      DonateFrame(s, l);
      DownPrio(EnterAcquire(s, l), OfLock(l));
      EnterPrio(s, l, x);
      SameAs(s, EnterAcquire(s, l), Next(s, step), x);
    case SetPriorityStep(p) => SetPrio(s, p, x);
    case ReleasePriorityStep => ReleasePrio(s, x);
    case SetNiceStep(n) => NicePrio(s, n, x);
    case CreateStep(t, p) => CreatePrio(s, t, p, x);
    case ExitStep => ExitPrio(s, x);
    case TickStep => TickPrio(s, x);
    case _ =>
      OtherPrio(s, step);
      SamePrio(s, Next(s, step), x);
  }

  lemma DomainsKeys(s: State)
    requires Domains(s)
    ensures s.prio.Keys == s.status.Keys
  {
  }

  lemma SameAs(s: State, e: State, r: State, x: Tid)
    requires NotLowered(s, e, x) && r.prio == e.prio
    ensures NotLowered(s, r, x)
  {
  }

  lemma DownPrio(s: State, d: SemaId)
    requires d in s.semas && s.current in s.info && s.current in s.prio && (d.OfLock? ==> d.lock in s.locks)
    ensures TryDown(s, d).prio == s.prio
  {
    hide InsertOrdered, StableSort, Schedule, PrioGreater, LockGreater;
    if s.semas[d].value == 0 { ScheduleKeeps(Enqueued(s, d)); }
  }

  lemma EnterPrio(s: State, l: LockId, x: Tid)
    requires l in s.locks && s.current in s.info
    ensures NotLowered(s, EnterAcquire(s, l), x)
  {
    var c := s.current;
    var w := s.(pc := s.pc[c := Down(OfLock(l))], info := s.info[c := s.info[c].(waitingLock := Some(l))]);
    hide Donate;
    DonatedPrio(w, c, 1 + MAX_DONATION_DEPTH, x);
  }

  lemma {:induction false} DonatedPrio(s: State, t: Tid, d: nat, x: Tid)
    ensures NotLowered(s, Donate(s, t, d), x)
    decreases d
  {
    if d != 0 && t in s.prio && t in s.info && s.info[t].waitingLock.Some? {
      var l := s.info[t].waitingLock.value;
      if l in s.locks && s.locks[l].holder.Some? {
        var h := s.locks[l].holder.value;
        if h in s.prio && h in s.info { DonatedPrio(DonateEdge(s, t, l, h), h, d - 1, x); }
      }
    }
  }

  lemma SetPrio(s: State, p: int, x: Tid)
    requires s.current in s.prio && s.current in s.info && x != s.current
    ensures NotLowered(s, SetPriority(s, p), x)
  {
  }

  lemma ReleasePrio(s: State, x: Tid)
    requires s.current in s.prio && s.current in s.info && x != s.current
    ensures NotLowered(s, SetPriority(s, s.info[s.current].base).(pc := s.pc[s.current := User]), x)
  {
  }

  lemma NicePrio(s: State, n: int, x: Tid)
    requires s.current in s.usage && x != s.current
    ensures NotLowered(s, SetNice(s, n), x)
  {
    hide StableSort, PriorityOf, PrioGreater;
  }

  lemma CreatePrio(s: State, t: Tid, p: int, x: Tid)
    requires s.current in s.usage && t !in s.prio
    ensures NotLowered(s, Create(s, t, p), x)
  {
    hide InsertOrdered, PrioGreater;
  }

  lemma ExitPrio(s: State, x: Tid)
    requires x != s.current
    ensures NotLowered(s, Schedule(Exited(s)), x)
  {
    hide Schedule;
    ScheduleKeeps(Exited(s));
  }

  lemma TickPrio(s: State, x: Tid)
    ensures NotLowered(s, Tick(s), x)
  {
    hide WakeAll, Counted, Reprioritised, Decayed;
    var s1 := s.(ticks := s.ticks + 1);
    MlfqsPrio(s1);
    WakeAllPrio(if s.mlfqs then MlfqsTick(s1) else s1);
  }

  lemma MlfqsPrio(s: State)
    ensures MlfqsTick(s).prio.Keys == s.prio.Keys
  {
    hide Counted, Reprioritised, Decayed;
    PartPrio(s);
    PartPrio(Counted(s));
    PartPrio(Reprioritised(Counted(s)));
  }

  lemma PartPrio(s: State)
    ensures Counted(s).prio == s.prio && Reprioritised(s).prio.Keys == s.prio.Keys && Decayed(s).prio == s.prio
  {
    hide StableSort, PrioGreater, PriorityOf, NextUsage, NextLoadAvg, AddInt;
  }

  lemma OtherPrio(s: State, step: Step)
    requires Domains(s) && s.current in s.status && Enabled(s, step)
    requires step.SemaInitStep? || step.LockInitStep? || step.SemaTryDownStep? || step.SemaUpStep? || step.LockTryStep?
      || step.LockTryHolderStep? || step.LockReleaseStep? || step.ReleaseHolderStep? || step.ReleaseUpStep?
      || step.YieldStep? || step.SleepStep? || step.IdleBlockStep?
    ensures Next(s, step).prio == s.prio
  {
    hide InsertOrdered, StableSort, Schedule, PrioGreater, LockGreater, Domains, TryDown, EnterAcquire, Tick, Create;
    DomainsFacts(s);
    ScheduleKeeps(Preempted(s));
    ScheduleKeeps(s.(status := s.status[s.current := Blocked]));
    if step.SleepStep? { ScheduleKeeps(FallAsleep(s, step.n)); }
  }

  // Runs.

  /** Thread `a` waits for `id`. */
  ghost predicate WaitsFor(s: State, id: SemaId, a: Tid) { id in s.semas && a in s.semas[id].waiters && a in s.prio }

  /** `a` is before `b` among the waiters of `id`. */
  ghost predicate Ahead(s: State, id: SemaId, a: Tid, b: Tid) {
    WaitsFor(s, id, a) && WaitsFor(s, id, b) && Before(s.semas[id].waiters, a, b)
  }

  /** Two waiters of equal priority stay in order, and the later one is not woken first. */
  lemma NextAhead(s: State, step: Step, id: SemaId, a: Tid, b: Tid)
    requires Inv(s) && Domains(s) && s.current in s.status && Enabled(s, step) && Ahead(s, id, a, b)
    requires var r := Next(s, step); a in r.prio && b in r.prio ==> r.prio[a] == r.prio[b]
    ensures var r := Next(s, step); WaitsFor(r, id, b) && (WaitsFor(r, id, a) ==> Ahead(r, id, a, b))
  {
    hide Inv, Domains, Enabled, Next, Requeued, Before, Distinct, NotLowered;
    NextWaiters(s, step, id);
    WaiterFacts(s, id);
    var r, w := Next(s, step), s.semas[id].waiters;
    forall t | t in w ensures t in r.prio {
      NextNotLowered(s, step, t);
      StillThere(s, r, t);
    }
    RequeuedInTurn(w, r.semas[id].waiters, r.prio, s.current, a, b);
  }

  lemma StillThere(s: State, r: State, x: Tid)
    requires NotLowered(s, r, x) && x in s.prio
    ensures x in r.prio && (!s.mlfqs ==> s.prio[x] <= r.prio[x])
  {
  }

  /** Up to the last step of the run `a` waits; and whenever both are there `a` and `b` have equal
      priorities. */
  ghost predicate EqualsWait(s: State, steps: seq<Step>, id: SemaId, a: Tid, b: Tid)
    requires Legal(s, steps)
    decreases |steps|
  {
    && (a in s.prio && b in s.prio ==> s.prio[a] == s.prio[b])
    && (steps != [] ==> WaitsFor(s, id, a) && EqualsWait(Next(s, steps[0]), steps[1..], id, a, b))
  }

  /** Of two waiters of equal priority the one that is ahead is woken first: as long as it waits, so
      does the other, behind it. */
  lemma {:induction false} FirstComeFirstServed(s: State, steps: seq<Step>, id: SemaId, a: Tid, b: Tid)
    requires Inv(s) && Legal(s, steps) && Ahead(s, id, a, b) && EqualsWait(s, steps, id, a, b)
    ensures var r := After(s, steps); WaitsFor(r, id, b) && (WaitsFor(r, id, a) ==> Ahead(r, id, a, b))
    decreases |steps|
  {
    hide Inv, Domains, Enabled, Next, Before, WaitsFor;
    if steps != [] {
      var r := Next(s, steps[0]);
      NextInv(s, steps[0]);
      assert EqualsWait(r, steps[1..], id, a, b);
      NextAhead(s, steps[0], id, a, b);
      if steps[1..] == [] {
        assert After(s, steps) == r;
      } else {
        FirstComeFirstServed(r, steps[1..], id, a, b);
      }
    }
  }

  // Who blocked first is ahead, unless MLFQS lowers priorities.

  /** No element up to `a` has a lower priority than `a`. */
  ghost predicate Front(w: seq<Tid>, prio: map<Tid, int>, a: Tid) {
    a in prio && forall i, k :: 0 <= i <= k < |w| && w[k] == a ==> w[i] in prio && prio[w[i]] >= prio[a]
  }

  lemma InsertFront(w: seq<Tid>, prio: map<Tid, int>, c: Tid, a: Tid)
    requires Front(w, prio, a) && c != a && a in w
    ensures Front(InsertOrdered(PrioGreater(prio), w, c), prio, a)
  {
    var less := PrioGreater(prio);
    var r, p := InsertOrdered(less, w, c), InsertIndex(less, w, c);
    forall i, k | 0 <= i <= k < |r| && r[k] == a ensures r[i] in prio && prio[r[i]] >= prio[a] {
      var k' := if k < p then k else k - 1;
      assert w[k'] == a;
      if i == p {
        assert w[p] in prio && prio[w[p]] >= prio[a] && less(c, w[p]);
      } else {
        assert r[i] == w[if i < p then i else i - 1];
      }
    }
  }

  lemma JoinFront(w: seq<Tid>, prio: map<Tid, int>, c: Tid)
    requires c !in w && c in prio && forall t :: t in w ==> t in prio
    ensures Front(InsertOrdered(PrioGreater(prio), w, c), prio, c)
  {
    var less := PrioGreater(prio);
    var r, p := InsertOrdered(less, w, c), InsertIndex(less, w, c);
    forall k | 0 <= k < |r| && k != p ensures r[k] != c { assert r[k] == w[if k < p then k else k - 1]; }
    forall i, k | 0 <= i <= k < |r| && r[k] == c ensures r[i] in prio && prio[r[i]] >= prio[c] {
      assert k == p;
      if i < p { assert r[i] == w[i] && !less(c, w[i]); }
    }
  }

  lemma SortFront(w: seq<Tid>, prio: map<Tid, int>, a: Tid)
    requires a in prio && forall t :: t in w ==> t in prio
    ensures Front(StableSort(PrioGreater(prio), w), prio, a)
  {
    hide StableSort, StrictWeak, StablePerm;
    var less := PrioGreater(prio);
    var q := StableSort(less, w);
    PrioWeak(prio, w);
    StableSortCorrect(less, w);
    assert multiset(w) == multiset(q);
    PermElems(w, q);
    forall i, k | 0 <= i <= k < |q| && q[k] == a ensures q[i] in prio && prio[q[i]] >= prio[a] {
      assert q[i] in q;
      if i < k { assert !less(q[k], q[i]); }
    }
  }

  lemma TailFront(w: seq<Tid>, prio: map<Tid, int>, a: Tid)
    requires Front(w, prio, a) && w != []
    ensures Front(w[1..], prio, a)
  {
    forall i, k | 0 <= i <= k < |w[1..]| && w[1..][k] == a ensures w[1..][i] in prio && prio[w[1..][i]] >= prio[a] {
      assert w[k + 1] == a && w[1..][i] == w[i + 1];
    }
  }

  lemma RequeuedFront(w: seq<Tid>, r: seq<Tid>, prio: map<Tid, int>, c: Tid, a: Tid)
    requires Requeued(w, r, prio, c) && Front(w, prio, a) && a in w && c !in w && forall t :: t in w ==> t in prio
    ensures Front(r, prio, a)
  {
    hide Front, InsertOrdered, StableSort;
    InsertFront(w, prio, c, a);
    SortFront(w, prio, a);
    if StableSort(PrioGreater(prio), w) != [] { TailFront(StableSort(PrioGreater(prio), w), prio, a); }
  }

  lemma RaisedFront(w: seq<Tid>, prio: map<Tid, int>, prio': map<Tid, int>, a: Tid)
    requires Front(w, prio, a) && a in prio' && prio'[a] == prio[a]
    requires forall t :: t in w && t in prio ==> t in prio' && prio[t] <= prio'[t]
    ensures Front(w, prio', a)
  {
    forall i, k | 0 <= i <= k < |w| && w[k] == a ensures w[i] in prio' && prio'[w[i]] >= prio'[a] {
      assert w[i] in w && w[i] in prio;
    }
  }

  /** No waiter up to `a` has a lower priority. */
  ghost predicate AtFront(s: State, id: SemaId, a: Tid) {
    WaitsFor(s, id, a) && Front(s.semas[id].waiters, s.prio, a)
  }

  /** A thread that has just blocked is in such a place, */
  lemma BlocksAtFront(s: State, step: Step, id: SemaId)
    requires Inv(s) && Domains(s) && s.current in s.status && Enabled(s, step) && id in s.semas
    requires WaitsFor(Next(s, step), id, s.current)
    ensures AtFront(Next(s, step), id, s.current)
  {
    hide Inv, Domains, Enabled, Next, Front, Distinct, NotLowered;
    NextWaiters(s, step, id);
    WaiterFacts(s, id);
    AllThere(s, step, id);
    var r, w, c := Next(s, step), s.semas[id].waiters, s.current;
    JoinFront(w, r.prio, c);
    OnlyJoining(w, r.semas[id].waiters, r.prio, c);
  }

  lemma AllThere(s: State, step: Step, id: SemaId)
    requires Inv(s) && Domains(s) && s.current in s.status && Enabled(s, step) && id in s.semas
    ensures forall t :: t in s.semas[id].waiters ==>
              t in s.prio && t in Next(s, step).prio && (!s.mlfqs ==> s.prio[t] <= Next(s, step).prio[t])
  {
    hide Inv, Domains, Enabled, Next, Distinct, NotLowered;
    WaiterFacts(s, id);
    forall t | t in s.semas[id].waiters
      ensures t in Next(s, step).prio && (!s.mlfqs ==> s.prio[t] <= Next(s, step).prio[t])
    {
      NextNotLowered(s, step, t);
      StillThere(s, Next(s, step), t);
    }
  }

  /** The one way onto the list. */
  lemma OnlyJoining(w: seq<Tid>, r: seq<Tid>, prio: map<Tid, int>, c: Tid)
    requires Requeued(w, r, prio, c) && c !in w && c in r
    ensures r == InsertOrdered(PrioGreater(prio), w, c)
  {
    hide InsertOrdered, PrioGreater;
    var q := StableSort(PrioGreater(prio), w);
    PermElems(w, q);
    assert w != [] ==> forall t :: t in q[1..] ==> t in q;
  }

  /** and stays in such a place while it waits and its priority does not change, without MLFQS. */
  lemma NextAtFront(s: State, step: Step, id: SemaId, a: Tid)
    requires Inv(s) && !s.mlfqs && Domains(s) && s.current in s.status && Enabled(s, step) && AtFront(s, id, a)
    requires var r := Next(s, step); WaitsFor(r, id, a) && r.prio[a] == s.prio[a]
    ensures AtFront(Next(s, step), id, a)
  {
    hide Inv, Domains, Enabled, Next, Front, Distinct, Requeued;
    NextWaiters(s, step, id);
    WaiterFacts(s, id);
    AllThere(s, step, id);
    var r, w := Next(s, step), s.semas[id].waiters;
    RaisedFront(w, s.prio, r.prio, a);
    RequeuedFront(w, r.semas[id].waiters, r.prio, s.current, a);
  }

  /** Another thread of the same priority that blocks then is behind it. */
  lemma BlocksBehind(s: State, step: Step, id: SemaId, a: Tid)
    requires Inv(s) && !s.mlfqs && Domains(s) && s.current in s.status && Enabled(s, step) && AtFront(s, id, a)
    requires var r := Next(s, step);
             && WaitsFor(r, id, a) && WaitsFor(r, id, s.current)
             && r.prio[a] == s.prio[a] == r.prio[s.current]
    ensures Ahead(Next(s, step), id, a, s.current)
  {
    hide Inv, Domains, Enabled, Next, Before, Distinct;
    NextWaiters(s, step, id);
    WaiterFacts(s, id);
    AllThere(s, step, id);
    var r, w, c := Next(s, step), s.semas[id].waiters, s.current;
    RaisedFront(w, s.prio, r.prio, a);
    OnlyJoining(w, r.semas[id].waiters, r.prio, c);
    var k :| 0 <= k < |w| && w[k] == a;
    InsertPlace(PrioGreater(r.prio), w, c, k);
    assert forall i :: 0 <= i <= k ==> r.prio[w[i]] >= r.prio[a];
  }

  /** All through the run `a` waits with priority `p`. */
  ghost predicate Steady(s: State, steps: seq<Step>, id: SemaId, a: Tid, p: int)
    requires Legal(s, steps)
    decreases |steps|
  {
    && WaitsFor(s, id, a) && s.prio[a] == p
    && (steps != [] ==> Steady(Next(s, steps[0]), steps[1..], id, a, p))
  }

  lemma {:induction false} RunAtFront(s: State, steps: seq<Step>, id: SemaId, a: Tid, p: int)
    requires Inv(s) && !s.mlfqs && Legal(s, steps) && AtFront(s, id, a) && Steady(s, steps, id, a, p)
    ensures AtFront(After(s, steps), id, a) && Inv(After(s, steps)) && !After(s, steps).mlfqs
    ensures After(s, steps).prio[a] == p
    decreases |steps|
  {
    hide Inv, Domains, Enabled, Next, Front, WaitsFor;
    if steps != [] {
      var r := Next(s, steps[0]);
      NextInv(s, steps[0]);
      NextTicks(s, steps[0]);
      assert Steady(r, steps[1..], id, a, p);
      NextAtFront(s, steps[0], id, a);
      RunAtFront(r, steps[1..], id, a, p);
    }
  }

  /** Without MLFQS, a thread that blocks on a semaphore, and goes on waiting with the priority it
      has, is woken before a thread of the same priority that blocks on it later. */
  lemma Fifo(s: State, first: Step, between: seq<Step>, second: Step, rest: seq<Step>, id: SemaId)
    requires Inv(s) && !s.mlfqs && Legal(s, [first]) && id in s.semas && WaitsFor(Next(s, first), id, s.current)
    requires var r := Next(s, first); Legal(r, between) && Steady(r, between, id, s.current, r.prio[s.current])
    requires var r := Next(s, first);
             var m := After(r, between);
             && Legal(m, [second]) && WaitsFor(Next(m, second), id, s.current)
             && WaitsFor(Next(m, second), id, m.current)
             && Next(m, second).prio[s.current] == r.prio[s.current] == Next(m, second).prio[m.current]
             && m.current != s.current
             && Legal(Next(m, second), rest) && EqualsWait(Next(m, second), rest, id, s.current, m.current)
    ensures var m := After(Next(s, first), between);
            var e := After(Next(m, second), rest);
            WaitsFor(e, id, m.current) && (WaitsFor(e, id, s.current) ==> Ahead(e, id, s.current, m.current))
  {
    hide Inv, Domains, Enabled, Next, Front, Steady, EqualsWait, After, Ahead;
    var a, r := s.current, Next(s, first);
    NextInv(s, first);
    NextTicks(s, first);
    BlocksAtFront(s, first, id);
    RunAtFront(r, between, id, a, r.prio[a]);
    var m := After(r, between);
    NextInv(m, second);
    BlocksBehind(m, second, id, a);
    FirstComeFirstServed(Next(m, second), rest, id, a, m.current);
  }

  // In MLFQS mode priorities of waiters can fall, and with them the order is lost.

  /** Thread 4 waits for semaphore 0 with priority 31, behind thread 3, whose priority has fallen. */
  function Fallen(): State {
    State(true,
          map[1 := Running, 2 := Blocked, 3 := Blocked, 4 := Blocked],
          map[1 := User, 2 := Idling, 3 := Down(Plain(0)), 4 := Down(Plain(0))],
          map[1 := 31, 2 := PRI_MIN, 3 := 20, 4 := 31],
          map[1 := Info(31, PRI_MIN, None, [], {}), 2 := Info(PRI_MIN, PRI_MIN, None, [], {}),
              3 := Info(31, PRI_MIN, None, [], {}), 4 := Info(31, PRI_MIN, None, [], {})],
          map[1 := Usage(0, 0), 2 := Usage(0, 0), 3 := Usage(0, 0), 4 := Usage(0, 0)],
          map[1 := 0, 2 := 0, 3 := 0, 4 := 0],
          [], [], map[Plain(0) := Sema(0, [3, 4], 0, 0, 0)], map[], 1, 2, 0, 0)
  }

  /** Thread 1, of priority 31 too, blocks later and is ahead of it. */
  lemma OutOfTurn()
    ensures var s := Fallen();
            && Inv(s) && Enabled(s, SemaDownStep(0)) && WaitsFor(s, Plain(0), 4) && s.prio[4] == s.prio[1]
            && Ahead(Next(s, SemaDownStep(0)), Plain(0), 1, 4)
  {
    FallenInv();
    FallenRuns();
    hide Inv, Domains, TryDown, Before;
    var s := Fallen();
    FallenBlocks(s.(pc := s.pc[1 := Down(Plain(0))]));
    assert Next(s, SemaDownStep(0)) == TryDown(s.(pc := s.pc[1 := Down(Plain(0))]), Plain(0));
    var w: seq<Tid> := [1, 3, 4];
    BeforeAt(w, 0, 2);
    BeforeFacts(w, 1, 4);
  }

  lemma FallenRuns()
    ensures Domains(Fallen()) && Fallen().current in Fallen().status
  {
    FallenKeys();
  }

  lemma FallenBlocks(s: State)
    requires Plain(0) in s.semas && s.semas[Plain(0)].waiters == [3, 4] && s.semas[Plain(0)].value == 0
    requires s.current == 1 && 1 in s.info && 1 in s.prio && 3 in s.prio && s.prio[1] > s.prio[3]
    ensures var r := TryDown(s, Plain(0));
            Plain(0) in r.semas && r.semas[Plain(0)].waiters == [1, 3, 4] && r.prio == s.prio
  {
    hide Schedule, InsertOrdered;
    AtOnce(s.prio);
    ScheduleKeeps(Enqueued(s, Plain(0)));
  }

  lemma AtOnce(prio: map<Tid, int>)
    requires 1 in prio && 3 in prio && prio[1] > prio[3]
    ensures InsertOrdered(PrioGreater(prio), [3, 4], 1) == [1, 3, 4]
  {
    assert InsertIndex(PrioGreater(prio), [3, 4], 1) == 0;
  }

  lemma FallenKeys()
    ensures var s := Fallen();
            KeysOk(s.status.Keys, s.pc.Keys, s.prio.Keys, s.info.Keys, s.usage.Keys, s.wakeup.Keys, s.idle)
            && LockKeysOk(s.locks.Keys, s.semas.Keys) && PcOk(s.pc, s.locks.Keys, s.semas.Keys)
  {
    var s, k := Fallen(), {1, 2, 3, 4};
    assert s.status.Keys == k && s.pc.Keys == k && s.prio.Keys == k;
    assert s.info.Keys == k && s.usage.Keys == k && s.wakeup.Keys == k;
  }

  lemma FallenThreads()
    ensures var s := Fallen();
            && RunOk(s.status, s.current, Some(s.current)) && ReadyOk(s.status, s.ready, s.idle)
            && BlockedOk(s.status, s.pc, s.idle)
  {
  }

  lemma FallenQueues()
    ensures var s := Fallen(); SleepOk(s.pc, s.sleeping, s.wakeup, s.ticks) && QueueOk(s.mlfqs, s.prio, s.ready)
  {
    hide WakesBefore, PrioGreater;
  }

  lemma FallenSemas()
    ensures var s := Fallen(); WaitOk(s.status, s.pc, s.semas) && SemaOk(s.status, s.pc, s.semas)
  {
    var s := Fallen();
    assert WaitersOk(s.status, s.pc, Plain(0), [3, 4]);
    hide Woken;
    assert OneSemaOk(s.status, s.pc, Plain(0), s.semas[Plain(0)]);
  }

  lemma FallenHolders()
    ensures var s := Fallen(); LockOk(s.info, s.locks, s.semas) && HolderOk(s.pc, s.info, s.locks)
  {
  }

  lemma FallenLists()
    ensures var s := Fallen(); ListsOk(s.mlfqs, s.pc, s.info, s.locks)
  {
    var s := Fallen();
    assert ThreadOk(true, User, s.info[1], s.locks.Keys);
    assert ThreadOk(true, Idling, s.info[2], s.locks.Keys);
    assert ThreadOk(true, Down(Plain(0)), s.info[3], s.locks.Keys);
  }

  lemma FallenInv()
    ensures Inv(Fallen())
  {
    hide RunOk, ReadyOk, BlockedOk, WaitOk, SleepOk, SemaOk, LockOk, HolderOk, ListsOk, QueueOk, LockKeysOk, PcOk,
         KeysOk;
    FallenKeys();
    FallenThreads();
    FallenQueues();
    FallenSemas();
    FallenHolders();
    FallenLists();
  }
}
