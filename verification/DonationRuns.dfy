/** Runs of the kernel that build chains of waiting threads of any length, and what donation makes
    of them. */
module DonationRuns {
  import opened Wrappers
  import opened Orders
  import opened Mlfqs
  import opened Kernel
  import opened KernelInv
  import opened KernelSteps
  import opened KernelRuns
  import opened Donation

  /** Some run leads from `s` to `r`. */
  ghost predicate Reaches(s: State, r: State) {
    exists steps :: Legal(s, steps) && After(s, steps) == r
  }

  lemma ReachesSelf(s: State)
    ensures Reaches(s, s)
  {
    assert Legal(s, []) && After(s, []) == s;
  }

  lemma ReachesNext(s: State, r: State, step: Step)
    requires Reaches(s, r) && Domains(r) && r.current in r.status && Enabled(r, step)
    ensures Reaches(s, Next(r, step))
  {
    hide Next, Enabled, Domains;
    var steps :| Legal(s, steps) && After(s, steps) == r;
    OneMore(s, steps, step);
  }

  lemma {:induction false} OneMore(s: State, steps: seq<Step>, step: Step)
    requires Legal(s, steps)
    requires var r := After(s, steps); Domains(r) && r.current in r.status && Enabled(r, step)
    ensures Legal(s, steps + [step]) && After(s, steps + [step]) == Next(After(s, steps), step)
    decreases |steps|
  {
    hide Next, Enabled, Domains;
    if steps == [] {
      assert steps + [step] == [step] && [step][1..] == [];
    } else {
      OneMore(Next(s, steps[0]), steps[1..], step);
      assert (steps + [step])[1..] == steps[1..] + [step];
    }
  }

  // The chain.

  /** The thread that holds lock `j`: the initial thread for lock 0, then the threads made later. */
  ghost function Holder(j: nat): Tid { if j == 0 then 1 else j + 2 }

  /** Locks 0 to `k` are held, and the holder of each but the first waits for the one before. */
  ghost predicate Chained(info: map<Tid, Info>, locks: map<LockId, Lock>, k: nat) {
    && (forall j: nat :: j <= k ==> j in locks && locks[j].holder == Some(Holder(j)))
    && (forall j: nat :: j <= k ==>
          Holder(j) in info && info[Holder(j)].waitingLock == if j == 0 then None else Some(j - 1))
  }

  ghost predicate AllZero(prio: map<Tid, int>) { forall t :: t in prio ==> prio[t] == 0 }

  /** Thread `c` runs in a kernel in which all have priority zero and `k + 1` locks form a chain;
      threads up to `n` and locks up to `m` exist. */
  ghost predicate Grown(s: State, k: nat, n: nat, m: nat, c: Tid, ready: seq<Tid>) {
    && Inv(s) && !s.mlfqs && s.idle == 2 && s.current == c && c in s.pc && s.pc[c] == User && s.ready == ready
    && AllZero(s.prio) && Chained(s.info, s.locks, k)
    && OfLock(k) in s.semas && s.semas[OfLock(k)].value == 0 && 1 in s.pc && s.pc[1] == User
    && (forall t :: t in s.status ==> t <= n) && (forall l :: l in s.locks ==> l <= m)
  }

  lemma Runs(s: State)
    requires Inv(s)
    ensures Domains(s) && s.current in s.status && s.current in s.pc && s.current in s.info && s.current in s.prio
    ensures s.current in s.usage
  {
  }

  /** One step of a run, keeping the invariant. */
  lemma Take1(s: State, r: State, step: Step)
    requires Reaches(s, r) && Inv(r)
    requires Domains(r) && r.current in r.status ==> Enabled(r, step)
    ensures Domains(r) && r.current in r.status && Enabled(r, step)
    ensures Reaches(s, Next(r, step)) && Inv(Next(r, step))
  {
    hide Inv, Next, Enabled;
    Runs(r);
    ReachesNext(s, r, step);
    NextInv(r, step);
  }

  ghost predicate FreeLock(s: State, l: LockId) {
    l in s.locks && s.locks[l].holder.None? && OfLock(l) in s.semas && s.semas[OfLock(l)] == Sema(1, [], 1, 0, 0)
  }

  // Single steps.

  lemma InitLock(b: State, s: State, l: LockId) returns (r: State)
    requires Reaches(b, s) && Inv(s) && l !in s.locks
    ensures Reaches(b, r) && Inv(r) && FreeLock(r, l)
    ensures r == s.(locks := s.locks[l := Lock(None, PRI_MIN)], semas := s.semas[OfLock(l) := Sema(1, [], 1, 0, 0)])
  {
    hide Inv, InvRun, Reaches, TryDown, EnterAcquire, SemaUp, TryLock, TryLockHolder, BeginRelease, ReleaseHolder,
         ReleaseUp,
         SetPriority, SetNice, Yield, Schedule, FallAsleep, Tick, Create, Exited, Take, KeysOk, PcOk;
    Runs(s);
    Take1(b, s, LockInitStep(l));
    r := Next(s, LockInitStep(l));
  }

  lemma CreateThread(b: State, s: State, t: Tid, p: int) returns (r: State)
    requires Reaches(b, s) && Inv(s) && s.current in s.pc && s.pc[s.current].User? && t !in s.status
    requires 0 <= p <= PRI_MAX
    ensures s.current in s.usage && Reaches(b, r) && Inv(r) && r == Create(s, t, p)
  {
    hide Inv, InvRun, Reaches, Domains, TryDown, EnterAcquire, SemaUp, TryLock, TryLockHolder, BeginRelease,
         ReleaseHolder, ReleaseUp,
         SetPriority, SetNice, Yield, Schedule, FallAsleep, Tick, Create, Exited, Take;
    Runs(s);
    Take1(b, s, CreateStep(t, p));
    r := Next(s, CreateStep(t, p));
  }

  lemma YieldCpu(b: State, s: State) returns (r: State)
    requires Reaches(b, s) && Inv(s)
    ensures Reaches(b, r) && Inv(r) && r == Yield(s)
  {
    hide Inv, InvRun, Reaches, Domains, TryDown, EnterAcquire, SemaUp, TryLock, TryLockHolder, BeginRelease,
         ReleaseHolder, ReleaseUp,
         SetPriority, SetNice, Yield, Schedule, FallAsleep, Tick, Create, Exited, Take;
    Runs(s);
    Take1(b, s, YieldStep);
    r := Next(s, YieldStep);
  }

  lemma LowerPriority(b: State, s: State, p: int) returns (r: State)
    requires Reaches(b, s) && Inv(s) && s.current in s.pc && s.pc[s.current].User?
    ensures s.current in s.prio && s.current in s.info && Reaches(b, r) && Inv(r) && r == SetPriority(s, p)
  {
    hide Inv, InvRun, Reaches, Domains, TryDown, EnterAcquire, SemaUp, TryLock, TryLockHolder, BeginRelease,
         ReleaseHolder, ReleaseUp,
         SetPriority, SetNice, Yield, Schedule, FallAsleep, Tick, Create, Exited, Take;
    Runs(s);
    Take1(b, s, SetPriorityStep(p));
    r := Next(s, SetPriorityStep(p));
  }

  lemma AcquireLock(b: State, s: State, l: LockId) returns (r: State)
    requires Reaches(b, s) && Inv(s) && s.current in s.pc && s.pc[s.current].User? && s.current in s.info
    requires l in s.locks && s.locks[l].holder != Some(s.current) && OfLock(l) in s.semas
    ensures var e := EnterAcquire(s, l);
            && OfLock(l) in e.semas && e.current in e.info && e.current in e.prio && l in e.locks
            && Reaches(b, r) && Inv(r) && r == TryDown(e, OfLock(l))
  {
    hide Inv, InvRun, Reaches, Domains, TryDown, EnterAcquire, SemaUp, TryLock, TryLockHolder, BeginRelease,
         ReleaseHolder, ReleaseUp,
         SetPriority, SetNice, Yield, Schedule, FallAsleep, Tick, Create, Exited, Take;
    Runs(s);
    DonateFrame(s, l);
    Take1(b, s, LockAcquireStep(l));
    r := Next(s, LockAcquireStep(l));
  }

  // The chain grows.

  /** The initial thread makes a lock. */
  lemma AddLock(b: State, s: State, k: nat) returns (r: State)
    requires Reaches(b, s) && Grown(s, k, k + 2, k, 1, [])
    ensures Reaches(b, r) && Grown(r, k, k + 2, k + 1, 1, []) && FreeLock(r, k + 1)
  {
    hide Inv, Reaches, Chained, AllZero;
    r := InitLock(b, s, k + 1);
    ChainedMore(s.info, s.locks, s.info, r.locks, k);
  }

  lemma ChainedMore(info: map<Tid, Info>, locks: map<LockId, Lock>, info': map<Tid, Info>, locks': map<LockId, Lock>,
                    k: nat)
    requires Chained(info, locks, k)
    requires forall l :: l in locks && l <= k ==> l in locks' && locks'[l].holder == locks[l].holder
    requires forall t :: t in info && t <= k + 2 ==> t in info' && info'[t].waitingLock == info[t].waitingLock
    ensures Chained(info', locks', k)
  {
  }

  /** It creates a thread of priority `p`, which becomes ready. */
  lemma AddThread(b: State, s: State, k: nat, m: nat, p: int) returns (r: State)
    requires Reaches(b, s) && Grown(s, k, k + 2, m, 1, []) && 0 <= p <= PRI_MAX
    ensures Reaches(b, r) && r == Create(s, k + 3, p) && Inv(r)
    ensures r.locks == s.locks && r.semas == s.semas && r.current == 1 && r.idle == 2 && !r.mlfqs && r.ready == [k + 3]
    ensures k + 3 in r.pc && k + 3 in r.prio && k + 3 in r.info && k + 3 !in s.prio
    ensures r.pc == s.pc[k + 3 := User] && r.prio == s.prio[k + 3 := p]
    ensures r.info == s.info[k + 3 := Info(p, PRI_MIN, None, [], {})]
    ensures forall t :: t in r.status ==> t <= k + 3
  {
    hide Inv, Reaches, Chained, AllZero;
    Runs(s);
    r := CreateThread(b, s, k + 3, p);
    assert InsertOrdered(PrioGreater(r.prio), [], k + 3) == [k + 3];
  }

  /** It yields to that thread, whose priority is no lower. */
  lemma HandOver(b: State, s: State, t: Tid) returns (r: State)
    requires Reaches(b, s) && Inv(s) && !s.mlfqs && s.idle == 2 && s.current == 1 && s.ready == [t]
    requires 1 in s.prio && t in s.prio && s.prio[1] <= s.prio[t]
    ensures Reaches(b, r) && Inv(r) && r.current == t && r.ready == [1]
    ensures r == s.(status := r.status, ready := r.ready, current := t)
    ensures forall x :: x in r.status ==> x in s.status || x == t
  {
    hide Inv, Reaches, InsertOrdered, StableSort, PrioGreater;
    Runs(s);
    r := YieldCpu(b, s);
    TwoInOrder(s.prio, t, 1);
  }

  lemma TwoInOrder(prio: map<Tid, int>, a: Tid, c: Tid)
    requires a in prio && c in prio && prio[c] <= prio[a]
    ensures InsertOrdered(PrioGreater(prio), [a], c) == [a, c]
    ensures StableSort(PrioGreater(prio), [a, c]) == [a, c]
  {
    var less := PrioGreater(prio);
    assert [a][1..] == [];
    assert InsertIndex(less, [a], c) == 1;
    assert StableSort(less, []) == [];
    assert [a][..0] == [] && InsertOrdered(less, [], a) == [a];
    assert StableSort(less, [a]) == [a];
    assert [a, c][..1] == [a];
  }

  /** The running thread takes a lock that is free. */
  lemma AcquireFree(b: State, s: State, l: LockId) returns (r: State)
    requires Reaches(b, s) && Inv(s) && !s.mlfqs && s.current in s.pc && s.pc[s.current] == User && FreeLock(s, l)
    requires s.current in s.info
    ensures Reaches(b, r) && Inv(r) && r == s.(pc := r.pc, info := r.info, locks := r.locks, semas := r.semas)
    ensures r.pc == s.pc && r.locks == s.locks[l := Lock(Some(s.current), PRI_MIN)]
    ensures r.info == s.info[s.current := HolderInfo(false, r.locks, s.info[s.current], l)]
    ensures r.semas == s.semas[OfLock(l) := Sema(0, [], 1, 0, 1)]
  {
    hide Inv, Reaches, TryDown, EnterAcquire;
    Runs(s);
    r := AcquireLock(b, s, l);
    FreeAcquired(s, l);
  }

  lemma FreeAcquired(s: State, l: LockId)
    requires !s.mlfqs && FreeLock(s, l) && s.current in s.info && s.current in s.prio
    requires s.current in s.pc && s.pc[s.current] == User
    ensures var r := TryDown(EnterAcquire(s, l), OfLock(l));
            && r == s.(pc := r.pc, info := r.info, locks := r.locks, semas := r.semas)
            && r.pc == s.pc && r.locks == s.locks[l := Lock(Some(s.current), PRI_MIN)]
            && r.info == s.info[s.current := HolderInfo(false, r.locks, s.info[s.current], l)]
            && r.semas == s.semas[OfLock(l) := Sema(0, [], 1, 0, 1)]
  {
    hide InsertOrdered, LockGreater, PrioGreater;
    assert StableSort(PrioGreater(s.prio), []) == [];
  }

  /** The running thread blocks on a lock that is held, and the initial thread runs again. */
  lemma BlockOnLock(b: State, s: State, l: LockId) returns (r: State)
    requires Reaches(b, s) && Inv(s) && !s.mlfqs && s.current in s.pc && s.pc[s.current] == User && s.ready == [1]
    requires l in s.locks && s.locks[l].holder.Some? && s.locks[l].holder != Some(s.current)
    requires OfLock(l) in s.semas && s.semas[OfLock(l)].value == 0 && AllZero(s.prio) && 1 in s.prio
    ensures Reaches(b, r) && Inv(r) && r.current == 1 && r.ready == [] && AllZero(r.prio) && r.idle == s.idle
    ensures !r.mlfqs
    ensures s.current in s.info && r.pc == s.pc[s.current := Down(OfLock(l))]
    ensures r.locks.Keys == s.locks.Keys && forall j :: j in s.locks ==> r.locks[j].holder == s.locks[j].holder
    ensures r.info.Keys == s.info.Keys
    ensures forall t :: t in s.info ==>
              r.info[t].waitingLock == if t == s.current then Some(l) else s.info[t].waitingLock
    ensures r.semas.Keys == s.semas.Keys && forall id :: id in s.semas ==> r.semas[id].value == s.semas[id].value
    ensures r.status.Keys == s.status.Keys + {1, s.current}
  {
    hide Inv, Reaches, EnterAcquire, Schedule, Enqueued;
    Runs(s);
    r := AcquireLock(b, s, l);
    Blocks(s, l);
  }

  lemma Blocks(s: State, l: LockId)
    requires !s.mlfqs && s.current in s.info && s.current in s.prio && s.ready == [1]
    requires l in s.locks && s.locks[l].holder.Some? && OfLock(l) in s.semas && s.semas[OfLock(l)].value == 0
    requires AllZero(s.prio) && 1 in s.prio
    ensures var e := EnterAcquire(s, l);
            && OfLock(l) in e.semas && e.semas[OfLock(l)].value == 0 && e.current == s.current
            && var r := Schedule(Enqueued(e, OfLock(l)));
               && r.current == 1 && r.ready == [] && AllZero(r.prio) && r.idle == s.idle && !r.mlfqs
               && r.pc == s.pc[s.current := Down(OfLock(l))]
               && r.locks.Keys == s.locks.Keys && (forall j :: j in s.locks ==> r.locks[j].holder == s.locks[j].holder)
               && r.info.Keys == s.info.Keys
               && (forall t :: t in s.info ==>
                     r.info[t].waitingLock == if t == s.current then Some(l) else s.info[t].waitingLock)
               && r.semas.Keys == s.semas.Keys
               && (forall id :: id in s.semas ==> r.semas[id].value == s.semas[id].value)
               && r.status.Keys == s.status.Keys + {1, s.current}
  {
    hide InsertOrdered, Donate;
    var w := Waiting(s, l);
    DonateOnlyPriorities(w, s.current, 1 + MAX_DONATION_DEPTH);
    DonateZero(w, s.current, 1 + MAX_DONATION_DEPTH);
    OneInOrder(EnterAcquire(s, l).prio, 1);
  }

  lemma OneInOrder(prio: map<Tid, int>, a: Tid)
    ensures StableSort(PrioGreater(prio), [a]) == [a]
  {
    assert [a][..0] == [] && InsertOrdered(PrioGreater(prio), [], a) == [a];
  }

  /** Among threads of priority zero there is nothing to donate. */
  lemma {:induction false} DonateZero(s: State, t: Tid, d: nat)
    requires AllZero(s.prio)
    ensures AllZero(Donate(s, t, d).prio)
    decreases d
  {
    if d != 0 && t in s.prio && t in s.info && s.info[t].waitingLock.Some? {
      var l := s.info[t].waitingLock.value;
      if l in s.locks && s.locks[l].holder.Some? {
        var h := s.locks[l].holder.value;
        if h in s.prio && h in s.info { DonateZero(DonateEdge(s, t, l, h), h, d - 1); }
      }
    }
  }

  /** The new thread runs, with the lock it is to take, before it joins the chain. */
  ghost predicate Joining(s: State, k: nat) {
    && Grown(s, k, k + 3, k + 1, k + 3, [1])
    && k + 3 in s.info && s.info[k + 3].waitingLock.None? && 1 in s.prio && s.current in s.info
  }

  lemma StartThread(b: State, s: State, k: nat) returns (r: State)
    requires Reaches(b, s) && Grown(s, k, k + 2, k + 1, 1, []) && FreeLock(s, k + 1)
    ensures Reaches(b, r) && Joining(r, k) && FreeLock(r, k + 1)
  {
    hide Inv, Reaches, Chained, AllZero, Create;
    var t := k + 3;
    Runs(s);
    var s2 := AddThread(b, s, k, k + 1, 0);
    ZeroMore(s.prio, t);
    ChainedMore(s.info, s.locks, s2.info, s2.locks, k);
    AreZero(s2.prio, 1, t);
    r := HandOver(b, s2, t);
  }

  lemma TakeOwn(b: State, s: State, k: nat) returns (r: State)
    requires Reaches(b, s) && Joining(s, k) && FreeLock(s, k + 1)
    ensures Reaches(b, r) && Joining(r, k)
    ensures k + 1 in r.locks && r.locks[k + 1].holder == Some(k + 3)
    ensures OfLock(k + 1) in r.semas && r.semas[OfLock(k + 1)].value == 0
  {
    hide InsertOrdered, LockGreater, Inv, Reaches, Chained, AllZero;
    r := AcquireFree(b, s, k + 1);
    ChainedMore(s.info, s.locks, r.info, r.locks, k);
  }

  lemma Join(b: State, s: State, k: nat) returns (r: State)
    requires Reaches(b, s) && Joining(s, k) && k + 1 in s.locks && s.locks[k + 1].holder == Some(k + 3)
    requires OfLock(k + 1) in s.semas && s.semas[OfLock(k + 1)].value == 0
    ensures Reaches(b, r) && Grown(r, k + 1, k + 3, k + 1, 1, [])
  {
    hide Inv, Reaches, Chained, AllZero;
    ChainTop(s.info, s.locks, k);
    r := BlockOnLock(b, s, k);
    ChainedMore(s.info, s.locks, r.info, r.locks, k);
    ChainedNext(r.info, r.locks, k);
  }

  /** One more thread and lock at the far end of the chain. */
  lemma Grow(b: State, s: State, k: nat) returns (r: State)
    requires Reaches(b, s) && Grown(s, k, k + 2, k, 1, [])
    ensures Reaches(b, r) && Grown(r, k + 1, k + 3, k + 1, 1, [])
  {
    hide Grown, Joining, Reaches, FreeLock;
    var s1 := AddLock(b, s, k);
    var s3 := StartThread(b, s1, k);
    var s4 := TakeOwn(b, s3, k);
    r := Join(b, s4, k);
  }

  lemma ZeroMore(prio: map<Tid, int>, t: Tid)
    requires AllZero(prio)
    ensures AllZero(prio[t := 0])
  {
  }

  lemma AreZero(prio: map<Tid, int>, a: Tid, b: Tid)
    requires AllZero(prio) && a in prio && b in prio
    ensures prio[a] == 0 && prio[b] == 0
  {
  }

  lemma ChainTop(info: map<Tid, Info>, locks: map<LockId, Lock>, k: nat)
    requires Chained(info, locks, k)
    ensures k in locks && locks[k].holder == Some(Holder(k)) && Holder(k) <= k + 2
  {
  }

  lemma ChainedNext(info: map<Tid, Info>, locks: map<LockId, Lock>, k: nat)
    requires Chained(info, locks, k) && k + 1 in locks && locks[k + 1].holder == Some(k + 3)
    requires k + 3 in info && info[k + 3].waitingLock == Some(k)
    ensures Chained(info, locks, k + 1)
  {
  }

  /** The initial thread lowers its priority. */
  lemma Lowered() returns (r: State)
    ensures Reaches(Boot(false), r) && Inv(r) && r == SetPriority(Boot(false), 0)
  {
    hide Inv, Reaches, SetPriority;
    BootInv(false);
    ReachesSelf(Boot(false));
    r := LowerPriority(Boot(false), Boot(false), 0);
  }

  /** Then it takes lock 0. */
  lemma FirstLink() returns (r: State)
    ensures Reaches(Boot(false), r) && Grown(r, 0, 2, 0, 1, [])
  {
    hide InsertOrdered, LockGreater, Inv, Reaches, AllZero;
    var s := Lowered();
    assert AllZero(s.prio) by { LoweredZero(); }
    var s1 := InitLock(Boot(false), s, 0);
    r := AcquireFree(Boot(false), s1, 0);
  }

  lemma LoweredZero()
    ensures AllZero(SetPriority(Boot(false), 0).prio)
  {
  }

  lemma {:induction false} ChainRun(k: nat) returns (r: State)
    ensures Reaches(Boot(false), r) && Grown(r, k, k + 2, k, 1, [])
  {
    hide Inv, Reaches, Chained, AllZero, Boot;
    if k == 0 {
      r := FirstLink();
    } else {
      var s := ChainRun(k - 1);
      r := Grow(Boot(false), s, k - 1);
    }
  }

  // What donation makes of the chain.

  lemma {:induction false} NthHolder(s: State, k: nat, i: nat, j: nat)
    requires Chained(s.info, s.locks, k) && i <= k
    ensures Nth(s, Holder(i), j) == if j <= i then Some(Holder(i - j)) else None
    decreases j
  {
    if j > 0 && i > 0 {
      assert Succ(s, Holder(i)) == Some(Holder(i - 1));
      NthHolder(s, k, i - 1, j - 1);
    }
  }

  /** The chain from a thread that waits for the last lock. */
  lemma NthWaiter(s: State, k: nat, c: Tid, j: nat)
    requires Chained(s.info, s.locks, k) && c in s.info && s.info[c].waitingLock == Some(k)
    ensures Nth(s, c, j) == if j == 0 then Some(c) else if j <= k + 1 then Some(Holder(k + 1 - j)) else None
  {
    if j > 0 {
      assert Succ(s, c) == Some(Holder(k));
      NthHolder(s, k, k, j - 1);
    }
  }

  lemma WaiterAcyclic(s: State, k: nat, n: nat)
    requires Chained(s.info, s.locks, k) && k + 3 in s.info && s.info[k + 3].waitingLock == Some(k)
    ensures Acyclic(s, k + 3, n)
  {
    hide Nth, Chained;
    var c := k + 3;
    forall i: nat, j: nat | i < j <= n && Nth(s, c, j).Some? ensures Nth(s, c, i) != Nth(s, c, j) {
      NthWaiter(s, k, c, i);
      NthWaiter(s, k, c, j);
    }
  }

  /** All priorities are zero but that of `c`, which waits for nothing. */
  lemma OneAbove(s: State, c: Tid)
    requires c in s.info && s.info[c].waitingLock.None? && (forall t :: t in s.prio ==> s.prio[t] >= 0)
    requires forall t :: t in s.prio && t != c ==> s.prio[t] == 0
    ensures Covers(s)
  {
  }

  /** For every length there is a run from the start of the kernel to a state where all holders are
      as high as their waiters and a chain of that many locks is held. When a thread of higher
      priority asks for the last lock of the chain, the rule survives exactly if the chain has no
      more locks than the walk can cross. */
  lemma ChainExact(k: nat) returns (s: State)
    ensures Reaches(Boot(false), s) && Inv(s) && !s.mlfqs && s.current == k + 3 && s.pc[k + 3].User?
    ensures Chained(s.info, s.locks, k) && Covers(s)
    ensures Covers(EnterAcquire(s, k)) <==> k + 1 <= 1 + MAX_DONATION_DEPTH
  {
    s := HigherThread(k);
    hide Inv, Reaches, Chained, Covers, Grown, EnterAcquire, Nth;
    ChainTop(s.info, s.locks, k);
    Runs(s);
    var c, w := k + 3, Waiting(s, k);
    WaitingChained(s, k);
    AcquireDonates(s, k);
    WaiterAcyclic(w, k, MAX_DONATION_DEPTH + 2);
    NthWaiter(w, k, c, MAX_DONATION_DEPTH + 2);
    HoldersBelow(s, k, c);
  }

  lemma HigherThread(k: nat) returns (s: State)
    ensures Reaches(Boot(false), s) && Inv(s) && !s.mlfqs && s.current == k + 3
    ensures k + 3 in s.pc && s.pc[k + 3].User? && k + 3 in s.prio && s.prio[k + 3] == 1
    ensures Chained(s.info, s.locks, k) && Covers(s) && forall t :: t in s.prio && t != k + 3 ==> s.prio[t] == 0
  {
    hide Inv, Reaches, Chained, Covers, Create;
    var s0 := ChainRun(k);
    var s1 := AddThread(Boot(false), s0, k, k, 1);
    ChainedMore(s0.info, s0.locks, s1.info, s1.locks, k);
    Runs(s0);
    s := HandOver(Boot(false), s1, k + 3);
    OneAbove(s, k + 3);
  }

  lemma WaitingChained(s: State, k: nat)
    requires Chained(s.info, s.locks, k) && s.current == k + 3 && k + 3 in s.info && !s.mlfqs
    ensures var w := Waiting(s, k);
            Chained(w.info, w.locks, k) && k + 3 in w.info && w.info[k + 3].waitingLock == Some(k)
  {
  }

  /** Every holder of the chain exists and has priority zero. */
  lemma HoldersBelow(s: State, k: nat, c: Tid)
    requires Inv(s) && Chained(s.info, s.locks, k) && c > k + 2
    requires forall t :: t in s.prio && t != c ==> s.prio[t] == 0
    ensures forall j: nat :: j <= k ==> Holder(j) in s.prio && s.prio[Holder(j)] == 0
  {
    Runs(s);
  }
}
