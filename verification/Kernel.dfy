/** Threads, semaphores, locks, the scheduler and the alarm clock as one state machine
    (threads/thread.c, threads/synch.c, devices/timer.c). One processor: every step is run by
    the current thread, or is the timer interrupt, and is a stretch of code that the C source
    runs with interrupts off. */
module Kernel {
  import opened Wrappers
  import opened Orders
  import opened Mlfqs

  const PRI_MIN := 0
  const PRI_DEFAULT := 31
  const MAX_DONATION_DEPTH: nat := 8
  const TIME_SLICE := 4
  const UINT_MAX: nat := 0xFFFF_FFFF
  const INT64_MAX := 0x7FFF_FFFF_FFFF_FFFF

  type Tid = nat
  type LockId = nat

  datatype Status = Running | Ready | Blocked

  /** A semaphore of its own, or the one inside a lock. */
  datatype SemaId = Plain(id: nat) | OfLock(lock: LockId)

  /** Where a thread stands inside the kernel functions that are not one atomic step. */
  datatype Pc =
    | User                        // in none of them
    | Down(sema: SemaId)          // in the loop of sema_down, possibly inside lock_acquire
    | Asleep                      // in timer_sleep
    | TryHeld(lock: LockId)       // lock_try_acquire, semaphore taken, holder not yet set
    | Releasing(lock: LockId)     // lock_release, lock off the thread's list, holder still set
    | Releasing2(lock: LockId)    // lock_release, holder cleared, semaphore not yet up
    | Released                    // lock_release, semaphore up, priority not yet reset
    | Idling                      // the idle thread's loop

  /** Donation data of a thread. `locks` is its list of locks; `held` records, for the proofs,
      the locks whose semaphore it has taken and not given back. */
  datatype Info = Info(base: int, donated: int, waitingLock: Option<LockId>, locks: seq<LockId>, held: set<LockId>)

  /** Semaphore. `init`, `ups` and `downs` record its history. */
  datatype Sema = Sema(value: nat, waiters: seq<Tid>, init: nat, ups: nat, downs: nat)

  datatype Lock = Lock(holder: Option<Tid>, maxPriority: int)

  datatype State = State(
    mlfqs: bool,
    status: map<Tid, Status>,
    pc: map<Tid, Pc>,
    prio: map<Tid, int>,
    info: map<Tid, Info>,
    usage: map<Tid, Usage>,
    wakeup: map<Tid, int>,
    ready: seq<Tid>,
    sleeping: seq<Tid>,
    semas: map<SemaId, Sema>,
    locks: map<LockId, Lock>,
    current: Tid,
    idle: Tid,
    ticks: int,
    loadAvg: int)

  function Max(a: int, b: int): int { if a > b then a else b }

  /** thread_priority_greater and lock_priority_greater. */
  function PrioGreater(prio: map<Tid, int>): (Tid, Tid) -> bool {
    (a, b) => a in prio && b in prio && prio[a] > prio[b]
  }
  function LockGreater(locks: map<LockId, Lock>): (LockId, LockId) -> bool {
    (a, b) => a in locks && b in locks && locks[a].maxPriority > locks[b].maxPriority
  }
  /** wakeup_tick_less. */
  function WakesBefore(wakeup: map<Tid, int>): (Tid, Tid) -> bool {
    (a, b) => a in wakeup && b in wakeup && wakeup[a] < wakeup[b]
  }

  // Scheduling.

  /** next_thread_to_run: the thread to run and what is left of the ready list. */
  function NextThread(s: State): (r: (Tid, seq<Tid>)) {
    if s.ready == [] then (s.idle, [])
    else
      var q := if s.mlfqs then s.ready else StableSort(PrioGreater(s.prio), s.ready);
      (q[0], q[1..])
  }

  /** schedule: the running thread has already left the Running state. */
  function Schedule(s: State): State {
    var (next, rest) := NextThread(s);
    s.(status := s.status[next := Running], ready := rest, current := next)
  }

  /** thread_unblock. */
  function Unblock(s: State, t: Tid): State {
    s.(ready := InsertOrdered(PrioGreater(s.prio), s.ready, t), status := s.status[t := Ready])
  }

  /** thread_yield up to the call of schedule. */
  function Preempted(s: State): State {
    var c := s.current;
    s.(ready := if c == s.idle then s.ready else InsertOrdered(PrioGreater(s.prio), s.ready, c),
       status := s.status[c := Ready])
  }

  function Yield(s: State): State { Schedule(Preempted(s)) }

  // Semaphores.

  /** One test of the loop in sema_down that fails: the thread joins the waiters and blocks. */
  function Enqueued(s: State, id: SemaId): State
    requires id in s.semas
  {
    var m, c := s.semas[id], s.current;
    s.(semas := s.semas[id := m.(waiters := InsertOrdered(PrioGreater(s.prio), m.waiters, c))],
       status := s.status[c := Blocked],
       pc := s.pc[c := Down(id)])
  }

  /** The decrement at the end of sema_down and in sema_try_down. */
  function Take(s: State, id: SemaId): State
    requires id in s.semas && s.semas[id].value > 0
  {
    var m := s.semas[id];
    s.(semas := s.semas[id := m.(value := m.value - 1, downs := m.downs + 1)])
  }

  /** lock_acquire sorts the threads still waiting, unless in MLFQS mode. */
  function StillWaiting(mlfqs: bool, prio: map<Tid, int>, waiters: seq<Tid>): (q: seq<Tid>) {
    if mlfqs then waiters else StableSort(PrioGreater(prio), waiters)
  }

  /** The lock after lock_acquire: its new holder, and the priority of the first waiter. */
  function TakenLock(mlfqs: bool, prio: map<Tid, int>, q: seq<Tid>, k: Lock, c: Tid): Lock {
    if mlfqs then k.(holder := Some(c))
    else Lock(Some(c), if q == [] || q[0] !in prio then PRI_MIN else prio[q[0]])
  }

  /** The new holder's own data. */
  function HolderInfo(mlfqs: bool, locks: map<LockId, Lock>, i: Info, l: LockId): Info {
    if mlfqs then i.(held := i.held + {l})
    else i.(waitingLock := None, locks := InsertOrdered(LockGreater(locks), i.locks, l), held := i.held + {l})
  }

  /** The end of lock_acquire, after its sema_down: refresh the lock's maximum priority from
      the threads still waiting, stop waiting, and become the holder. */
  function Acquired(s: State, l: LockId): State
    requires l in s.locks && OfLock(l) in s.semas && s.current in s.info && s.current in s.prio
  {
    var m, c := s.semas[OfLock(l)], s.current;
    var q := StillWaiting(s.mlfqs, s.prio, m.waiters);
    var locks := s.locks[l := TakenLock(s.mlfqs, s.prio, q, s.locks[l], c)];
    s.(semas := s.semas[OfLock(l) := m.(waiters := q)],
       locks := locks,
       info := s.info[c := HolderInfo(s.mlfqs, locks, s.info[c], l)],
       pc := s.pc[c := User])
  }

  /** One test of sema_down's loop and what follows it. */
  function TryDown(s: State, id: SemaId): State
    requires id in s.semas && s.current in s.info && s.current in s.prio
    requires id.OfLock? ==> id.lock in s.locks
  {
    if s.semas[id].value == 0 then Schedule(Enqueued(s, id))
    else if id.Plain? then Take(s, id).(pc := s.pc[s.current := User])
    else Acquired(Take(s, id), id.lock)
  }

  /** sema_up without its final yield: wakes a waiter, if any, and increments. */
  function SemaUp(s: State, id: SemaId): State
    requires id in s.semas
  {
    var m := s.semas[id];
    if m.waiters == [] then
      s.(semas := s.semas[id := m.(value := m.value + 1, ups := m.ups + 1)])
    else
      var q := StableSort(PrioGreater(s.prio), m.waiters);
      Unblock(s, q[0]).(semas := s.semas[id := m.(waiters := q[1..], value := m.value + 1, ups := m.ups + 1)])
  }

  // Priority donation.

  /** One edge of the walk: the holder of `l` gets at least thread `t`'s priority. */
  function DonateEdge(s: State, t: Tid, l: LockId, h: Tid): State
    requires t in s.prio && l in s.locks && h in s.prio && h in s.info
  {
    s.(locks := s.locks[l := s.locks[l].(maxPriority := Max(s.locks[l].maxPriority, s.prio[t]))],
       prio := s.prio[h := Max(s.prio[h], s.prio[t])],
       info := s.info[h := s.info[h].(donated := Max(s.info[h].donated, s.prio[t]))])
  }

  /** The walk of lock_acquire from thread `t`, over at most `d` locks. */
  function Donate(s: State, t: Tid, d: nat): State
    decreases d
  {
    if d == 0 || t !in s.prio || t !in s.info || s.info[t].waitingLock.None? then s
    else
      var l := s.info[t].waitingLock.value;
      if l !in s.locks then s
      else
        match s.locks[l].holder
        case None =>
          s.(locks := s.locks[l := s.locks[l].(maxPriority := Max(s.locks[l].maxPriority, s.prio[t]))])
        case Some(h) =>
          if h !in s.prio || h !in s.info then s
          else Donate(DonateEdge(s, t, l, h), h, d - 1)
  }

  /** lock_acquire on its way to sema_down: it donates if some thread holds the lock. */
  function EnterAcquire(s: State, l: LockId): State
    requires l in s.locks && s.current in s.info
  {
    var c := s.current;
    var s1 := s.(pc := s.pc[c := Down(OfLock(l))]);
    if s.mlfqs then s1
    else
      var s2 := s1.(info := s.info[c := s.info[c].(waitingLock := Some(l))]);
      if s.locks[l].holder.None? then s2 else Donate(s2, c, 1 + MAX_DONATION_DEPTH)
  }

  /** thread_set_priority without its final yields. */
  function SetPriority(s: State, p: int): State
    requires s.current in s.prio && s.current in s.info
  {
    var c := s.current;
    if s.mlfqs then s
    else
      var was, donated := s.prio[c], s.info[c].donated;
      s.(info := s.info[c := s.info[c].(base := p)],
         prio := s.prio[c := if was < p then p else if was > p then Max(p, donated) else was])
  }

  // The alarm clock.

  /** The loop of timer_interrupt: wakes the sleepers whose time has come. */
  function WakeAll(s: State): State
    decreases |s.sleeping|
  {
    if s.sleeping == [] || s.sleeping[0] !in s.wakeup || s.wakeup[s.sleeping[0]] > s.ticks then s
    else
      var t := s.sleeping[0];
      WakeAll(Unblock(s, t).(sleeping := s.sleeping[1..], pc := s.pc[t := User]))
  }

  // The multi-level feedback queue scheduler.

  /** The running thread is charged for the tick. */
  function Counted(s: State): State {
    if s.current != s.idle && s.current in s.usage
    then s.(usage := s.usage[s.current := s.usage[s.current].(recent := AddInt(s.usage[s.current].recent, 1))])
    else s
  }

  /** Every fourth tick: all priorities are recomputed and the ready list is sorted again. */
  function Reprioritised(s: State): State {
    var prio := map t | t in s.prio :: if t == s.idle || t !in s.usage then s.prio[t] else PriorityOf(s.usage[t]);
    s.(prio := prio, ready := StableSort(PrioGreater(prio), s.ready))
  }

  /** The number of threads that are running or ready, the idle thread apart. */
  function Runnable(s: State): nat { |s.ready| + if s.current != s.idle then 1 else 0 }

  /** Every second: the load average and all recent_cpu values decay. */
  function Decayed(s: State): State {
    var loadAvg := NextLoadAvg(s.loadAvg, Runnable(s));
    s.(loadAvg := loadAvg,
       usage := map t | t in s.usage :: if t == s.idle then s.usage[t] else NextUsage(s.usage[t], loadAvg))
  }

  /** thread_tick in MLFQS mode, after `ticks` has been incremented. */
  function MlfqsTick(s: State): State {
    var s1 := Counted(s);
    if s.ticks % TIME_SLICE != 0 then s1
    else if s.ticks % TIMER_FREQ != 0 then Reprioritised(s1)
    else Decayed(Reprioritised(s1))
  }

  /** timer_interrupt. */
  function Tick(s: State): State {
    var s1 := s.(ticks := s.ticks + 1);
    WakeAll(if s.mlfqs then MlfqsTick(s1) else s1)
  }

  // The rest of lock_try_acquire and lock_release.

  /** lock_try_acquire, the semaphore part. */
  function TryLock(s: State, l: LockId): State
    requires OfLock(l) in s.semas && s.current in s.info
  {
    var c := s.current;
    if s.semas[OfLock(l)].value == 0 then s
    else Take(s, OfLock(l)).(pc := s.pc[c := TryHeld(l)],
                             info := s.info[c := s.info[c].(held := s.info[c].held + {l})])
  }

  /** lock_try_acquire, the rest: the lock's maximum priority is not refreshed. */
  function TryLockHolder(s: State, l: LockId): State
    requires l in s.locks && s.current in s.info
  {
    var c := s.current;
    var locks := s.locks[l := s.locks[l].(holder := Some(c))];
    s.(locks := locks, pc := s.pc[c := User],
       info := if s.mlfqs then s.info
               else s.info[c := s.info[c].(locks := InsertOrdered(LockGreater(locks), s.info[c].locks, l))])
  }

  /** lock_release up to the point where the holder is cleared: drop the lock from the thread's
      list and take the donation from the lock that now comes first. */
  function BeginRelease(s: State, l: LockId): State
    requires s.current in s.info
  {
    var c := s.current;
    var s1 := s.(pc := s.pc[c := Releasing(l)]);
    if s.mlfqs then s1
    else
      var q := StableSort(LockGreater(s.locks), Removed(s.info[c].locks, l));
      var donated := if q == [] || q[0] !in s.locks then PRI_MIN else s.locks[q[0]].maxPriority;
      s1.(info := s.info[c := s.info[c].(locks := q, donated := donated)])
  }

  function ReleaseHolder(s: State, l: LockId): State
    requires l in s.locks
  {
    s.(locks := s.locks[l := s.locks[l].(holder := None)], pc := s.pc[s.current := Releasing2(l)])
  }

  /** The state in which lock_release calls sema_up. */
  function GivenUp(s: State, l: LockId): State
    requires s.current in s.info
  {
    var c := s.current;
    s.(pc := s.pc[c := Released], info := s.info[c := s.info[c].(held := s.info[c].held - {l})])
  }

  function ReleaseUp(s: State, l: LockId): State
    requires OfLock(l) in s.semas && s.current in s.info
  {
    SemaUp(GivenUp(s, l), OfLock(l))
  }

  // Steps on threads.

  /** thread_set_nice without its final yield. */
  function SetNice(s: State, n: int): State
    requires s.current in s.usage
  {
    var c := s.current;
    var u := s.usage[c].(nice := n);
    var prio := s.prio[c := PriorityOf(u)];
    s.(usage := s.usage[c := u], prio := prio, ready := StableSort(PrioGreater(prio), s.ready))
  }

  /** timer_sleep up to its call of schedule. */
  function FallAsleep(s: State, n: int): State {
    var c := s.current;
    var wakeup := s.wakeup[c := s.ticks + n];
    s.(wakeup := wakeup, sleeping := InsertOrdered(WakesBefore(wakeup), s.sleeping, c),
       status := s.status[c := Blocked], pc := s.pc[c := Asleep])
  }

  /** thread_create without its final yield. */
  function Create(s: State, t: Tid, p: int): State
    requires s.current in s.usage
  {
    Unblock(s.(status := s.status[t := Blocked], pc := s.pc[t := User],
               prio := s.prio[t := if s.mlfqs then PRI_DEFAULT else p],
               info := s.info[t := Info(p, PRI_MIN, None, [], {})],
               usage := s.usage[t := if s.mlfqs then s.usage[s.current] else Usage(0, 0)],
               wakeup := s.wakeup[t := 0]),
            t)
  }

  /** thread_exit up to its call of schedule: the thread is gone. */
  function Exited(s: State): State {
    var c := {s.current};
    s.(status := s.status - c, pc := s.pc - c, prio := s.prio - c, info := s.info - c,
       usage := s.usage - c, wakeup := s.wakeup - c)
  }

  // The step relation.

  datatype Step =
    | SemaInitStep(id: nat, value: nat)
    | LockInitStep(lock: LockId)
    | SemaDownStep(id: nat)           // sema_down, first test
    | RetestStep                      // a thread in sema_down's loop has been scheduled again
    | SemaTryDownStep(id: nat)
    | SemaUpStep(id: nat)             // by the current thread or by an interrupt handler
    | LockAcquireStep(lock: LockId)
    | LockTryStep(lock: LockId)
    | LockTryHolderStep
    | LockReleaseStep(lock: LockId)
    | ReleaseHolderStep
    | ReleaseUpStep
    | ReleasePriorityStep
    | SetPriorityStep(priority: int)
    | SetNiceStep(nice: int)
    | YieldStep
    | SleepStep(n: int)
    | TickStep
    | CreateStep(tid: Tid, priority: int)
    | ExitStep
    | IdleBlockStep

  /** When a step can happen. These are the C source's assertions and the points where it lets
      other code run; nothing else is excluded. */
  ghost predicate Enabled(s: State, step: Step)
    requires s.current in s.pc && s.current in s.info
  {
    var c := s.current;
    var here := s.pc[c];
    match step
    case SemaInitStep(id, v) => Plain(id) !in s.semas && v <= UINT_MAX
    case LockInitStep(l) => l !in s.locks && OfLock(l) !in s.semas
    case SemaDownStep(id) => here.User? && Plain(id) in s.semas
    case RetestStep => here.Down?
    case SemaTryDownStep(id) => Plain(id) in s.semas
    case SemaUpStep(id) => Plain(id) in s.semas && s.semas[Plain(id)].value < UINT_MAX
    case LockAcquireStep(l) => here.User? && l in s.locks && s.locks[l].holder != Some(c)
    case LockTryStep(l) => here.User? && l in s.locks && s.locks[l].holder != Some(c)
    case LockTryHolderStep => here.TryHeld?
    case LockReleaseStep(l) => here.User? && l in s.locks && s.locks[l].holder == Some(c)
    case ReleaseHolderStep => here.Releasing?
    case ReleaseUpStep => here.Releasing2?
    case ReleasePriorityStep => here.Released?
    case SetPriorityStep(p) => here.User?
    case SetNiceStep(n) => here.User?
    case YieldStep => true
    case SleepStep(n) => here.User? && s.ticks + n <= INT64_MAX
    case TickStep => s.ticks < INT64_MAX
    case CreateStep(t, p) => here.User? && t !in s.status && PRI_MIN <= p <= PRI_MAX
    case ExitStep => here.User? && s.info[c].held == {} && c != s.idle
    case IdleBlockStep => here.Idling?
  }

  /** Every map on threads has the same threads. */
  ghost predicate KeysOk(status: set<Tid>, pc: set<Tid>, prio: set<Tid>, info: set<Tid>, usage: set<Tid>,
                         wakeup: set<Tid>, idle: Tid) {
    pc == prio == info == usage == wakeup == status && idle in status
  }

  /** Every lock has its semaphore. */
  ghost predicate LockKeysOk(locks: set<LockId>, semas: set<SemaId>) {
    forall l :: l in locks <==> OfLock(l) in semas
  }

  /** A thread inside a kernel function works on something that exists. */
  ghost predicate PcOk(pc: map<Tid, Pc>, locks: set<LockId>, semas: set<SemaId>) {
    forall t :: t in pc ==>
      && (pc[t].Down? ==> pc[t].sema in semas)
      && (pc[t].TryHeld? || pc[t].Releasing? || pc[t].Releasing2? ==> pc[t].lock in locks)
  }

  /** Everything a step needs to look up is there. */
  ghost predicate Domains(s: State) {
    && KeysOk(s.status.Keys, s.pc.Keys, s.prio.Keys, s.info.Keys, s.usage.Keys, s.wakeup.Keys, s.idle)
    && LockKeysOk(s.locks.Keys, s.semas.Keys)
    && PcOk(s.pc, s.locks.Keys, s.semas.Keys)
  }

  /** The state after a step. */
  ghost function Next(s: State, step: Step): State
    requires Domains(s) && s.current in s.status && Enabled(s, step)
  {
    var c := s.current;
    match step
    case SemaInitStep(id, v) => s.(semas := s.semas[Plain(id) := Sema(v, [], v, 0, 0)])
    case LockInitStep(l) => s.(locks := s.locks[l := Lock(None, PRI_MIN)],
                               semas := s.semas[OfLock(l) := Sema(1, [], 1, 0, 0)])
    case SemaDownStep(id) => TryDown(s.(pc := s.pc[c := Down(Plain(id))]), Plain(id))
    case RetestStep => TryDown(s, s.pc[c].sema)
    case SemaTryDownStep(id) => if s.semas[Plain(id)].value > 0 then Take(s, Plain(id)) else s
    case SemaUpStep(id) => SemaUp(s, Plain(id))
    case LockAcquireStep(l) => DonateFrame(s, l); TryDown(EnterAcquire(s, l), OfLock(l))
    case LockTryStep(l) => TryLock(s, l)
    case LockTryHolderStep => TryLockHolder(s, s.pc[c].lock)
    case LockReleaseStep(l) => BeginRelease(s, l)
    case ReleaseHolderStep => ReleaseHolder(s, s.pc[c].lock)
    case ReleaseUpStep => ReleaseUp(s, s.pc[c].lock)
    case ReleasePriorityStep => SetPriority(s, s.info[c].base).(pc := s.pc[c := User])
    case SetPriorityStep(p) => SetPriority(s, p)
    case SetNiceStep(n) => SetNice(s, n)
    case YieldStep => Yield(s)
    case SleepStep(n) => if n <= 0 then s else Schedule(FallAsleep(s, n))
    case TickStep => Tick(s)
    case CreateStep(t, p) => Create(s, t, p)
    case ExitStep => Schedule(Exited(s))
    case IdleBlockStep => Schedule(s.(status := s.status[c := Blocked]))
  }

  /** The walk changes priorities, donations and the locks' maximum priorities only. */
  ghost predicate OnlyPriorities(s: State, r: State) {
    && r == s.(prio := r.prio, info := r.info, locks := r.locks)
    && r.prio.Keys == s.prio.Keys && r.info.Keys == s.info.Keys && r.locks.Keys == s.locks.Keys
    && (forall t :: t in s.info ==> r.info[t] == s.info[t].(donated := r.info[t].donated))
    && (forall l :: l in s.locks ==> r.locks[l] == s.locks[l].(maxPriority := r.locks[l].maxPriority))
  }

  lemma {:induction false} DonateOnlyPriorities(s: State, t: Tid, d: nat)
    ensures OnlyPriorities(s, Donate(s, t, d))
    decreases d
  {
    hide OnlyPriorities;
    OnlyPrioritiesRefl(s);
    if d != 0 && t in s.prio && t in s.info && s.info[t].waitingLock.Some? {
      var l := s.info[t].waitingLock.value;
      if l in s.locks {
        MaxPriorityOnly(s, t, l);
        if s.locks[l].holder.Some? {
          var h := s.locks[l].holder.value;
          if h in s.prio && h in s.info {
            var r := DonateEdge(s, t, l, h);
            DonateEdgeOnly(s, t, l, h);
            DonateOnlyPriorities(r, h, d - 1);
            OnlyPrioritiesTrans(s, r, Donate(r, h, d - 1));
          }
        }
      }
    }
  }

  lemma OnlyPrioritiesRefl(s: State)
    ensures OnlyPriorities(s, s)
  {
  }

  lemma MaxPriorityOnly(s: State, t: Tid, l: LockId)
    requires t in s.prio && l in s.locks
    ensures OnlyPriorities(s,
                    s.(locks := s.locks[l := s.locks[l].(maxPriority := Max(s.locks[l].maxPriority, s.prio[t]))]))
  {
  }

  lemma DonateEdgeOnly(s: State, t: Tid, l: LockId, h: Tid)
    requires t in s.prio && l in s.locks && h in s.prio && h in s.info
    ensures OnlyPriorities(s, DonateEdge(s, t, l, h))
  {
  }

  lemma OnlyPrioritiesTrans(s: State, r: State, q: State)
    requires OnlyPriorities(s, r) && OnlyPriorities(r, q)
    ensures OnlyPriorities(s, q)
  {
  }

  lemma DonateFrame(s: State, l: LockId)
    requires l in s.locks && s.current in s.info
    ensures var r := EnterAcquire(s, l);
            && r == s.(pc := r.pc, prio := r.prio, info := r.info, locks := r.locks)
            && r.prio.Keys == s.prio.Keys && r.info.Keys == s.info.Keys && r.locks.Keys == s.locks.Keys
  {
    var c := s.current;
    var s2 := s.(pc := s.pc[c := Down(OfLock(l))], info := s.info[c := s.info[c].(waitingLock := Some(l))]);
    DonateOnlyPriorities(s2, c, 1 + MAX_DONATION_DEPTH);
  }
}
