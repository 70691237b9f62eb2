/** What a timer interrupt does to priorities, recent_cpu and load_avg in MLFQS mode, stated by the
    formulas of the multi-level feedback queue scheduler (threads/thread.c). */
module MlfqsRules {
  import opened Arithmetic
  import opened Orders
  import opened Mlfqs
  import opened Kernel
  import opened KernelInv
  import opened KernelTheorems

  /** `p` is PRI_MAX - recent / 4 - 2 nice, rounded to the nearest integer and kept within 0 and
      PRI_MAX; the division by four is off by at most three units of the last place. */
  predicate IsPriority(p: int, recent: int, nice: int) {
    var exact := 4 * PRI_MAX * F - recent - 8 * nice * F;
    && 0 <= p <= PRI_MAX
    && (0 < p < PRI_MAX ==> Abs(4 * F * p - exact) <= 2 * F + 3)
    && (p == 0 ==> exact <= 2 * F + 3)
    && (p == PRI_MAX ==> exact >= 4 * F * PRI_MAX - 2 * F - 3)
  }

  /** `next` is 59/60 of `was` plus 1/60 of `cnt`, rounded down by less than two units. */
  predicate IsLoadAvg(next: int, was: int, cnt: int) {
    60 * next <= 59 * was + cnt * F < 60 * next + 120
  }

  /** `next` is 2 load / (2 load + 1) * was + nice, within one unit plus one part in 2^14. */
  predicate IsDecayed(next: int, was: int, nice: int, loadAvg: int) {
    var d := 2 * loadAvg + F;
    Abs(next * d - (2 * loadAvg * was + nice * F * d)) * F <= (Abs(was) + F) * d
  }

  /** The threads that run or are ready, the idle thread apart. */
  ghost function Busy(s: State): set<Tid> {
    set t | t in s.status && t != s.idle && s.status[t] != Blocked
  }

  lemma {:induction false} SizeOf<T>(s: seq<T>)
    requires Distinct(s)
    ensures |set x | x in s| == |s|
  {
    if s != [] {
      var n := |s| - 1;
      SizeOf(s[..n]);
      assert (set x | x in s) == (set x | x in s[..n]) + {s[n]};
    } else {
      assert (set x | x in s) == {};
    }
  }

  /** update_load_avg counts the threads that run or are ready. */
  lemma RunnableIs(s: State)
    requires Inv(s)
    ensures Runnable(s) == |Busy(s)|
  {
    hide BlockedOk, WaitOk, SleepOk, SemaOk, LockOk, HolderOk, ListsOk, QueueOk, LockKeysOk, PcOk;
    var ready := set t | t in s.ready;
    SizeOf(s.ready);
    if s.current != s.idle {
      assert Busy(s) == ready + {s.current};
    } else {
      assert Busy(s) == ready;
    }
  }

  /** recent_cpu with the tick that is just over. */
  function Charged(s: State, t: Tid): int
    requires t in s.usage
  {
    s.usage[t].recent + if t == s.current then F else 0
  }

  /** What the tick makes of priorities and usage, before bounds are known. */
  lemma TickedIs(s: State)
    requires Inv(s) && s.mlfqs
    ensures var r, now := Tick(s), s.ticks + 1;
            && r.usage == MlfqsTick(s.(ticks := now)).usage && r.loadAvg == MlfqsTick(s.(ticks := now)).loadAvg
            && r.prio == MlfqsTick(s.(ticks := now)).prio
  {
    hide Inv, MlfqsTick;
    WakeAllUsage(MlfqsTick(s.(ticks := s.ticks + 1)));
    WakeAllPrio(MlfqsTick(s.(ticks := s.ticks + 1)));
  }

  lemma {:induction false} WakeAllPrio(s: State)
    ensures WakeAll(s).prio == s.prio
    decreases |s.sleeping|
  {
    hide InsertOrdered, PrioGreater;
    if !(s.sleeping == [] || s.sleeping[0] !in s.wakeup || s.wakeup[s.sleeping[0]] > s.ticks) {
      var t := s.sleeping[0];
      WakeAllPrio(Unblock(s, t).(sleeping := s.sleeping[1..], pc := s.pc[t := User]));
    }
  }

  lemma CountedIs(s: State, n: nat, t: Tid)
    requires UsageOk(s, n) && n <= 545 && t in s.usage && t != s.idle && s.current in s.usage
    ensures var u := Counted(s.(ticks := s.ticks + 1)).usage;
            t in u && u[t] == Usage(s.usage[t].nice, Charged(s, t)) && Abs(Charged(s, t)) <= RecentMax(n)
    ensures -NICE_MAX <= s.usage[t].nice <= NICE_MAX
  {
    hide AddInt, RecentMax, ThreadUsageOk, Counted;
    var k := s.ticks % TIMER_FREQ;
    OneOk(s, n, t);
    WithinBounds(s.usage[t], n, k);
    CountedUsage(s.usage[t], n, k);
    CountedAt(s.(ticks := s.ticks + 1), t);
  }

  lemma OneOk(s: State, n: nat, t: Tid)
    requires UsageOk(s, n) && t in s.usage && t != s.idle
    ensures 0 <= s.ticks % TIMER_FREQ < TIMER_FREQ && ThreadUsageOk(s.usage[t], n, s.ticks % TIMER_FREQ)
  {
    hide ThreadUsageOk;
  }

  lemma CountedAt(s: State, t: Tid)
    requires t in s.usage && t != s.idle
    ensures t in Counted(s).usage
    ensures t == s.current ==> Counted(s).usage[t] == s.usage[t].(recent := AddInt(s.usage[t].recent, 1))
    ensures t != s.current ==> Counted(s).usage[t] == s.usage[t]
  {
    hide AddInt;
    if s.current != s.idle && s.current in s.usage {
      var u := s.usage[s.current].(recent := AddInt(s.usage[s.current].recent, 1));
      assert Counted(s).usage == s.usage[s.current := u];
    } else {
      assert Counted(s) == s;
    }
  }

  lemma WithinBounds(u: Usage, n: nat, k: int)
    requires ThreadUsageOk(u, n, k) && 0 <= k < TIMER_FREQ
    ensures Abs(u.recent) <= RecentMax(n) && Abs(u.recent + F) <= RecentMax(n) && -NICE_MAX <= u.nice <= NICE_MAX
  {
  }

  /** In MLFQS mode, with at most 545 threads running or ready, a timer interrupt charges exactly
      the running thread, one tick. Every fourth tick gives every thread but the idle thread the
      priority of its recent_cpu and niceness; other ticks change no priority. Every hundredth tick
      then updates load_avg from the number of threads that run or are ready, and makes every
      recent_cpu decay with the new load_avg; other ticks leave both as they are. */
  lemma TickExact(s: State, n: nat, t: Tid)
    requires Inv(s) && s.mlfqs && UsageOk(s, n) && |Busy(s)| <= n <= 545 && t in s.usage && t != s.idle
    ensures var r, now := Tick(s), s.ticks + 1;
            && t in r.usage && t in r.prio && t in s.prio && r.usage[t].nice == s.usage[t].nice
            && (now % 4 != 0 ==> r.prio == s.prio)
            && (now % 4 == 0 ==> IsPriority(r.prio[t], Charged(s, t), s.usage[t].nice))
            && (now % 100 != 0 ==> r.loadAvg == s.loadAvg && r.usage[t].recent == Charged(s, t))
            && (now % 100 == 0 ==>
                  && IsLoadAvg(r.loadAvg, s.loadAvg, |Busy(s)|)
                  && IsDecayed(r.usage[t].recent, Charged(s, t), s.usage[t].nice, r.loadAvg))
  {
    hide Inv, InvRun, MlfqsTick, Counted, Reprioritised, Decayed, IsPriority, IsLoadAvg, IsDecayed, Busy, AllUsageOk,
         RecentMax;
    RunnableIs(s);
    TickedIs(s);
    CurrentFacts(s);
    SameKeys(s);
    CountedIs(s, n, t);
    var s1 := s.(ticks := s.ticks + 1);
    TickSlices(s1);
    CountedPrio(s1);
    TickPriority(Counted(s1), n, t);
    TickDecay(s1, n, t, Charged(s, t));
  }

  lemma CountedPrio(s: State)
    ensures Counted(s).prio == s.prio && Counted(s).idle == s.idle
  {
    hide AddInt;
  }

  lemma SameKeys(s: State)
    requires Inv(s)
    ensures s.prio.Keys == s.usage.Keys && s.current in s.usage
  {
  }

  lemma TickSlices(s: State)
    ensures s.ticks % 100 == 0 ==> s.ticks % 4 == 0
    ensures s.ticks % 4 != 0 ==> MlfqsTick(s) == Counted(s)
    ensures s.ticks % 4 == 0 && s.ticks % 100 != 0 ==> MlfqsTick(s) == Reprioritised(Counted(s))
    ensures s.ticks % 100 == 0 ==> MlfqsTick(s) == Decayed(Reprioritised(Counted(s)))
  {
    hide Counted, Reprioritised, Decayed;
    assert TIME_SLICE == 4 && TIMER_FREQ == 100;
    Hundreds(s.ticks);
  }

  lemma Hundreds(x: int)
    ensures x % 100 == 0 ==> x % 4 == 0
  {
    assert x % 100 == 0 ==> x == 4 * (25 * (x / 100));
  }

  lemma TickPriority(c: State, n: nat, t: Tid)
    requires n <= 545 && t in c.prio && t != c.idle && t in c.usage && Abs(c.usage[t].recent) <= RecentMax(n)
    requires -NICE_MAX <= c.usage[t].nice <= NICE_MAX
    ensures t in Reprioritised(c).prio && IsPriority(Reprioritised(c).prio[t], c.usage[t].recent, c.usage[t].nice)
    ensures Decayed(Reprioritised(c)).prio == Reprioritised(c).prio
  {
    hide PriorityOf, StableSort, PrioGreater, IsPriority, NextUsage, NextLoadAvg, RecentMax;
    PriorityIs(n, c.usage[t]);
  }

  lemma PriorityIs(n: nat, u: Usage)
    requires n <= 545
    requires -RecentMax(n) <= u.recent <= RecentMax(n) && -NICE_MAX <= u.nice <= NICE_MAX
    ensures IsPriority(PriorityOf(u), u.recent, u.nice)
  {
    hide PriorityOf;
    PriorityAccurate(n, u);
  }

  lemma TickDecay(s: State, n: nat, t: Tid, recent: int)
    requires n <= 545 && t != s.idle && Abs(recent) <= RecentMax(n) && 0 <= s.loadAvg <= n * F && Runnable(s) <= n
    requires t in Counted(s).usage && Counted(s).usage[t].recent == recent
    requires -NICE_MAX <= Counted(s).usage[t].nice <= NICE_MAX
    ensures Reprioritised(Counted(s)).usage == Counted(s).usage && Reprioritised(Counted(s)).loadAvg == s.loadAvg
    ensures Counted(s).loadAvg == s.loadAvg
    ensures var r := Decayed(Reprioritised(Counted(s)));
            && IsLoadAvg(r.loadAvg, s.loadAvg, Runnable(s)) && t in r.usage
            && r.usage[t].nice == Counted(s).usage[t].nice
            && IsDecayed(r.usage[t].recent, recent, Counted(s).usage[t].nice, r.loadAvg)
  {
    hide Counted, NextUsage, NextLoadAvg, IsDecayed;
    var c := Counted(s);
    CountedKeeps(s);
    ReprioritisedKeeps(c);
    hide Reprioritised;
    LoadAvgAccurate(n, s.loadAvg, Runnable(s));
    LoadAvgBound(n, s.loadAvg, Runnable(s));
    Decays(n, c.usage[t], NextLoadAvg(s.loadAvg, Runnable(s)));
  }

  lemma Decays(n: nat, u: Usage, loadAvg: int)
    requires n <= 545 && 0 <= loadAvg <= n * F
    requires -RecentMax(n) <= u.recent <= RecentMax(n) && -NICE_MAX <= u.nice <= NICE_MAX
    ensures IsDecayed(NextUsage(u, loadAvg).recent, u.recent, u.nice, loadAvg) && NextUsage(u, loadAvg).nice == u.nice
  {
    RecentAccurate(n, u, loadAvg);
  }

  /** The idle thread is charged nothing and keeps its priority. */
  lemma TickIdle(s: State)
    requires Inv(s) && s.mlfqs
    ensures var r := Tick(s);
            && s.idle in s.usage && s.idle in r.usage && r.usage[s.idle] == s.usage[s.idle]
            && s.idle in s.prio && s.idle in r.prio && r.prio[s.idle] == s.prio[s.idle]
  {
    hide Inv, MlfqsTick, Counted, Reprioritised, Decayed;
    TickedIs(s);
    IdleKnown(s);
    var s1 := s.(ticks := s.ticks + 1);
    TickSlices(s1);
    IdleKept(s1);
    IdleKept(Counted(s1));
    IdleKept(Reprioritised(Counted(s1)));
  }

  /** The idle thread keeps its priority and usage. */
  ghost predicate SameIdle(s: State, r: State) {
    && r.idle == s.idle && s.idle in s.usage && s.idle in r.usage && r.usage[s.idle] == s.usage[s.idle]
    && s.idle in s.prio && s.idle in r.prio && r.prio[s.idle] == s.prio[s.idle]
  }

  lemma IdleKept(s: State)
    requires s.idle in s.usage && s.idle in s.prio
    ensures SameIdle(s, Counted(s)) && SameIdle(s, Reprioritised(s)) && SameIdle(s, Decayed(s))
  {
    hide NextUsage, NextLoadAvg, PriorityOf, StableSort, PrioGreater, AddInt;
  }

  lemma IdleKnown(s: State)
    requires Inv(s)
    ensures s.idle in s.usage && s.idle in s.prio
  {
  }

  /** Without MLFQS a timer interrupt leaves priorities and usage alone. */
  lemma TickPlain(s: State)
    requires !s.mlfqs
    ensures Tick(s).prio == s.prio && Tick(s).usage == s.usage && Tick(s).loadAvg == s.loadAvg
  {
    hide WakeAll;
    WakeAllUsage(s.(ticks := s.ticks + 1));
    WakeAllPrio(s.(ticks := s.ticks + 1));
  }

  /** thread_set_nice gives the caller the priority of its recent_cpu and the new niceness, and
      changes no other thread's. */
  lemma SetNiceExact(s: State, n: nat, x: int)
    requires Inv(s) && UsageOk(s, n) && n <= 545 && s.current != s.idle && -NICE_MAX <= x <= NICE_MAX
    ensures s.current in s.usage && s.current in s.prio
    ensures var r, c := SetNice(s, x), s.current;
            && r.usage == s.usage[c := Usage(x, s.usage[c].recent)] && c in r.prio && r.prio == s.prio[c := r.prio[c]]
            && IsPriority(r.prio[c], s.usage[c].recent, x)
  {
    hide Inv, PriorityOf, StableSort, PrioGreater, IsPriority, RecentMax, ThreadUsageOk;
    CurrentFacts(s);
    var u := s.usage[s.current];
    WithinBounds(u, n, s.ticks % TIMER_FREQ);
    PriorityIs(n, u.(nice := x));
  }
}
