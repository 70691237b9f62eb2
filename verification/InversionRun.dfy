/** A run of the kernel, with every yield its functions end with, to a thread whose priority is
    below what it was given and below a thread that waits for it (threads/synch.c, threads/thread.c). */
module InversionRun {
  import opened Wrappers
  import opened Orders
  import opened Mlfqs
  import opened Kernel
  import opened KernelInv
  import opened KernelRuns
  import opened Donation
  import opened DonationRuns

  /** What changes in the run: the initial thread 1, thread 3 of priority 50, and two locks. */
  datatype Scene = Scene(current: Tid, ready: seq<Tid>, st1: Status, st3: Status, pc1: Pc, pc3: Pc,
                         p1: int, i1: Info, i3: Info, m0: Sema, m1: Sema, l0: Lock, l1: Lock)

  /** The state of the kernel; thread 2 is the idle thread. */
  function St(x: Scene): State {
    State(false,
          map[1 := x.st1, 2 := Blocked, 3 := x.st3],
          map[1 := x.pc1, 2 := Idling, 3 := x.pc3],
          map[1 := x.p1, 2 := PRI_MIN, 3 := 50],
          map[1 := x.i1, 2 := Info(PRI_MIN, PRI_MIN, None, [], {}), 3 := x.i3],
          map[1 := Usage(0, 0), 2 := Usage(0, 0), 3 := Usage(0, 0)],
          map[1 := 0, 2 := 0, 3 := 0],
          x.ready, [], map[OfLock(0) := x.m0, OfLock(1) := x.m1], map[0 := x.l0, 1 := x.l1], x.current, 2, 0, 0)
  }

  lemma Put1<V>(a: V, b: V, c: V, v: V)
    ensures map[1 := a, 2 := b, 3 := c][1 := v] == map[1 := v, 2 := b, 3 := c]
  {
  }

  lemma Put3<V>(a: V, b: V, c: V, v: V)
    ensures map[1 := a, 2 := b, 3 := c][3 := v] == map[1 := a, 2 := b, 3 := v]
  {
  }

  lemma PutTwo<K, V>(j: K, k: K, a: V, b: V, v: V)
    requires j != k
    ensures map[j := a, k := b][j := v] == map[j := v, k := b]
    ensures map[j := a, k := b][k := v] == map[j := a, k := v]
  {
  }

  lemma Set1(x: Scene, st: Status, pc: Pc, p: int, i: Info)
    ensures St(x).status[1 := st] == St(x.(st1 := st)).status && St(x).pc[1 := pc] == St(x.(pc1 := pc)).pc
    ensures St(x).prio[1 := p] == St(x.(p1 := p)).prio && St(x).info[1 := i] == St(x.(i1 := i)).info
  {
    Put1(x.st1, Blocked, x.st3, st);
    Put1(x.pc1, Idling, x.pc3, pc);
    Put1(x.p1, PRI_MIN, 50, p);
    Put1(x.i1, Info(PRI_MIN, PRI_MIN, None, [], {}), x.i3, i);
  }

  lemma Set3(x: Scene, st: Status, pc: Pc, i: Info)
    ensures St(x).status[3 := st] == St(x.(st3 := st)).status && St(x).pc[3 := pc] == St(x.(pc3 := pc)).pc
    ensures St(x).info[3 := i] == St(x.(i3 := i)).info
  {
    Put3(x.st1, Blocked, x.st3, st);
    Put3(x.pc1, Idling, x.pc3, pc);
    Put3(x.i1, Info(PRI_MIN, PRI_MIN, None, [], {}), x.i3, i);
  }

  lemma SetLock(x: Scene, m0: Sema, m1: Sema, l0: Lock, l1: Lock)
    ensures St(x).semas[OfLock(0) := m0] == St(x.(m0 := m0)).semas
    ensures St(x).semas[OfLock(1) := m1] == St(x.(m1 := m1)).semas
    ensures St(x).locks[0 := l0] == St(x.(l0 := l0)).locks && St(x).locks[1 := l1] == St(x.(l1 := l1)).locks
  {
    PutTwo(OfLock(0), OfLock(1), x.m0, x.m1, m0);
    PutTwo(OfLock(0), OfLock(1), x.m0, x.m1, m1);
    PutTwo(0, 1, x.l0, x.l1, l0);
    PutTwo(0, 1, x.l0, x.l1, l1);
  }

  /** The run has come to this. */
  ghost predicate At(x: Scene) { Reaches(Boot(false), St(x)) && Inv(St(x)) }

  /** What the steps of the run make of a state. */
  ghost predicate Makes(s: State, step: Step, r: State) {
    && s.current in s.pc && s.current in s.info && s.current in s.prio
    && match step
       case YieldStep => r == Yield(s)
       case SetPriorityStep(p) => s.pc[s.current].User? && r == SetPriority(s, p)
       case LockReleaseStep(l) =>
         s.pc[s.current].User? && l in s.locks && s.locks[l].holder == Some(s.current) && r == BeginRelease(s, l)
       case ReleaseHolderStep =>
         s.pc[s.current].Releasing? && s.pc[s.current].lock in s.locks && r == ReleaseHolder(s, s.pc[s.current].lock)
       case ReleaseUpStep =>
         s.pc[s.current].Releasing2? && OfLock(s.pc[s.current].lock) in s.semas
         && r == ReleaseUp(s, s.pc[s.current].lock)
       case ReleasePriorityStep =>
         s.pc[s.current].Released? && r == SetPriority(s, s.info[s.current].base).(pc := s.pc[s.current := User])
       case LockTryStep(l) =>
         s.pc[s.current].User? && l in s.locks && s.locks[l].holder != Some(s.current) && OfLock(l) in s.semas
         && r == TryLock(s, l)
       case LockTryHolderStep =>
         s.pc[s.current].TryHeld? && s.pc[s.current].lock in s.locks && r == TryLockHolder(s, s.pc[s.current].lock)
       case RetestStep =>
         s.pc[s.current].Down? && s.pc[s.current].sema in s.semas
         && (s.pc[s.current].sema.OfLock? ==> s.pc[s.current].sema.lock in s.locks)
         && r == TryDown(s, s.pc[s.current].sema)
       case _ => false
  }

  lemma MakesNext(s: State, step: Step, r: State)
    requires Domains(s) && s.current in s.status && Makes(s, step, r)
    ensures Enabled(s, step) && Next(s, step) == r
  {
    hide TryDown, EnterAcquire, SemaUp, TryLock, TryLockHolder, BeginRelease, ReleaseHolder, ReleaseUp,
         SetPriority, SetNice, Yield, Schedule, FallAsleep, Tick, Create, Exited, Take, KeysOk, PcOk;
  }

  /** One more step. */
  lemma Go(x: Scene, step: Step, y: Scene)
    requires At(x) && Makes(St(x), step, St(y))
    ensures At(y)
  {
    hide Inv, Reaches, Next, Enabled, St, Domains, Makes;
    Runs(St(x));
    MakesNext(St(x), step, St(y));
    Take1(Boot(false), St(x), step);
  }

  // Lists of one and two.

  lemma TwoFlipped(prio: map<Tid, int>, a: Tid, c: Tid)
    requires a in prio && c in prio && prio[c] > prio[a]
    ensures InsertOrdered(PrioGreater(prio), [a], c) == [c, a]
    ensures StableSort(PrioGreater(prio), [c, a]) == [c, a]
  {
    assert InsertIndex(PrioGreater(prio), [a], c) == 0;
    TwoInOrder(prio, c, a);
  }

  lemma One(less: (nat, nat) -> bool, a: nat)
    ensures InsertOrdered(less, [], a) == [a] && StableSort(less, [a]) == [a] && StableSort(less, []) == []
    ensures Removed([a], a) == []
  {
    assert [a][..0] == [];
  }

  // Single steps.

  /** The running thread 1 yields and, being the highest, goes on. */
  lemma GoesOn(x: Scene)
    requires x.current == 1 && x.st1 == Running && (x.ready == [] || (x.ready == [3] && x.p1 > 50))
    ensures Yield(St(x)) == St(x)
  {
    hide InsertOrdered, StableSort, PrioGreater;
    Set1(x, Ready, x.pc1, x.p1, x.i1);
    Set1(x.(st1 := Ready), Running, x.pc1, x.p1, x.i1);
    One(PrioGreater(St(x).prio), 1);
    if x.ready == [3] { TwoFlipped(St(x).prio, 3, 1); }
  }

  /** It yields to thread 3. */
  lemma HandsOver(x: Scene)
    requires x.current == 1 && x.ready == [3] && x.p1 <= 50
    ensures Yield(St(x)) == St(x.(current := 3, ready := [1], st1 := Ready, st3 := Running))
  {
    hide InsertOrdered, StableSort, PrioGreater;
    Set1(x, Ready, x.pc1, x.p1, x.i1);
    Set3(x.(st1 := Ready), Running, x.pc3, x.i3);
    TwoInOrder(St(x).prio, 3, 1);
  }

  /** Thread 3 blocks on lock 0, and thread 1 runs. */
  lemma Blocks3(x: Scene)
    requires x.current == 3 && x.ready == [1] && x.m0.value == 0 && x.m0.waiters == []
    ensures TryDown(St(x), OfLock(0)) ==
            St(x.(current := 1, ready := [], st1 := Running, st3 := Blocked, pc3 := Down(OfLock(0)),
                  m0 := x.m0.(waiters := [3])))
  {
    hide InsertOrdered, StableSort, PrioGreater;
    Set3(x, Blocked, Down(OfLock(0)), x.i3);
    Set1(x.(st3 := Blocked), Running, x.pc1, x.p1, x.i1);
    SetLock(x, x.m0.(waiters := [3]), x.m1, x.l0, x.l1);
    One(PrioGreater(St(x).prio), 1);
    One(PrioGreater(St(x).prio), 3);
  }

  /** Before that it has donated its priority to thread 1. */
  lemma Donates3(x: Scene)
    requires x.current == 3 && x.l0.holder == Some(1) && x.i1.waitingLock.None?
    ensures EnterAcquire(St(x), 0) ==
            St(x.(pc3 := Down(OfLock(0)), i3 := x.i3.(waitingLock := Some(0)), p1 := Max(x.p1, 50),
                  i1 := x.i1.(donated := Max(x.i1.donated, 50)), l0 := x.l0.(maxPriority := Max(x.l0.maxPriority, 50))))
  {
    var y := x.(pc3 := Down(OfLock(0)), i3 := x.i3.(waitingLock := Some(0)));
    Set3(x, x.st3, Down(OfLock(0)), y.i3);
    var i, k := x.i1.(donated := Max(x.i1.donated, 50)), x.l0.(maxPriority := Max(x.l0.maxPriority, 50));
    Set1(y, y.st1, y.pc1, Max(x.p1, 50), i);
    SetLock(y, y.m0, y.m1, k, y.l1);
    var z := y.(p1 := Max(x.p1, 50), i1 := i, l0 := k);
    assert DonateEdge(St(y), 3, 0, 1) == St(z);
    assert Donate(St(z), 1, MAX_DONATION_DEPTH) == St(z);
  }

  /** thread_set_priority by thread 1. */
  lemma Sets(x: Scene, p: int)
    requires x.current == 1
    ensures SetPriority(St(x), p) ==
            St(x.(p1 := if x.p1 < p then p else if x.p1 > p then Max(p, x.i1.donated) else x.p1,
                  i1 := x.i1.(base := p)))
  {
    Set1(x, x.st1, x.pc1, if x.p1 < p then p else if x.p1 > p then Max(p, x.i1.donated) else x.p1,
         x.i1.(base := p));
  }

  /** lock_release by thread 1 of one of its two locks. */
  lemma Begins(x: Scene, l: LockId, k: LockId)
    requires x.current == 1 && (x.i1.locks == [l, k] || x.i1.locks == [k, l])
    requires (l == 0 && k == 1) || (l == 1 && k == 0)
    ensures BeginRelease(St(x), l) ==
            St(x.(pc1 := Releasing(l),
                  i1 := x.i1.(locks := [k], donated := (if k == 0 then x.l0 else x.l1).maxPriority)))
  {
    hide StableSort, LockGreater, Removed;
    RemovedOfTwo(l, k);
    One(LockGreater(St(x).locks), k);
    Set1(x, x.st1, Releasing(l), x.p1,
         x.i1.(locks := [k], donated := (if k == 0 then x.l0 else x.l1).maxPriority));
  }

  lemma RemovedOfTwo(l: nat, k: nat)
    requires l != k
    ensures Removed([l, k], l) == [k] && Removed([k, l], l) == [k]
  {
    assert [l, k][1..] == [k] && [k, l][1..] == [l];
    One((a, b) => false, l);
  }

  lemma Clears(x: Scene, l: LockId)
    requires x.current == 1 && l <= 1
    ensures ReleaseHolder(St(x), l) ==
            (if l == 0 then St(x.(pc1 := Releasing2(0), l0 := x.l0.(holder := None)))
             else St(x.(pc1 := Releasing2(1), l1 := x.l1.(holder := None))))
  {
    Set1(x, x.st1, Releasing2(l), x.p1, x.i1);
    SetLock(x, x.m0, x.m1, x.l0.(holder := None), x.l1.(holder := None));
  }

  /** The semaphore of lock 0 goes up, and thread 3 wakes. */
  lemma Wakes3(x: Scene)
    requires x.current == 1 && x.ready == [] && x.m0.waiters == [3]
    ensures ReleaseUp(St(x), 0) ==
            St(x.(pc1 := Released, i1 := x.i1.(held := x.i1.held - {0}), ready := [3], st3 := Ready,
                  m0 := x.m0.(waiters := [], value := x.m0.value + 1, ups := x.m0.ups + 1)))
  {
    hide SemaUp;
    var i := x.i1.(held := x.i1.held - {0});
    Set1(x, x.st1, Released, x.p1, i);
    var y := x.(pc1 := Released, i1 := i);
    assert GivenUp(St(x), 0) == St(y);
    Ups0(y);
  }

  lemma Ups0(y: Scene)
    requires y.ready == [] && y.m0.waiters == [3]
    ensures SemaUp(St(y), OfLock(0)) ==
            St(y.(ready := [3], st3 := Ready,
                  m0 := y.m0.(waiters := [], value := y.m0.value + 1, ups := y.m0.ups + 1)))
  {
    hide InsertOrdered, StableSort, PrioGreater;
    Set3(y, Ready, y.pc3, y.i3);
    SetLock(y, y.m0.(waiters := [], value := y.m0.value + 1, ups := y.m0.ups + 1), y.m1, y.l0, y.l1);
    One(PrioGreater(St(y).prio), 3);
    assert [3][1..] == [];
  }

  /** That of lock 1 goes up, and nobody waits. */
  lemma Ups1(x: Scene)
    requires x.current == 1 && x.m1.waiters == []
    ensures ReleaseUp(St(x), 1) ==
            St(x.(pc1 := Released, i1 := x.i1.(held := x.i1.held - {1}),
                  m1 := x.m1.(value := x.m1.value + 1, ups := x.m1.ups + 1)))
  {
    var i := x.i1.(held := x.i1.held - {1});
    Set1(x, x.st1, Released, x.p1, i);
    var y := x.(pc1 := Released, i1 := i);
    SetLock(y, y.m0, y.m1.(value := y.m1.value + 1, ups := y.m1.ups + 1), y.l0, y.l1);
  }

  /** lock_try_acquire of lock 0 by thread 1. */
  lemma Tries(x: Scene)
    requires x.current == 1 && x.m0.value > 0
    ensures TryLock(St(x), 0) ==
            St(x.(pc1 := TryHeld(0), i1 := x.i1.(held := x.i1.held + {0}),
                  m0 := x.m0.(value := x.m0.value - 1, downs := x.m0.downs + 1)))
  {
    Set1(x, x.st1, TryHeld(0), x.p1, x.i1.(held := x.i1.held + {0}));
    SetLock(x, x.m0.(value := x.m0.value - 1, downs := x.m0.downs + 1), x.m1, x.l0, x.l1);
  }

  lemma GetsLock(x: Scene)
    requires x.current == 1 && x.i1.locks == [1] && x.l0.maxPriority > x.l1.maxPriority
    ensures TryLockHolder(St(x), 0) ==
            St(x.(pc1 := User, i1 := x.i1.(locks := [0, 1]), l0 := x.l0.(holder := Some(1))))
  {
    var y := x.(l0 := x.l0.(holder := Some(1)));
    SetLock(x, x.m0, x.m1, y.l0, x.l1);
    assert InsertIndex(LockGreater(St(y).locks), [1], 0) == 0;
    assert InsertOrdered(LockGreater(St(y).locks), [1], 0) == [0, 1];
    Set1(x, x.st1, User, x.p1, x.i1.(locks := [0, 1]));
  }

  // The scenes of the run.

  /** Thread 1 holds both locks and has made thread 3. */
  function Made(): Scene {
    Scene(1, [3], Running, Ready, User, User, PRI_DEFAULT, Info(PRI_DEFAULT, PRI_MIN, None, [1, 0], {0, 1}),
          Info(50, PRI_MIN, None, [], {}), Sema(0, [], 1, 0, 1), Sema(0, [], 1, 0, 1),
          Lock(Some(1), PRI_MIN), Lock(Some(1), PRI_MIN))
  }

  /** Thread 3 waits for lock 0. */
  function Waits(): Scene {
    Made().(ready := [], st3 := Blocked, pc3 := Down(OfLock(0)), p1 := 50,
            i1 := Info(PRI_DEFAULT, 50, None, [1, 0], {0, 1}), i3 := Info(50, PRI_MIN, Some(0), [], {}),
            m0 := Sema(0, [3], 1, 0, 1), l0 := Lock(Some(1), 50))
  }

  /** Thread 1 has raised its own priority. */
  function Raised(): Scene { Waits().(p1 := 55, i1 := Info(55, 50, None, [1, 0], {0, 1})) }

  /** It has given lock 0 up. */
  function GaveUp(): Scene {
    Raised().(ready := [3], st3 := Ready, i1 := Info(55, PRI_MIN, None, [1], {1}),
             m0 := Sema(1, [], 1, 1, 1), l0 := Lock(None, 50))
  }

  /** It has got lock 0 again before thread 3 ran, and lowered its priority. */
  function Low(): Scene {
    GaveUp().(p1 := 20, i1 := Info(20, PRI_MIN, None, [0, 1], {0, 1}), m0 := Sema(0, [], 1, 1, 2),
              l0 := Lock(Some(1), 50))
  }

  /** Thread 3 has had to wait again, and thread 1 is in lock_release of lock 1. */
  function Inverted(): Scene {
    Low().(ready := [], st3 := Blocked, pc1 := Released, i1 := Info(20, 50, None, [0], {0}),
               m0 := Sema(0, [3], 1, 1, 2), m1 := Sema(1, [], 1, 1, 1), l1 := Lock(None, PRI_MIN))
  }

  // From scene to scene.

  /** Before thread 3 exists. */
  function Alone(i: Info, m0: Sema, m1: Sema, l0: Lock, l1: Lock): State {
    Boot(false).(info := map[1 := i, 2 := Info(PRI_MIN, PRI_MIN, None, [], {})],
                 semas := map[OfLock(0) := m0, OfLock(1) := m1], locks := map[0 := l0, 1 := l1])
  }

  lemma TakesSecond()
    ensures var i, m, k := Info(PRI_DEFAULT, PRI_MIN, None, [], {}), Sema(1, [], 1, 0, 0), Lock(None, PRI_MIN);
            var s := Alone(i, m, m, k, k);
            var locks := s.locks[1 := Lock(Some(1), PRI_MIN)];
            s.(locks := locks, info := s.info[1 := HolderInfo(false, locks, i, 1)],
               semas := s.semas[OfLock(1) := Sema(0, [], 1, 0, 1)])
            == Alone(Info(PRI_DEFAULT, PRI_MIN, None, [1], {1}), m, Sema(0, [], 1, 0, 1), k, Lock(Some(1), PRI_MIN))
  {
    hide InsertOrdered, LockGreater;
    var m, k := Sema(1, [], 1, 0, 0), Lock(None, PRI_MIN);
    PutTwo(OfLock(0), OfLock(1), m, m, Sema(0, [], 1, 0, 1));
    PutTwo(0, 1, k, k, Lock(Some(1), PRI_MIN));
    One(LockGreater(map[0 := k, 1 := Lock(Some(1), PRI_MIN)]), 1);
    PutTwo(1, 2, Info(PRI_DEFAULT, PRI_MIN, None, [], {}), Info(PRI_MIN, PRI_MIN, None, [], {}),
           Info(PRI_DEFAULT, PRI_MIN, None, [1], {1}));
    assert {} + {1} == {1};
  }

  lemma TakesFirst()
    ensures var i, m, k := Info(PRI_DEFAULT, PRI_MIN, None, [1], {1}), Sema(0, [], 1, 0, 1), Lock(Some(1), PRI_MIN);
            var s := Alone(i, Sema(1, [], 1, 0, 0), m, Lock(None, PRI_MIN), k);
            var locks := s.locks[0 := k];
            s.(locks := locks, info := s.info[1 := HolderInfo(false, locks, i, 0)], semas := s.semas[OfLock(0) := m])
            == Alone(Made().i1, m, m, k, k)
  {
    hide InsertOrdered, LockGreater;
    var m, k := Sema(0, [], 1, 0, 1), Lock(Some(1), PRI_MIN);
    PutTwo(OfLock(0), OfLock(1), Sema(1, [], 1, 0, 0), m, m);
    PutTwo(0, 1, Lock(None, PRI_MIN), k, k);
    BehindEqual(map[0 := k, 1 := k]);
    PutTwo(1, 2, Info(PRI_DEFAULT, PRI_MIN, None, [1], {1}), Info(PRI_MIN, PRI_MIN, None, [], {}), Made().i1);
    assert {1} + {0} == {0, 1};
  }

  lemma BehindEqual(locks: map<LockId, Lock>)
    requires 0 in locks && 1 in locks && locks[0].maxPriority == locks[1].maxPriority
    ensures InsertOrdered(LockGreater(locks), [1], 0) == [1, 0]
  {
    assert [1][1..] == [];
    assert InsertIndex(LockGreater(locks), [1], 0) == 1;
  }

  lemma MakesThird()
    ensures var m, k := Sema(0, [], 1, 0, 1), Lock(Some(1), PRI_MIN);
            Create(Alone(Made().i1, m, m, k, k), 3, 50) == St(Made())
  {
    hide InsertOrdered, PrioGreater;
    One(PrioGreater(St(Made()).prio), 3);
    MoreThree(Running, Blocked, Blocked);
    MoreThree(Running, Blocked, Ready);
    MoreThree(User, Idling, User);
    MoreThree(PRI_DEFAULT, PRI_MIN, 50);
    MoreThree(Made().i1, Info(PRI_MIN, PRI_MIN, None, [], {}), Made().i3);
    MoreThree(Usage(0, 0), Usage(0, 0), Usage(0, 0));
    MoreThree(0, 0, 0);
    Put3(Running, Blocked, Blocked, Ready);
  }

  lemma MoreThree<V>(a: V, b: V, c: V)
    ensures map[1 := a, 2 := b][3 := c] == map[1 := a, 2 := b, 3 := c]
  {
  }

  lemma TwoLocks() returns (s: State)
    ensures var i, m, k := Info(PRI_DEFAULT, PRI_MIN, None, [], {}), Sema(1, [], 1, 0, 0), Lock(None, PRI_MIN);
            s == Alone(i, m, m, k, k) && Reaches(Boot(false), s) && Inv(s)
  {
    hide Inv, Reaches;
    var b := Boot(false);
    BootInv(false);
    ReachesSelf(b);
    var s1 := InitLock(b, b, 0);
    s := InitLock(b, s1, 1);
    assert s.locks == map[0 := Lock(None, PRI_MIN), 1 := Lock(None, PRI_MIN)];
    assert s.semas == map[OfLock(0) := Sema(1, [], 1, 0, 0), OfLock(1) := Sema(1, [], 1, 0, 0)];
  }

  lemma Opening()
    ensures At(Made())
  {
    hide Inv, Reaches, Create, HolderInfo;
    var b := Boot(false);
    var s2 := TwoLocks();
    var s3 := AcquireFree(b, s2, 1);
    TakesSecond();
    var s4 := AcquireFree(b, s3, 0);
    TakesFirst();
    var s5 := CreateThread(b, s4, 3, 50);
    MakesThird();
  }

  lemma ThirdWaits()
    requires At(Made())
    ensures At(Waits())
  {
    hide Inv, Reaches, TryDown, EnterAcquire, Yield;
    var x := Made();
    var y := x.(current := 3, ready := [1], st1 := Ready, st3 := Running);
    HandsOver(x);
    Go(x, YieldStep, y);
    var r := DonationRuns.AcquireLock(Boot(false), St(y), 0);
    Donates3(y);
    Blocks3(y.(pc3 := Down(OfLock(0)), i3 := y.i3.(waitingLock := Some(0)), p1 := 50,
               i1 := y.i1.(donated := 50), l0 := y.l0.(maxPriority := 50)));
  }

  lemma Raises()
    requires At(Waits())
    ensures At(Raised())
  {
    hide At, Yield, SetPriority;
    Sets(Waits(), 55);
    Go(Waits(), SetPriorityStep(55), Raised());
    GoesOn(Raised());
    Go(Raised(), YieldStep, Raised());
  }

  lemma GivesUp()
    requires At(Raised())
    ensures At(GaveUp().(pc1 := Released))
  {
    hide At, BeginRelease, ReleaseHolder, ReleaseUp;
    var a := Raised();
    Begins(a, 0, 1);
    var b := a.(pc1 := Releasing(0), i1 := a.i1.(locks := [1], donated := PRI_MIN));
    Go(a, LockReleaseStep(0), b);
    Clears(b, 0);
    var c := b.(pc1 := Releasing2(0), l0 := b.l0.(holder := None));
    Go(b, ReleaseHolderStep, c);
    Wakes3(c);
    assert c.i1.held - {0} == {1};
    Go(c, ReleaseUpStep, GaveUp().(pc1 := Released));
  }

  lemma Resets()
    requires At(GaveUp().(pc1 := Released))
    ensures At(GaveUp())
  {
    hide At, Yield, SetPriority;
    var x, y := GaveUp().(pc1 := Released), GaveUp();
    GoesOn(x);
    Go(x, YieldStep, x);
    Sets(x, 55);
    Set1(x, x.st1, User, x.p1, x.i1);
    Go(x, ReleasePriorityStep, y);
    GoesOn(y);
    Go(y, YieldStep, y);
  }

  lemma Lowers()
    requires At(GaveUp())
    ensures At(Low())
  {
    hide At, SetPriority, TryLock, TryLockHolder;
    var x := GaveUp();
    Tries(x);
    var a := x.(pc1 := TryHeld(0), i1 := x.i1.(held := {0, 1}), m0 := Sema(0, [], 1, 1, 2));
    assert x.i1.held + {0} == {0, 1};
    Go(x, LockTryStep(0), a);
    GetsLock(a);
    var b := a.(pc1 := User, i1 := a.i1.(locks := [0, 1]), l0 := a.l0.(holder := Some(1)));
    Go(a, LockTryHolderStep, b);
    Sets(b, 20);
    Go(b, SetPriorityStep(20), Low());
  }

  lemma WaitsAgain()
    requires At(Low())
    ensures At(Low().(ready := [], st3 := Blocked, m0 := Sema(0, [3], 1, 1, 2)))
  {
    hide At, Yield, TryDown;
    var x := Low();
    HandsOver(x);
    var a := x.(current := 3, ready := [1], st1 := Ready, st3 := Running);
    Go(x, YieldStep, a);
    Blocks3(a);
    Go(a, RetestStep, x.(ready := [], st3 := Blocked, m0 := Sema(0, [3], 1, 1, 2)));
  }

  lemma Releases()
    requires At(Low().(ready := [], st3 := Blocked, m0 := Sema(0, [3], 1, 1, 2)))
    ensures At(Inverted())
  {
    hide At, BeginRelease, ReleaseHolder, ReleaseUp;
    var b := Low().(ready := [], st3 := Blocked, m0 := Sema(0, [3], 1, 1, 2));
    Begins(b, 1, 0);
    var c := b.(pc1 := Releasing(1), i1 := b.i1.(locks := [0], donated := 50));
    Go(b, LockReleaseStep(1), c);
    Clears(c, 1);
    var d := c.(pc1 := Releasing2(1), l1 := c.l1.(holder := None));
    Go(c, ReleaseHolderStep, d);
    Ups1(d);
    assert d.i1.held - {1} == {0};
    Go(d, ReleaseUpStep, Inverted());
  }

  /** From the start of the kernel, threads get to a state in which the last step of lock_release
      sets the priority of thread 1 to the 20 it has, although it was given 50 and although thread
      3, of priority 50, waits for its lock. */
  lemma PriorityBelowDonation() returns (s: State)
    ensures Reaches(Boot(false), s) && Inv(s) && Domains(s) && 1 in s.prio && 1 in s.info && 3 in s.prio
    ensures s.current == 1 && Yield(s) == s && Enabled(s, ReleasePriorityStep) && Succ(s, 3) == Some(1)
    ensures var r := Next(s, ReleasePriorityStep);
            && r == SetPriority(s, 20).(pc := s.pc[1 := User]) && 1 in r.prio && 3 in r.prio && 1 in r.info
            && r.prio[1] < Max(r.info[1].base, r.info[1].donated) && r.prio[1] < r.prio[3] && Succ(r, 3) == Some(1)
  {
    hide Inv, Reaches, Next, Enabled, St, SetPriority, Yield;
    Opening();
    ThirdWaits();
    Raises();
    GivesUp();
    Resets();
    Lowers();
    WaitsAgain();
    Releases();
    GoesOn(Inverted());
    s := St(Inverted());
    Runs(s);
    Below();
    MakesNext(s, ReleasePriorityStep, St(Inverted().(pc1 := User)));
  }

  lemma Below()
    ensures var s, r := St(Inverted()), St(Inverted().(pc1 := User));
            && 1 in s.prio && 1 in s.info && 3 in s.prio && s.current == 1 && Succ(s, 3) == Some(1)
            && Makes(s, ReleasePriorityStep, r)
            && r == SetPriority(s, 20).(pc := s.pc[1 := User]) && 1 in r.prio && 3 in r.prio && 1 in r.info
            && r.prio[1] < Max(r.info[1].base, r.info[1].donated) && r.prio[1] < r.prio[3] && Succ(r, 3) == Some(1)
  {
    hide SetPriority;
    var x := Inverted();
    Sets(x, 20);
    Set1(x, x.st1, User, x.p1, x.i1);
  }
}
