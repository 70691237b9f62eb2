/** Every step of the kernel state machine keeps the invariant. */
module KernelSteps {
  import opened Wrappers
  import opened Orders
  import opened Mlfqs
  import opened Kernel
  import opened KernelInv

  // Initialisation of semaphores and locks.

  lemma NewSema(status: Statuses, pc: Pcs, semas: Semas, locks: set<LockId>, id: SemaId, v: nat)
    requires id !in semas && PcOk(pc, locks, semas.Keys)
    requires WaitOk(status, pc, semas) && SemaOk(status, pc, semas)
    ensures var semas' := semas[id := Sema(v, [], v, 0, 0)];
            WaitOk(status, pc, semas') && SemaOk(status, pc, semas') && PcOk(pc, locks, semas'.Keys)
  {
    var semas' := semas[id := Sema(v, [], v, 0, 0)];
    forall i | i in semas'
      ensures WaitersOk(status, pc, i, semas'[i].waiters) && OneSemaOk(status, pc, i, semas'[i])
    {
      if i != id {
        assert WaitersOk(status, pc, i, semas[i].waiters) && OneSemaOk(status, pc, i, semas[i]);
      }
    }
  }

  lemma SemaInitInv(s: State, id: nat, v: nat)
    requires Inv(s) && Plain(id) !in s.semas
    ensures Inv(s.(semas := s.semas[Plain(id) := Sema(v, [], v, 0, 0)]))
  {
    hide RunOk, ReadyOk, BlockedOk, WaitOk, SleepOk, SemaOk, LockOk, HolderOk, ListsOk, QueueOk, LockKeysOk, PcOk;
    NewSema(s.status, s.pc, s.semas, s.locks.Keys, Plain(id), v);
    PlainLocks(s.info, s.locks, s.semas, id, Sema(v, [], v, 0, 0));
  }

  lemma PlainLocks(info: map<Tid, Info>, locks: map<LockId, Lock>, semas: Semas, id: nat, m: Sema)
    requires LockOk(info, locks, semas) && LockKeysOk(locks.Keys, semas.Keys)
    ensures LockOk(info, locks, semas[Plain(id) := m]) && LockKeysOk(locks.Keys, semas[Plain(id) := m].Keys)
  {
  }

  lemma NewLock(mlfqs: bool, pc: Pcs, info: map<Tid, Info>, locks: map<LockId, Lock>, semas: Semas, l: LockId)
    requires l !in locks && OfLock(l) !in semas && info.Keys == pc.Keys
    requires LockOk(info, locks, semas) && HolderOk(pc, info, locks) && ListsOk(mlfqs, pc, info, locks)
    ensures var locks', semas' := locks[l := Lock(None, PRI_MIN)], semas[OfLock(l) := Sema(1, [], 1, 0, 0)];
            LockOk(info, locks', semas') && HolderOk(pc, info, locks') && ListsOk(mlfqs, pc, info, locks')
  {
    var locks', semas' := locks[l := Lock(None, PRI_MIN)], semas[OfLock(l) := Sema(1, [], 1, 0, 0)];
    forall t | t in info
      ensures l !in info[t].held && ThreadOk(mlfqs, pc[t], info[t], locks'.Keys)
    {
      assert ThreadOk(mlfqs, pc[t], info[t], locks.Keys);
    }
    assert Holders(info, l) == {};
  }

  lemma LockInitInv(s: State, l: LockId)
    requires Inv(s) && l !in s.locks && OfLock(l) !in s.semas
    ensures Inv(s.(locks := s.locks[l := Lock(None, PRI_MIN)], semas := s.semas[OfLock(l) := Sema(1, [], 1, 0, 0)]))
  {
    hide RunOk, ReadyOk, BlockedOk, WaitOk, SleepOk, SemaOk, LockOk, HolderOk, ListsOk, QueueOk;
    NewLock(s.mlfqs, s.pc, s.info, s.locks, s.semas, l);
    NewSema(s.status, s.pc, s.semas, s.locks.Keys, OfLock(l), 1);
  }

  // Entering sema_down.

  lemma EnterDownInv(s: State, id: SemaId)
    requires Inv(s) && s.current in s.pc && s.pc[s.current].User? && id.Plain? && id in s.semas
    ensures Inv(s.(pc := s.pc[s.current := Down(id)]))
  {
    hide RunOk, ReadyOk, BlockedOk, WaitOk, SleepOk, SemaOk, LockOk, HolderOk, ListsOk, QueueOk, LockKeysOk, PcOk;
    CurrentFacts(s);
    var c := s.current;
    MovePc(s.status, s.pc, s.semas, s.idle, c, Down(id));
    MoveSleep(s.pc, s.sleeping, s.wakeup, s.ticks, c, Down(id));
    MoveHolder(s.pc, s.info, s.locks, c, Down(id));
    LeavePlain(s.mlfqs, s.pc, s.info, s.locks, c, id);
    LeavePc(s.pc, s.locks.Keys, s.semas.Keys, c, Down(id));
    UpdateKeys(s.pc, c, Down(id));
  }

  /** The state on the way into lock_acquire, before any donation. */
  function Waiting(s: State, l: LockId): State
    requires s.current in s.info
  {
    var c := s.current;
    s.(pc := s.pc[c := Down(OfLock(l))],
       info := if s.mlfqs then s.info else s.info[c := s.info[c].(waitingLock := Some(l))])
  }

  lemma WaitForLock(mlfqs: bool, pc: Pcs, info: map<Tid, Info>, locks: map<LockId, Lock>, semas: Semas, c: Tid,
                    l: LockId)
    requires HolderOk(pc, info, locks) && ListsOk(mlfqs, pc, info, locks) && LockOk(info, locks, semas)
    requires c in pc && c in info && pc[c].User? && l in locks && locks[l].holder != Some(c)
    ensures var pc' := pc[c := Down(OfLock(l))];
            var info' := if mlfqs then info else info[c := info[c].(waitingLock := Some(l))];
            HolderOk(pc', info', locks) && ListsOk(mlfqs, pc', info', locks) && LockOk(info', locks, semas)
  {
    var pc' := pc[c := Down(OfLock(l))];
    var info' := if mlfqs then info else info[c := info[c].(waitingLock := Some(l))];
    assert ThreadOk(mlfqs, pc[c], info[c], locks.Keys);
    assert ThreadOk(mlfqs, pc'[c], info'[c], locks.Keys);
    assert forall x :: Holders(info', x) == Holders(info, x);
  }

  lemma WaitingInv(s: State, l: LockId)
    requires Inv(s) && s.current in s.pc && s.pc[s.current].User? && l in s.locks
    requires s.locks[l].holder != Some(s.current)
    requires s.current in s.info
    ensures Inv(Waiting(s, l))
  {
    hide RunOk, ReadyOk, BlockedOk, WaitOk, SleepOk, SemaOk, LockOk, HolderOk, ListsOk, QueueOk, PcOk;
    CurrentFacts(s);
    var c, p := s.current, Down(OfLock(l));
    assert OfLock(l) in s.semas;
    MovePc(s.status, s.pc, s.semas, s.idle, c, p);
    MoveSleep(s.pc, s.sleeping, s.wakeup, s.ticks, c, p);
    WaitForLock(s.mlfqs, s.pc, s.info, s.locks, s.semas, c, l);
    LeavePc(s.pc, s.locks.Keys, s.semas.Keys, c, p);
    UpdateKeys(s.pc, c, p);
    UpdateKeys(s.info, c, s.info[c].(waitingLock := Some(l)));
  }

  /** The donation walk does not touch what the invariant speaks of. */
  lemma OnlyPrioritiesInv(s: State, r: State)
    requires Inv(s) && OnlyPriorities(s, r) && !s.mlfqs
    ensures Inv(r)
  {
    hide RunOk, ReadyOk, BlockedOk, WaitOk, SleepOk, SemaOk, LockOk, HolderOk, ListsOk, LockKeysOk, PcOk;
    DonatedLocks(s.mlfqs, s.pc, s.info, r.info, s.locks, r.locks, s.semas);
  }

  lemma DonatedLocks(mlfqs: bool, pc: Pcs, info: map<Tid, Info>, info': map<Tid, Info>,
                     locks: map<LockId, Lock>, locks': map<LockId, Lock>, semas: Semas)
    requires HolderOk(pc, info, locks) && ListsOk(mlfqs, pc, info, locks) && LockOk(info, locks, semas)
    requires info'.Keys == info.Keys && locks'.Keys == locks.Keys
    requires forall t :: t in info ==> info'[t] == info[t].(donated := info'[t].donated)
    requires forall l :: l in locks ==> locks'[l].holder == locks[l].holder
    ensures HolderOk(pc, info', locks') && ListsOk(mlfqs, pc, info', locks') && LockOk(info', locks', semas)
  {
    forall t | t in info' && t in pc ensures ThreadOk(mlfqs, pc[t], info'[t], locks'.Keys) {
      assert ThreadOk(mlfqs, pc[t], info[t], locks.Keys);
    }
    assert forall l :: Holders(info', l) == Holders(info, l);
  }

  lemma EnterAcquireInv(s: State, l: LockId)
    requires Inv(s) && s.current in s.pc && s.pc[s.current].User? && l in s.locks
    requires s.locks[l].holder != Some(s.current)
    requires s.current in s.info
    ensures Inv(EnterAcquire(s, l))
    ensures var r := EnterAcquire(s, l);
            r.current == s.current && r.pc == s.pc[s.current := Down(OfLock(l))] && r.semas == s.semas
            && r.locks.Keys == s.locks.Keys && r.info.Keys == s.info.Keys && r.prio.Keys == s.prio.Keys
  {
    hide Inv;
    WaitingInv(s, l);
    var w := Waiting(s, l);
    if !s.mlfqs && s.locks[l].holder.Some? {
      DonateOnlyPriorities(w, s.current, 1 + MAX_DONATION_DEPTH);
      OnlyPrioritiesInv(w, EnterAcquire(s, l));
    }
  }

  // Steps on a value alone.

  lemma LowerValue(status: Statuses, pc: Pcs, semas: Semas, id: SemaId)
    requires id in semas && semas[id].value > 0
    requires WaitOk(status, pc, semas) && SemaOk(status, pc, semas)
    ensures var m := semas[id];
            var semas' := semas[id := m.(value := m.value - 1, downs := m.downs + 1)];
            WaitOk(status, pc, semas') && SemaOk(status, pc, semas')
  {
    var m := semas[id];
    var semas' := semas[id := m.(value := m.value - 1, downs := m.downs + 1)];
    forall i | i in semas'
      ensures WaitersOk(status, pc, i, semas'[i].waiters) && OneSemaOk(status, pc, i, semas'[i])
    {
      assert WaitersOk(status, pc, i, semas[i].waiters) && OneSemaOk(status, pc, i, semas[i]);
    }
  }

  lemma SemaTryDownInv(s: State, id: nat)
    requires Inv(s) && Plain(id) in s.semas && s.semas[Plain(id)].value > 0
    ensures Inv(Take(s, Plain(id)))
  {
    hide RunOk, ReadyOk, BlockedOk, WaitOk, SleepOk, SemaOk, LockOk, HolderOk, ListsOk, QueueOk, LockKeysOk, PcOk;
    LowerValue(s.status, s.pc, s.semas, Plain(id));
    var m := Take(s, Plain(id)).semas[Plain(id)];
    PlainLocks(s.info, s.locks, s.semas, id, m);
    UpdateKeys(s.semas, Plain(id), m);
  }

  lemma SemaUpPlainInv(s: State, id: nat)
    requires Inv(s) && Plain(id) in s.semas
    ensures Inv(SemaUp(s, Plain(id)))
  {
    hide RunOk, ReadyOk, BlockedOk, WaitOk, SleepOk, SemaOk, LockOk, HolderOk, ListsOk, QueueOk, LockKeysOk, PcOk,
         StableSort, InsertOrdered;
    SemaUpInv(s, Plain(id));
    var r := SemaUp(s, Plain(id));
    PlainLocks(s.info, s.locks, s.semas, id, r.semas[Plain(id)]);
    assert r.semas == s.semas[Plain(id) := r.semas[Plain(id)]];
  }

  // lock_try_acquire.

  lemma TryLockLists(mlfqs: bool, pc: Pcs, info: map<Tid, Info>, locks: map<LockId, Lock>, c: Tid, l: LockId)
    requires ListsOk(mlfqs, pc, info, locks) && l in locks && c in info && c in pc && pc[c].User? && l !in info[c].held
    ensures ListsOk(mlfqs, pc[c := TryHeld(l)], info[c := info[c].(held := info[c].held + {l})], locks)
  {
    assert ThreadOk(mlfqs, pc[c], info[c], locks.Keys);
    assert ThreadOk(mlfqs, TryHeld(l), info[c].(held := info[c].held + {l}), locks.Keys);
  }

  lemma TryLockHolderOk(pc: Pcs, info: map<Tid, Info>, locks: map<LockId, Lock>, c: Tid, l: LockId)
    requires HolderOk(pc, info, locks) && l in locks && c in info && c in pc && pc[c].User?
    requires forall t :: t in info ==> l !in info[t].held
    ensures HolderOk(pc[c := TryHeld(l)], info[c := info[c].(held := info[c].held + {l})], locks)
  {
  }

  lemma TryLockInv(s: State, l: LockId)
    requires Inv(s) && s.current in s.pc && s.pc[s.current].User? && l in s.locks && OfLock(l) in s.semas
    requires s.current in s.info
    ensures Inv(TryLock(s, l))
  {
    hide RunOk, ReadyOk, BlockedOk, WaitOk, SleepOk, SemaOk, LockOk, HolderOk, ListsOk, QueueOk, LockKeysOk, PcOk;
    if s.semas[OfLock(l)].value > 0 {
      CurrentFacts(s);
      var r, c := TryLock(s, l), s.current;
      LowerValue(s.status, s.pc, s.semas, OfLock(l));
      MovePc(s.status, s.pc, r.semas, s.idle, c, TryHeld(l));
      MoveSleep(s.pc, s.sleeping, s.wakeup, s.ticks, c, TryHeld(l));
      AcquireLock(s.info, s.locks, s.semas, c, l, r.info[c], s.locks[l], r.semas[OfLock(l)]);
      TryLockHolderOk(s.pc, s.info, s.locks, c, l);
      TryLockLists(s.mlfqs, s.pc, s.info, s.locks, c, l);
      LeavePc(s.pc, s.locks.Keys, s.semas.Keys, c, TryHeld(l));
      assert s.locks[l := s.locks[l]] == s.locks;
      UpdateKeys(s.semas, OfLock(l), r.semas[OfLock(l)]);
      UpdateKeys(s.pc, c, TryHeld(l));
      UpdateKeys(s.info, c, r.info[c]);
    }
  }

  /** A change of a thread's data that keeps what it holds, and of a lock, keeps the count. */
  lemma SameHeld(info: map<Tid, Info>, locks: map<LockId, Lock>, semas: Semas, c: Tid, i: Info, l: LockId, k: Lock)
    requires LockOk(info, locks, semas) && c in info && i.held == info[c].held && l in locks
    ensures LockOk(info[c := i], locks[l := k], semas)
  {
    assert forall x :: Holders(info[c := i], x) == Holders(info, x);
  }

  lemma SetHolderOk(pc: Pcs, info: map<Tid, Info>, locks: map<LockId, Lock>, c: Tid, l: LockId, i: Info)
    requires HolderOk(pc, info, locks) && c in info && i.held == info[c].held
    requires l in locks && c in pc && pc[c] == TryHeld(l) && l in info[c].held
    requires forall t :: t in info && l in info[t].held ==> t == c
    ensures HolderOk(pc[c := User], info[c := i], locks[l := locks[l].(holder := Some(c))])
  {
  }

  lemma SetHolderLists(mlfqs: bool, pc: Pcs, info: map<Tid, Info>, locks: map<LockId, Lock>, c: Tid, l: LockId, k: Lock)
    requires ListsOk(mlfqs, pc, info, locks) && l in locks && c in info && c in pc && pc[c] == TryHeld(l)
    ensures l in info[c].held
    ensures var i := if mlfqs then info[c]
                     else info[c].(locks := InsertOrdered(LockGreater(locks[l := k]), info[c].locks, l));
            ListsOk(mlfqs, pc[c := User], info[c := i], locks[l := k])
  {
    var locks' := locks[l := k];
    assert ThreadOk(mlfqs, pc[c], info[c], locks.Keys);
    Inserted(LockGreater(locks'), info[c].locks, l);
    assert locks'.Keys == locks.Keys;
    assert ThreadOk(mlfqs, User,
                    if mlfqs then info[c]
                    else info[c].(locks := InsertOrdered(LockGreater(locks'), info[c].locks, l)), locks'.Keys);
  }

  /** If a lock has at most one holder, a thread that holds it is the only one. */
  lemma SoleHolder(info: map<Tid, Info>, l: LockId, c: Tid)
    requires |Holders(info, l)| <= 1 && c in info && l in info[c].held
    ensures forall t :: t in info && l in info[t].held ==> t == c
  {
    var h := Holders(info, l);
    assert c in h;
    forall t | t in info && l in info[t].held ensures t == c {
      assert t in h;
      SubsetSize({c, t}, h);
    }
  }

  lemma AtMostOne(s: State, l: LockId)
    requires Inv(s) && l in s.locks
    ensures OfLock(l) in s.semas && |Holders(s.info, l)| + s.semas[OfLock(l)].value == 1
  {
  }

  lemma TryLockHolderInv(s: State, l: LockId)
    requires Inv(s) && s.current in s.pc && s.pc[s.current] == TryHeld(l) && l in s.locks && s.current in s.info
    ensures Inv(TryLockHolder(s, l))
  {
    hide RunOk, ReadyOk, BlockedOk, WaitOk, SleepOk, SemaOk, LockOk, HolderOk, ListsOk, QueueOk, LockKeysOk, PcOk,
         InsertOrdered, LockGreater;
    CurrentFacts(s);
    AtMostOne(s, l);
    var r, c := TryLockHolder(s, l), s.current;
    MovePc(s.status, s.pc, s.semas, s.idle, c, User);
    MoveSleep(s.pc, s.sleeping, s.wakeup, s.ticks, c, User);
    SetHolderLists(s.mlfqs, s.pc, s.info, s.locks, c, l, r.locks[l]);
    SoleHolder(s.info, l, c);
    SetHolderOk(s.pc, s.info, s.locks, c, l, r.info[c]);
    SameHeld(s.info, s.locks, s.semas, c, r.info[c], l, r.locks[l]);
    LeavePc(s.pc, s.locks.Keys, s.semas.Keys, c, User);
    assert s.info[c := r.info[c]] == r.info;
    UpdateKeys(s.locks, l, r.locks[l]);
    UpdateKeys(s.pc, c, User);
    UpdateKeys(s.info, c, r.info[c]);
  }

  // lock_release.

  lemma BeginReleaseLists(mlfqs: bool, pc: Pcs, info: map<Tid, Info>, locks: map<LockId, Lock>, c: Tid, l: LockId,
                          d: int)
    requires ListsOk(mlfqs, pc, info, locks) && c in info && c in pc && pc[c].User? && l in info[c].held
    ensures var i := if mlfqs then info[c]
                     else info[c].(locks := StableSort(LockGreater(locks), Removed(info[c].locks, l)), donated := d);
            ListsOk(mlfqs, pc[c := Releasing(l)], info[c := i], locks)
  {
    hide StableSort, Removed, LockGreater;
    assert ThreadOk(mlfqs, pc[c], info[c], locks.Keys);
    RemovedSorted(LockGreater(locks), info[c].locks, l);
    var q := StableSort(LockGreater(locks), Removed(info[c].locks, l));
    BeginReleaseThread(mlfqs, info[c], q, l, d, locks.Keys);
  }

  lemma BeginReleaseThread(mlfqs: bool, i: Info, q: seq<LockId>, l: LockId, d: int, locks: set<LockId>)
    requires ThreadOk(mlfqs, User, i, locks) && l in i.held
    requires Distinct(q) && forall y :: y in q <==> y in i.locks && y != l
    ensures ThreadOk(mlfqs, Releasing(l), if mlfqs then i else i.(locks := q, donated := d), locks)
  {
  }

  lemma RemovedSorted<T>(less: (T, T) -> bool, s: seq<T>, x: T)
    requires Distinct(s)
    ensures var q := StableSort(less, Removed(s, x));
            Distinct(q) && forall y :: y in q <==> y in s && y != x
  {
    RemovedDistinct(s, x);
    var q := Removed(s, x);
    PermDistinct(q, StableSort(less, q));
    PermElems(q, StableSort(less, q));
  }

  lemma HolderHolds(s: State, l: LockId)
    requires Inv(s) && s.current in s.pc && s.pc[s.current].User? && l in s.locks
    requires s.locks[l].holder == Some(s.current)
    ensures s.current in s.info && l in s.info[s.current].held
  {
  }

  lemma MoveHolderInfo(pc: Pcs, info: map<Tid, Info>, locks: map<LockId, Lock>, c: Tid, i: Info, p: Pc)
    requires HolderOk(pc, info, locks) && c in pc && c in info && i.held == info[c].held
    requires !pc[c].TryHeld? && !pc[c].Releasing2? && !p.TryHeld? && !p.Releasing2?
    ensures HolderOk(pc[c := p], info[c := i], locks)
  {
  }

  lemma BeginReleaseInv(s: State, l: LockId)
    requires Inv(s) && s.current in s.pc && s.pc[s.current].User? && l in s.locks
    requires s.locks[l].holder == Some(s.current) && s.current in s.info
    ensures Inv(BeginRelease(s, l))
  {
    hide RunOk, ReadyOk, BlockedOk, WaitOk, SleepOk, SemaOk, LockOk, HolderOk, ListsOk, QueueOk, LockKeysOk, PcOk,
         StableSort, Removed, LockGreater;
    CurrentFacts(s);
    HolderHolds(s, l);
    var r, c, p := BeginRelease(s, l), s.current, Releasing(l);
    MovePc(s.status, s.pc, s.semas, s.idle, c, p);
    MoveSleep(s.pc, s.sleeping, s.wakeup, s.ticks, c, p);
    BeginReleaseLists(s.mlfqs, s.pc, s.info, s.locks, c, l, r.info[c].donated);
    MoveHolderInfo(s.pc, s.info, s.locks, c, r.info[c], p);
    SameHeld(s.info, s.locks, s.semas, c, r.info[c], l, s.locks[l]);
    LeavePc(s.pc, s.locks.Keys, s.semas.Keys, c, p);
    assert s.info[c := r.info[c]] == r.info && s.locks[l := s.locks[l]] == s.locks;
    UpdateKeys(s.pc, c, p);
    UpdateKeys(s.info, c, r.info[c]);
  }

  lemma ClearHolder(mlfqs: bool, pc: Pcs, info: map<Tid, Info>, locks: map<LockId, Lock>, c: Tid, l: LockId, k: Lock)
    requires HolderOk(pc, info, locks) && ListsOk(mlfqs, pc, info, locks)
    requires l in locks && c in info && c in pc && pc[c] == Releasing(l) && l in info[c].held && k.holder == None
    requires forall t :: t in info && l in info[t].held ==> t == c
    ensures HolderOk(pc[c := Releasing2(l)], info, locks[l := k])
    ensures ListsOk(mlfqs, pc[c := Releasing2(l)], info, locks[l := k])
  {
    assert locks[l := k].Keys == locks.Keys;
    assert ThreadOk(mlfqs, pc[c], info[c], locks.Keys);
    assert ThreadOk(mlfqs, Releasing2(l), info[c], locks.Keys);
  }

  lemma InTransit(s: State)
    requires Inv(s) && s.current in s.pc && s.current in s.info
    requires s.pc[s.current].TryHeld? || s.pc[s.current].Releasing? || s.pc[s.current].Releasing2?
    ensures s.pc[s.current].lock in s.info[s.current].held
  {
    assert ThreadOk(s.mlfqs, s.pc[s.current], s.info[s.current], s.locks.Keys);
  }

  lemma ReleaseHolderInv(s: State, l: LockId)
    requires Inv(s) && s.current in s.pc && s.pc[s.current] == Releasing(l) && l in s.locks && s.current in s.info
    ensures Inv(ReleaseHolder(s, l))
  {
    hide RunOk, ReadyOk, BlockedOk, WaitOk, SleepOk, SemaOk, LockOk, HolderOk, ListsOk, QueueOk, LockKeysOk, PcOk;
    CurrentFacts(s);
    AtMostOne(s, l);
    InTransit(s);
    var r, c, p := ReleaseHolder(s, l), s.current, Releasing2(l);
    SoleHolder(s.info, l, c);
    MovePc(s.status, s.pc, s.semas, s.idle, c, p);
    MoveSleep(s.pc, s.sleeping, s.wakeup, s.ticks, c, p);
    ClearHolder(s.mlfqs, s.pc, s.info, s.locks, c, l, r.locks[l]);
    SameHeld(s.info, s.locks, s.semas, c, s.info[c], l, r.locks[l]);
    LeavePc(s.pc, s.locks.Keys, s.semas.Keys, c, p);
    assert s.info[c := s.info[c]] == s.info;
    UpdateKeys(s.pc, c, p);
    UpdateKeys(s.locks, l, r.locks[l]);
  }

  lemma GiveBack(mlfqs: bool, pc: Pcs, info: map<Tid, Info>, locks: map<LockId, Lock>, c: Tid, l: LockId)
    requires HolderOk(pc, info, locks) && ListsOk(mlfqs, pc, info, locks)
    requires l in locks && c in info && c in pc && pc[c] == Releasing2(l)
    ensures var info' := info[c := info[c].(held := info[c].held - {l})];
            HolderOk(pc[c := Released], info', locks) && ListsOk(mlfqs, pc[c := Released], info', locks)
  {
    assert ThreadOk(mlfqs, pc[c], info[c], locks.Keys);
    assert ThreadOk(mlfqs, Released, info[c].(held := info[c].held - {l}), locks.Keys);
  }

  lemma FreeLock(info: map<Tid, Info>, locks: map<LockId, Lock>, semas: Semas, c: Tid, l: LockId, m: Sema)
    requires LockOk(info, locks, semas) && l in locks && OfLock(l) in semas && c in info && l in info[c].held
    requires m.value == semas[OfLock(l)].value + 1 && m.init == semas[OfLock(l)].init
    ensures LockOk(info[c := info[c].(held := info[c].held - {l})], locks, semas[OfLock(l) := m])
  {
    var info', semas' := info[c := info[c].(held := info[c].held - {l})], semas[OfLock(l) := m];
    forall x | x in locks && OfLock(x) in semas'
      ensures |Holders(info', x)| + semas'[OfLock(x)].value == 1 && semas'[OfLock(x)].init == 1
    {
      if x == l {
        assert Holders(info', l) == Holders(info, l) - {c} && c in Holders(info, l);
      } else {
        assert Holders(info', x) == Holders(info, x);
      }
    }
  }

  lemma GivenUpInv(s: State, l: LockId)
    requires Inv(s) && s.current in s.pc && s.pc[s.current] == Releasing2(l) && l in s.locks && OfLock(l) in s.semas
    requires s.current in s.info
    ensures InvNoLock(GivenUp(s, l))
  {
    hide RunOk, ReadyOk, BlockedOk, WaitOk, SleepOk, SemaOk, LockOk, HolderOk, ListsOk, QueueOk, LockKeysOk, PcOk;
    CurrentFacts(s);
    InTransit(s);
    var c := s.current;
    MovePc(s.status, s.pc, s.semas, s.idle, c, Released);
    MoveSleep(s.pc, s.sleeping, s.wakeup, s.ticks, c, Released);
    GiveBack(s.mlfqs, s.pc, s.info, s.locks, c, l);
    LeavePc(s.pc, s.locks.Keys, s.semas.Keys, c, Released);
    UpdateKeys(s.pc, c, Released);
    UpdateKeys(s.info, c, GivenUp(s, l).info[c]);
  }

  lemma ReleaseUpInv(s: State, l: LockId)
    requires Inv(s) && s.current in s.pc && s.pc[s.current] == Releasing2(l) && l in s.locks && OfLock(l) in s.semas
    requires s.current in s.info
    ensures Inv(ReleaseUp(s, l))
  {
    hide RunOk, ReadyOk, BlockedOk, WaitOk, SleepOk, SemaOk, LockOk, HolderOk, ListsOk, QueueOk, LockKeysOk, PcOk,
         StableSort, InsertOrdered;
    CurrentFacts(s);
    InTransit(s);
    var c := s.current;
    var s1 := GivenUp(s, l);
    GivenUpInv(s, l);
    SemaUpInv(s1, OfLock(l));
    var r := SemaUp(s1, OfLock(l));
    FreeLock(s.info, s.locks, s.semas, c, l, r.semas[OfLock(l)]);
    assert r.semas == s.semas[OfLock(l) := r.semas[OfLock(l)]];
  }

  lemma SetPriorityInv(s: State, p: int)
    requires Inv(s) && s.current in s.prio && s.current in s.info
    ensures Inv(SetPriority(s, p))
  {
    hide RunOk, ReadyOk, BlockedOk, WaitOk, SleepOk, SemaOk, LockOk, HolderOk, ListsOk, LockKeysOk, PcOk;
    CurrentFacts(s);
    if !s.mlfqs {
      var r, c := SetPriority(s, p), s.current;
      BaseOnly(s.mlfqs, s.pc, s.info, s.locks, s.semas, c, r.info[c]);
      UpdateKeys(s.info, c, r.info[c]);
      UpdateKeys(s.prio, c, r.prio[c]);
    }
  }

  lemma BaseOnly(mlfqs: bool, pc: Pcs, info: map<Tid, Info>, locks: map<LockId, Lock>, semas: Semas, c: Tid, i: Info)
    requires HolderOk(pc, info, locks) && ListsOk(mlfqs, pc, info, locks) && LockOk(info, locks, semas)
    requires c in info && c in pc && i == info[c].(base := i.base)
    ensures HolderOk(pc, info[c := i], locks) && ListsOk(mlfqs, pc, info[c := i], locks)
    ensures LockOk(info[c := i], locks, semas)
  {
    assert ThreadOk(mlfqs, pc[c], info[c], locks.Keys);
    assert ThreadOk(mlfqs, pc[c], i, locks.Keys);
    assert forall x :: Holders(info[c := i], x) == Holders(info, x);
  }

  lemma ReleasePriorityInv(s: State)
    requires Inv(s) && s.current in s.pc && s.pc[s.current].Released? && s.current in s.prio && s.current in s.info
    ensures Inv(SetPriority(s, s.info[s.current].base).(pc := s.pc[s.current := User]))
  {
    hide RunOk, ReadyOk, BlockedOk, WaitOk, SleepOk, SemaOk, LockOk, HolderOk, ListsOk, QueueOk, LockKeysOk, PcOk;
    var s1 := SetPriority(s, s.info[s.current].base);
    SetPriorityInv(s, s.info[s.current].base);
    CurrentFacts(s1);
    var c := s.current;
    MovePc(s1.status, s1.pc, s1.semas, s1.idle, c, User);
    MoveSleep(s1.pc, s1.sleeping, s1.wakeup, s1.ticks, c, User);
    MoveHolder(s1.pc, s1.info, s1.locks, c, User);
    LeaveReleased(s1.mlfqs, s1.pc, s1.info, s1.locks, c);
    LeavePc(s1.pc, s1.locks.Keys, s1.semas.Keys, c, User);
    UpdateKeys(s1.pc, c, User);
  }

  lemma LeaveReleased(mlfqs: bool, pc: Pcs, info: map<Tid, Info>, locks: map<LockId, Lock>, c: Tid)
    requires ListsOk(mlfqs, pc, info, locks) && c in pc && c in info && pc[c].Released?
    ensures ListsOk(mlfqs, pc[c := User], info, locks)
  {
    assert ThreadOk(mlfqs, pc[c], info[c], locks.Keys);
    assert ThreadOk(mlfqs, User, info[c], locks.Keys);
  }

  // Steps on the ready list.

  /** Re-sorting the ready list after priorities have changed. */
  lemma Resorted(mlfqs: bool, status: Statuses, prio: map<Tid, int>, ready: seq<Tid>, idle: Tid)
    requires ReadyOk(status, ready, idle) && status.Keys == prio.Keys
    ensures var q := StableSort(PrioGreater(prio), ready);
            ReadyOk(status, q, idle) && QueueOk(mlfqs, prio, q) && |q| == |ready|
  {
    SortedThreads(prio, ready);
  }

  lemma SetNiceInv(s: State, n: int)
    requires Inv(s) && s.current in s.usage
    ensures Inv(SetNice(s, n))
  {
    hide RunOk, ReadyOk, BlockedOk, WaitOk, SleepOk, SemaOk, LockOk, HolderOk, ListsOk, QueueOk, LockKeysOk, PcOk,
         StableSort, PrioGreater;
    CurrentFacts(s);
    var r, c := SetNice(s, n), s.current;
    UpdateKeys(s.prio, c, r.prio[c]);
    UpdateKeys(s.usage, c, r.usage[c]);
    Resorted(s.mlfqs, s.status, r.prio, s.ready, s.idle);
  }

  lemma PreemptReady(mlfqs: bool, status: Statuses, pc: Pcs, prio: map<Tid, int>, ready: seq<Tid>, idle: Tid, c: Tid)
    requires RunOk(status, c, Some(c)) && ReadyOk(status, ready, idle) && QueueOk(mlfqs, prio, ready)
    requires status.Keys == prio.Keys
    ensures var status' := status[c := Ready];
            var ready' := if c == idle then ready else InsertOrdered(PrioGreater(prio), ready, c);
            RunOk(status', c, None) && ReadyOk(status', ready', idle) && QueueOk(mlfqs, prio, ready')
            && SameBlocked(status, status', pc)
  {
    Inserted(PrioGreater(prio), ready, c);
    if mlfqs {
      InsertedSortedThreads(prio, ready, c);
    }
  }

  lemma PreemptedInv(s: State)
    requires Inv(s)
    ensures InvRun(Preempted(s), None)
  {
    hide RunOk, ReadyOk, BlockedOk, WaitOk, SleepOk, SemaOk, LockOk, HolderOk, ListsOk, QueueOk, LockKeysOk, PcOk,
         InsertOrdered, PrioGreater, SameBlocked;
    CurrentFacts(s);
    var r, c := Preempted(s), s.current;
    PreemptReady(s.mlfqs, s.status, s.pc, s.prio, s.ready, s.idle, c);
    SameBlockedLists(s.status, r.status, s.pc, s.semas, s.idle);
    UpdateKeys(s.status, c, Ready);
  }

  lemma YieldInv(s: State)
    requires Inv(s)
    ensures Inv(Yield(s))
  {
    hide InvRun, Inv, Preempted, Schedule;
    PreemptedInv(s);
    ScheduleInv(Preempted(s));
  }

  lemma IdleBlockInv(s: State)
    requires Inv(s) && s.current in s.pc && s.pc[s.current].Idling?
    ensures Inv(Schedule(s.(status := s.status[s.current := Blocked])))
  {
    hide RunOk, ReadyOk, WaitOk, SleepOk, SemaOk, LockOk, HolderOk, ListsOk, QueueOk, LockKeysOk, PcOk, Schedule;
    CurrentFacts(s);
    var r, c := s.(status := s.status[s.current := Blocked]), s.current;
    BlockReady(s.status, s.ready, s.idle, c);
    assert SameBlocked(s.status, r.status, s.pc);
    SameBlockedLists(s.status, r.status, s.pc, s.semas, s.idle);
    UpdateKeys(s.status, c, Blocked);
    assert InvRun(r, None);
    ScheduleInv(r);
  }

  // timer_sleep.

  lemma AsleepLists(status: Statuses, pc: Pcs, semas: Semas, idle: Tid, c: Tid)
    requires c in status && c in pc && status[c] == Running && pc[c].User?
    requires BlockedOk(status, pc, idle) && WaitOk(status, pc, semas) && SemaOk(status, pc, semas)
    ensures var status', pc' := status[c := Blocked], pc[c := Asleep];
            BlockedOk(status', pc', idle) && WaitOk(status', pc', semas) && SemaOk(status', pc', semas)
  {
    var status', pc' := status[c := Blocked], pc[c := Asleep];
    forall i | i in semas
      ensures WaitersOk(status', pc', i, semas[i].waiters) && OneSemaOk(status', pc', i, semas[i])
    {
      assert WaitersOk(status, pc, i, semas[i].waiters) && OneSemaOk(status, pc, i, semas[i]);
      assert forall t :: BlockedOn(status', pc', t, i) <==> BlockedOn(status, pc, t, i);
      assert Woken(status', pc', i) == Woken(status, pc, i);
    }
  }

  lemma WakeWeak(wakeup: map<Tid, int>, s: seq<Tid>)
    requires forall t :: t in s ==> t in wakeup
    ensures StrictWeak(WakesBefore(wakeup), s)
  {
  }

  lemma AsleepSleeping(pc: Pcs, sleeping: seq<Tid>, wakeup: map<Tid, int>, ticks: int, c: Tid, w: int)
    requires SleepOk(pc, sleeping, wakeup, ticks) && c in pc && !pc[c].Asleep? && w > ticks
    ensures SleepOk(pc[c := Asleep], InsertOrdered(WakesBefore(wakeup[c := w]), sleeping, c), wakeup[c := w], ticks)
  {
    var wakeup' := wakeup[c := w];
    Inserted(WakesBefore(wakeup'), sleeping, c);
    SameWakeOrder(wakeup, wakeup', sleeping);
    WakeWeak(wakeup', sleeping + [c]);
    InsertOrderedSorted(WakesBefore(wakeup'), sleeping, c);
    hide InsertOrdered, Sorted, Distinct, WakesBefore;
  }

  lemma SameWakeOrder(wakeup: map<Tid, int>, wakeup': map<Tid, int>, q: seq<Tid>)
    requires Sorted(WakesBefore(wakeup), q)
    requires forall t :: t in q ==> t in wakeup && t in wakeup' && wakeup'[t] == wakeup[t]
    ensures Sorted(WakesBefore(wakeup'), q)
  {
    forall i, j | 0 <= i < j < |q| ensures !WakesBefore(wakeup')(q[j], q[i]) {
      assert !WakesBefore(wakeup)(q[j], q[i]);
      assert q[i] in q && q[j] in q;
    }
  }

  lemma LeaveUser(mlfqs: bool, pc: Pcs, info: map<Tid, Info>, locks: map<LockId, Lock>, c: Tid)
    requires ListsOk(mlfqs, pc, info, locks) && c in pc && c in info && (pc[c].User? || pc[c].Asleep?)
    ensures ListsOk(mlfqs, pc[c := Asleep], info, locks) && ListsOk(mlfqs, pc[c := User], info, locks)
  {
    assert ThreadOk(mlfqs, pc[c], info[c], locks.Keys);
    assert ThreadOk(mlfqs, Asleep, info[c], locks.Keys);
    assert ThreadOk(mlfqs, User, info[c], locks.Keys);
  }

  lemma SleepInv(s: State, n: int)
    requires Inv(s) && s.current in s.pc && s.pc[s.current].User? && n > 0
    ensures Inv(Schedule(FallAsleep(s, n)))
  {
    hide RunOk, ReadyOk, BlockedOk, WaitOk, SleepOk, SemaOk, LockOk, HolderOk, ListsOk, QueueOk, LockKeysOk, PcOk,
         InsertOrdered, WakesBefore, Schedule;
    CurrentFacts(s);
    var r, c := FallAsleep(s, n), s.current;
    BlockReady(s.status, s.ready, s.idle, c);
    AsleepLists(s.status, s.pc, s.semas, s.idle, c);
    AsleepSleeping(s.pc, s.sleeping, s.wakeup, s.ticks, c, s.ticks + n);
    MoveHolder(s.pc, s.info, s.locks, c, Asleep);
    LeaveUser(s.mlfqs, s.pc, s.info, s.locks, c);
    LeavePc(s.pc, s.locks.Keys, s.semas.Keys, c, Asleep);
    UpdateKeys(s.status, c, Blocked);
    UpdateKeys(s.pc, c, Asleep);
    UpdateKeys(s.wakeup, c, s.ticks + n);
    assert InvRun(r, None);
    ScheduleInv(r);
  }

  // thread_create and thread_exit.

  lemma SamePrioOrder(prio: map<Tid, int>, prio': map<Tid, int>, q: seq<Tid>)
    requires Sorted(PrioGreater(prio), q) && forall t :: t in q ==> t in prio && t in prio' && prio'[t] == prio[t]
    ensures Sorted(PrioGreater(prio'), q)
  {
    forall i, j | 0 <= i < j < |q| ensures !PrioGreater(prio')(q[j], q[i]) {
      assert !PrioGreater(prio)(q[j], q[i]);
      assert q[i] in q && q[j] in q;
    }
  }

  lemma BornReady(mlfqs: bool, status: Statuses, prio: map<Tid, int>, ready: seq<Tid>, idle: Tid, current: Tid, t: Tid,
                  p: int)
    requires RunOk(status, current, Some(current)) && ReadyOk(status, ready, idle) && QueueOk(mlfqs, prio, ready)
    requires status.Keys == prio.Keys && t !in status && idle in status
    ensures var status', prio' := status[t := Ready], prio[t := p];
            var ready' := InsertOrdered(PrioGreater(prio'), ready, t);
            RunOk(status', current, Some(current)) && ReadyOk(status', ready', idle) && QueueOk(mlfqs, prio', ready')
  {
    var prio' := prio[t := p];
    Inserted(PrioGreater(prio'), ready, t);
    if mlfqs {
      SamePrioOrder(prio, prio', ready);
      InsertedSortedThreads(prio', ready, t);
    }
  }

  lemma BornLists(status: Statuses, pc: Pcs, semas: Semas, idle: Tid, t: Tid)
    requires t !in status && t !in pc && t != idle
    requires BlockedOk(status, pc, idle) && WaitOk(status, pc, semas) && SemaOk(status, pc, semas)
    ensures var status', pc' := status[t := Ready], pc[t := User];
            BlockedOk(status', pc', idle) && WaitOk(status', pc', semas) && SemaOk(status', pc', semas)
  {
    var status', pc' := status[t := Ready], pc[t := User];
    forall i | i in semas
      ensures WaitersOk(status', pc', i, semas[i].waiters) && OneSemaOk(status', pc', i, semas[i])
    {
      assert WaitersOk(status, pc, i, semas[i].waiters) && OneSemaOk(status, pc, i, semas[i]);
      assert forall x :: BlockedOn(status', pc', x, i) <==> BlockedOn(status, pc, x, i);
      assert Woken(status', pc', i) == Woken(status, pc, i);
    }
  }

  lemma BornSleep(pc: Pcs, sleeping: seq<Tid>, wakeup: map<Tid, int>, ticks: int, t: Tid)
    requires SleepOk(pc, sleeping, wakeup, ticks) && t !in pc
    ensures SleepOk(pc[t := User], sleeping, wakeup[t := 0], ticks)
  {
    SameWakeOrder(wakeup, wakeup[t := 0], sleeping);
  }

  lemma BornLocks(mlfqs: bool, pc: Pcs, info: map<Tid, Info>, locks: map<LockId, Lock>, semas: Semas, t: Tid, i: Info)
    requires HolderOk(pc, info, locks) && ListsOk(mlfqs, pc, info, locks) && LockOk(info, locks, semas)
    requires t !in info && t !in pc && i.held == {} && i.locks == [] && i.waitingLock == None
    ensures var pc', info' := pc[t := User], info[t := i];
            HolderOk(pc', info', locks) && ListsOk(mlfqs, pc', info', locks) && LockOk(info', locks, semas)
  {
    assert ThreadOk(mlfqs, User, i, locks.Keys);
    assert forall x :: Holders(info[t := i], x) == Holders(info, x);
  }

  lemma CreateInv(s: State, t: Tid, p: int)
    requires Inv(s) && s.current in s.usage && t !in s.status
    ensures Inv(Create(s, t, p))
  {
    hide RunOk, ReadyOk, BlockedOk, WaitOk, SleepOk, SemaOk, LockOk, HolderOk, ListsOk, QueueOk, LockKeysOk, PcOk,
         InsertOrdered, PrioGreater;
    var r := Create(s, t, p);
    BornReady(s.mlfqs, s.status, s.prio, s.ready, s.idle, s.current, t, r.prio[t]);
    BornLists(s.status, s.pc, s.semas, s.idle, t);
    BornSleep(s.pc, s.sleeping, s.wakeup, s.ticks, t);
    BornLocks(s.mlfqs, s.pc, s.info, s.locks, s.semas, t, r.info[t]);
    LeavePc(s.pc, s.locks.Keys, s.semas.Keys, t, User);
    UpdateTwice(s.status, t, Blocked, Ready);
    NewKeys(s.status, s.pc, s.prio, s.info, s.usage, s.wakeup, r, t);
  }

  lemma NewKeys(status: Statuses, pc: Pcs, prio: map<Tid, int>, info: map<Tid, Info>, usage: map<Tid, Usage>,
                wakeup: map<Tid, int>, r: State, t: Tid)
    requires pc.Keys == prio.Keys == info.Keys == usage.Keys == wakeup.Keys == status.Keys
    requires t in r.status && r.status == status[t := r.status[t]] && t in r.pc && r.pc == pc[t := r.pc[t]]
    requires t in r.prio && r.prio == prio[t := r.prio[t]] && t in r.info && r.info == info[t := r.info[t]]
    requires t in r.usage && r.usage == usage[t := r.usage[t]] && t in r.wakeup && r.wakeup == wakeup[t := r.wakeup[t]]
    ensures r.pc.Keys == r.prio.Keys == r.info.Keys == r.usage.Keys
            == r.wakeup.Keys == r.status.Keys == status.Keys + {t}
  {
  }

  lemma GoneReady(mlfqs: bool, status: Statuses, prio: map<Tid, int>, ready: seq<Tid>, idle: Tid, c: Tid)
    requires RunOk(status, c, Some(c)) && ReadyOk(status, ready, idle) && QueueOk(mlfqs, prio, ready)
    requires status.Keys == prio.Keys
    ensures RunOk(status - {c}, c, None) && ReadyOk(status - {c}, ready, idle) && QueueOk(mlfqs, prio - {c}, ready)
  {
    if mlfqs {
      SamePrioOrder(prio, prio - {c}, ready);
    }
  }

  lemma GoneLists(status: Statuses, pc: Pcs, semas: Semas, idle: Tid, c: Tid)
    requires c in status && c in pc && status[c] == Running && pc[c].User?
    requires BlockedOk(status, pc, idle) && WaitOk(status, pc, semas) && SemaOk(status, pc, semas)
    ensures var status', pc' := status - {c}, pc - {c};
            BlockedOk(status', pc', idle) && WaitOk(status', pc', semas) && SemaOk(status', pc', semas)
  {
    var status', pc' := status - {c}, pc - {c};
    forall i | i in semas
      ensures WaitersOk(status', pc', i, semas[i].waiters) && OneSemaOk(status', pc', i, semas[i])
    {
      assert WaitersOk(status, pc, i, semas[i].waiters) && OneSemaOk(status, pc, i, semas[i]);
      assert forall x :: BlockedOn(status', pc', x, i) <==> BlockedOn(status, pc, x, i);
      assert Woken(status', pc', i) == Woken(status, pc, i);
    }
  }

  lemma GoneSleep(pc: Pcs, sleeping: seq<Tid>, wakeup: map<Tid, int>, ticks: int, c: Tid)
    requires SleepOk(pc, sleeping, wakeup, ticks) && c in pc && pc[c].User?
    ensures SleepOk(pc - {c}, sleeping, wakeup - {c}, ticks)
  {
    SameWakeOrder(wakeup, wakeup - {c}, sleeping);
  }

  lemma GoneLocks(mlfqs: bool, pc: Pcs, info: map<Tid, Info>, locks: map<LockId, Lock>, semas: Semas, c: Tid)
    requires HolderOk(pc, info, locks) && ListsOk(mlfqs, pc, info, locks) && LockOk(info, locks, semas)
    requires c in info && c in pc && info[c].held == {}
    ensures HolderOk(pc - {c}, info - {c}, locks) && ListsOk(mlfqs, pc - {c}, info - {c}, locks)
    ensures LockOk(info - {c}, locks, semas)
  {
    assert forall x :: Holders(info - {c}, x) == Holders(info, x);
    assert forall l :: l in locks ==> locks[l].holder != Some(c);
  }

  lemma ExitInv(s: State)
    requires Inv(s) && s.current in s.pc && s.pc[s.current].User? && s.current in s.info
    requires s.info[s.current].held == {} && s.current != s.idle
    ensures Inv(Schedule(Exited(s)))
  {
    hide RunOk, ReadyOk, BlockedOk, WaitOk, SleepOk, SemaOk, LockOk, HolderOk, ListsOk, QueueOk, LockKeysOk, PcOk,
         Schedule;
    CurrentFacts(s);
    var r, c := Exited(s), s.current;
    GoneReady(s.mlfqs, s.status, s.prio, s.ready, s.idle, c);
    GoneLists(s.status, s.pc, s.semas, s.idle, c);
    GoneSleep(s.pc, s.sleeping, s.wakeup, s.ticks, c);
    GoneLocks(s.mlfqs, s.pc, s.info, s.locks, s.semas, c);
    GonePc(s.pc, s.locks.Keys, s.semas.Keys, c);
    assert InvRun(r, None);
    ScheduleInv(r);
  }

  lemma GonePc(pc: Pcs, locks: set<LockId>, semas: set<SemaId>, c: Tid)
    requires PcOk(pc, locks, semas)
    ensures PcOk(pc - {c}, locks, semas)
  {
  }

  /** sema_up changes the ready list, the statuses and its own semaphore. */
  lemma UpIs(s: State, id: SemaId)
    requires id in s.semas
    ensures var r := SemaUp(s, id);
            && id in r.semas && r.semas[id].value == s.semas[id].value + 1
            && r == s.(ready := r.ready, status := r.status, semas := s.semas[id := r.semas[id]])
  {
    hide StableSort, InsertOrdered, PrioGreater;
    if s.semas[id].waiters != [] {
      var q := StableSort(PrioGreater(s.prio), s.semas[id].waiters);
      var m := s.semas[id];
      assert SemaUp(s, id).semas == s.semas[id := m.(waiters := q[1..], value := m.value + 1, ups := m.ups + 1)];
    }
  }
}
