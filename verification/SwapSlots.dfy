/** Accounting of swap slots: over every run, which marked slots belong to no page (vm/swap.c with
    vm/frame.c, vm/page.c and vm/mmap.c). */
module SwapSlots {
  import opened Wrappers
  import opened Orders
  import opened Paging
  import opened PagingInv
  import opened PagingRuns
  import BM = Bitmap

  /** Some page has slot `k` for its own. */
  ghost predicate Owned(pages: Pages, k: nat) {
    exists p :: p in pages && Owns(pages[p]) && pages[p].slot == k * SECTORS_PER_PAGE
  }

  /** Slot `k` is marked and nobody's. */
  ghost predicate Stray(pages: Pages, used: seq<bool>, k: nat) {
    k < |used| && used[k] && !Owned(pages, k)
  }

  /** The page is out of memory, in the slot whose number is also the mark for no slot. */
  ghost predicate InSlotZero(vm: Vm, p: Pid) {
    p in vm.pages && vm.pages[p].kind == Swapped && vm.pages[p].frame.None? && vm.pages[p].slot == 0
  }

  /** The step forgets slot 0: spt_destroy_func of a page in it, or vm_load_page of one. */
  ghost predicate ForgetsSlot(vm: Vm, step: Step) {
    (step.DestroyStep? || (step.LoadStep? && step.mapped)) && InSlotZero(vm, step.page)
  }

  // Changes of one page.

  /** The page owns what it owned. */
  lemma SameOwner(pages: Pages, used: seq<bool>, p: Pid, e: Page, k: nat)
    requires p in pages ==> (Owns(e) <==> Owns(pages[p])) && (Owns(e) ==> e.slot == pages[p].slot)
    requires p !in pages ==> !Owns(e)
    ensures Stray(pages[p := e], used, k) <==> Stray(pages, used, k)
  {
    hide Owns;
    if Owned(pages, k) {
      var q :| q in pages && Owns(pages[q]) && pages[q].slot == k * SECTORS_PER_PAGE;
      assert q in pages[p := e] && Owns(pages[p := e][q]);
    }
  }

  /** The page gets slot `n`, which was free, or writes to the one it has. */
  lemma NewOwner(pages: Pages, used: seq<bool>, p: Pid, e: Page, n: nat, k: nat)
    requires p in pages && n < |used| && Owns(e) && e.slot == n * SECTORS_PER_PAGE
    requires if Owns(pages[p]) then pages[p].slot == e.slot else !used[n]
    ensures Stray(pages[p := e], used[n := true], k) <==> Stray(pages, used, k)
  {
    hide Owns;
    var r := pages[p := e];
    SlotArithmetic(n);
    SlotArithmetic(k);
    if k == n {
      assert p in r && Owns(r[p]) && r[p].slot == k * SECTORS_PER_PAGE;
      assert Owns(pages[p]) ==> Owned(pages, k);
    } else if Owned(pages, k) {
      var q :| q in pages && Owns(pages[q]) && pages[q].slot == k * SECTORS_PER_PAGE;
      assert q in r && Owns(r[q]);
    }
  }

  /** The page, or its entry, no longer owns a slot: if it had one that is not given back, that one
      is nobody's. */
  lemma OwnerGone(pages: Pages, r: Pages, used: seq<bool>, p: Pid, free: bool, k: nat)
    requires SlotsOk(pages, used) && p in pages && (free ==> Owns(pages[p]))
    requires p in r ==> !Owns(r[p])
    requires forall q :: q != p ==> (q in r <==> q in pages) && (q in r ==> r[q] == pages[q])
    ensures var used' := if free then SwapFree(used, pages[p].slot) else used;
            Stray(r, used', k) <==>
              Stray(pages, used, k) || (Owns(pages[p]) && !free && pages[p].slot == k * SECTORS_PER_PAGE)
  {
    hide Owns;
    var e := pages[p];
    SlotArithmetic(k);
    if Owns(e) {
      assert SlotOk(e.slot, used);
      SlotSame(e.slot);
    }
    if Owned(pages, k) {
      var q :| q in pages && Owns(pages[q]) && pages[q].slot == k * SECTORS_PER_PAGE;
      assert q != p ==> q in r && Owns(r[q]);
    }
    if Owned(r, k) {
      var q :| q in r && Owns(r[q]) && r[q].slot == k * SECTORS_PER_PAGE;
      assert q in pages && Owns(pages[q]);
    }
  }

  // Steps.

  lemma EvictStray(vm: Vm, k: nat)
    requires Inv(vm) && Evict(vm).Some?
    ensures var v := Evict(vm).value.0;
            |v.used| == |vm.used| && (Stray(v.pages, v.used, k) <==> Stray(vm.pages, vm.used, k))
  {
    hide Inv, Clock, HandIndex, Stray;
    ListedFrames(vm);
    var r := Clock(vm.table, vm.frames, HandIndex(vm), vm.accessed, 2 * |vm.table|);
    var p := vm.frames[vm.table[r.index]].spte.value;
    var e := vm.pages[p];
    VictimFacts(vm, r.index, p);
    var v := Evict(vm).value.0;
    if p !in vm.dirty && e.kind != Swapped {
      SameOwner(vm.pages, vm.used, p, e.(frame := None), k);
    } else if e.kind == Swapped && e.slot != 0 {
      OwnSlot(vm, p);
      NewOwner(vm.pages, vm.used, p, v.pages[p], e.slot / SECTORS_PER_PAGE, k);
      assert v.pages == vm.pages[p := v.pages[p]];
    } else {
      var n := BM.Scanned(vm.used, 0, 1, false).value;
      assert BM.Group(vm.used, n, 1, false) && !vm.used[n];
      NewOwner(vm.pages, vm.used, p, v.pages[p], n, k);
      assert v.pages == vm.pages[p := v.pages[p]];
    }
  }

  lemma AllocStray(vm: Vm, fid: Fid, choice: Kpage, k: nat)
    requires Inv(vm) && FrameAlloc(vm, fid, choice).Some?
    ensures var v := FrameAlloc(vm, fid, choice).value.0;
            |v.used| == |vm.used| && (Stray(v.pages, v.used, k) <==> Stray(vm.pages, vm.used, k))
  {
    hide Inv, Evict, Stray;
    if vm.pool == {} { EvictStray(vm, k); }
  }

  lemma FilledStray(v: Vm, p: Pid, fid: Fid, n: Kpage, fault: bool, pin: bool, k: nat)
    requires Inv(v) && p in v.pages && v.pages[p].frame.None?
    ensures var r, e := Filled(v, p, fid, n, fault, pin), v.pages[p];
            && |r.used| == |v.used|
            && (Stray(r.pages, r.used, k) <==>
                  Stray(v.pages, v.used, k) || (k == 0 && !fault && e.kind == Swapped && e.slot == 0))
  {
    hide TableOk, MemOk, LinkOk, CleanOk, FilesOk, Stray, Backing, SwapFree;
    var r, e := Filled(v, p, fid, n, fault, pin), v.pages[p];
    if e.kind == Swapped && (fault || e.slot == 0) {
      OwnerGone(v.pages, r.pages, v.used, p, fault, k);
      SlotArithmetic(k);
    } else {
      SameOwner(v.pages, v.used, p, r.pages[p], k);
    }
  }

  lemma LoadStray(vm: Vm, p: Pid, fid: Fid, choice: Kpage, fault: bool, pin: bool, mapped: bool, k: nat)
    requires Inv(vm) && p in vm.pages && vm.pages[p].frame.None? && fid !in vm.frames
    requires Load(vm, p, fid, choice, fault, pin, mapped).Some?
    ensures var r := Load(vm, p, fid, choice, fault, pin, mapped).value;
            && |r.used| == |vm.used|
            && (Stray(r.pages, r.used, k) <==>
                  Stray(vm.pages, vm.used, k) || (k == 0 && !fault && mapped && InSlotZero(vm, p)))
  {
    hide Inv, FrameAlloc, Filled, Stray, Shown;
    FrameAllocInv(vm, fid, choice);
    AllocStray(vm, fid, choice, k);
    var (v, n) := FrameAlloc(vm, fid, choice).value;
    if mapped { FilledStray(v, p, fid, n, fault, pin, k); }
  }

  lemma DestroyStray(vm: Vm, p: Pid, k: nat)
    requires Inv(vm) && p in vm.pages
    ensures var r := Destroyed(vm, p);
            && |r.used| == |vm.used|
            && (Stray(r.pages, r.used, k) <==> Stray(vm.pages, vm.used, k) || (k == 0 && InSlotZero(vm, p)))
  {
    hide TableOk, MemOk, LinkOk, CleanOk, FilesOk, Stray, Removed, SwapFree;
    var e := vm.pages[p];
    OwnerGone(vm.pages, vm.pages - {p}, vm.used, p, e.kind == Swapped && e.slot != 0, k);
    SlotArithmetic(k);
  }

  lemma UnmapStray(vm: Vm, p: Pid, buffer: bool, k: nat)
    requires Inv(vm) && p in vm.pages
    ensures var r := Unmapped(vm, p, buffer);
            |r.used| == |vm.used| && (Stray(r.pages, r.used, k) <==> Stray(vm.pages, vm.used, k))
  {
    hide TableOk, MemOk, LinkOk, CleanOk, FilesOk, Stray, Removed, SwapFree, Unmapped, WrittenFile, Shown, WritesBack,
         Owns;
    var free := UnmappedIs(vm, p, buffer);
    OwnerGone(vm.pages, vm.pages - {p}, vm.used, p, free, k);
  }

  /** A step makes a slot nobody's exactly if it forgets slot 0; and a slot that is nobody's stays
      so for ever. */
  lemma NextStray(vm: Vm, step: Step, k: nat)
    requires Inv(vm) && Enabled(vm, step)
    ensures var r := Next(vm, step);
            && |r.used| == |vm.used|
            && (Stray(r.pages, r.used, k) <==>
                  Stray(vm.pages, vm.used, k) || (k == 0 && ForgetsSlot(vm, step)))
  {
    hide Inv, Stray, Load, Destroyed, Unmapped, InMemory, Harmless, FileOk, HandOk;
    match step
    case FaultStep(p, fid, choice) => LoadStray(vm, p, fid, choice, true, false, true, k);
    case LoadStep(p, fid, choice, pin, mapped) => LoadStray(vm, p, fid, choice, false, pin, mapped, k);
    case AddStep(p, e) => SameOwner(vm.pages, vm.used, p, e, k);
    case DestroyStep(p) => DestroyStray(vm, p, k);
    case UnmapStep(p, buffer) => UnmapStray(vm, p, buffer, k);
    case _ =>
  }

  // Runs.

  /** Some step of the run forgets slot 0. */
  ghost predicate Forgets(vm: Vm, steps: seq<Step>)
    requires Legal(vm, steps)
    decreases |steps|
  {
    steps != [] && (ForgetsSlot(vm, steps[0]) || Forgets(Next(vm, steps[0]), steps[1..]))
  }

  lemma {:induction false} RunStray(vm: Vm, steps: seq<Step>, k: nat)
    requires Inv(vm) && Legal(vm, steps)
    ensures var r := After(vm, steps);
            && Inv(r) && |r.used| == |vm.used|
            && (Stray(r.pages, r.used, k) <==>
                  Stray(vm.pages, vm.used, k) || (k == 0 && Forgets(vm, steps)))
    decreases |steps|
  {
    hide Inv, Enabled, Next, Stray, ForgetsSlot;
    if steps != [] {
      NextInv(vm, steps[0]);
      NextStray(vm, steps[0], k);
      RunStray(Next(vm, steps[0]), steps[1..], k);
    }
  }

  /** From the start, after every run, a slot other than the first is marked exactly if a page owns
      it; the first is, exactly unless a step of the run has forgotten it. */
  lemma SlotsExact(mem: map<Kpage, Data>, swap: seq<Data>, files: map<FileId, Data>, steps: seq<Step>, k: nat)
    requires (forall n :: n in mem ==> |mem[n]| == 4096) && (forall n :: 0 <= n < |swap| ==> |swap[n]| == 4096)
    requires Legal(Empty(mem, swap, files), steps) && k < |swap|
    ensures var s := Empty(mem, swap, files);
            var r := After(s, steps);
            |r.used| == |swap| && (r.used[k] <==> Owned(r.pages, k) || (k == 0 && Forgets(s, steps)))
  {
    hide Inv, Legal, After, Forgets;
    var s := Empty(mem, swap, files);
    BootInv(mem, swap, files);
    assert !Stray(s.pages, s.used, k);
    RunStray(s, steps, k);
    var r := After(s, steps);
    if Owned(r.pages, k) { OwnedMarked(r, k); }
  }

  lemma OwnedMarked(vm: Vm, k: nat)
    requires Inv(vm) && Owned(vm.pages, k)
    ensures k < |vm.used| && vm.used[k]
  {
    hide TableOk, MemOk, LinkOk, CleanOk, FilesOk, Owns;
    var p :| p in vm.pages && Owns(vm.pages[p]) && vm.pages[p].slot == k * SECTORS_PER_PAGE;
    assert SlotOk(vm.pages[p].slot, vm.used);
    SlotArithmetic(k);
  }

  // A run that forgets slot 0, with one page of memory and one slot.

  function Fresh(): Page { Page(Zero, 0, 0, 0, 0, None) }

  function Ones(): Data { Zeros()[0 := 1] }

  function Start(): Vm { Empty(map[0 := Zeros()], [Zeros()], map[]) }

  /** Page 0 is in memory. */
  function Loaded(): Vm {
    Vm(map[0 := Fresh().(frame := Some(0))], [0], map[0 := Frame(0, Some(0), false)], Null,
       map[0 := Zeros()], {}, {}, {}, [false], [Zeros()], map[])
  }

  /** It has been written to, and page 1 has been made. */
  function Before(): Vm {
    Loaded().(pages := map[0 := Fresh().(frame := Some(0)), 1 := Fresh()], mem := map[0 := Ones()],
              accessed := {0}, dirty := {0})
  }

  lemma LegalMore(vm: Vm, step: Step, steps: seq<Step>)
    requires Enabled(vm, step) && Legal(Next(vm, step), steps)
    ensures Legal(vm, [step] + steps)
    ensures Forgets(vm, [step] + steps) <==> ForgetsSlot(vm, step) || Forgets(Next(vm, step), steps)
  {
    hide Enabled, Next, ForgetsSlot;
    assert ([step] + steps)[1..] == steps;
  }

  /** Two pages are made, the first is loaded and written to. */
  lemma FirstSteps(steps: seq<Step>) returns (all: seq<Step>)
    requires Legal(Before(), steps) && Forgets(Before(), steps)
    ensures Legal(Start(), all) && Forgets(Start(), all)
  {
    StepsTo();
    var a, c := Start(), Loaded();
    var b := a.(pages := map[0 := Fresh()]);
    var d := c.(mem := map[0 := Ones()], accessed := {0}, dirty := {0});
    hide Legal, Forgets, ForgetsSlot, Next, Start, Before, Loaded;
    LegalMore(d, AddStep(1, Fresh()), steps);
    all := [AddStep(1, Fresh())] + steps;
    LegalMore(c, WriteStep(0, 0, 1), all);
    all := [WriteStep(0, 0, 1)] + all;
    LegalMore(b, FaultStep(0, 0, 0), all);
    all := [FaultStep(0, 0, 0)] + all;
    LegalMore(a, AddStep(0, Fresh()), all);
    all := [AddStep(0, Fresh())] + all;
  }

  /** The states on the way. */
  lemma StepsTo()
    ensures var (a, c) := (Start(), Loaded());
            var b := a.(pages := map[0 := Fresh()]);
            var d := c.(mem := map[0 := Ones()], accessed := {0}, dirty := {0});
            && Enabled(a, AddStep(0, Fresh())) && Next(a, AddStep(0, Fresh())) == b
            && Enabled(b, FaultStep(0, 0, 0)) && Next(b, FaultStep(0, 0, 0)) == c
            && Enabled(c, WriteStep(0, 0, 1)) && Next(c, WriteStep(0, 0, 1)) == d
            && Enabled(d, AddStep(1, Fresh())) && Next(d, AddStep(1, Fresh())) == Before()
  {
    var d := Loaded().(mem := map[0 := Ones()], accessed := {0}, dirty := {0});
    Faults();
    assert d.pages[1 := Fresh()] == Before().pages;
  }

  lemma BeforeInv()
    ensures Inv(Before())
  {
    hide Inv, Next, Enabled, Start, Before, Loaded;
    StepsTo();
    var a, c := Start(), Loaded();
    var b := a.(pages := map[0 := Fresh()]);
    var d := c.(mem := map[0 := Ones()], accessed := {0}, dirty := {0});
    StartInv();
    NextInv(a, AddStep(0, Fresh()));
    NextInv(b, FaultStep(0, 0, 0));
    NextInv(c, WriteStep(0, 0, 1));
    NextInv(d, AddStep(1, Fresh()));
  }

  lemma StartInv()
    ensures Inv(Start())
  {
    BootInv(map[0 := Zeros()], [Zeros()], map[]);
  }

  lemma Faults()
    ensures var b := Start().(pages := map[0 := Fresh()]);
            Enabled(b, FaultStep(0, 0, 0)) && Next(b, FaultStep(0, 0, 0)) == Loaded()
  {
    var b := Start().(pages := map[0 := Fresh()]);
    assert b.pool == {0} && b.pool - {0} == {};
  }

  /** Loading page 1 sends page 0 to slot 0. */
  lemma Evicts()
    ensures var vm := Before();
            && Enabled(vm, FaultStep(1, 1, 0))
            && InSlotZero(Next(vm, FaultStep(1, 1, 0)), 0)
  {
    var vm := Before();
    assert Evict(vm).Some? && InSlotZero(Evict(vm).value.0, 0) by { OneFrame(); }
    hide Evict;
  }

  lemma OneFrame()
    ensures var vm := Before(); Evict(vm).Some? && InSlotZero(Evict(vm).value.0, 0)
  {
    var vm := Before();
    assert Clock(vm.table, vm.frames, 1, {0}, 2) == Clock(vm.table, vm.frames, 1, {}, 1) == Victim(0, {});
    assert BM.Group(vm.used, 0, 1, false);
  }

  /** Then destroying page 0 forgets the slot. */
  lemma LastSteps() returns (steps: seq<Step>)
    ensures Legal(Before(), steps) && Forgets(Before(), steps)
  {
    Evicts();
    hide Before, Next;
    var a, one, two := Before(), FaultStep(1, 1, 0), DestroyStep(0);
    var b := Next(a, one);
    assert Enabled(b, two) && ForgetsSlot(b, two);
    hide Enabled, ForgetsSlot, InSlotZero;
    LegalMore(b, two, []);
    LegalMore(a, one, [two] + []);
    steps := [one] + ([two] + []);
  }

  /** So after this run the slot is marked, though no page has it. */
  lemma SlotLost() returns (steps: seq<Step>)
    ensures Legal(Start(), steps)
    ensures var r := After(Start(), steps); r.used == [true] && !Owned(r.pages, 0)
  {
    hide Legal, Forgets, After, Before, Inv;
    var last := LastSteps();
    steps := FirstSteps(last);
    BootInv(map[0 := Zeros()], [Zeros()], map[]);
    RunStray(Start(), steps, 0);
  }
}
