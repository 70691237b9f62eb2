/** Accounting of physical memory and pinned frames over every run (vm/frame.c). */
module FrameAccounts {
  import opened Wrappers
  import opened Orders
  import opened Storage
  import opened Paging
  import opened PagingInv
  import opened PagingRuns
  import SwapSlots

  // Memory.

  /** Page `k` of memory is free or some frame is on it. */
  ghost predicate Accounted(frames: Frames, pool: set<Kpage>, k: Kpage) {
    k in pool || exists f :: f in frames && frames[f].kpage == k
  }

  /** The memory is the same, and a page that was accounted for still is, but for `out`. */
  ghost predicate Conserved(vm: Vm, r: Vm, out: Option<Kpage>) {
    && r.mem.Keys == vm.mem.Keys
    && forall k: Kpage :: Accounted(vm.frames, vm.pool, k) && out != Some(k) ==> Accounted(r.frames, r.pool, k)
  }

  lemma FreeConserves(vm: Vm, fid: Fid)
    requires fid in vm.frames
    ensures Conserved(vm, FrameFree(vm, fid), None)
  {
    hide Removed;
    var r := FrameFree(vm, fid);
    forall k | Accounted(vm.frames, vm.pool, k) ensures Accounted(r.frames, r.pool, k) {
      if k !in vm.pool && k != vm.frames[fid].kpage {
        var f :| f in vm.frames && vm.frames[f].kpage == k;
        assert f in r.frames && r.frames[f].kpage == k;
      }
    }
  }

  /** Eviction gives up the victim's page and no other. */
  lemma EvictConserves(vm: Vm)
    requires Inv(vm) && Evict(vm).Some?
    ensures Conserved(vm, Evict(vm).value.0, Some(Evict(vm).value.1))
  {
    hide Inv, Clock, HandIndex;
    ListedFrames(vm);
    var (r, k) := Evict(vm).value;
    var i := Clock(vm.table, vm.frames, HandIndex(vm), vm.accessed, 2 * |vm.table|).index;
    VictimFacts(vm, i, vm.frames[vm.table[i]].spte.value);
    assert r.frames == vm.frames - {vm.table[i]} && r.pool == vm.pool && r.mem == vm.mem;
    forall n | Accounted(vm.frames, vm.pool, n) && n != k ensures Accounted(r.frames, r.pool, n) {
      if n !in vm.pool {
        var f :| f in vm.frames && vm.frames[f].kpage == n;
        assert f in r.frames && r.frames[f].kpage == n;
      }
    }
  }

  /** frame_alloc accounts for the page it takes. */
  lemma AllocConserves(vm: Vm, fid: Fid, choice: Kpage)
    requires Inv(vm) && fid !in vm.frames && FrameAlloc(vm, fid, choice).Some?
    ensures Conserved(vm, FrameAlloc(vm, fid, choice).value.0, None)
  {
    hide Inv, Evict;
    PoolMem(vm);
    var (r, k) := FrameAlloc(vm, fid, choice).value;
    var v := vm.(pool := vm.pool - {choice});
    if vm.pool == {} {
      EvictConserves(vm);
      EvictInv(vm);
      v := Evict(vm).value.0;
    }
    assert r.frames == v.frames[fid := Frame(k, None, false)] && r.pool == v.pool && k in v.mem;
    assert r.frames[fid].kpage == k;
    forall n | Accounted(vm.frames, vm.pool, n) ensures Accounted(r.frames, r.pool, n) {
      if n != k && n !in r.pool {
        assert Accounted(v.frames, v.pool, n);
        var f :| f in v.frames && v.frames[f].kpage == n;
        NotNew(vm, v, fid, f);
        assert f in r.frames && r.frames[f].kpage == n;
      }
    }
  }

  lemma NotNew(vm: Vm, v: Vm, fid: Fid, f: Fid)
    requires fid !in vm.frames && v.frames.Keys <= vm.frames.Keys && f in v.frames
    ensures f != fid
  {
  }

  lemma PoolMem(vm: Vm)
    requires Inv(vm)
    ensures forall k :: k in vm.pool ==> k in vm.mem
  {
    hide TableOk, LinkOk, SlotsOk, CleanOk, FilesOk;
  }

  lemma Chain(vm: Vm, v: Vm, r: Vm)
    requires Conserved(vm, v, None) && Conserved(v, r, None)
    ensures Conserved(vm, r, None)
  {
  }

  lemma Unmoved(vm: Vm, r: Vm)
    requires r.mem.Keys == vm.mem.Keys && r.pool == vm.pool && r.frames.Keys == vm.frames.Keys
    requires forall f :: f in vm.frames ==> r.frames[f].kpage == vm.frames[f].kpage
    ensures Conserved(vm, r, None)
  {
    forall k | Accounted(vm.frames, vm.pool, k) ensures Accounted(r.frames, r.pool, k) {
      if k !in vm.pool {
        var f :| f in vm.frames && vm.frames[f].kpage == k;
        assert f in r.frames && r.frames[f].kpage == k;
      }
    }
  }

  lemma LoadConserves(vm: Vm, p: Pid, fid: Fid, choice: Kpage, fault: bool, pin: bool, mapped: bool)
    requires Inv(vm) && p in vm.pages && vm.pages[p].frame.None? && fid !in vm.frames
    requires Load(vm, p, fid, choice, fault, pin, mapped).Some?
    ensures Conserved(vm, Load(vm, p, fid, choice, fault, pin, mapped).value, None)
  {
    hide Inv, FrameAlloc, Conserved, Backing, Shown;
    FrameAllocInv(vm, fid, choice);
    AllocConserves(vm, fid, choice);
    var (v, k) := FrameAlloc(vm, fid, choice).value;
    if mapped {
      Unmoved(v, Filled(v, p, fid, k, fault, pin));
      Chain(vm, v, Filled(v, p, fid, k, fault, pin));
    } else {
      FreeConserves(v, fid);
      Chain(vm, v, FrameFree(v, fid));
    }
  }

  lemma GoneConserves(vm: Vm, p: Pid, free: bool, files: map<FileId, Data>)
    requires p in vm.pages
    ensures Conserved(vm, Gone(vm, p, free, files), None)
  {
    hide Conserved, FrameFree, SwapFree;
    var e := vm.pages[p];
    var v := if e.frame.Some? && e.frame.value in vm.frames then FrameFree(vm, e.frame.value) else vm;
    Unmoved(vm, vm);
    if e.frame.Some? && e.frame.value in vm.frames { FreeConserves(vm, e.frame.value); }
    Unmoved(v, Gone(vm, p, free, files));
    Chain(vm, v, Gone(vm, p, free, files));
  }

  /** Every step conserves memory. */
  lemma NextConserves(vm: Vm, step: Step)
    requires Inv(vm) && Enabled(vm, step)
    ensures Conserved(vm, Next(vm, step), None)
  {
    hide Inv, Conserved, Load, Unmapped, Harmless, FileOk, HandOk, Shown, WrittenFile, WritesBack;
    match step
    case FaultStep(p, fid, choice) => LoadConserves(vm, p, fid, choice, true, false, true);
    case LoadStep(p, fid, choice, pin, mapped) => LoadConserves(vm, p, fid, choice, false, pin, mapped);
    case DestroyStep(p) =>
      var e := vm.pages[p];
      GoneConserves(vm, p, e.kind == Swapped && e.slot != 0, vm.files);
      assert Destroyed(vm, p) == Gone(vm, p, e.kind == Swapped && e.slot != 0, vm.files);
    case UnmapStep(p, buffer) =>
      var free := UnmappedIs(vm, p, buffer);
      GoneConserves(vm, p, free, if WritesBack(vm, p, buffer) then WrittenFile(vm.files, vm.pages[p], Shown(vm, p))
                                 else vm.files);
    case _ => Unmoved(vm, Next(vm, step));
  }

  lemma {:induction false} RunConserves(vm: Vm, steps: seq<Step>)
    requires Inv(vm) && Legal(vm, steps)
    ensures Conserved(vm, After(vm, steps), None)
    decreases |steps|
  {
    hide Inv, Enabled, Next, Conserved;
    Unmoved(vm, vm);
    if steps != [] {
      NextInv(vm, steps[0]);
      NextConserves(vm, steps[0]);
      RunConserves(Next(vm, steps[0]), steps[1..]);
      Chain(vm, Next(vm, steps[0]), After(vm, steps));
    }
  }

  /** From the start, after every run, each page of memory is free or in exactly one frame. */
  lemma MemoryExact(mem: map<Kpage, Data>, swap: seq<Data>, files: map<FileId, Data>, steps: seq<Step>, k: Kpage)
    requires (forall n :: n in mem ==> |mem[n]| == 4096) && (forall n :: 0 <= n < |swap| ==> |swap[n]| == 4096)
    requires Legal(Empty(mem, swap, files), steps) && k in mem
    ensures var r := After(Empty(mem, swap, files), steps);
            && k in r.mem
            && (k !in r.pool <==> exists f :: f in r.frames && r.frames[f].kpage == k)
            && (forall f, g :: f in r.frames && g in r.frames && r.frames[f].kpage == k == r.frames[g].kpage ==> f == g)
  {
    hide Inv, Legal, After;
    var s := Empty(mem, swap, files);
    BootInv(mem, swap, files);
    RunConserves(s, steps);
    RunInv(s, steps);
    var r := After(s, steps);
    assert Accounted(s.frames, s.pool, k);
    assert Accounted(r.frames, r.pool, k);
    FramesApart(r);
  }

  lemma FramesApart(vm: Vm)
    requires Inv(vm)
    ensures forall f :: f in vm.frames ==> vm.frames[f].kpage !in vm.pool
    ensures forall f, g :: f in vm.frames && g in vm.frames && vm.frames[f].kpage == vm.frames[g].kpage ==> f == g
  {
    hide MemOk, LinkOk, SlotsOk, CleanOk, FilesOk, Distinct;
  }

  // Pinned pages.

  /** Page `p` is in a frame that is pinned. */
  ghost predicate PinnedIn(vm: Vm, p: Pid) { InMemory(vm, p) && vm.frames[vm.pages[p].frame.value].pinned }

  /** A page that is loaded is in the new frame, last in the table, pinned exactly if that is asked
      for, and has neither been accessed nor changed. A page that cannot be mapped stays out and its
      frame is given back. */
  lemma LoadExact(vm: Vm, p: Pid, fid: Fid, choice: Kpage, fault: bool, pin: bool, mapped: bool)
    requires Inv(vm) && p in vm.pages && vm.pages[p].frame.None? && fid !in vm.frames
    requires FrameAlloc(vm, fid, choice).Some?
    ensures var l := Load(vm, p, fid, choice, fault, pin, mapped);
            && l.Some?
            && (mapped ==> && InMemory(l.value, p) && l.value.pages[p].frame == Some(fid)
                           && l.value.frames[fid].pinned == pin && Last(l.value.table, fid)
                           && p !in l.value.accessed && p !in l.value.dirty)
            && (!mapped ==> && p in l.value.pages && l.value.pages[p] == vm.pages[p] && fid !in l.value.frames
                            && l.value.pool != {})
  {
    hide Inv, Evict, Backing, Zeros;
    FrameAllocInv(vm, fid, choice);
    AllocIs(vm, p, fid, choice);
    hide FrameAlloc;
  }

  lemma AllocIs(vm: Vm, p: Pid, fid: Fid, choice: Kpage)
    requires Inv(vm) && p in vm.pages && vm.pages[p].frame.None? && FrameAlloc(vm, fid, choice).Some?
    ensures var (v, k) := FrameAlloc(vm, fid, choice).value;
            && p in v.pages && v.pages[p] == vm.pages[p] && k in v.mem && Last(v.table, fid)
            && fid in v.frames && v.frames[fid].kpage == k
  {
    hide Inv, Evict, Zeros;
    if vm.pool == {} { EvictEntry(vm, p); }
  }

  predicate Last(table: seq<Fid>, fid: Fid) { table != [] && table[|table| - 1] == fid }

  lemma EvictEntry(vm: Vm, p: Pid)
    requires Inv(vm) && Evict(vm).Some? && p in vm.pages && vm.pages[p].frame.None?
    ensures p in Evict(vm).value.0.pages && Evict(vm).value.0.pages[p] == vm.pages[p]
  {
    hide Inv, Clock, HandIndex;
    ListedFrames(vm);
    var i := Clock(vm.table, vm.frames, HandIndex(vm), vm.accessed, 2 * |vm.table|).index;
    VictimFacts(vm, i, vm.frames[vm.table[i]].spte.value);
  }

  /** vm_load_page: a page that is in memory already is left as it is. */
  ghost function LoadPage(vm: Vm, p: Pid, fid: Fid, choice: Kpage, pin: bool, mapped: bool): Option<Vm>
    requires p in vm.pages
  {
    if vm.pages[p].frame.Some? then Some(vm) else Load(vm, p, fid, choice, false, pin, mapped)
  }

  /** vm_load_and_pin_range leaves a page in memory, but pinned exactly if it was not there before, or
      was pinned already. */
  lemma PinExact(vm: Vm, p: Pid, fid: Fid, choice: Kpage)
    requires Inv(vm) && p in vm.pages
    requires vm.pages[p].frame.None? ==> fid !in vm.frames && FrameAlloc(vm, fid, choice).Some?
    ensures var l := LoadPage(vm, p, fid, choice, true, true);
            && l.Some? && InMemory(l.value, p)
            && (PinnedIn(l.value, p) <==> vm.pages[p].frame.None? || PinnedIn(vm, p))
  {
    hide Inv, Load, FrameAlloc;
    if vm.pages[p].frame.None? { LoadExact(vm, p, fid, choice, false, true, true); } else { Framed(vm, p); }
  }

  lemma Framed(vm: Vm, p: Pid)
    requires Inv(vm) && p in vm.pages && vm.pages[p].frame.Some?
    ensures InMemory(vm, p)
  {
    hide SlotsOk, CleanOk, FilesOk, Distinct;
  }

  /** So a page that was in memory when it was to be pinned can be evicted before it is unpinned. */
  lemma PinMissed()
    ensures var vm, step := SwapSlots.Before(), FaultStep(1, 1, 0);
            && Inv(vm) && InMemory(vm, 0) && LoadPage(vm, 0, 1, 0, true, true) == Some(vm)
            && Enabled(vm, step) && !InMemory(Next(vm, step), 0)
  {
    SwapSlots.Evicts();
    SwapSlots.BeforeInv();
    hide Inv, Enabled, Next;
  }

  /** The step is the one that ends the pinning: the page is unpinned, destroyed or unmapped. */
  predicate EndsPin(step: Step, p: Pid) {
    (step.UnpinStep? || step.DestroyStep? || step.UnmapStep?) && step.page == p
  }

  /** No other step takes a pinned page out of its frame. */
  lemma NextPinned(vm: Vm, step: Step, p: Pid)
    requires Inv(vm) && Enabled(vm, step) && PinnedIn(vm, p) && !EndsPin(step, p)
    ensures PinnedIn(Next(vm, step), p)
  {
    hide Inv, Load, Unmapped, Destroyed, Harmless, FileOk, HandOk, Shown;
    match step
    case FaultStep(q, fid, choice) => LoadPinned(vm, q, fid, choice, true, false, true, p);
    case LoadStep(q, fid, choice, pin, mapped) => LoadPinned(vm, q, fid, choice, false, pin, mapped, p);
    case DestroyStep(q) => DestroyPinned(vm, q, p);
    case UnmapStep(q, buffer) => UnmapPinned(vm, q, buffer, p);
    case UnpinStep(q) => UnpinOther(vm, q, p);
    case _ =>
  }

  lemma UnpinOther(vm: Vm, q: Pid, p: Pid)
    requires Inv(vm) && InMemory(vm, q) && PinnedIn(vm, p) && q != p
    ensures vm.pages[q].frame != vm.pages[p].frame
  {
    hide TableOk, MemOk, SlotsOk, CleanOk, FilesOk;
  }

  lemma GonePinned(vm: Vm, q: Pid, free: bool, files: map<FileId, Data>, p: Pid)
    requires Inv(vm) && q in vm.pages && PinnedIn(vm, p) && q != p
    ensures PinnedIn(Gone(vm, q, free, files), p)
  {
    hide TableOk, MemOk, SlotsOk, CleanOk, FilesOk, Removed, SwapFree;
  }

  lemma DestroyPinned(vm: Vm, q: Pid, p: Pid)
    requires Inv(vm) && q in vm.pages && PinnedIn(vm, p) && q != p
    ensures PinnedIn(Destroyed(vm, q), p)
  {
    hide Inv, PinnedIn, Removed, SwapFree;
    var e := vm.pages[q];
    GonePinned(vm, q, e.kind == Swapped && e.slot != 0, vm.files, p);
    assert Destroyed(vm, q) == Gone(vm, q, e.kind == Swapped && e.slot != 0, vm.files);
  }

  lemma UnmapPinned(vm: Vm, q: Pid, buffer: bool, p: Pid)
    requires Inv(vm) && q in vm.pages && PinnedIn(vm, p) && q != p
    ensures PinnedIn(Unmapped(vm, q, buffer), p)
  {
    hide Inv, PinnedIn, Unmapped, Gone, WrittenFile, WritesBack, Shown;
    var free := UnmappedIs(vm, q, buffer);
    GonePinned(vm, q, free, if WritesBack(vm, q, buffer) then WrittenFile(vm.files, vm.pages[q], Shown(vm, q))
                            else vm.files, p);
  }

  lemma LoadPinned(vm: Vm, q: Pid, fid: Fid, choice: Kpage, fault: bool, pin: bool, mapped: bool, p: Pid)
    requires Inv(vm) && q in vm.pages && vm.pages[q].frame.None? && fid !in vm.frames && PinnedIn(vm, p)
    requires Load(vm, q, fid, choice, fault, pin, mapped).Some?
    ensures PinnedIn(Load(vm, q, fid, choice, fault, pin, mapped).value, p)
  {
    hide Inv, Evict, Backing, Removed, Zeros;
    if vm.pool == {} {
      EvictPinned(vm, p);
    }
  }

  lemma EvictPinned(vm: Vm, p: Pid)
    requires Inv(vm) && PinnedIn(vm, p) && Evict(vm).Some?
    ensures var r := Evict(vm).value.0;
            PinnedIn(r, p) && r.pages[p].frame == vm.pages[p].frame && r.frames.Keys <= vm.frames.Keys
  {
    hide Inv, Clock, HandIndex;
    ListedFrames(vm);
    var i := Clock(vm.table, vm.frames, HandIndex(vm), vm.accessed, 2 * |vm.table|).index;
    VictimFacts(vm, i, vm.frames[vm.table[i]].spte.value);
    PinnedApart(vm, i, p);
  }

  lemma PinnedApart(vm: Vm, i: nat, p: Pid)
    requires Inv(vm) && PinnedIn(vm, p) && i < |vm.table| && vm.table[i] in vm.frames && !vm.frames[vm.table[i]].pinned
    ensures vm.pages[p].frame != Some(vm.table[i]) && vm.frames[vm.table[i]].spte != Some(p)
  {
    hide TableOk, MemOk, SlotsOk, CleanOk, FilesOk;
  }

  /** Over any run, a pinned page stays in memory until it is unpinned, destroyed or unmapped. */
  lemma {:induction false} PinnedStays(vm: Vm, steps: seq<Step>, p: Pid)
    requires Inv(vm) && Legal(vm, steps) && PinnedIn(vm, p) && forall i :: 0 <= i < |steps| ==> !EndsPin(steps[i], p)
    ensures PinnedIn(After(vm, steps), p)
    decreases |steps|
  {
    hide Inv, Enabled, Next, PinnedIn;
    if steps != [] {
      NextInv(vm, steps[0]);
      NextPinned(vm, steps[0], p);
      PinnedStays(Next(vm, steps[0]), steps[1..], p);
    }
  }

  // The other steps.

  /** A user access marks the page as accessed, a write as changed too, and no other page. */
  lemma UseExact(vm: Vm, p: Pid, i: nat, b: Byte)
    requires Inv(vm) && InMemory(vm, p) && i < 4096
    ensures Enabled(vm, ReadStep(p)) && Next(vm, ReadStep(p)) == vm.(accessed := vm.accessed + {p})
    ensures Enabled(vm, WriteStep(p, i, b))
    ensures var r := Next(vm, WriteStep(p, i, b));
            r == vm.(mem := r.mem, accessed := vm.accessed + {p}, dirty := vm.dirty + {p})
  {
    hide Inv;
  }

  /** Unpinning makes the page a candidate for eviction again, and changes nothing else. */
  lemma UnpinExact(vm: Vm, p: Pid)
    requires Inv(vm) && InMemory(vm, p)
    ensures Enabled(vm, UnpinStep(p))
    ensures var (r, f) := (Next(vm, UnpinStep(p)), vm.pages[p].frame.value);
            && r == vm.(frames := r.frames) && f in r.frames && Candidate(r.frames, f)
            && r.frames == vm.frames[f := r.frames[f]] && r.frames[f] == vm.frames[f].(pinned := false)
  {
    hide SlotsOk, CleanOk, FilesOk, Distinct;
  }

  /** A page that is made is not in memory, and has been neither accessed nor changed. */
  lemma AddExact(vm: Vm, p: Pid, e: Page)
    requires Inv(vm) && Enabled(vm, AddStep(p, e))
    ensures var r := Next(vm, AddStep(p, e));
            && r == vm.(pages := vm.pages[p := e], accessed := r.accessed, dirty := r.dirty)
            && r.accessed == vm.accessed - {p} && r.dirty == vm.dirty - {p} && !InMemory(r, p)
  {
    hide Inv, FileOk;
  }
}
