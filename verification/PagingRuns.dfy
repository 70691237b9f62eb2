/** Every step of demand paging keeps the invariant and what the pages show. */
module PagingRuns {
  import opened Wrappers
  import opened Storage
  import opened Orders
  import opened Paging
  import opened PagingInv

  /** The invariant, and all pages show what they showed, except `p`. */
  ghost predicate Good(vm: Vm, v: Vm, p: Option<Pid>) {
    Inv(v) && v.files == vm.files
    && forall q :: q in vm.pages && q in v.pages && p != Some(q) ==> Shown(v, q) == Shown(vm, q)
  }

  /** A step after which every page depends on what it depended on. */
  lemma AllKept(vm: Vm, v: Vm)
    requires Inv(vm) && vm.pages.Keys <= v.pages.Keys && forall q :: q in vm.pages ==> Kept(vm, v, q)
    ensures forall q :: q in vm.pages ==> Shown(v, q) == Shown(vm, q) && PageClean(v, q)
  {
    hide Kept, Shown, TableOk, MemOk, LinkOk, SlotsOk, FilesOk;
    forall q | q in vm.pages ensures Shown(v, q) == Shown(vm, q) && PageClean(v, q) {
      assert PageClean(vm, q);
      hide PageClean;
      KeptShows(vm, v, q);
    }
  }

  lemma AppendedTable(table: seq<Fid>, frames: Frames, mem: map<Kpage, Data>, pool: set<Kpage>, fid: Fid, k: Kpage)
    requires TableOk(table, frames, mem, pool) && fid !in frames && k in mem && k !in pool
    requires forall f :: f in frames ==> frames[f].kpage != k
    ensures TableOk(table + [fid], frames[fid := Frame(k, None, false)], mem[k := Zeros()], pool)
  {
    assert fid !in table;
  }

  lemma AppendedLinks(pages: Pages, frames: Frames, fid: Fid, k: Kpage)
    requires LinkOk(pages, frames) && fid !in frames
    ensures LinkOk(pages, frames[fid := Frame(k, None, false)])
  {
  }

  lemma AppendedMem(mem: map<Kpage, Data>, pool: set<Kpage>, swap: seq<Data>, used: seq<bool>, k: Kpage, d: Data)
    requires MemOk(mem, pool, swap, used) && |d| == 4096
    ensures MemOk(mem[k := d], pool, swap, used)
  {
  }

  /** A new frame on a page of memory that no frame uses. */
  lemma AppendedInv(v: Vm, fid: Fid, k: Kpage)
    requires Inv(v) && fid !in v.frames && k in v.mem && k !in v.pool
    requires forall f :: f in v.frames ==> v.frames[f].kpage != k
    ensures var r := v.(mem := v.mem[k := Zeros()], table := v.table + [fid],
                        frames := v.frames[fid := Frame(k, None, false)]);
            Inv(r) && forall q :: q in v.pages ==> Shown(r, q) == Shown(v, q)
  {
    hide Distinct, SlotsOk, FilesOk, Backing;
    var r := v.(mem := v.mem[k := Zeros()], table := v.table + [fid], frames := v.frames[fid := Frame(k, None, false)]);
    AppendedTable(v.table, v.frames, v.mem, v.pool, fid, k);
    AppendedLinks(v.pages, v.frames, fid, k);
    AppendedMem(v.mem, v.pool, v.swap, v.used, k, Zeros());
    forall q | q in v.pages ensures Kept(v, r, q) { AppendedKept(v, r, fid, k, q); }
    hide TableOk, MemOk, LinkOk, Kept, PageClean, Shown;
    AllKept(v, r);
  }

  lemma AppendedKept(v: Vm, r: Vm, fid: Fid, k: Kpage, q: Pid)
    requires Inv(v) && fid !in v.frames && q in v.pages && forall f :: f in v.frames ==> v.frames[f].kpage != k
    requires r == v.(mem := v.mem[k := Zeros()], table := r.table, frames := v.frames[fid := Frame(k, None, false)])
    ensures Kept(v, r, q)
  {
    hide Distinct, SlotsOk, FilesOk, Backing, MemOk, CleanOk;
  }

  /** frame_alloc. */
  lemma FrameAllocInv(vm: Vm, fid: Fid, choice: Kpage)
    requires Inv(vm) && fid !in vm.frames && FrameAlloc(vm, fid, choice).Some?
    ensures var (v, k) := FrameAlloc(vm, fid, choice).value;
            && Good(vm, v, None) && fid in v.frames && v.frames[fid] == Frame(k, None, false) && k in v.mem
            && v.pages.Keys == vm.pages.Keys
            && (forall q :: q in vm.pages && vm.pages[q].frame.None? ==> v.pages[q] == vm.pages[q])
  {
    hide Evict, Inv, Shown, HandOk;
    if vm.pool == {} {
      EvictInv(vm);
      var (v, k) := Evict(vm).value;
      AppendedInv(v, fid, k);
    } else {
      TakenPage(vm, choice);
      AppendedInv(vm.(pool := vm.pool - {choice}), fid, choice);
    }
  }

  lemma TakenPage(vm: Vm, k: Kpage)
    requires Inv(vm) && k in vm.pool
    ensures var v := vm.(pool := vm.pool - {k});
            Inv(v) && k in v.mem && (forall f :: f in v.frames ==> v.frames[f].kpage != k)
            && forall q :: q in vm.pages ==> Shown(v, q) == Shown(vm, q)
  {
    hide Distinct, SlotsOk, FilesOk, Backing, LinkOk;
    var v := vm.(pool := vm.pool - {k});
    forall q | q in vm.pages ensures Shown(v, q) == Shown(vm, q) && PageClean(v, q) { assert PageClean(vm, q); }
  }

  // Loading.

  lemma FilledSlots(pages: Pages, used: seq<bool>, p: Pid, fid: Fid, fault: bool)
    requires SlotsOk(pages, used) && p in pages && pages[p].frame.None?
    ensures var e := pages[p];
            var giveBack := fault && e.kind == Swapped;
            SlotsOk(pages[p := e.(frame := Some(fid), slot := if giveBack then 0 else e.slot)],
                    if giveBack then SwapFree(used, e.slot) else used)
  {
    var e := pages[p];
    if e.kind == Swapped && fault {
      assert Owns(e) && SlotOk(e.slot, used);
      forall q | q in pages && q != p && Owns(pages[q]) ensures SlotOk(pages[q].slot, SwapFree(used, e.slot)) {
        assert SlotOk(pages[q].slot, used);
        SlotSame(e.slot);
        SlotSame(pages[q].slot);
      }
    }
  }

  lemma FilledLinks(pages: Pages, frames: Frames, p: Pid, fid: Fid, e: Page, g: Frame)
    requires LinkOk(pages, frames) && p in pages && pages[p].frame.None? && fid in frames && frames[fid].spte.None?
    requires e.frame == Some(fid) && g.spte == Some(p)
    ensures LinkOk(pages[p := e], frames[fid := g])
  {
  }

  lemma FilledTable(table: seq<Fid>, frames: Frames, mem: map<Kpage, Data>, pool: set<Kpage>, fid: Fid, g: Frame,
                    d: Data)
    requires TableOk(table, frames, mem, pool) && fid in frames && g.kpage == frames[fid].kpage
    ensures TableOk(table, frames[fid := g], mem[g.kpage := d], pool)
  {
    hide Distinct;
  }

  lemma FilledKept(v: Vm, p: Pid, fid: Fid, k: Kpage, fault: bool, pin: bool, q: Pid)
    requires Inv(v) && p in v.pages && fid in v.frames && v.frames[fid] == Frame(k, None, false) && q in v.pages
    requires q != p
    ensures Kept(v, Filled(v, p, fid, k, fault, pin), q)
  {
    hide Distinct, SlotsOk, FilesOk, Backing, MemOk, CleanOk;
  }

  lemma FilledInv(v: Vm, p: Pid, fid: Fid, k: Kpage, fault: bool, pin: bool)
    requires Inv(v) && p in v.pages && v.pages[p].frame.None? && fid in v.frames
    requires v.frames[fid] == Frame(k, None, false)
    ensures Good(v, Filled(v, p, fid, k, fault, pin), None)
  {
    hide Distinct, Backing, SwapFree, Kept;
    var r := Filled(v, p, fid, k, fault, pin);
    var e := v.pages[p];
    FilledSlots(v.pages, v.used, p, fid, fault);
    FilledLinks(v.pages, v.frames, p, fid, r.pages[p], r.frames[fid]);
    FilledTable(v.table, v.frames, v.mem, v.pool, fid, r.frames[fid], r.mem[k]);
    BackingSize(e, v.swap, v.used, v.files, v.mem, v.pool);
    AppendedMem(v.mem, v.pool, v.swap, r.used, k, r.mem[k]);
    SameFiles(v.pages, r.pages, v.files, p);
    hide TableOk, MemOk, LinkOk, SlotsOk, FilesOk;
    FilledShows(v, p, fid, k, fault, pin);
    forall q | q in v.pages && q != p ensures Shown(r, q) == Shown(v, q) && PageClean(r, q) {
      FilledKept(v, p, fid, k, fault, pin, q);
      assert PageClean(v, q);
      KeptShows(v, r, q);
    }
  }

  lemma FilledShows(v: Vm, p: Pid, fid: Fid, k: Kpage, fault: bool, pin: bool)
    requires p in v.pages && v.pages[p].frame.None?
    ensures var r := Filled(v, p, fid, k, fault, pin); Shown(r, p) == Shown(v, p) && PageClean(r, p)
  {
  }

  // Giving frames back.

  lemma FreedTable(table: seq<Fid>, frames: Frames, mem: map<Kpage, Data>, pool: set<Kpage>, fid: Fid)
    requires TableOk(table, frames, mem, pool) && fid in frames
    ensures TableOk(Removed(table, fid), frames - {fid}, mem, pool + {frames[fid].kpage})
  {
    hide Distinct, Removed;
    RemovedDistinct(table, fid);
  }

  lemma FreedMem(mem: map<Kpage, Data>, pool: set<Kpage>, swap: seq<Data>, used: seq<bool>, k: Kpage)
    requires MemOk(mem, pool, swap, used) && k in mem
    ensures MemOk(mem, pool + {k}, swap, used)
  {
  }

  /** A frame that holds no page is given back. */
  lemma FrameFreeInv(v: Vm, fid: Fid)
    requires Inv(v) && fid in v.frames && v.frames[fid].spte.None?
    ensures Good(v, FrameFree(v, fid), None) && FrameFree(v, fid).pages == v.pages
  {
    hide Distinct, Backing, Removed, SlotsOk, FilesOk;
    var r := FrameFree(v, fid);
    FreedTable(v.table, v.frames, v.mem, v.pool, fid);
    FreedMem(v.mem, v.pool, v.swap, v.used, v.frames[fid].kpage);
    assert LinkOk(r.pages, r.frames);
    forall q | q in v.pages ensures Kept(v, r, q) { }
    hide TableOk, MemOk, LinkOk, Kept, PageClean, Shown;
    AllKept(v, r);
  }

  /** page_fault and vm_load_page. */
  lemma LoadInv(vm: Vm, p: Pid, fid: Fid, choice: Kpage, fault: bool, pin: bool, mapped: bool)
    requires Inv(vm) && p in vm.pages && vm.pages[p].frame.None? && fid !in vm.frames
    requires Load(vm, p, fid, choice, fault, pin, mapped).Some?
    ensures FrameAlloc(vm, fid, choice).Some?
    ensures var r, (v, k) := Load(vm, p, fid, choice, fault, pin, mapped).value, FrameAlloc(vm, fid, choice).value;
            && Good(vm, r, None) && r.pages.Keys == vm.pages.Keys
            && (mapped ==> InMemory(r, p) && r.pages[p].frame == Some(fid))
            && (!mapped ==> fid !in r.frames && k in r.pool && r.used == v.used)
            && (mapped ==>
                  r.used ==
                  if fault && vm.pages[p].kind == Swapped then SwapFree(v.used, vm.pages[p].slot) else v.used)
  {
    hide Inv, FrameAlloc, Filled, FrameFree, Shown;
    FrameAllocInv(vm, fid, choice);
    var (v, k) := FrameAlloc(vm, fid, choice).value;
    if mapped {
      FilledInv(v, p, fid, k, fault, pin);
      FilledIs(v, p, fid, k, fault, pin);
    } else {
      FrameFreeInv(v, fid);
      FreedIs(v, fid);
    }
  }

  lemma FreedIs(v: Vm, fid: Fid)
    requires fid in v.frames
    ensures var r := FrameFree(v, fid); fid !in r.frames && v.frames[fid].kpage in r.pool && r.used == v.used
  {
  }

  lemma FilledIs(v: Vm, p: Pid, fid: Fid, k: Kpage, fault: bool, pin: bool)
    requires p in v.pages
    ensures var r := Filled(v, p, fid, k, fault, pin);
            && r.pages.Keys == v.pages.Keys && InMemory(r, p) && r.pages[p].frame == Some(fid)
            && r.used == if fault && v.pages[p].kind == Swapped then SwapFree(v.used, v.pages[p].slot) else v.used
  {
  }

  // User accesses.

  lemma WriteInv(vm: Vm, p: Pid, i: nat, b: Byte)
    requires Inv(vm) && InMemory(vm, p) && i < 4096
    ensures var r := Next(vm, WriteStep(p, i, b));
            Good(vm, r, Some(p)) && r.pages == vm.pages && |Shown(vm, p)| == 4096 && Shown(r, p) == Shown(vm, p)[i := b]
  {
    hide Distinct, Backing, SlotsOk, FilesOk;
    var r := Next(vm, WriteStep(p, i, b));
    var f := vm.pages[p].frame.value;
    FilledTable(vm.table, vm.frames, vm.mem, vm.pool, f, vm.frames[f], r.mem[vm.frames[f].kpage]);
    assert vm.frames[f := vm.frames[f]] == vm.frames;
    forall q | q in vm.pages && q != p ensures Kept(vm, r, q) { WriteKept(vm, p, i, b, q); }
    forall q | q in vm.pages && q != p ensures Shown(r, q) == Shown(vm, q) && PageClean(r, q) {
      assert PageClean(vm, q);
      KeptShows(vm, r, q);
    }
  }

  lemma WriteKept(vm: Vm, p: Pid, i: nat, b: Byte, q: Pid)
    requires Inv(vm) && InMemory(vm, p) && i < 4096 && q in vm.pages && q != p
    ensures Kept(vm, Next(vm, WriteStep(p, i, b)), q)
  {
    hide Distinct, Backing, SlotsOk, FilesOk, CleanOk;
  }

  lemma ReadInv(vm: Vm, p: Pid)
    requires Inv(vm) && InMemory(vm, p)
    ensures Good(vm, Next(vm, ReadStep(p)), None)
  {
    hide TableOk, MemOk, LinkOk, SlotsOk, FilesOk, Backing;
    var r := Next(vm, ReadStep(p));
    forall q | q in vm.pages ensures Shown(r, q) == Shown(vm, q) && PageClean(r, q) { assert PageClean(vm, q); }
  }

  lemma UnpinInv(vm: Vm, p: Pid)
    requires Inv(vm) && InMemory(vm, p)
    ensures Good(vm, Next(vm, UnpinStep(p)), None)
  {
    hide Distinct, Backing, SlotsOk, FilesOk, TableOk, MemOk, LinkOk, PageClean, Shown;
    var r := Next(vm, UnpinStep(p));
    UnpinnedParts(vm, vm.pages[p].frame.value);
    forall q | q in vm.pages ensures Kept(vm, r, q) { }
    hide Kept;
    AllKept(vm, r);
  }

  lemma UnpinnedParts(vm: Vm, f: Fid)
    requires TableOk(vm.table, vm.frames, vm.mem, vm.pool) && LinkOk(vm.pages, vm.frames) && f in vm.frames
    ensures var frames := vm.frames[f := vm.frames[f].(pinned := false)];
            TableOk(vm.table, frames, vm.mem, vm.pool) && LinkOk(vm.pages, frames)
  {
    hide Distinct;
  }

  lemma AddInv(vm: Vm, p: Pid, e: Page)
    requires Inv(vm) && p !in vm.pages && e.kind != Swapped && e.slot == 0 && e.frame.None? && FileOk(e, vm.files)
    ensures var r := Next(vm, AddStep(p, e)); Good(vm, r, None) && Shown(r, p) == Backing(e, vm.swap, vm.files)
  {
    hide TableOk, MemOk, Backing, LinkOk, SlotsOk, FilesOk;
    var r := Next(vm, AddStep(p, e));
    AddedParts(vm.pages, vm.frames, vm.used, vm.files, p, e);
    forall q | q in vm.pages ensures Kept(vm, r, q) { }
    forall q | q in vm.pages ensures Shown(r, q) == Shown(vm, q) && PageClean(r, q) {
      assert PageClean(vm, q);
      KeptShows(vm, r, q);
    }
  }

  lemma AddedParts(pages: Pages, frames: Frames, used: seq<bool>, files: map<FileId, Data>, p: Pid, e: Page)
    requires LinkOk(pages, frames) && SlotsOk(pages, used) && FilesOk(pages, files)
    requires p !in pages && e.kind != Swapped && e.frame.None? && FileOk(e, files)
    ensures LinkOk(pages[p := e], frames) && SlotsOk(pages[p := e], used) && FilesOk(pages[p := e], files)
  {
    hide FileOk;
  }

  // Pages that go.

  lemma DroppedLinks(pages: Pages, frames: Frames, p: Pid)
    requires LinkOk(pages, frames) && p in pages
    ensures LinkOk(pages - {p}, if pages[p].frame.Some? then frames - {pages[p].frame.value} else frames)
  {
  }

  lemma DroppedSlots(pages: Pages, used: seq<bool>, p: Pid, free: bool)
    requires SlotsOk(pages, used) && p in pages && (free ==> Owns(pages[p]))
    ensures SlotsOk(pages - {p}, if free then SwapFree(used, pages[p].slot) else used)
  {
    if free {
      var e := pages[p];
      assert SlotOk(e.slot, used);
      forall q | q in pages && q != p && Owns(pages[q]) ensures SlotOk(pages[q].slot, SwapFree(used, e.slot)) {
        assert SlotOk(pages[q].slot, used);
        SlotSame(e.slot);
        SlotSame(pages[q].slot);
      }
    }
  }

  /** Page `p` is gone with its frame and its slot; the files have become `files`. */
  ghost function Gone(vm: Vm, p: Pid, free: bool, files: map<FileId, Data>): Vm
    requires p in vm.pages
  {
    var e := vm.pages[p];
    var v := if e.frame.Some? && e.frame.value in vm.frames then FrameFree(vm, e.frame.value) else vm;
    v.(pages := vm.pages - {p}, accessed := vm.accessed - {p}, dirty := vm.dirty - {p},
       used := if free then SwapFree(vm.used, e.slot) else vm.used, files := files)
  }

  lemma GoneKept(vm: Vm, p: Pid, free: bool, files: map<FileId, Data>, q: Pid)
    requires Inv(vm) && p in vm.pages && q in vm.pages && q != p
    requires AsOnDisk(vm, q) ==> Backing(vm.pages[q], vm.swap, files) == Backing(vm.pages[q], vm.swap, vm.files)
    ensures Kept(vm, Gone(vm, p, free, files), q)
  {
    hide Distinct, SlotsOk, FilesOk, MemOk, CleanOk, Removed, SwapFree;
    var r, e := Gone(vm, p, free, files), vm.pages[q];
    assert e.kind != FromFile ==> Backing(e, vm.swap, files) == Backing(e, vm.swap, vm.files);
  }

  lemma GoneInv(vm: Vm, p: Pid, free: bool, files: map<FileId, Data>)
    requires Inv(vm) && p in vm.pages && (free ==> Owns(vm.pages[p]))
    requires forall q :: q in vm.pages && q != p ==> FileOk(vm.pages[q], files)
    requires forall q :: q in vm.pages && q != p && AsOnDisk(vm, q) ==>
               Backing(vm.pages[q], vm.swap, files) == Backing(vm.pages[q], vm.swap, vm.files)
    ensures var r := Gone(vm, p, free, files);
            Inv(r) && r.pages == vm.pages - {p} && forall q :: q in r.pages ==> Shown(r, q) == Shown(vm, q)
  {
    hide Distinct, Backing, Removed, SwapFree, Shown;
    var r := Gone(vm, p, free, files);
    DroppedLinks(vm.pages, vm.frames, p);
    DroppedSlots(vm.pages, vm.used, p, free);
    if vm.pages[p].frame.Some? {
      var f := vm.pages[p].frame.value;
      FreedTable(vm.table, vm.frames, vm.mem, vm.pool, f);
      FreedMem(vm.mem, vm.pool, vm.swap, vm.used, vm.frames[f].kpage);
    }
    hide TableOk, LinkOk, SlotsOk;
    forall q | q in r.pages ensures Shown(r, q) == Shown(vm, q) && PageClean(r, q) {
      GoneKept(vm, p, free, files, q);
      assert PageClean(vm, q);
      KeptShows(vm, r, q);
    }
  }

  lemma DestroyInv(vm: Vm, p: Pid)
    requires Inv(vm) && p in vm.pages
    ensures var r, e := Destroyed(vm, p), vm.pages[p];
            && Good(vm, r, None) && r.pages == vm.pages - {p}
            && (e.frame.None? ==> r.frames == vm.frames && r.pool == vm.pool)
            && (e.frame.Some? ==>
                  && e.frame.value in vm.frames && r.frames == vm.frames - {e.frame.value}
                  && r.pool == vm.pool + {vm.frames[e.frame.value].kpage})
            && r.used == if e.kind == Swapped && e.slot != 0 then SwapFree(vm.used, e.slot) else vm.used
  {
    assert vm.pages[p].frame.Some? ==> vm.pages[p].frame.value in vm.frames;
    hide TableOk, MemOk, LinkOk, SlotsOk, CleanOk, Backing, Shown, Removed;
    var e := vm.pages[p];
    GoneInv(vm, p, e.kind == Swapped && e.slot != 0, vm.files);
    assert Destroyed(vm, p) == Gone(vm, p, e.kind == Swapped && e.slot != 0, vm.files);
  }

  // Unmapping a page of a memory-mapped file.

  /** The file with the page's part replaced: its size and all other bytes stay. */
  lemma WrittenFileIs(files: map<FileId, Data>, e: Page, data: Data)
    requires FileOk(e, files) && |data| == 4096
    ensures var g := WrittenFile(files, e, data);
            && g.Keys == files.Keys
            && (forall f :: f in files ==> |g[f]| == |files[f]|)
            && (forall f, i :: f in files && 0 <= i < |files[f]| ==>
                  g[f][i] ==
                    if f == e.file && e.offset <= i < e.offset + e.readBytes then data[i - e.offset] else files[f][i])
  {
  }

  lemma NoBytes(g: Page, swap: seq<Data>, files: map<FileId, Data>)
    requires g.kind == FromFile && g.readBytes == 0
    ensures Backing(g, swap, files) == Zeros()
  {
    if g.file in files && g.offset + g.readBytes <= |files[g.file]| {
      assert files[g.file][g.offset..g.offset] + seq(4096, _ => 0) == Zeros();
    }
  }

  lemma OtherFileOk(files: map<FileId, Data>, e: Page, data: Data, g: Page)
    requires FileOk(e, files) && FileOk(g, files) && |data| == 4096
    ensures FileOk(g, WrittenFile(files, e, data))
  {
    WrittenFileIs(files, e, data);
  }

  /** What mmap_unmap does to one page, as a page that goes. */
  lemma UnmappedIs(vm: Vm, p: Pid, buffer: bool) returns (free: bool)
    requires Inv(vm) && p in vm.pages
    ensures free <==> Owns(vm.pages[p])
    ensures |Shown(vm, p)| == 4096
    ensures Unmapped(vm, p, buffer) ==
            Gone(vm, p, free,
                 if WritesBack(vm, p, buffer) then WrittenFile(vm.files, vm.pages[p], Shown(vm, p)) else vm.files)
  {
    hide TableOk, SlotsOk, CleanOk, Removed, WrittenFile, Distinct, FilesOk, Backing;
    InMemoryIs(vm, p);
    var e := vm.pages[p];
    BackingSize(e, vm.swap, vm.used, vm.files, vm.mem, vm.pool);
    free := e.kind == Swapped && (!InMemory(vm, p) || e.slot != 0);
  }

  /** A page that shows what its file holds goes on doing so if the bytes written agree with it. */
  lemma AgreedBacking(vm: Vm, p: Pid, q: Pid)
    requires Inv(vm) && p in vm.pages && q in vm.pages && p != q && AsOnDisk(vm, q) && |Shown(vm, p)| == 4096
    ensures var files := WrittenFile(vm.files, vm.pages[p], Shown(vm, p));
            Agree(vm, p, q) <==>
              Backing(vm.pages[q], vm.swap, files) == Backing(vm.pages[q], vm.swap, vm.files)
  {
    var e, g, files := vm.pages[p], vm.pages[q], WrittenFile(vm.files, vm.pages[p], Shown(vm, p));
    assert FileOk(e, vm.files) && FileOk(g, vm.files);
    ShowsFile(vm, q);
    hide Inv, Backing, Shown, WrittenFile, AsOnDisk;
    OtherFileOk(vm.files, e, Shown(vm, p), g);
    WrittenFileIs(vm.files, e, Shown(vm, p));
    FilePage(g, vm.swap, files);
    FilePage(g, vm.swap, vm.files);
    if Agree(vm, p, q) {
      forall j | 0 <= j < 4096 ensures Backing(g, vm.swap, files)[j] == Backing(g, vm.swap, vm.files)[j] {
        if j < g.readBytes && g.file == e.file && e.offset <= g.offset + j < e.offset + e.readBytes {
          var i := g.offset + j - e.offset;
          assert Shown(vm, p)[i] == Shown(vm, q)[j];
        }
      }
    } else {
      var i, j :| 0 <= i < e.readBytes && 0 <= j < g.readBytes && e.offset + i == g.offset + j
                  && Shown(vm, p)[i] != Shown(vm, q)[j];
      assert Backing(g, vm.swap, files)[j] == files[g.file][g.offset + j] == Shown(vm, p)[i];
    }
  }

  lemma FilePage(g: Page, swap: seq<Data>, files: map<FileId, Data>)
    requires g.kind == FromFile && FileOk(g, files)
    ensures |Backing(g, swap, files)| == 4096
    ensures forall j :: 0 <= j < 4096 ==>
              Backing(g, swap, files)[j] == if j < g.readBytes then files[g.file][g.offset + j] else 0
  {
    if g.readBytes == 0 { NoBytes(g, swap, files); }
  }

  lemma ShowsFile(vm: Vm, q: Pid)
    requires Inv(vm) && q in vm.pages && AsOnDisk(vm, q)
    ensures Shown(vm, q) == Backing(vm.pages[q], vm.swap, vm.files)
  {
    hide TableOk, MemOk, LinkOk, SlotsOk, FilesOk, Backing;
    assert PageClean(vm, q);
  }

  lemma UnmapInv(vm: Vm, p: Pid, buffer: bool)
    requires Inv(vm) && p in vm.pages && Harmless(vm, p, buffer)
    ensures var r := Unmapped(vm, p, buffer);
            Inv(r) && r.pages == vm.pages - {p} && forall q :: q in r.pages ==> Shown(r, q) == Shown(vm, q)
  {
    hide TableOk, MemOk, LinkOk, SlotsOk, CleanOk, Backing, Shown, Unmapped, Gone, WrittenFile, Agree, AsOnDisk, FileOk;
    var free := UnmappedIs(vm, p, buffer);
    var e := vm.pages[p];
    var files := if WritesBack(vm, p, buffer) then WrittenFile(vm.files, e, Shown(vm, p)) else vm.files;
    forall q | q in vm.pages && q != p
      ensures FileOk(vm.pages[q], files)
      ensures AsOnDisk(vm, q) ==> Backing(vm.pages[q], vm.swap, files) == Backing(vm.pages[q], vm.swap, vm.files)
    {
      if WritesBack(vm, p, buffer) {
        OtherFileOk(vm.files, e, Shown(vm, p), vm.pages[q]);
        if AsOnDisk(vm, q) { AgreedBacking(vm, p, q); }
      }
    }
    GoneInv(vm, p, free, files);
  }

  /** Unmapping a page keeps the invariant and what every other page shows exactly when the pages
      that show the file as it is on disk agree with what is written. */
  lemma UnmapExact(vm: Vm, p: Pid, buffer: bool)
    requires Inv(vm) && p in vm.pages
    ensures var r := Unmapped(vm, p, buffer);
            Harmless(vm, p, buffer) <==>
              Inv(r) && r.pages == vm.pages - {p} && forall q :: q in r.pages ==> Shown(r, q) == Shown(vm, q)
  {
    hide Inv, Backing, Shown, Unmapped, WrittenFile, Agree, AsOnDisk;
    var r := Unmapped(vm, p, buffer);
    if Harmless(vm, p, buffer) { UnmapInv(vm, p, buffer); }
    if Inv(r) && r.pages == vm.pages - {p} && (forall q :: q in r.pages ==> Shown(r, q) == Shown(vm, q))
       && WritesBack(vm, p, buffer) {
      var free := UnmappedIs(vm, p, buffer);
      forall q | q in vm.pages && q != p && AsOnDisk(vm, q) ensures Agree(vm, p, q) {
        assert q in r.pages;
        AsOnDiskAfter(vm, p, buffer, q);
        ShowsFile(r, q);
        ShowsFile(vm, q);
        AgreedBacking(vm, p, q);
      }
    }
  }

  lemma AsOnDiskAfter(vm: Vm, p: Pid, buffer: bool, q: Pid)
    requires Inv(vm) && p in vm.pages && q in vm.pages && q != p && AsOnDisk(vm, q) && WritesBack(vm, p, buffer)
    ensures var r := Unmapped(vm, p, buffer);
            q in r.pages && r.pages[q] == vm.pages[q] && AsOnDisk(r, q)
            && r.swap == vm.swap && r.files == WrittenFile(vm.files, vm.pages[p], Shown(vm, p))
  {
    hide TableOk, MemOk, SlotsOk, CleanOk, Backing, Unmapped, WrittenFile, Removed, SwapFree, FilesOk, Shown;
    var free := UnmappedIs(vm, p, buffer);
    InMemoryIs(vm, q);
  }

  /** A file of one page mapped twice, with the first mapping written to. */
  function MappedTwice(data: Data): Vm {
    var e := Page(FromFile, 0, 0, 4096, 0, None);
    Vm(map[0 := e.(frame := Some(0)), 1 := e], [0], map[0 := Frame(0, Some(0), false)], Null,
       map[0 := data], {}, {}, {0}, [], [], map[0 := Zeros()])
  }

  /** Unmapping the first page then changes what the second one shows. */
  lemma MappedTwiceSees()
    ensures var vm := MappedTwice(Zeros()[0 := 1]);
            Inv(vm) && !Harmless(vm, 0, true) && Shown(Unmapped(vm, 0, true), 1) != Shown(vm, 1)
  {
    var vm := MappedTwice(Zeros()[0 := 1]);
    MappedTwiceInv(Zeros()[0 := 1]);
    hide Inv, Unmapped, Backing, WrittenFile;
    FilePage(vm.pages[1], [], vm.files);
    assert Shown(vm, 0)[0] != Shown(vm, 1)[0];
    AsOnDiskAfter(vm, 0, true, 1);
    WrittenFileIs(vm.files, vm.pages[0], Shown(vm, 0));
    FilePage(vm.pages[1], [], Unmapped(vm, 0, true).files);
  }

  lemma MappedTwiceInv(data: Data)
    requires |data| == 4096
    ensures Inv(MappedTwice(data))
  {
    var vm := MappedTwice(data);
    assert vm.pages[0].frame == Some(0) && vm.pages[1].frame.None?;
    assert PageClean(vm, 0) && PageClean(vm, 1);
  }

  /** mmap_unmap leaves in the file what the mapping last showed, and changes nothing else in any file. */
  lemma UnmapWritesBack(vm: Vm, p: Pid, buffer: bool)
    requires Inv(vm) && p in vm.pages && vm.pages[p].kind != Zero && vm.pages[p].readBytes > 0
    requires buffer || InMemory(vm, p) || vm.pages[p].kind == FromFile
    ensures var r, e := Unmapped(vm, p, buffer), vm.pages[p];
            && |Shown(vm, p)| == 4096 && e.readBytes <= 4096 && e.file in vm.files
            && e.offset + e.readBytes <= |vm.files[e.file]|
            && r.files.Keys == vm.files.Keys
            && (forall f :: f in vm.files ==> |r.files[f]| == |vm.files[f]|)
            && (forall f, i :: f in vm.files && 0 <= i < |vm.files[f]| ==>
                  r.files[f][i] ==
                    if f == e.file && e.offset <= i < e.offset + e.readBytes then Shown(vm, p)[i - e.offset]
                    else vm.files[f][i])
  {
    hide TableOk, MemOk, LinkOk, SlotsOk, Backing, Shown, Unmapped, WrittenFile, InMemory, Removed, SwapFree;
    var e := vm.pages[p];
    assert FileOk(e, vm.files);
    var free := UnmappedIs(vm, p, buffer);
    WrittenFileIs(vm.files, e, Shown(vm, p));
    if !WritesBack(vm, p, buffer) { CleanFile(vm, p); }
  }

  lemma CleanFile(vm: Vm, p: Pid)
    requires Inv(vm) && p in vm.pages && vm.pages[p].kind == FromFile && !(InMemory(vm, p) && p in vm.dirty)
    ensures var e := vm.pages[p];
            |Shown(vm, p)| == 4096 && FileOk(e, vm.files)
            && forall i :: e.readBytes > 0 && e.offset <= i < e.offset + e.readBytes ==>
                 Shown(vm, p)[i - e.offset] == vm.files[e.file][i]
  {
    hide TableOk, LinkOk, SlotsOk;
    assert PageClean(vm, p) && FileOk(vm.pages[p], vm.files);
    BackingSize(vm.pages[p], vm.swap, vm.used, vm.files, vm.mem, vm.pool);
  }

  // Runs.

  /** The bytes a page shows after a step, given those it showed before. */
  function Written(d: Data, step: Step, q: Pid): Data {
    if step.WriteStep? && step.page == q && step.index < |d| then d[step.index := step.byte] else d
  }

  /** Every step keeps the invariant, and a page shows something else only after a write to it. */
  lemma NextInv(vm: Vm, step: Step)
    requires Inv(vm) && Enabled(vm, step)
    ensures var r := Next(vm, step);
            Inv(r) && forall q :: q in vm.pages && q in r.pages ==> Shown(r, q) == Written(Shown(vm, q), step, q)
  {
    hide Inv, Shown, Load, Destroyed, Unmapped, InMemory, Harmless, FileOk, HandOk;
    match step
    case ReadStep(p) => ReadInv(vm, p);
    case WriteStep(p, i, b) => WriteInv(vm, p, i, b);
    case FaultStep(p, fid, choice) => LoadInv(vm, p, fid, choice, true, false, true);
    case LoadStep(p, fid, choice, pin, mapped) => LoadInv(vm, p, fid, choice, false, pin, mapped);
    case UnpinStep(p) => UnpinInv(vm, p);
    case AddStep(p, e) => AddInv(vm, p, e);
    case DestroyStep(p) => DestroyInv(vm, p);
    case UnmapStep(p, buffer) => UnmapInv(vm, p, buffer);
  }

  /** A page goes only when it is destroyed or unmapped. */
  lemma NextPages(vm: Vm, step: Step, q: Pid)
    requires Inv(vm) && Enabled(vm, step) && q in vm.pages
    requires (step.DestroyStep? || step.UnmapStep?) ==> step.page != q
    ensures q in Next(vm, step).pages
  {
    hide Inv, Load, Destroyed, Unmapped, InMemory, FileOk, HandOk;
    match step
    case FaultStep(p, fid, choice) => LoadInv(vm, p, fid, choice, true, false, true);
    case LoadStep(p, fid, choice, pin, mapped) => LoadInv(vm, p, fid, choice, false, pin, mapped);
    case DestroyStep(p) => DestroyInv(vm, p);
    case UnmapStep(p, buffer) => UnmapInv(vm, p, buffer);
    case _ =>
  }

  ghost predicate Legal(vm: Vm, steps: seq<Step>)
    decreases |steps|
  {
    steps == [] || (Enabled(vm, steps[0]) && Legal(Next(vm, steps[0]), steps[1..]))
  }

  ghost function After(vm: Vm, steps: seq<Step>): Vm
    requires Legal(vm, steps)
    decreases |steps|
  {
    if steps == [] then vm else After(Next(vm, steps[0]), steps[1..])
  }

  /** The writes to page `q` among the steps, applied to `d`. */
  function AllWritten(d: Data, steps: seq<Step>, q: Pid): Data
    decreases |steps|
  {
    if steps == [] then d else AllWritten(Written(d, steps[0], q), steps[1..], q)
  }

  predicate Survives(steps: seq<Step>, q: Pid) {
    forall i :: 0 <= i < |steps| ==> ((steps[i].DestroyStep? || steps[i].UnmapStep?) ==> steps[i].page != q)
  }

  /** Paging is invisible: after any run a page shows what it showed at the start with the writes
      to it applied, whatever has been evicted, swapped and loaded again in between. */
  lemma {:induction false} PagingInvisible(vm: Vm, steps: seq<Step>, q: Pid)
    requires Inv(vm) && Legal(vm, steps) && q in vm.pages && Survives(steps, q)
    ensures var r := After(vm, steps); Inv(r) && q in r.pages && Shown(r, q) == AllWritten(Shown(vm, q), steps, q)
    decreases |steps|
  {
    hide Inv, Shown, Enabled, Next, Written;
    if steps != [] {
      NextInv(vm, steps[0]);
      NextPages(vm, steps[0], q);
      PagingInvisible(Next(vm, steps[0]), steps[1..], q);
    }
  }

  lemma {:induction false} RunInv(vm: Vm, steps: seq<Step>)
    requires Inv(vm) && Legal(vm, steps)
    ensures Inv(After(vm, steps))
    decreases |steps|
  {
    hide Inv, Enabled, Next;
    if steps != [] {
      NextInv(vm, steps[0]);
      RunInv(Next(vm, steps[0]), steps[1..]);
    }
  }

  /** In every reachable state, pages that are swapped out have marked slots of their own. */
  lemma SlotsNotShared(vm: Vm, steps: seq<Step>, p: Pid, q: Pid)
    requires Inv(vm) && Legal(vm, steps)
    ensures var r := After(vm, steps);
            p in r.pages && q in r.pages && p != q
            && r.pages[p].kind == Swapped && r.pages[p].frame.None?
            && r.pages[q].kind == Swapped && r.pages[q].frame.None? ==>
              r.pages[p].slot != r.pages[q].slot && SlotOk(r.pages[p].slot, r.used) && SlotOk(r.pages[q].slot, r.used)
  {
    hide Legal, After, TableOk, MemOk, LinkOk, CleanOk, FilesOk, SlotOk;
    RunInv(vm, steps);
  }

  /** The state at the start: free memory, empty swap, no pages. */
  function Empty(mem: map<Kpage, Data>, swap: seq<Data>, files: map<FileId, Data>): Vm {
    Vm(map[], [], map[], Null, mem, mem.Keys, {}, {}, seq(|swap|, _ => false), swap, files)
  }

  lemma BootInv(mem: map<Kpage, Data>, swap: seq<Data>, files: map<FileId, Data>)
    requires (forall k :: k in mem ==> |mem[k]| == 4096) && (forall k :: 0 <= k < |swap| ==> |swap[k]| == 4096)
    ensures Inv(Empty(mem, swap, files))
  {
  }

  // The clock hand.

  /** The step gives back the very frame that the clock hand points to. */
  ghost predicate HandFreed(vm: Vm, step: Step) {
    && (step.DestroyStep? || step.UnmapStep?) && step.page in vm.pages
    && vm.pages[step.page].frame.Some? && vm.hand == At(vm.pages[step.page].frame.value)
  }

  /** frame_free does not move the clock hand. So the hand stays on a frame of the table, as the
      next eviction needs, exactly unless that frame goes. */
  lemma HandStays(vm: Vm, step: Step)
    requires Inv(vm) && HandOk(vm) && Enabled(vm, step)
    ensures HandOk(Next(vm, step)) <==> !HandFreed(vm, step)
  {
    hide LinkOk, SlotsOk, CleanOk, FilesOk, MemOk, Backing, Distinct, Removed, Load, Destroyed, Unmapped;
    match step
    case FaultStep(p, fid, choice) => HandLoad(vm, p, fid, choice, true, false, true);
    case LoadStep(p, fid, choice, pin, mapped) => HandLoad(vm, p, fid, choice, false, pin, mapped);
    case DestroyStep(p) => HandDestroyed(vm, p);
    case UnmapStep(p, buffer) => HandUnmapped(vm, p, buffer);
    case _ =>
  }

  lemma HandDestroyed(vm: Vm, p: Pid)
    requires Inv(vm) && HandOk(vm) && p in vm.pages
    ensures HandOk(Destroyed(vm, p)) <==> !(vm.pages[p].frame.Some? && vm.hand == At(vm.pages[p].frame.value))
  {
    hide SlotsOk, CleanOk, FilesOk, MemOk, Distinct, Removed;
    var f := vm.pages[p].frame;
    if f.Some? { RemovedDistinct(vm.table, f.value); }
  }

  lemma HandUnmapped(vm: Vm, p: Pid, buffer: bool)
    requires Inv(vm) && HandOk(vm) && p in vm.pages
    ensures HandOk(Unmapped(vm, p, buffer)) <==> !(vm.pages[p].frame.Some? && vm.hand == At(vm.pages[p].frame.value))
  {
    hide SlotsOk, CleanOk, FilesOk, Distinct, Removed, Destroyed, WrittenFile, Backing;
    HandDestroyed(vm, p);
  }

  lemma HandLoad(vm: Vm, p: Pid, fid: Fid, choice: Kpage, fault: bool, pin: bool, mapped: bool)
    requires Inv(vm) && HandOk(vm) && fid !in vm.frames && Load(vm, p, fid, choice, fault, pin, mapped).Some?
    ensures HandOk(Load(vm, p, fid, choice, fault, pin, mapped).value)
  {
    hide LinkOk, SlotsOk, CleanOk, FilesOk, MemOk, Distinct, Removed, Evict, Backing;
    if vm.pool == {} { HandEvict(vm); }
    var v := FrameAlloc(vm, fid, choice).value.0;
    if !mapped { RemovedKeeps(v.table, fid); }
  }

  lemma HandEvict(vm: Vm)
    requires Inv(vm) && Evict(vm).Some?
    ensures var v := Evict(vm).value.0; HandOk(v) && (forall f :: f in v.table ==> f in vm.table)
  {
    hide Inv, Clock, HandIndex, BM.Scanned;
    ListedFrames(vm);
    var i := Clock(vm.table, vm.frames, HandIndex(vm), vm.accessed, 2 * |vm.table|).index;
    VictimFacts(vm, i, vm.frames[vm.table[i]].spte.value);
    HandBehind(vm.table, i);
  }

  lemma HandBehind(table: seq<Fid>, i: nat)
    requires i < |table|
    ensures var t := table[..i] + table[i + 1..];
            (forall f :: f in t ==> f in table) && (i + 1 < |table| ==> table[i + 1] in t)
  {
    if i + 1 < |table| { assert (table[..i] + table[i + 1..])[i] == table[i + 1]; }
  }

  lemma {:induction false} RemovedKeeps(s: seq<Fid>, x: Fid)
    ensures forall y :: y in s && y != x ==> y in Removed(s, x)
  {
    if s != [] && s[0] != x { RemovedKeeps(s[1..], x); }
  }

  /** One page of zeros in the only frame, with the hand on it. */
  function HandOnFrame(data: Data): Vm {
    Vm(map[0 := Page(Zero, 0, 0, 0, 0, Some(0))], [0], map[0 := Frame(0, Some(0), false)], At(0),
       map[0 := data], {}, {}, {}, [], [], map[])
  }

  /** Destroying that page leaves the hand on a frame that is gone. */
  lemma HandLost()
    ensures var vm, step := HandOnFrame(Zeros()), DestroyStep(0);
            Inv(vm) && HandOk(vm) && Enabled(vm, step) && HandFreed(vm, step) && !HandOk(Next(vm, step))
  {
    var vm := HandOnFrame(Zeros());
    assert PageClean(vm, 0);
    HandStays(vm, DestroyStep(0));
  }
}
