/** The invariant of demand paging: what a page shows survives eviction and reloading. */
module PagingInv {
  import opened Wrappers
  import opened Orders
  import opened Paging
  import BM = Bitmap

  type Pages = map<Pid, Page>
  type Frames = map<Fid, Frame>

  /** The frame list holds every frame once; frames have pages of memory of their own. */
  ghost predicate TableOk(table: seq<Fid>, frames: Frames, mem: map<Kpage, Data>, pool: set<Kpage>) {
    && Distinct(table)
    && (forall f :: f in table <==> f in frames)
    && (forall f :: f in frames ==> frames[f].kpage in mem && frames[f].kpage !in pool)
    && (forall f, g :: f in frames && g in frames && f != g ==> frames[f].kpage != frames[g].kpage)
  }

  ghost predicate MemOk(mem: map<Kpage, Data>, pool: set<Kpage>, swap: seq<Data>, used: seq<bool>) {
    && (forall k :: k in mem ==> |mem[k]| == 4096) && (forall k :: k in pool ==> k in mem)
    && |swap| == |used| && (forall k :: 0 <= k < |swap| ==> |swap[k]| == 4096)
  }

  /** Pages and frames point to each other. */
  ghost predicate LinkOk(pages: Pages, frames: Frames) {
    && (forall p :: p in pages && pages[p].frame.Some? ==>
          pages[p].frame.value in frames && frames[pages[p].frame.value].spte == Some(p))
    && (forall f :: f in frames && frames[f].spte.Some? ==>
          frames[f].spte.value in pages && pages[frames[f].spte.value].frame == Some(f))
  }

  /** The page has a swap slot of its own. */
  ghost predicate Owns(e: Page) { e.kind == Swapped && (e.frame.None? || e.slot != 0) }

  /** Slots in use by pages are marked, and no two pages share one. */
  ghost predicate SlotsOk(pages: Pages, used: seq<bool>) {
    && (forall p :: p in pages && Owns(pages[p]) ==> SlotOk(pages[p].slot, used))
    && (forall p, q :: p in pages && q in pages && p != q && Owns(pages[p]) && Owns(pages[q]) ==>
          pages[p].slot != pages[q].slot)
  }

  ghost predicate SlotOk(slot: nat, used: seq<bool>) {
    slot % SECTORS_PER_PAGE == 0 && slot / SECTORS_PER_PAGE < |used| && used[slot / SECTORS_PER_PAGE]
  }

  /** A page in memory that is neither dirty nor of type swap is as its backing store has it. */
  ghost predicate CleanOk(vm: Vm) {
    forall p :: p in vm.pages ==> PageClean(vm, p)
  }

  ghost predicate PageClean(vm: Vm, p: Pid)
    requires p in vm.pages
  {
    InMemory(vm, p) && vm.pages[p].kind != Swapped && p !in vm.dirty ==>
      Shown(vm, p) == Backing(vm.pages[p], vm.swap, vm.files)
  }

  ghost predicate FilesOk(pages: Pages, files: map<FileId, Data>) {
    forall p :: p in pages ==> FileOk(pages[p], files)
  }

  ghost predicate Inv(vm: Vm) {
    && TableOk(vm.table, vm.frames, vm.mem, vm.pool)
    && MemOk(vm.mem, vm.pool, vm.swap, vm.used)
    && LinkOk(vm.pages, vm.frames)
    && SlotsOk(vm.pages, vm.used)
    && CleanOk(vm)
    && FilesOk(vm.pages, vm.files)
  }

  /** Contents of the backing store do not depend on the frame. */
  lemma BackingSame(e: Page, g: Page, swap: seq<Data>, files: map<FileId, Data>)
    requires g == e.(frame := g.frame)
    ensures Backing(g, swap, files) == Backing(e, swap, files)
  {
  }

  lemma BackingSize(e: Page, swap: seq<Data>, used: seq<bool>, files: map<FileId, Data>, mem: map<Kpage, Data>,
                    pool: set<Kpage>)
    requires MemOk(mem, pool, swap, used)
    ensures |Backing(e, swap, files)| == 4096
  {
  }

  /** In memory is where the link says. */
  lemma InMemoryIs(vm: Vm, p: Pid)
    requires Inv(vm) && p in vm.pages
    ensures InMemory(vm, p) <==> vm.pages[p].frame.Some?
  {
  }

  // Eviction.

  lemma UnlinkedTable(vm: Vm, i: nat)
    requires TableOk(vm.table, vm.frames, vm.mem, vm.pool) && i < |vm.table|
    ensures TableOk(vm.table[..i] + vm.table[i + 1..], vm.frames - {vm.table[i]}, vm.mem, vm.pool)
    ensures i + 1 < |vm.table| ==> vm.table[i + 1] in vm.table[..i] + vm.table[i + 1..]
    ensures vm.frames[vm.table[i]].kpage in vm.mem
    ensures forall f :: f in vm.frames - {vm.table[i]} ==> vm.frames[f].kpage != vm.frames[vm.table[i]].kpage
  {
    var t := vm.table[..i] + vm.table[i + 1..];
    forall f ensures f in t <==> f in vm.frames - {vm.table[i]} {
      if f in t {
        var j :| 0 <= j < |t| && t[j] == f;
        assert t[j] == vm.table[if j < i then j else j + 1];
      }
      if f in vm.frames && f != vm.table[i] {
        var j :| 0 <= j < |vm.table| && vm.table[j] == f;
        assert t[if j < i then j else j - 1] == f;
      }
    }
    if i + 1 < |vm.table| { assert t[i] == vm.table[i + 1]; }
  }

  lemma UnlinkedLinks(pages: Pages, frames: Frames, f: Fid, p: Pid)
    requires LinkOk(pages, frames) && f in frames && frames[f].spte == Some(p)
    ensures p in pages && LinkOk(pages[p := pages[p].(frame := None)], frames - {f})
  {
  }

  /** The page that leaves its frame may have to get a slot; the others keep theirs. */
  lemma NewSlot(pages: Pages, used: seq<bool>, p: Pid, k: nat, e: Page)
    requires SlotsOk(pages, used) && p in pages && k < |used|
    requires (!used[k] || (Owns(pages[p]) && pages[p].slot == k * SECTORS_PER_PAGE))
    requires e.slot == k * SECTORS_PER_PAGE
    ensures SlotsOk(pages[p := e], used[k := true])
  {
    SlotArithmetic(k);
    forall q | q in pages && q != p && Owns(pages[q]) ensures pages[q].slot != e.slot {
      assert SlotOk(pages[q].slot, used);
    }
  }

  lemma SlotArithmetic(k: nat)
    ensures k * SECTORS_PER_PAGE % SECTORS_PER_PAGE == 0 && k * SECTORS_PER_PAGE / SECTORS_PER_PAGE == k
  {
    assert SECTORS_PER_PAGE == 8;
  }

  lemma SlotSame(slot: nat)
    requires slot % SECTORS_PER_PAGE == 0
    ensures slot / SECTORS_PER_PAGE * SECTORS_PER_PAGE == slot
  {
    assert SECTORS_PER_PAGE == 8;
  }

  /** Nothing that page `q` depends on has changed. */
  ghost predicate Kept(vm: Vm, v: Vm, q: Pid) {
    && q in vm.pages && q in v.pages && v.pages[q] == vm.pages[q]
    && (InMemory(v, q) <==> InMemory(vm, q))
    && (InMemory(vm, q) ==>
          var f := vm.pages[q].frame.value;
          v.frames[f].kpage == vm.frames[f].kpage && v.mem[vm.frames[f].kpage] == vm.mem[vm.frames[f].kpage])
    && (!InMemory(vm, q) || (vm.pages[q].kind != Swapped && q !in vm.dirty) ==>
          Backing(v.pages[q], v.swap, v.files) == Backing(vm.pages[q], vm.swap, vm.files))
    && (q in v.dirty <==> q in vm.dirty)
  }

  lemma KeptShows(vm: Vm, v: Vm, q: Pid)
    requires Kept(vm, v, q) && PageClean(vm, q)
    ensures Shown(v, q) == Shown(vm, q) && PageClean(v, q)
  {
    hide Backing;
  }

  /** Swap contents matter only to pages that own a slot. */
  lemma BackingSwap(e: Page, swap: seq<Data>, swap': seq<Data>, files: map<FileId, Data>)
    requires e.kind == Swapped ==> |swap'| == |swap| && (e.slot / SECTORS_PER_PAGE < |swap| ==>
               swap'[e.slot / SECTORS_PER_PAGE] == swap[e.slot / SECTORS_PER_PAGE])
    ensures Backing(e, swap', files) == Backing(e, swap, files)
  {
  }

  /** After an eviction, with page `k` of memory belonging to no frame. */
  ghost predicate Evicted(vm: Vm, v: Vm, k: Kpage) {
    && Inv(v) && HandOk(v) && k in v.mem && k !in v.pool
    && (forall f :: f in v.frames ==> v.frames[f].kpage != k)
    && v.pages.Keys == vm.pages.Keys && (forall q :: q in vm.pages ==> Shown(v, q) == Shown(vm, q))
    && (forall q :: q in vm.pages && vm.pages[q].frame.None? ==> v.pages[q] == vm.pages[q])
    && v.files == vm.files && v.pool == vm.pool && v.frames.Keys <= vm.frames.Keys
  }

  /** Unlinking leaves every other page as it is. */
  lemma UnlinkedKept(vm: Vm, i: nat, p: Pid, acc: set<Pid>, q: Pid)
    requires Inv(vm) && i < |vm.table| && vm.frames[vm.table[i]].spte == Some(p) && p in vm.pages
    requires q in vm.pages && q != p
    ensures Kept(vm, Unlinked(vm, i, p, acc), q)
  {
    hide Backing, Distinct;
  }

  lemma UnlinkedParts(vm: Vm, i: nat, p: Pid, acc: set<Pid>)
    requires Inv(vm) && i < |vm.table| && vm.frames[vm.table[i]].spte == Some(p)
    ensures p in vm.pages
    ensures var u := Unlinked(vm, i, p, acc);
            && TableOk(u.table, u.frames, u.mem, u.pool) && LinkOk(u.pages, u.frames) && FilesOk(u.pages, u.files)
            && HandOk(u)
            && (forall f :: f in u.frames ==> u.frames[f].kpage != vm.frames[vm.table[i]].kpage)
  {
    hide Distinct, CleanOk, MemOk, SlotsOk;
    UnlinkedLinks(vm.pages, vm.frames, vm.table[i], p);
    UnlinkedTable(vm, i);
  }

  /** The victim is clean: its backing store has its contents. */
  lemma CleanVictim(vm: Vm, i: nat, p: Pid, acc: set<Pid>)
    requires Inv(vm) && i < |vm.table| && vm.frames[vm.table[i]].spte == Some(p) && p in vm.pages
    requires p !in vm.dirty && vm.pages[p].kind != Swapped
    ensures Evicted(vm, Unlinked(vm, i, p, acc), vm.frames[vm.table[i]].kpage)
  {
    hide TableOk, LinkOk, FilesOk, MemOk, Backing, Distinct;
    var u := Unlinked(vm, i, p, acc);
    UnlinkedParts(vm, i, p, acc);
    VictimFacts(vm, i, p);
    forall q | q in vm.pages && q != p ensures Shown(u, q) == Shown(vm, q) && PageClean(u, q) {
      UnlinkedKept(vm, i, p, acc, q);
      assert PageClean(vm, q);
      KeptShows(vm, u, q);
    }
    assert PageClean(vm, p);
    BackingSame(vm.pages[p], u.pages[p], vm.swap, vm.files);
    assert SlotsOk(u.pages, u.used);
  }

  lemma VictimFacts(vm: Vm, i: nat, p: Pid)
    requires Inv(vm) && i < |vm.table| && vm.frames[vm.table[i]].spte == Some(p)
    ensures vm.table[i] in vm.frames && p in vm.pages && InMemory(vm, p) && vm.pages[p].frame == Some(vm.table[i])
    ensures vm.frames[vm.table[i]].kpage in vm.mem && vm.frames[vm.table[i]].kpage !in vm.pool
    ensures Shown(vm, p) == vm.mem[vm.frames[vm.table[i]].kpage]
    ensures forall q :: q in vm.pages && vm.pages[q].frame.None? ==> q != p
  {
    hide Distinct, CleanOk, MemOk, SlotsOk;
  }

  /** The victim's contents go to a slot that is free or already its own. */
  lemma WrittenVictim(vm: Vm, i: nat, p: Pid, acc: set<Pid>, k: nat)
    requires Inv(vm) && i < |vm.table| && vm.frames[vm.table[i]].spte == Some(p) && p in vm.pages
    requires k < |vm.used| && (!vm.used[k] || (Owns(vm.pages[p]) && vm.pages[p].slot == k * SECTORS_PER_PAGE))
    requires vm.frames[vm.table[i]].kpage in vm.mem
    ensures |vm.swap| == |vm.used|
    ensures var u, data := Unlinked(vm, i, p, acc), vm.mem[vm.frames[vm.table[i]].kpage];
            Evicted(vm, SwappedOut(u, p, k, data), vm.frames[vm.table[i]].kpage)
  {
    hide TableOk, LinkOk, Backing, Distinct, Kept, Shown, InMemory, FilesOk;
    UnlinkedParts(vm, i, p, acc);
    VictimFacts(vm, i, p);
    var u, data := Unlinked(vm, i, p, acc), vm.mem[vm.frames[vm.table[i]].kpage];
    var v := SwappedOut(u, p, k, data);
    SlotArithmetic(k);
    NewSlot(vm.pages, vm.used, p, k, v.pages[p]);
    assert v.pages == vm.pages[p := v.pages[p]];
    SameFrames(u.pages, v.pages, u.frames, p);
    SameFiles(u.pages, v.pages, u.files, p);
    forall q | q in vm.pages && q != p ensures Shown(v, q) == Shown(vm, q) && PageClean(v, q) {
      WrittenKept(vm, i, p, acc, k, data, q);
      assert PageClean(vm, q);
      KeptShows(vm, v, q);
    }
    SwapShows(v, p, k);
  }

  lemma SameFiles(pages: Pages, pages': Pages, files: map<FileId, Data>, p: Pid)
    requires FilesOk(pages, files) && p in pages && p in pages' && pages' == pages[p := pages'[p]]
    requires FileOk(pages[p], files) ==> FileOk(pages'[p], files)
    ensures FilesOk(pages', files)
  {
  }

  lemma WrittenKept(vm: Vm, i: nat, p: Pid, acc: set<Pid>, k: nat, data: Data, q: Pid)
    requires Inv(vm) && i < |vm.table| && vm.frames[vm.table[i]].spte == Some(p) && p in vm.pages
    requires k < |vm.used| == |vm.swap|
    requires (!vm.used[k] || (Owns(vm.pages[p]) && vm.pages[p].slot == k * SECTORS_PER_PAGE))
    requires q in vm.pages && q != p
    ensures Kept(vm, SwappedOut(Unlinked(vm, i, p, acc), p, k, data), q)
  {
    hide Backing, Inv;
    UnlinkedKept(vm, i, p, acc, q);
    OtherSlot(vm, p, q, k);
    var v := SwappedOut(Unlinked(vm, i, p, acc), p, k, data);
    if !InMemory(vm, q) || vm.pages[q].kind != Swapped { BackingSwap(vm.pages[q], vm.swap, v.swap, vm.files); }
  }

  lemma SwapShows(v: Vm, p: Pid, k: nat)
    requires p in v.pages && v.pages[p].frame.None? && v.pages[p].kind == Swapped
    requires v.pages[p].slot == k * SECTORS_PER_PAGE
    requires k < |v.swap|
    ensures Shown(v, p) == v.swap[k] && PageClean(v, p)
  {
    SlotArithmetic(k);
  }

  lemma SameFrames(pages: Pages, pages': Pages, frames: Frames, p: Pid)
    requires LinkOk(pages, frames) && p in pages && p in pages' && pages' == pages[p := pages'[p]]
    requires pages'[p].frame == pages[p].frame
    ensures LinkOk(pages', frames)
  {
  }

  /** No other page that is not in memory reads slot `k`. */
  lemma OtherSlot(vm: Vm, p: Pid, q: Pid, k: nat)
    requires Inv(vm) && p in vm.pages && q in vm.pages && q != p && k < |vm.used|
    requires !vm.used[k] || (Owns(vm.pages[p]) && vm.pages[p].slot == k * SECTORS_PER_PAGE)
    ensures vm.pages[q].kind == Swapped && !InMemory(vm, q) ==> vm.pages[q].slot / SECTORS_PER_PAGE != k
  {
    hide TableOk, MemOk, CleanOk, FilesOk, Backing;
    InMemoryIs(vm, q);
    if vm.pages[q].kind == Swapped && !InMemory(vm, q) {
      assert Owns(vm.pages[q]) && SlotOk(vm.pages[q].slot, vm.used);
      SlotSame(vm.pages[q].slot);
    }
  }

  /** do_eviction keeps the invariant, and every page, the victim included, shows what it showed. */
  lemma EvictInv(vm: Vm)
    requires Inv(vm) && Evict(vm).Some?
    ensures Evicted(vm, Evict(vm).value.0, Evict(vm).value.1)
  {
    hide Inv, Evicted, Clock, HandIndex, Unlinked, SwappedOut;
    ListedFrames(vm);
    var r := Clock(vm.table, vm.frames, HandIndex(vm), vm.accessed, 2 * |vm.table|);
    var f := vm.frames[vm.table[r.index]];
    var p := f.spte.value;
    var e := vm.pages[p];
    UnlinkedIs(vm, r.index, p, r.accessed);
    VictimFacts(vm, r.index, p);
    if p !in vm.dirty && e.kind != Swapped {
      CleanVictim(vm, r.index, p, r.accessed);
    } else if e.kind == Swapped && e.slot != 0 {
      OwnSlot(vm, p);
      WrittenVictim(vm, r.index, p, r.accessed, e.slot / SECTORS_PER_PAGE);
    } else {
      var k := BM.Scanned(vm.used, 0, 1, false).value;
      assert !vm.used[k];
      WrittenVictim(vm, r.index, p, r.accessed, k);
    }
  }

  lemma ListedFrames(vm: Vm)
    requires Inv(vm)
    ensures forall f :: f in vm.table ==> f in vm.frames
  {
    hide Distinct, MemOk, LinkOk, SlotsOk, CleanOk, FilesOk;
  }

  lemma UnlinkedIs(vm: Vm, i: nat, p: Pid, acc: set<Pid>)
    requires i < |vm.table| && p in vm.pages
    ensures var u := Unlinked(vm, i, p, acc);
            && p in u.pages && u.pages[p] == vm.pages[p].(frame := None) && u.dirty == vm.dirty && u.used == vm.used
            && u.swap == vm.swap
  {
  }

  lemma OwnSlot(vm: Vm, p: Pid)
    requires Inv(vm) && p in vm.pages && vm.pages[p].kind == Swapped && vm.pages[p].slot != 0
    ensures Owns(vm.pages[p]) && vm.pages[p].slot / SECTORS_PER_PAGE < |vm.used|
    ensures vm.pages[p].slot == vm.pages[p].slot / SECTORS_PER_PAGE * SECTORS_PER_PAGE
  {
    hide TableOk, LinkOk, MemOk, CleanOk, FilesOk;
    assert SlotOk(vm.pages[p].slot, vm.used);
    SlotSame(vm.pages[p].slot);
  }
}
