/** The loops of demand paging, updating state in place: the clock of do_eviction, the sector
    loops of swap_read and swap_write, and those of mmap_map and mmap_unmap. */
module PagingOps {
  import opened Wrappers
  import opened Storage
  import opened Orders
  import opened Paging
  import opened PagingInv
  import opened PagingRuns
  import BM = Bitmap

  // vm/swap.c

  /** The page kept in slot `k`: eight sectors one after the other. */
  ghost function SlotData(d: Disk, k: nat): (r: Data)
    requires DiskOk(d) && 8 * k + 8 <= |d|
    ensures |r| == 4096
  {
    seq(4096, i requires 0 <= i < 4096 && DiskOk(d) && 8 * k + 8 <= |d| => d[8 * k + i / 512][i % 512])
  }

  class SwapDevice {
    var disk: Disk

    method SwapWrite(slot: nat, data: Data)
      requires DiskOk(disk) && slot % SECTORS_PER_PAGE == 0 && slot + 8 <= |disk| && |data| == 4096
      modifies this
      ensures DiskOk(disk) && |disk| == |old(disk)| && SlotData(disk, slot / 8) == data
      ensures forall k :: 0 <= k < |disk| && !(slot <= k < slot + 8) ==> disk[k] == old(disk)[k]
    {
      for i := 0 to SECTORS_PER_PAGE
        invariant DiskOk(disk) && |disk| == |old(disk)|
        invariant forall j :: 0 <= j < i ==> disk[slot + j] == data[512 * j..512 * j + 512]
        invariant forall k :: 0 <= k < |disk| && !(slot <= k < slot + i) ==> disk[k] == old(disk)[k]
      {
        disk := disk[slot + i := data[512 * i..512 * i + 512]];
      }
      assert SlotData(disk, slot / 8) == data by {
        forall i | 0 <= i < 4096 ensures SlotData(disk, slot / 8)[i] == data[i] {
          assert disk[slot + i / 512] == data[512 * (i / 512)..512 * (i / 512) + 512];
        }
      }
    }

    method SwapRead(slot: nat) returns (data: Data)
      requires DiskOk(disk) && slot % SECTORS_PER_PAGE == 0 && slot + 8 <= |disk|
      ensures data == SlotData(disk, slot / 8)
    {
      data := [];
      for i := 0 to SECTORS_PER_PAGE
        invariant |data| == 512 * i && data == SlotData(disk, slot / 8)[..512 * i]
      {
        ghost var all := SlotData(disk, slot / 8);
        assert disk[slot + i] == all[512 * i..512 * i + 512];
        assert all[..512 * i] + all[512 * i..512 * i + 512] == all[..512 * i + 512];
        data := data + disk[slot + i];
      }
    }
  }

  /** What swap_write puts into a slot, swap_read finds there, and other slots are not touched. */
  lemma OtherSlotData(d: Disk, r: Disk, slot: nat, k: nat)
    requires DiskOk(d) && DiskOk(r) && |r| == |d| && slot % 8 == 0 && k != slot / 8 && 8 * k + 8 <= |d|
    requires forall j :: 0 <= j < |d| && !(slot <= j < slot + 8) ==> r[j] == d[j]
    ensures SlotData(r, k) == SlotData(d, k)
  {
  }

  /** The device holds these pages, one after the other. */
  ghost predicate SwapIs(d: Disk, swap: seq<Data>) {
    && DiskOk(d) && |d| == 8 * |swap|
    && forall k :: 0 <= k < |swap| ==> 8 * k + 8 <= |d| && SlotData(d, k) == swap[k]
  }

  lemma SwapWritten(d: Disk, r: Disk, swap: seq<Data>, k: nat, data: Data)
    requires SwapIs(d, swap) && k < |swap| && DiskOk(r) && |r| == |d| && SlotData(r, k) == data
    requires forall j :: 0 <= j < |d| && !(8 * k <= j < 8 * k + 8) ==> r[j] == d[j]
    ensures SwapIs(r, swap[k := data])
  {
    hide SlotData;
    forall i | 0 <= i < |swap| ensures 8 * i + 8 <= |r| && SlotData(r, i) == swap[k := data][i] {
      if i != k { OtherSlotData(d, r, 8 * k, i); }
    }
  }

  // vm/frame.c

  class Memory {
    var pages: map<Pid, Page>
    var table: seq<Fid>
    var frames: map<Fid, Frame>
    var hand: Hand
    var mem: map<Kpage, Data>
    var pool: set<Kpage>
    var accessed: set<Pid>
    var dirty: set<Pid>
    const slots: BM.Bitmap
    const dev: SwapDevice
    var files: map<FileId, Data>
    /** The bits of the map of slots, and the pages in the slots. */
    ghost var used: seq<bool>
    ghost var swap: seq<Data>

    constructor (vm: Vm, m: BM.Bitmap, d: SwapDevice)
      requires BM.Is(m, vm.used) && SwapIs(d.disk, vm.swap)
      ensures slots == m && dev == d && View() == vm && BM.Is(slots, used) && SwapIs(dev.disk, swap)
    {
      pages, table, frames, hand := vm.pages, vm.table, vm.frames, vm.hand;
      mem, pool, accessed, dirty := vm.mem, vm.pool, vm.accessed, vm.dirty;
      slots, dev, files := m, d, vm.files;
      used, swap := vm.used, vm.swap;
    }

    ghost function View(): Vm
      reads this
    {
      Vm(pages, table, frames, hand, mem, pool, accessed, dirty, used, swap, files)
    }

    /** The clock: the index of the victim, with the hand behind it. It returns within two sweeps. */
    method Advance() returns (i: nat)
      requires HandOk(View()) && (forall f :: f in table ==> f in frames)
      requires exists f :: f in table && Candidate(frames, f)
      modifies this`accessed, this`hand
      ensures var r := Clock(table, frames, HandIndex(old(View())), old(accessed), 2 * |table|);
              r.Victim? && i == r.index && accessed == r.accessed
      ensures hand == if i + 1 < |table| then At(table[i + 1]) else End
    {
      TwoSweeps(table, frames, HandIndex(View()), accessed);
      ghost var fuel: nat := 2 * |table|;
      ghost var goal := Clock(table, frames, HandIndex(View()), accessed, fuel);
      var h: nat := if hand.At? then IndexOf(table, hand.frame) else |table|;
      while true
        invariant h <= |table| && Clock(table, frames, h, accessed, fuel) == goal && goal.Victim?
        decreases fuel
      {
        if h == |table| { h := 0; }
        var f := frames[table[h]];
        h, fuel := h + 1, fuel - 1;
        hand := if h < |table| then At(table[h]) else End;
        if !f.pinned && f.spte.Some? {
          if f.spte.value in accessed {
            accessed := accessed - {f.spte.value};
          } else {
            return h - 1;
          }
        }
      }
    }

    /** The end of do_eviction: what becomes of the contents of page `p`. */
    method WriteBack(p: Pid, data: Data)
      requires p in pages && WrittenBack(View(), p, data).Some? && |data| == 4096
      requires pages[p].kind == Swapped && pages[p].slot != 0 ==> SlotOk(pages[p].slot, used)
      requires BM.Is(slots, used) && SwapIs(dev.disk, swap)
      modifies this`pages, this`used, this`swap, slots.bits, dev
      ensures WrittenBack(old(View()), p, data) == Some(View())
      ensures BM.Is(slots, used) && SwapIs(dev.disk, swap)
    {
      hide SwapIs, BM.Is;
      if p in dirty || pages[p].kind == Swapped {
        var k := pages[p].slot / SECTORS_PER_PAGE;
        if pages[p].kind != Swapped || pages[p].slot == 0 {
          k := SwapAlloc();
        } else {
          assert used == used[k := true];
        }
        ToSlot(k, data);
        pages := pages[p := pages[p].(kind := Swapped, slot := k * SECTORS_PER_PAGE)];
      }
    }

    /** swap_alloc, when there is a free slot. */
    method SwapAlloc() returns (k: nat)
      requires BM.Is(slots, used) && BM.Scanned(used, 0, 1, false).Some?
      modifies this`used, slots.bits
      ensures Some(k) == BM.Scanned(old(used), 0, 1, false) && k < |old(used)| && used == old(used)[k := true]
      ensures BM.Is(slots, used)
    {
      hide BM.Bitmap.Valid, BM.Bitmap.Contents;
      var r := slots.ScanAndFlip(0, 1, false);
      k := r.value;
      used := used[k := true];
      assert BM.SetRange(old(used), k, 1, true) == used;
    }

    /** swap_write. */
    method ToSlot(k: nat, data: Data)
      requires SwapIs(dev.disk, swap) && k < |swap| && |data| == 4096
      modifies this`swap, dev
      ensures swap == old(swap)[k := data] && SwapIs(dev.disk, swap)
    {
      hide SlotData;
      ghost var d := dev.disk;
      dev.SwapWrite(k * SECTORS_PER_PAGE, data);
      SwapWritten(d, dev.disk, swap, k, data);
      swap := swap[k := data];
    }

    /** swap_read. */
    method FromSlot(slot: nat) returns (data: Data)
      requires SwapIs(dev.disk, swap) && slot % SECTORS_PER_PAGE == 0 && slot / SECTORS_PER_PAGE < |swap|
      ensures data == swap[slot / SECTORS_PER_PAGE]
    {
      hide SlotData;
      data := dev.SwapRead(slot);
    }

    /** swap_free. */
    method FreeSlot(slot: nat)
      requires BM.Is(slots, used) && slot / SECTORS_PER_PAGE < |used|
      modifies this`used, slots.bits
      ensures used == SwapFree(old(used), slot) && BM.Is(slots, used)
    {
      hide BM.Bitmap.Valid, BM.Bitmap.Contents;
      slots.Reset(slot / SECTORS_PER_PAGE);
      used := SwapFree(used, slot);
    }

    /** do_eviction, when it can return. */
    method Eviction() returns (kpage: Kpage)
      requires Inv(View()) && HandOk(View()) && (exists f :: f in table && Candidate(frames, f)) && Evict(View()).Some?
      requires BM.Is(slots, used) && SwapIs(dev.disk, swap)
      modifies this, slots.bits, dev
      ensures Evict(old(View())) == Some((View(), kpage)) && Inv(View())
      ensures BM.Is(slots, used) && SwapIs(dev.disk, swap)
    {
      hide BM.Is, SwapIs, Inv, Clock, HandIndex, HandOk, WrittenBack;
      ListedFrames(View());
      EvictInv(View());
      var i := Advance();
      var f := frames[table[i]];
      var p := f.spte.value;
      VictimSlot(old(View()), table[i], p);
      kpage := f.kpage;
      frames := frames - {table[i]};
      table := table[..i] + table[i + 1..];
      pages := pages[p := pages[p].(frame := None)];
      assert View() == Unlinked(old(View()), i, p, accessed);
      WriteBack(p, mem[kpage]);
    }
  
    // vm/mmap.c

    /** The page table part of mmap_map: one entry for each page of the file, or none at all when
        `alloc` says that some entry could not be allocated. */
    method MapFile(file: FileId, ids: seq<Pid>, alloc: seq<bool>) returns (ok: bool)
      requires file in files && |ids| == |alloc| == PageCount(|files[file]|)
      requires forall p :: p in ids ==> p !in pages
      modifies this`pages
      ensures ok <==> forall i :: 0 <= i < |alloc| ==> alloc[i]
      ensures pages == if ok then WithMapping(old(pages), file, |files[file]|, ids) else old(pages)
    {
      hide WithMapping, MappedPage;
      var size, i := |files[file]|, 0;
      NoMapping(pages, file, size, ids[..0]);
      while i < |ids|
        invariant i <= |ids| && (forall j :: 0 <= j < i ==> alloc[j])
        invariant pages == WithMapping(old(pages), file, size, ids[..i])
      {
        if !alloc[i] {
          var j := 0;
          while j < i
            invariant j <= i && pages == WithMapping(old(pages), file, size, ids[..i]) - Elems(ids[..j])
          {
            ElemsStep(ids, j);
            pages := pages - {ids[j]};
            j := j + 1;
          }
          RolledBack(old(pages), file, size, ids[..i]);
          return false;
        }
        MappingStep(old(pages), file, size, ids, i);
        pages := pages[ids[i] := MappedPage(file, size, i)];
        i := i + 1;
      }
      assert ids[..i] == ids;
      ok := true;
    }
  
    method FreeFrame(fid: Fid)
      requires fid in frames
      modifies this`table, this`frames, this`pool
      ensures View() == FrameFree(old(View()), fid)
    {
      table := Removed(table, fid);
      pool := pool + {frames[fid].kpage};
      frames := frames - {fid};
    }

    /** One round of mmap_unmap. */
    method UnmapPage(p: Pid, buffer: bool)
      requires Inv(View()) && p in pages && BM.Is(slots, used) && SwapIs(dev.disk, swap)
      modifies this, slots.bits
      ensures View() == Unmapped(old(View()), p, buffer) && BM.Is(slots, used) && SwapIs(dev.disk, swap)
    {
      hide BM.Is, SwapIs, Inv, Removed, WrittenFile, SwapFree;
      UnmapFacts(View(), p);
      var e := pages[p];
      if e.frame.Some? {
        var f := e.frame.value;
        if p in dirty || e.kind == Swapped { files := WrittenFile(files, e, mem[frames[f].kpage]); }
        FreeFrame(f);
        if e.kind == Swapped && e.slot != 0 { FreeSlot(e.slot); }
      } else if e.kind == Swapped {
        if buffer {
          var data := FromSlot(e.slot);
          files := WrittenFile(files, e, data);
        }
        FreeSlot(e.slot);
      }
      pages := pages - {p};
      accessed := accessed - {p};
      dirty := dirty - {p};
    }

    /** mmap_unmap of the pages that map `file`. */
    method UnmapFile(ids: seq<Pid>, ghost file: FileId)
      requires Inv(View()) && Mapping(View(), ids, 0, file) && BM.Is(slots, used) && SwapIs(dev.disk, swap)
      modifies this, slots.bits
      ensures BM.Is(slots, used) && SwapIs(dev.disk, swap)
      ensures View() == UnmapFrom(old(View()), ids, 0) && UnmapDone(old(View()), View(), ids, 0, |ids|, file)
    {
      hide BM.Is, SwapIs, Inv, Mapping, UnmapDone, Unmapped;
      ghost var all := UnmapFrom(View(), ids, 0);
      UnmapWhole(View(), ids, 0, file);
      var i := 0;
      while i < |ids|
        invariant i <= |ids| && Inv(View()) && Mapping(View(), ids, i, file) && UnmapFrom(View(), ids, i) == all
        invariant BM.Is(slots, used) && SwapIs(dev.disk, swap)
      {
        UnmapRound(View(), ids, i, file);
        MappedThere(View(), ids, i, file);
        UnmapPage(ids[i], true);
        i := i + 1;
      }
    }
  }

  lemma MappedThere(vm: Vm, ids: seq<Pid>, m: nat, file: FileId)
    requires Mapping(vm, ids, m, file) && m < |ids|
    ensures ids[m] in vm.pages
  {
  }

  /** A victim that has a slot has a marked one, and its frame holds a page. */
  lemma VictimSlot(vm: Vm, f: Fid, p: Pid)
    requires Inv(vm) && f in vm.frames && vm.frames[f].spte == Some(p)
    ensures p in vm.pages && vm.frames[f].kpage in vm.mem && |vm.mem[vm.frames[f].kpage]| == 4096
    ensures vm.pages[p].kind == Swapped && vm.pages[p].slot != 0 ==> SlotOk(vm.pages[p].slot, vm.used)
  {
    hide CleanOk, FilesOk;
    assert Owns(vm.pages[p]) ==> SlotOk(vm.pages[p].slot, vm.used);
  }

  lemma UnmapFacts(vm: Vm, p: Pid)
    requires Inv(vm) && p in vm.pages
    ensures vm.pages[p].frame.Some? ==> InMemory(vm, p)
    ensures |vm.used| == |vm.swap| && (Owns(vm.pages[p]) ==> SlotOk(vm.pages[p].slot, vm.used))
    ensures vm.pages[p].frame.None? && vm.pages[p].kind == Swapped ==> vm.pages[p].slot / SECTORS_PER_PAGE < |vm.swap|
  {
    InMemoryIs(vm, p);
    hide TableOk, LinkOk, CleanOk, FilesOk;
    assert Owns(vm.pages[p]) ==> SlotOk(vm.pages[p].slot, vm.used);
  }

  ghost function Elems(ids: seq<Pid>): set<Pid> { set p | p in ids }

  /** The pages with entries for the first |ids| pages of the file added. */
  ghost function WithMapping(pages: map<Pid, Page>, file: FileId, size: nat, ids: seq<Pid>): map<Pid, Page> {
    if ids == [] then pages
    else WithMapping(pages, file, size, ids[..|ids| - 1])[ids[|ids| - 1] := MappedPage(file, size, |ids| - 1)]
  }

  lemma NoMapping(pages: map<Pid, Page>, file: FileId, size: nat, ids: seq<Pid>)
    requires ids == []
    ensures WithMapping(pages, file, size, ids) == pages
  {
  }

  lemma MappingStep(pages: map<Pid, Page>, file: FileId, size: nat, ids: seq<Pid>, i: nat)
    requires i < |ids|
    ensures WithMapping(pages, file, size, ids[..i + 1]) ==
            WithMapping(pages, file, size, ids[..i])[ids[i] := MappedPage(file, size, i)]
  {
    assert ids[..i + 1][..i] == ids[..i];
  }

  lemma ElemsStep(ids: seq<Pid>, j: nat)
    requires j < |ids|
    ensures Elems(ids[..j + 1]) == Elems(ids[..j]) + {ids[j]}
  {
    assert ids[..j + 1] == ids[..j] + [ids[j]];
  }

  /** The mapping adds exactly the new pages, each with its part of the file. */
  lemma {:induction false} MappingAdds(pages: map<Pid, Page>, file: FileId, size: nat, ids: seq<Pid>)
    requires Distinct(ids) && forall p :: p in ids ==> p !in pages
    ensures MappingAdded(pages, WithMapping(pages, file, size, ids), file, size, ids)
  {
    hide MappedPage, MappingAdded;
    if ids != [] {
      var n := |ids| - 1;
      assert ids == ids[..n] + [ids[n]];
      MappingAdds(pages, file, size, ids[..n]);
      OneAdded(pages, WithMapping(pages, file, size, ids[..n]), file, size, ids);
    } else {
      NoneAdded(pages, file, size);
    }
  }

  ghost predicate MappingAdded(pages: map<Pid, Page>, r: map<Pid, Page>, file: FileId, size: nat, ids: seq<Pid>) {
    && r.Keys == pages.Keys + Elems(ids) && (forall p :: p in pages ==> r[p] == pages[p])
    && forall i :: 0 <= i < |ids| ==> ids[i] in r && r[ids[i]] == MappedPage(file, size, i)
  }

  lemma NoneAdded(pages: map<Pid, Page>, file: FileId, size: nat)
    ensures MappingAdded(pages, pages, file, size, [])
  {
  }

  lemma OneAdded(pages: map<Pid, Page>, r: map<Pid, Page>, file: FileId, size: nat, ids: seq<Pid>)
    requires ids != [] && Distinct(ids) && ids[|ids| - 1] !in pages
    requires MappingAdded(pages, r, file, size, ids[..|ids| - 1])
    ensures MappingAdded(pages, r[ids[|ids| - 1] := MappedPage(file, size, |ids| - 1)], file, size, ids)
  {
    hide MappedPage;
    var n := |ids| - 1;
    ElemsStep(ids, n);
    assert ids[..n + 1] == ids;
    forall i | 0 <= i < n ensures ids[i] in r && r[ids[i]] == MappedPage(file, size, i) {
      assert ids[..n][i] == ids[i];
    }
  }

  /** What mmap_map makes is a mapping of the whole file. */
  lemma MappingMade(vm: Vm, ids: seq<Pid>, file: FileId)
    requires file in vm.files && |ids| == PageCount(|vm.files[file]|) && Distinct(ids)
    requires forall p :: p in ids ==> p !in vm.pages
    ensures Mapping(vm.(pages := WithMapping(vm.pages, file, |vm.files[file]|, ids)), ids, 0, file)
  {
    hide WithMapping, PageCount, Distinct;
    MappingAdds(vm.pages, file, |vm.files[file]|, ids);
    assert ids[0..] == ids;
  }

  lemma {:induction false} RolledBack(pages: map<Pid, Page>, file: FileId, size: nat, ids: seq<Pid>)
    requires forall p :: p in ids ==> p !in pages
    ensures WithMapping(pages, file, size, ids) - Elems(ids) == pages
  {
    if ids != [] {
      var n := |ids| - 1;
      assert ids == ids[..n] + [ids[n]];
      RolledBack(pages, file, size, ids[..n]);
      ElemsStep(ids, n);
    }
  }

  /** Pages of a file of `size` bytes. */
  function PageCount(size: nat): nat { (size + 4095) / 4096 }

  /** The entry mmap_map makes for page `i` of the file. */
  function MappedPage(file: FileId, size: nat, i: nat): Page {
    Page(FromFile, file, i * 4096, MappedBytes(size, i), 0, None)
  }

  function MappedBytes(size: nat, i: nat): nat {
    if i * 4096 + 4096 <= size then 4096 else if i * 4096 < size then size - i * 4096 else 0
  }

  /** Page `e` stands for page `i` of the mapped file, wherever its contents are now. */
  ghost predicate IsMapped(e: Page, file: FileId, size: nat, i: nat) {
    e.kind != Zero && e.file == file && e.offset == i * 4096 && e.readBytes == MappedBytes(size, i)
  }

  /** The pages `ids`, from `m` on, map the file, and unmapping them does no harm to other pages. */
  ghost predicate Mapping(vm: Vm, ids: seq<Pid>, m: nat, file: FileId) {
    && file in vm.files && |ids| == PageCount(|vm.files[file]|) && Distinct(ids) && m <= |ids|
    && (forall i :: m <= i < |ids| ==> ids[i] in vm.pages && IsMapped(vm.pages[ids[i]], file, |vm.files[file]|, i))
    && (forall i :: m <= i < |ids| ==> Harmless(vm, ids[i], true))
  }

  /** The loop of mmap_unmap, with buffers available. */
  ghost function UnmapFrom(vm: Vm, ids: seq<Pid>, m: nat): Vm
    decreases |ids| - m
  {
    if m >= |ids| then vm
    else UnmapFrom(if ids[m] in vm.pages then Unmapped(vm, ids[m], true) else vm, ids, m + 1)
  }

  /** What the mapping shows at byte `j` of the file. */
  ghost predicate ShowsAt(vm: Vm, ids: seq<Pid>, j: nat, b: Byte) {
    j / 4096 < |ids| && ids[j / 4096] in vm.pages && j % 4096 < |Shown(vm, ids[j / 4096])|
    && Shown(vm, ids[j / 4096])[j % 4096] == b
  }

  /** Each page's part of the file is not empty and apart from the others'. */
  lemma PartFacts(size: nat, i: nat)
    requires i < PageCount(size)
    ensures MappedBytes(size, i) > 0 && i * 4096 + MappedBytes(size, i) <= size && MappedBytes(size, i) <= 4096
    ensures forall j :: 0 <= j < size ==> (i * 4096 <= j < i * 4096 + MappedBytes(size, i) <==> j / 4096 == i)
  {
  }

  /** What is harmless stays so when other pages of the mapping are gone. */
  lemma StaysHarmless(vm: Vm, r: Vm, p: Pid, q: Pid)
    requires Inv(vm) && Inv(r) && p in vm.pages && r == Unmapped(vm, p, true) && q in vm.pages && Harmless(vm, q, true)
    requires q in r.pages && r.pages == vm.pages - {p} && forall x :: x in r.pages ==> Shown(r, x) == Shown(vm, x)
    ensures Harmless(r, q, true)
  {
    hide Inv, Shown, Unmapped;
    forall x | x in r.pages ensures (InMemory(r, x) <==> InMemory(vm, x)) && (x in r.dirty <==> x in vm.dirty) {
      SameResidence(vm, p, x);
    }
  }

  lemma SameResidence(vm: Vm, p: Pid, x: Pid)
    requires Inv(vm) && p in vm.pages && x in vm.pages && x != p && Inv(Unmapped(vm, p, true))
    requires Unmapped(vm, p, true).pages == vm.pages - {p}
    ensures var r := Unmapped(vm, p, true);
            (InMemory(r, x) <==> InMemory(vm, x)) && (x in r.dirty <==> x in vm.dirty)
  {
    InMemoryIs(vm, x);
    InMemoryIs(Unmapped(vm, p, true), x);
    hide Inv, Shown, Backing, WrittenFile, SwapFree, Removed, InMemory;
  }

  /** From `vm` to `r`, pages `m` to `n` of the mapping are gone, their parts of the file are what
      they showed, and everything else is as it was. */
  ghost predicate UnmapDone(vm: Vm, r: Vm, ids: seq<Pid>, m: nat, n: nat, file: FileId)
    requires file in vm.files
  {
    && r.files.Keys == vm.files.Keys && |r.files[file]| == |vm.files[file]|
    && (forall f :: f in vm.files && f != file ==> r.files[f] == vm.files[f])
    && (forall j :: 0 <= j < |vm.files[file]| && !(m <= j / 4096 < n) ==> r.files[file][j] == vm.files[file][j])
    && (forall j :: 0 <= j < |vm.files[file]| && m <= j / 4096 < n ==> ShowsAt(vm, ids, j, r.files[file][j]))
    && (forall q :: q in r.pages ==> q in vm.pages && Shown(r, q) == Shown(vm, q))
    && (m <= n <= |ids| ==> r.pages.Keys == vm.pages.Keys - Elems(ids[m..n]))
  }

  /** One round of the loop. */
  lemma UnmapRound(vm: Vm, ids: seq<Pid>, m: nat, file: FileId)
    requires Inv(vm) && Mapping(vm, ids, m, file) && m < |ids|
    ensures var r := Unmapped(vm, ids[m], true);
            Inv(r) && UnmapDone(vm, r, ids, m, m + 1, file) && Mapping(r, ids, m + 1, file)
  {
    hide Inv, Shown, Unmapped, Harmless;
    var p, size := ids[m], |vm.files[file]|;
    assert IsMapped(vm.pages[p], file, size, m);
    PartFacts(size, m);
    UnmapInv(vm, p, true);
    UnmapWritesBack(vm, p, true);
    var r := Unmapped(vm, p, true);
    forall j | 0 <= j < size && j / 4096 == m ensures ShowsAt(vm, ids, j, r.files[file][j]) {
      assert m * 4096 <= j < m * 4096 + MappedBytes(size, m);
    }
    assert ids[m..m + 1] == [ids[m]];
    forall i | m + 1 <= i < |ids| ensures Harmless(r, ids[i], true) { StaysHarmless(vm, r, p, ids[i]); }
  }

  lemma UnmapCompose(vm: Vm, a: Vm, r: Vm, ids: seq<Pid>, m: nat, n: nat, file: FileId)
    requires file in vm.files && m < n <= |ids| && UnmapDone(vm, a, ids, m, m + 1, file)
    requires UnmapDone(a, r, ids, m + 1, n, file)
    ensures UnmapDone(vm, r, ids, m, n, file)
  {
    hide Shown;
    forall j | 0 <= j < |vm.files[file]| && m <= j / 4096 < n ensures ShowsAt(vm, ids, j, r.files[file][j]) {
      if j / 4096 == m {
        assert r.files[file][j] == a.files[file][j];
      } else {
        assert ShowsAt(a, ids, j, r.files[file][j]);
      }
    }
    assert ids[m..n] == [ids[m]] + ids[m + 1..n];
    assert ids[m..m + 1] == [ids[m]];
  }

  /** mmap_unmap of a whole file leaves in it, byte for byte, what the mapping showed; no other
      file changes, and all other pages show what they showed. */
  lemma {:induction false} UnmapWhole(vm: Vm, ids: seq<Pid>, m: nat, file: FileId)
    requires Inv(vm) && Mapping(vm, ids, m, file)
    ensures Inv(UnmapFrom(vm, ids, m)) && UnmapDone(vm, UnmapFrom(vm, ids, m), ids, m, |ids|, file)
    decreases |ids| - m
  {
    hide Inv, Shown, Unmapped, IsMapped, PageCount;
    if m < |ids| {
      var a := Unmapped(vm, ids[m], true);
      UnmapRound(vm, ids, m, file);
      UnmapWhole(a, ids, m + 1, file);
      UnmapCompose(vm, a, UnmapFrom(a, ids, m + 1), ids, m, |ids|, file);
    } else {
      assert ids[m..m] == [];
    }
  }
}
