/** The file system as the C source keeps it, updated in place. Each method is proved to do what
    the corresponding function of FileSys says. */
module FileSysOps {
  import opened Wrappers
  import opened Arithmetic
  import opened Bits
  import opened Orders
  import opened Storage
  import opened Codec
  import opened FileSys
  import opened FileSysInv
  import opened FileSysSteps
  import opened FileSysRuns
  import opened FileSysBoot
  import BM = Bitmap

  class FileSystem {
    const dev: Device
    const freeMap: BM.Bitmap
    /** The bits of the free map. */
    ghost var free: seq<bool>
    var mem: map<Ptr, Mem>
    var open: seq<Ptr>
    var files: map<Ptr, File>
    const freeInode: Ptr

    ghost function View(): Fs
      reads this, dev
    {
      Fs(dev.disk, free, mem, open, files, freeInode)
    }

    /** inode_init and free_map_init. */
    constructor (d: Device, p: Ptr)
      requires 2 <= |d.disk|
      ensures dev == d && View() == Blank(d.disk, p) && BM.Is(freeMap, free)
    {
      dev := d;
      freeMap := new BM.Bitmap(|d.disk|);
      free := Blank(d.disk, p).free;
      mem := map[];
      open := [];
      files := map[];
      freeInode := p;
      new;
      freeMap.Mark(FREE_MAP_SECTOR);
      freeMap.Mark(ROOT_DIR_SECTOR);
    }

    // filesys/free-map.c

    /** bitmap_write to the free map file. */
    method SaveMap(ok: bool) returns (saved: bool)
      requires freeInode in mem && DiskOk(dev.disk) && Fits(dev.disk, mem[freeInode].data)
      requires mem[freeInode].denyCnt >= 0
      requires BM.Is(freeMap, free)
      modifies dev
      ensures (View(), saved) == Save(old(View()), ok) && DiskOk(dev.disk) && |dev.disk| == |old(dev.disk)|
    {
      hide PackedMap;
      var bytes := MapBytes(freeMap);
      ReachWithin(mem[freeInode].data.length, |bytes|, 0, ok);
      var n := dev.WriteAt(mem[freeInode].data, mem[freeInode].denyCnt, bytes, 0, ok);
      saved := n == |bytes|;
    }

    method AllocateSectors(cnt: nat, ok: bool) returns (r: Option<nat>)
      requires freeInode in mem && DiskOk(dev.disk) && Fits(dev.disk, mem[freeInode].data)
      requires mem[freeInode].denyCnt >= 0
      requires BM.Is(freeMap, free)
      modifies this`free, freeMap.bits, dev
      ensures (View(), r) == Allocate(old(View()), cnt, ok) && DiskOk(dev.disk) && BM.Is(freeMap, free)
    {
      hide Save, BM.Bitmap.Valid, BM.Bitmap.Contents;
      var sector := freeMap.ScanAndFlip(0, cnt, false);
      if sector.None? { return None; }
      free := BM.SetRange(free, sector.value, cnt, true);
      var saved := SaveMap(ok);
      if !saved {
        freeMap.SetMultiple(sector.value, cnt, false);
        free := BM.SetRange(free, sector.value, cnt, false);
        return None;
      }
      r := sector;
    }

    /** The sectors must be in use. */
    method ReleaseSectors(k: nat, cnt: nat, ok: bool)
      requires freeInode in mem && DiskOk(dev.disk) && Fits(dev.disk, mem[freeInode].data)
      requires mem[freeInode].denyCnt >= 0
      requires BM.Is(freeMap, free) && BM.Group(free, k, cnt, true)
      modifies this`free, freeMap.bits, dev
      ensures View() == Release(old(View()), k, cnt, ok) && DiskOk(dev.disk) && BM.Is(freeMap, free)
      ensures |dev.disk| == |old(dev.disk)| && free == BM.SetRange(old(free), k, cnt, false)
    {
      hide Save, BM.Bitmap.Valid, BM.Bitmap.Contents;
      freeMap.SetMultiple(k, cnt, false);
      free := BM.SetRange(free, k, cnt, false);
      var saved := SaveMap(ok);
    }

    // filesys/inode.c

    method ZeroSectors(start: nat, cnt: nat)
      requires start + cnt <= |dev.disk| && DiskOk(dev.disk)
      modifies dev
      ensures dev.disk == Zeroed(old(dev.disk), start, cnt) && DiskOk(dev.disk)
    {
      for i := 0 to cnt
        invariant DiskOk(dev.disk) && dev.disk == Zeroed(old(dev.disk), start, i)
      {
        dev.disk := dev.disk[start + i := Zeros()];
      }
    }

    method CreateInode(sector: nat, length: nat, memOk: bool, saveOk: bool) returns (success: bool)
      requires freeInode in mem && DiskOk(dev.disk) && Fits(dev.disk, mem[freeInode].data)
      requires mem[freeInode].denyCnt >= 0
      requires sector < |dev.disk| == |free|
      requires BM.Is(freeMap, free)
      modifies this`free, freeMap.bits, dev
      ensures BM.Is(freeMap, free)
      ensures (View(), success) == InodeCreate(old(View()), sector, length, memOk, saveOk) && DiskOk(dev.disk)
    {
      hide Allocate, EncodeInode, Zeroed;
      if !memOk { return false; }
      AllocateSizes(View(), Sectors(length), saveOk);
      var start := AllocateSectors(Sectors(length), saveOk);
      if start.Some? {
        dev.disk := dev.disk[sector := EncodeInode(Extent(start.value, length))];
        ZeroSectors(start.value, Sectors(length));
        return true;
      }
      success := false;
    }

    method OpenInode(sector: nat, alloc: Option<Ptr>) returns (r: Option<Ptr>)
      requires sector < |dev.disk| && DiskOk(dev.disk) && forall p :: p in open ==> p in mem
      modifies this`mem, this`open
      ensures (View(), r) == InodeOpen(old(View()), sector, alloc)
    {
      var i := 0;
      while i < |open|
        invariant i <= |open| && FindOpen(open[i..], mem, sector) == FindOpen(open, mem, sector)
        invariant mem == old(mem) && open == old(open)
      {
        var p := open[i];
        if mem[p].sector == sector {
          mem := mem[p := mem[p].(openCnt := mem[p].openCnt + 1)];
          return Some(p);
        }
        i := i + 1;
      }
      if alloc.None? { return None; }
      open := [alloc.value] + open;
      mem := mem[alloc.value := Mem(sector, 1, false, 0, DecodeInode(dev.disk[sector]))];
      r := alloc;
    }
  
    /** inode_close; `temps` are the references other than this one that operations hold. */
    method CloseInode(p: Ptr, save1: bool, save2: bool, ghost temps: multiset<Ptr>, ghost more: set<nat>)
      requires InvWith(View(), temps + multiset{p}, more) && p in mem && mem[p].sector !in more
      requires BM.Is(freeMap, free)
      modifies this`mem, this`open, this`free, freeMap.bits, dev
      ensures BM.Is(freeMap, free)
      ensures View() == InodeClose(old(View()), p, save1, save2)
      ensures old(mem)[p].openCnt == 1 && old(mem)[p].removed ==> AllMarked(old(free), old(mem)[p])
    {
      hide InvWith, Release, Dropped;
      var m := mem[p];
      mem := mem[p := m.(openCnt := m.openCnt - 1)];
      if mem[p].openCnt == 0 {
        ghost var was := old(View());
        CloseFacts(was, p, temps, more);
        open := Removed(open, p);
        mem := mem - {p};
        assert mem == old(mem) - {p};
        assert View() == Dropped(was, p) by { DroppedIs(was, p); }
        if m.removed {
          FileMarked(was, p, temps, more);
          ReleaseFile(m, save1, save2);
        }
      }
    }

    /** The sectors of a file that is gone; all of them must be in use. */
    method ReleaseFile(m: Mem, save1: bool, save2: bool)
      requires freeInode in mem && DiskOk(dev.disk) && Fits(dev.disk, mem[freeInode].data)
      requires mem[freeInode].denyCnt >= 0
      requires BM.Is(freeMap, free) && AllMarked(free, m)
      modifies this`free, freeMap.bits, dev
      ensures View() == Release(Release(old(View()), m.sector, 1, save1), m.data.start, Sectors(m.data.length), save2)
      ensures BM.Is(freeMap, free)
    {
      hide Release, BM.Is, Sectors;
      ReleaseSectors(m.sector, 1, save1);
      ReleaseSectors(m.data.start, Sectors(m.data.length), save2);
    }

    // filesys/directory.c

    method Lookup(d: Ptr, name: Name) returns (r: Option<nat>, e: Entry)
      requires d in mem && DiskOk(dev.disk) && Fits(dev.disk, mem[d].data)
      ensures var s := Slots(dev.disk, mem[d].data); r == FindName(s, name, 0) && (r.Some? ==> e == s[r.value])
    {
      hide Content, DecodeEntry, CString;
      ghost var s := Slots(dev.disk, mem[d].data);
      var i := 0;
      e := Entry(0, [], false);
      while true
        invariant i <= |s| && FindName(s, name, i) == FindName(s, name, 0)
        decreases |s| - i
      {
        var b := dev.ReadAt(mem[d].data, 20, 20 * i, true);
        SlotRead(dev.disk, mem[d].data, i, b);
        if |b| != 20 { break; }
        e := DecodeEntry(b);
        if e.inUse && CString(e.field) == name { return Some(i), e; }
        i := i + 1;
      }
      r := None;
    }

    /** The scan of dir_add for a free slot; `e` is the entry last read. */
    method FindSlot(d: Ptr) returns (i: nat, e: Entry)
      requires d in mem && DiskOk(dev.disk) && Fits(dev.disk, mem[d].data)
      ensures var s := Slots(dev.disk, mem[d].data);
              i == FindFree(s, 0) && (i < |s| ==> e == s[i]) && |e.field| == NAME_MAX + 1
    {
      hide Content, DecodeEntry;
      ghost var s := Slots(dev.disk, mem[d].data);
      i := 0;
      e := Entry(0, seq(NAME_MAX + 1, _ => 0), false);
      while true
        invariant i <= |s| && FindFree(s, i) == FindFree(s, 0) && |e.field| == NAME_MAX + 1
        decreases |s| - i
      {
        var b := dev.ReadAt(mem[d].data, 20, 20 * i, true);
        SlotRead(dev.disk, mem[d].data, i, b);
        if |b| != 20 { break; }
        e := DecodeEntry(b);
        if !e.inUse { break; }
        i := i + 1;
      }
    }

    /** dir_add. */
    method AddEntry(d: Ptr, name: Name, sector: nat, ok: bool) returns (success: bool)
      requires d in mem && DiskOk(dev.disk) && Fits(dev.disk, mem[d].data) && mem[d].data.length == 320
      requires mem[d].denyCnt >= 0
      modifies dev
      ensures (View(), success) == DirAdd(old(View()), d, name, sector, ok)
    {
      hide FindName, FindFree, EncodeEntry, Slots, PatchedDisk;
      if name == [] || |name| > NAME_MAX { return false; }
      var found, e := Lookup(d, name);
      if found.Some? { return false; }
      var i, last := FindSlot(d);
      ghost var s := Slots(dev.disk, mem[d].data);
      SlotsLength(dev.disk, mem[d].data);
      SlotTransfer(i, ok);
      ReachWithin(320, 20, 20 * i, ok);
      ghost var blank := Entry(0, seq(NAME_MAX + 1, _ => 0), false);
      ghost var x := NewEntry(if i < |s| then s[i] else blank, name, sector);
      var b := EncodeEntry(NewEntry(last, name, sector));
      assert b[..0] == EncodeEntry(x)[..0];
      var n := dev.WriteAt(mem[d].data, mem[d].denyCnt, b, 20 * i, ok);
      success := n == 20;
    }
  
    /** dir_remove. */
    method RemoveEntry(d: Ptr, name: Name, u: Supply, ghost temps: multiset<Ptr>) returns (success: bool)
      requires InvWith(View(), temps, {}) && d in mem && mem[d].sector == ROOT_DIR_SECTOR
      requires u.inode.Some? ==> u.inode.value !in mem
      requires BM.Is(freeMap, free)
      modifies this`mem, this`open, this`free, freeMap.bits, dev
      ensures BM.Is(freeMap, free)
      ensures (View(), success) == DirRemove(old(View()), d, name, u)
    {
      hide InvWith, FindName, EncodeEntry, Slots, PatchedDisk, Dir, InodeOpen, InodeClose, DirOk, LinkOk,
           NamedSectors, AllOwners,
           Transferred;
      ghost var was := View();
      RootData(was, d, temps, {});
      InvParts(was, temps, {});
      var found, e := Lookup(d, name);
      if found.None? { return false; }
      var i := found.value;
      SlotNamed(Dir(dev.disk), i);
      SectorThere(was, e.sector, temps);
      ListedOpen(was, temps);
      InodeOpenInv(was, e.sector, u.inode, temps, {});
      OpenedIs(was, e.sector, u.inode);
      var p := OpenInode(e.sector, u.inode);
      if p.None? { return false; }
      ghost var a := View();
      RootData(a, d, temps + multiset{p.value}, {});
      DenyCount(a, d, temps + multiset{p.value});
      ReachWithin(mem[d].data.length, 20, 20 * i, u.slot);
      EraseOpen(a, d, i, p.value, u.slot, temps + multiset{p.value});
      var n := dev.WriteAt(mem[d].data, mem[d].denyCnt, EncodeEntry(e.(inUse := false)), 20 * i, u.slot);
      success := n == 20;
      if success { mem := mem[p.value := mem[p.value].(removed := true)]; }
      CloseInode(p.value, u.save1, u.save2, temps, {});
    }
  
    method OpenRootDir(u: Supply) returns (d: Option<Ptr>)
      requires Inv(View()) && (u.root.Some? ==> u.root.value !in mem)
      requires BM.Is(freeMap, free)
      modifies this`mem, this`open, this`free, freeMap.bits, dev
      ensures BM.Is(freeMap, free)
      ensures (View(), d) == OpenRoot(old(View()), u)
    {
      hide InvWith, InodeOpen, InodeClose, AllOwners;
      FreeFile(View(), multiset{}, {});
      ListedOpen(View(), multiset{});
      InodeOpenInv(View(), ROOT_DIR_SECTOR, u.root, multiset{}, {});
      d := OpenInode(ROOT_DIR_SECTOR, u.root);
      if d.Some? && !u.dir {
        CloseInode(d.value, true, true, multiset{}, {});
        d := None;
      }
    }

    // filesys/filesys.c

    /** The inode and the directory entry of a new file. */
    method MakeInode(d: Ptr, name: Name, sector: nat, size: nat, u: Supply) returns (success: bool)
      requires InvWith(View(), multiset{d}, {}) && d in mem && mem[d].sector == ROOT_DIR_SECTOR
      requires sector < |dev.disk| && free[sector] && size < 0x8000_0000
      requires AllClear(dev.disk, AllOwners(View()), sector, 1)
      requires BM.Is(freeMap, free)
      modifies this`free, freeMap.bits, dev
      ensures BM.Is(freeMap, free)
      ensures (View(), success) == MakeFile(old(View()), d, name, sector, size, u)
    {
      hide InvWith, InodeCreate, DirAdd, AllOwners, AllClear;
      MapReady(View(), multiset{d}, {});
      CreatedReady(View(), d, sector, size, u);
      success := CreateInode(sector, size, u.block, u.save2);
      if success { success := AddEntry(d, name, sector, u.slot); }
    }

    /** filesys_create once the inode's sector has been allocated. */
    method FinishCreate(d: Ptr, name: Name, sector: nat, size: nat, u: Supply) returns (success: bool)
      requires InvWith(View(), multiset{d}, {}) && d in mem && mem[d].sector == ROOT_DIR_SECTOR && 0 !in name
      requires sector < |dev.disk| && free[sector] && size < 0x8000_0000
      requires AllClear(dev.disk, AllOwners(View()), sector, 1)
      requires BM.Is(freeMap, free)
      modifies this`mem, this`open, this`free, freeMap.bits, dev
      ensures BM.Is(freeMap, free)
      ensures var (c, added) := MakeFile(old(View()), d, name, sector, size, u);
              && success == added
              && View() == Closed(if !added && sector != 0 then Release(c, sector, 1, u.save3) else c, d)
    {
      hide InvWith, MakeFile, Release, InodeClose, Dir, AllOwners, AllClear, NameAdded, FindName;
      ghost var t := multiset{d};
      assert t == multiset{} + multiset{d};
      MakeFileInv(View(), d, name, sector, size, u);
      success := MakeInode(d, name, sector, size, u);
      ghost var c := View();
      if !success && sector != 0 {
        MapReady(c, t, {});
        InvParts(c, t, {});
        ReleaseInv(c, sector, 1, u.save3, t, {}) by { assert AllOwners(c) + {} == AllOwners(c); }
        ReleaseIs(c, sector, 1, u.save3);
        ReleaseSectors(sector, 1, u.save3);
      }
      CloseInode(d, true, true, multiset{}, {});
    }

    method CreateFile(name: Name, size: nat, u: Supply) returns (success: bool)
      requires Inv(View()) && Fresh(View(), u) && size < 0x8000_0000 && 0 !in name
      requires BM.Is(freeMap, free)
      modifies this`mem, this`open, this`free, freeMap.bits, dev
      ensures BM.Is(freeMap, free)
      ensures (View(), success) == Create(old(View()), name, size, u) && Inv(View())
    {
      hide InvWith, OpenRoot, Allocate, MakeFile, Release, Closed, Dir, AllOwners, AllClear, CreateResult, DecodeInode;
      OpenRootInv(View(), u);
      CreateInv(View(), name, size, u);
      var dir := OpenRootDir(u);
      if dir.None? { return false; }
      var d := dir.value;
      ghost var t, a := multiset{d}, View();
      assert t == multiset{} + multiset{d};
      MapReady(a, t, {});
      AllocateInv(a, 1, u.save1, t, {});
      var sector := AllocateSectors(1, u.save1);
      OnlyMapIs(a, View());
      if sector.None? {
        ClosedIs(View(), d);
        CloseInode(d, true, true, multiset{}, {});
        return false;
      }
      TakenSector(a, View(), sector.value, t);
      success := FinishCreate(d, name, sector.value, size, u);
    }

    /** dir_lookup. */
    method LookupInode(d: Ptr, name: Name, u: Supply) returns (p: Option<Ptr>)
      requires InvWith(View(), multiset{d}, {}) && d in mem && mem[d].sector == ROOT_DIR_SECTOR
      requires u.inode.Some? ==> u.inode.value !in mem
      modifies this`mem, this`open
      ensures (View(), p) == DirLookup(old(View()), d, name, u)
      ensures InvWith(View(), (if p.Some? then multiset{p.value} else multiset{}) + multiset{d}, {})
      ensures d in mem && mem[d].sector == ROOT_DIR_SECTOR
      ensures p.Some? ==> p.value in mem && mem[p.value].sector > ROOT_DIR_SECTOR && !mem[p.value].removed
    {
      hide InvWith, InodeOpen, Dir, AllOwners, FindName, Slots, DirOk, LinkOk, NamedSectors, DecodeInode;
      ghost var t, a := multiset{d}, View();
      assert multiset{} + multiset{d} == t;
      RootData(a, d, t, {});
      var found, e := Lookup(d, name);
      if found.None? { return None; }
      SlotNamed(Dir(a.disk), found.value);
      SectorThere(a, e.sector, t);
      ListedOpen(a, t);
      InodeOpenInv(a, e.sector, u.inode, t, {});
      OpenedIs(a, e.sector, u.inode);
      p := OpenInode(e.sector, u.inode);
      if p.Some? {
        assert t + multiset{p.value} == multiset{p.value} + multiset{d};
        NamedFacts(View(), p.value, t + multiset{p.value});
      }
    }

    /** file_open of a reference to a file that has not been removed. */
    method OpenStruct(p: Ptr, u: Supply) returns (f: Option<Ptr>)
      requires InvWith(View(), multiset{p}, {}) && p in mem
      requires BM.Is(freeMap, free)
      modifies this`mem, this`open, this`free, freeMap.bits, this`files, dev
      ensures BM.Is(freeMap, free)
      ensures (View(), f) == FileOpen(old(View()), p, u)
    {
      hide InvWith, InodeClose;
      if u.file.None? {
        assert multiset{p} == multiset{} + multiset{p};
        CloseInode(p, u.save1, u.save2, multiset{}, {});
        return None;
      }
      files := files[u.file.value := File(p, false)];
      f := u.file;
    }

    method OpenFile(name: Name, u: Supply) returns (f: Option<Ptr>)
      requires Inv(View()) && Fresh(View(), u)
      requires BM.Is(freeMap, free)
      modifies this`mem, this`open, this`free, freeMap.bits, this`files, dev
      ensures BM.Is(freeMap, free)
      ensures (View(), f) == Open(old(View()), name, u) && Inv(View())
    {
      hide InvWith, OpenRoot, DirLookup, InodeClose, FileOpen, Dir, AllOwners, OpenResult, SectorOf;
      OpenRootInv(View(), u);
      OpenInv(View(), name, u);
      var dir := OpenRootDir(u);
      if dir.None? { return None; }
      var d := dir.value;
      assert multiset{d} == multiset{} + multiset{d};
      var p := LookupInode(d, name, u);
      ghost var rest := if p.Some? then multiset{p.value} else multiset{};
      ClosedInv(View(), d, rest);
      CloseInode(d, true, true, rest, {});
      if p.None? { return None; }
      f := OpenStruct(p.value, u);
    }

    method RemoveFile(name: Name, u: Supply) returns (success: bool)
      requires Inv(View()) && Fresh(View(), u)
      requires BM.Is(freeMap, free)
      modifies this`mem, this`open, this`free, freeMap.bits, dev
      ensures BM.Is(freeMap, free)
      ensures (View(), success) == Remove(old(View()), name, u) && Inv(View())
    {
      hide InvWith, OpenRoot, DirRemove, InodeClose, Dir, AllOwners, FindName, DecodeInode;
      OpenRootInv(View(), u);
      RemoveInv(View(), name, u);
      var dir := OpenRootDir(u);
      if dir.None? { return false; }
      var d := dir.value;
      ghost var t := multiset{d};
      assert t == multiset{} + multiset{d};
      DirRemoveInv(View(), d, name, u, t);
      success := RemoveEntry(d, name, u, t);
      CloseInode(d, true, true, multiset{}, {});
    }

    // filesys/file.c

    method CloseFile(f: Ptr, u: Supply)
      requires Inv(View()) && f in files && files[f].inode in mem
      requires BM.Is(freeMap, free)
      modifies this`mem, this`open, this`free, freeMap.bits, this`files, dev
      ensures BM.Is(freeMap, free)
      ensures View() == FileClose(old(View()), f, u) && Inv(View())
    {
      hide InvWith, InodeClose, Dir;
      CloseInv(View(), f, u);
      AllowInv(View(), f);
      FileDropped(AllowWrite(View(), f), f);
      var p := files[f].inode;
      if files[f].denied {
        mem := mem[p := mem[p].(denyCnt := mem[p].denyCnt - 1)];
        files := files[f := File(p, false)];
      }
      assert View() == AllowWrite(old(View()), f);
      files := files - {f};
      assert multiset{p} == multiset{} + multiset{p};
      CloseInode(p, u.save1, u.save2, multiset{}, {});
    }
  }

  /** The sectors of the file are marked, and the inode's is none of the data sectors. */
  ghost predicate AllMarked(free: seq<bool>, m: Mem) {
    && BM.Group(free, m.sector, 1, true)
    && BM.Group(BM.SetRange(free, m.sector, 1, false), m.data.start, Sectors(m.data.length), true)
  }

  lemma FileMarked(fs: Fs, p: Ptr, temps: multiset<Ptr>, more: set<nat>)
    requires InvWith(fs, temps + multiset{p}, more) && p in fs.mem && fs.mem[p].openCnt == 1
    ensures AllMarked(fs.free, fs.mem[p])
  {
    hide Dir, Owners, DecodeInode, OpenOk, DirOk, LinkOk, Removed, Handles, Denied;
    InodeOwner(fs, p, temps + multiset{p}, more);
    assert OwnerOk(fs.disk, fs.free, fs.mem[p].sector);
  }

  /** The words of a bitmap as bytes, least significant first. */
  method MapBytes(m: BM.Bitmap) returns (s: seq<Byte>)
    requires m.Valid()
    ensures s == PackedMap(m.Contents())
  {
    hide Le32, PackedMap, BM.Bitmap.Contents;
    s := [];
    PackedStart(m.Contents());
    for w := 0 to m.bits.Length
      invariant |s| == 4 * w <= |PackedMap(m.Contents())| && s == PackedMap(m.Contents())[..4 * w]
    {
      ghost var all := PackedMap(m.Contents());
      WordPacked(m, w);
      s := s + Le32(m.bits[w]);
      assert all[..4 * w + 4] == all[..4 * w] + all[4 * w..4 * w + 4];
    }
  }

  lemma PackedStart(free: seq<bool>)
    ensures |PackedMap(free)| == (|free| + 31) / 32 * 4
  {
  }

  lemma WordPacked(m: BM.Bitmap, w: nat)
    requires m.Valid() && w < m.bits.Length
    ensures var b := PackedMap(m.Contents()); 4 * w + 4 <= |b| && b[4 * w..4 * w + 4] == Le32(m.bits[w])
  {
    hide MapBits, Bit, BM.Bitmap.Contents;
    var free, b := m.Contents(), PackedMap(m.Contents());
    forall i: nat | i < 32 ensures Bit(m.bits[w], i) <==> 32 * w + i < |free| && free[32 * w + i] {
      WordBit(m, w, i);
    }
    hide BM.Bitmap.Valid;
    forall k: nat | k < 4 ensures Le32(m.bits[w])[k] as int == MapBits(free, 32 * w + 8 * k, 8) {
      ByteBits(free, w, m.bits[w], k);
    }
  }

  lemma WordBit(m: BM.Bitmap, w: nat, i: nat)
    requires m.Valid() && w < m.bits.Length && i < 32
    ensures Bit(m.bits[w], i) <==> 32 * w + i < |m.Contents()| && m.Contents()[32 * w + i]
  {
    var j := 32 * w + i;
    assert j / 32 == w && j % 32 == i;
    assert m.Raw()[j] == m.BitAt(j);
  }

  /** Byte `k` of a word that holds bits of the map. */
  lemma ByteBits(free: seq<bool>, w: nat, x: nat, k: nat)
    requires k < 4 && forall i: nat :: i < 32 ==> (Bit(x, i) <==> 32 * w + i < |free| && free[32 * w + i])
    ensures Le32(x)[k] as int == MapBits(free, 32 * w + 8 * k, 8)
  {
    hide MapBits, Bit, Le32, Pow2;
    var y, z, q := Le32(x)[k] as int, MapBits(free, 32 * w + 8 * k, 8), x / Pow2(8 * k);
    ByteOf(x, k);
    forall i: nat | i < 8 ensures Bit(y, i) == Bit(z, i) {
      ByteBit(q, y, i);
      BitShift(x, 8 * k, i);
      MapBitsBit(free, 32 * w + 8 * k, 8, i);
      assert Bit(x, 8 * k + i) <==> 32 * w + (8 * k + i) < |free| && free[32 * w + (8 * k + i)];
    }
    SameBits(y, z, 8);
  }

  lemma ByteBit(q: nat, y: nat, i: nat)
    requires y == q % Pow2(8) && i < 8
    ensures Bit(y, i) == Bit(q, i)
  {
    hide Bit, Pow2;
    BitLow(q, 8, i);
  }

  lemma ByteOf(x: nat, k: nat)
    requires k < 4
    ensures Le32(x)[k] as int == x / Pow2(8 * k) % Pow2(8) < Pow2(8)
  {
    Pow2Values();
    Pow2Add(8, 8);
    Pow2Add(16, 8);
  }

  lemma OnlyMapIs(a: Fs, b: Fs)
    requires OnlyMap(a, b)
    ensures b == a.(disk := b.disk, free := b.free) && |b.disk| == |a.disk| && |b.free| == |a.free| && DiskOk(b.disk)
  {
  }

  lemma ClosedIs(fs: Fs, d: Ptr)
    requires d in fs.mem
    ensures Closed(fs, d) == InodeClose(fs, d, true, true)
  {
  }

  /** The free map can be written. */
  lemma MapReady(fs: Fs, temps: multiset<Ptr>, more: set<nat>)
    requires InvWith(fs, temps, more)
    ensures fs.freeInode in fs.mem && DiskOk(fs.disk) && Fits(fs.disk, fs.mem[fs.freeInode].data)
    ensures fs.mem[fs.freeInode].denyCnt >= 0 && |fs.free| == |fs.disk|
  {
    hide Dir, Owners, DecodeInode, OpenOk, DirOk, LinkOk, Handles, Denied;
    FreeFile(fs, temps, more);
    assert OwnerOk(fs.disk, fs.free, 0);
  }

  /** After inode_create, the directory can be written. */
  lemma CreatedReady(b: Fs, d: Ptr, sector: nat, size: nat, u: Supply)
    requires InvWith(b, multiset{d}, {}) && d in b.mem && b.mem[d].sector == ROOT_DIR_SECTOR
    requires sector < |b.disk| && b.free[sector] && size < 0x8000_0000 && AllClear(b.disk, AllOwners(b), sector, 1)
    ensures var (c, made) := InodeCreate(b, sector, size, u.block, u.save2);
            && c == b.(disk := c.disk, free := c.free)
            && (made ==> DiskOk(c.disk) && Fits(c.disk, c.mem[d].data)
                         && c.mem[d].data.length == 320 && c.mem[d].denyCnt >= 0)
  {
    hide InvWith, Dir, AllOwners, AllClear, InodeCreate, OnlyMap, CreateFrame, DecodeInode, Slots, DirOk, LinkOk;
    InvParts(b, multiset{d}, {});
    assert AllOwners(b) + {} == AllOwners(b);
    InodeCreateInv(b, sector, size, u.block, u.save2, multiset{d}, {});
    var (c, made) := InodeCreate(b, sector, size, u.block, u.save2);
    if made {
      RootData(c, d, multiset{d}, {} + {sector});
      DenyCount(b, d, multiset{d});
    }
  }

  lemma SectorThere(fs: Fs, sector: nat, temps: multiset<Ptr>)
    requires InvWith(fs, temps, {}) && sector in NamedSectors(Dir(fs.disk))
    ensures sector < |fs.disk| && DiskOk(fs.disk)
  {
    hide InvWith, Dir, NamedSectors;
    InvParts(fs, temps, {});
    NamedOwner(fs, sector);
    OwnerIn(fs, temps, {}, sector);
  }

  lemma ListedOpen(fs: Fs, temps: multiset<Ptr>)
    requires InvWith(fs, temps, {})
    ensures forall p :: p in fs.open ==> p in fs.mem
  {
    hide Layout, Dir, Owners, DirOk, LinkOk, CountOk, DenyOk, DataOk, Distinct;
  }

  lemma DenyCount(fs: Fs, d: Ptr, temps: multiset<Ptr>)
    requires InvWith(fs, temps, {}) && d in fs.mem
    ensures fs.mem[d].denyCnt >= 0
  {
    hide Layout, Dir, Owners, DirOk, LinkOk, CountOk, OpenOk, DataOk, Denied;
  }

  lemma EraseOpen(a: Fs, d: Ptr, i: nat, p: Ptr, ok: bool, temps: multiset<Ptr>)
    requires InvWith(a, temps, {}) && d in a.mem && a.mem[d].sector == ROOT_DIR_SECTOR
    requires i < |Dir(a.disk)| && Dir(a.disk)[i].inUse && p in a.mem && a.mem[p].sector == Dir(a.disk)[i].sector
    ensures var (b, written) := InodeWrite(a, a.mem[d], EncodeEntry(Dir(a.disk)[i].(inUse := false)), 20 * i, ok);
            && p in b.mem && a.mem[p].sector > ROOT_DIR_SECTOR
            && InvWith(if written then MarkRemoved(b, p) else b, temps, {})
  {
    hide InvWith, Dir, NamedSectors, EncodeEntry, InodeWrite, Ext, DirOk, LinkOk, Slots;
    RootData(a, d, temps, {});
    var x := Dir(a.disk)[i].(inUse := false);
    EntryWrite(a, a.mem[d], i, x, ok);
    NamedDrop(Dir(a.disk), i);
    var (b, written) := InodeWrite(a, a.mem[d], EncodeEntry(x), 20 * i, ok);
    if written { ErasedInv(a, b, i, p, temps); }
  }

  lemma SlotsLength(d: Disk, e: Extent)
    requires DiskOk(d) && Fits(d, e)
    ensures |Slots(d, e)| == e.length / 20
  {
  }

  /** Reading twenty bytes at a slot gives its entry, or less than that at the end. */
  lemma SlotRead(d: Disk, e: Extent, i: nat, b: seq<Byte>)
    requires DiskOk(d) && Fits(d, e) && |b| == Transferred(e.length, 20, 20 * i, true) && IsRead(d, e, 20 * i, b)
    requires i <= |Slots(d, e)|
    ensures |b| == 20 <==> i < |Slots(d, e)|
    ensures |b| == 20 ==> DecodeEntry(b) == Slots(d, e)[i]
  {
    hide Content, DecodeEntry;
    assert |Slots(d, e)| == e.length / 20;
    if i < e.length / 20 { assert 20 * i + 20 <= e.length; } else { assert 20 * i + 20 > e.length; }
  }

  lemma DroppedIs(fs: Fs, p: Ptr)
    ensures Dropped(fs, p) == fs.(open := Removed(fs.open, p), mem := fs.mem - {p})
  {
  }

  /** What closing for the last time may rely on. */
  lemma CloseFacts(fs: Fs, p: Ptr, temps: multiset<Ptr>, more: set<nat>)
    requires InvWith(fs, temps + multiset{p}, more) && p in fs.mem && fs.mem[p].openCnt == 1
    ensures p != fs.freeInode && fs.freeInode in fs.mem && DiskOk(fs.disk) && Fits(fs.disk, fs.mem[fs.freeInode].data)
    ensures fs.mem[fs.freeInode].denyCnt >= 0
    ensures fs.mem[p].sector < |fs.free|
    ensures fs.mem[p].data.start + Sectors(fs.mem[p].data.length) <= |fs.free| == |fs.disk|
  {
    hide Dir, Owners, DecodeInode, OpenOk, DirOk, LinkOk, Removed, Handles, Denied;
    InodeOwner(fs, p, temps + multiset{p}, more);
    FreeFile(fs, temps + multiset{p}, more);
    assert OwnerOk(fs.disk, fs.free, fs.mem[p].sector) && OwnerOk(fs.disk, fs.free, 0);
    assert (multiset{fs.freeInode} + (temps + multiset{p}))[fs.freeInode] >= 1 + multiset{p}[fs.freeInode];
  }

  lemma AllocateSizes(fs: Fs, cnt: nat, ok: bool)
    ensures var (r, k) := Allocate(fs, cnt, ok);
            |r.disk| == |fs.disk| && (k.Some? ==> k.value + cnt <= |fs.free|)
  {
  }
}
