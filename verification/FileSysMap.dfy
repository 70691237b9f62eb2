/** The free map in its file is at all times the free map in memory, as long as bounce buffers can
    be had for writing it; so a disk can be mounted again after any run (filesys/free-map.c). */
module FileSysMap {
  import opened Wrappers
  import opened Orders
  import opened Storage
  import opened Codec
  import opened FileSys
  import opened FileSysInv
  import opened FileSysSteps
  import opened FileSysRuns
  import opened FileSysExact
  import opened FileSysBoot
  import BM = Bitmap

  /** The file has the size of the map. */
  ghost predicate MapFits(fs: Fs) {
    DiskOk(fs.disk) && |fs.disk| > 0 && Ext(fs.disk, FREE_MAP_SECTOR).length == |PackedMap(fs.free)|
  }

  lemma OnDiskFits(fs: Fs)
    requires MapOnDisk(fs)
    ensures MapFits(fs)
  {
  }

  lemma FitsSame(fs: Fs, r: Fs)
    requires MapFits(fs) && DiskOk(r.disk) && |r.disk| > 0 && r.disk[0] == fs.disk[0] && |r.free| == |fs.free|
    ensures MapFits(r)
  {
  }

  /** It goes on doing so if neither the map nor its file changes. */
  lemma MapKept(fs: Fs, r: Fs)
    requires MapOnDisk(fs) && r.free == fs.free && DiskOk(r.disk) && |r.disk| == |fs.disk| && r.disk[0] == fs.disk[0]
    requires forall k :: 0 <= k < |fs.disk| && In(Ext(fs.disk, FREE_MAP_SECTOR), k) ==> r.disk[k] == fs.disk[k]
    ensures MapOnDisk(r)
  {
    var e := Ext(fs.disk, FREE_MAP_SECTOR);
    forall pos | 0 <= pos < e.length ensures Content(r.disk, e)[pos] == Content(fs.disk, e)[pos] {
      assert In(e, e.start + pos / 512);
    }
  }

  /** Writing the map makes it so. */
  lemma SaveMap(fs: Fs, temps: multiset<Ptr>, more: set<nat>)
    requires InvWith(fs, temps, more) && MapFits(fs)
    ensures MapOnDisk(Save(fs, true).0)
  {
    hide InvWith, PackedMap, DecodeInode, AllOwners, Content, PatchedDisk;
    FreeFile(fs, temps, more);
    FreeMapInode(fs, temps, more);
    Undenied(fs, fs.freeInode, temps, more);
    OwnerFits(fs, FREE_MAP_SECTOR, temps, more);
    SaveInv(fs, true, temps, more);
    SavedWhole(fs, fs.mem[fs.freeInode]);
  }

  lemma OwnerFits(fs: Fs, o: nat, temps: multiset<Ptr>, more: set<nat>)
    requires InvWith(fs, temps, more) && o in AllOwners(fs) + more
    ensures o < |fs.disk| && DiskOk(fs.disk) && Fits(fs.disk, Ext(fs.disk, o)) && !In(Ext(fs.disk, o), o)
  {
    hide OpenOk, DataOk, DirOk, LinkOk, CountOk, DenyOk, Dir, Owners, Apart;
    assert OwnerOk(fs.disk, fs.free, o);
  }

  lemma SavedWhole(fs: Fs, m: Mem)
    requires DiskOk(fs.disk) && Fits(fs.disk, m.data) && m.denyCnt == 0 && m.data.length == |PackedMap(fs.free)|
    ensures var r := InodeWrite(fs, m, PackedMap(fs.free), 0, true).0;
            DiskOk(r.disk) && Fits(r.disk, m.data) && Content(r.disk, m.data) == PackedMap(fs.free)
  {
    hide PackedMap, Content, PatchedDisk;
    var b := PackedMap(fs.free);
    assert b[..|b|] == b;
    PatchedContent(fs.disk, m.data, 0, b);
    assert Patched(Content(fs.disk, m.data), 0, b) == b;
  }

  /** free_map_release. */
  lemma ReleaseMap(fs: Fs, k: nat, cnt: nat, temps: multiset<Ptr>, more: set<nat>)
    requires InvWith(fs, temps, more) && k + cnt <= |fs.free| && MapFits(fs)
    requires AllClear(fs.disk, AllOwners(fs) + more, k, cnt)
    ensures MapOnDisk(Release(fs, k, cnt, true))
  {
    hide InvWith, Save, Dir, Layout, AllOwners, Ext, Clear, MapOnDisk, PackedMap;
    InvParts(fs, temps, more);
    var m := Marked(fs, k, cnt, false);
    LayoutRelease(fs.disk, fs.free, AllOwners(fs) + more, k, cnt);
    FreeInv(fs, m.free, temps, more);
    PackedLength(fs.free, m.free);
    SaveMap(m, temps, more);
  }

  /** free_map_allocate. */
  lemma AllocateMap(fs: Fs, cnt: nat, temps: multiset<Ptr>, more: set<nat>)
    requires InvWith(fs, temps, more) && MapOnDisk(fs)
    ensures MapOnDisk(Allocate(fs, cnt, true).0)
  {
    OnDiskFits(fs);
    hide InvWith, Save, Layout, AllOwners, Ext, MapOnDisk, PackedMap;
    InvParts(fs, temps, more);
    var g := BM.Scanned(fs.free, 0, cnt, false);
    if g.Some? {
      var m := Marked(fs, g.value, cnt, true);
      GroupFits(fs.free, g.value, cnt);
      LayoutMark(fs.disk, fs.free, AllOwners(fs) + more, g.value, cnt);
      FreeInv(fs, m.free, temps, more);
      PackedLength(fs.free, m.free);
      SaveMap(m, temps, more);
      SaveExact(m, true, temps, more);
    }
  }

  /** inode_create. */
  lemma InodeCreateMap(fs: Fs, sector: nat, length: nat, memOk: bool, temps: multiset<Ptr>, more: set<nat>)
    requires InvWith(fs, temps, more) && sector < |fs.disk| && fs.free[sector] && MapOnDisk(fs)
    requires AllClear(fs.disk, AllOwners(fs) + more, sector, 1)
    ensures MapOnDisk(InodeCreate(fs, sector, length, memOk, true).0)
  {
    hide InvWith, Dir, AllOwners, Layout, AllClear, Allocate, Sectors, EncodeInode, DecodeInode, MapOnDisk, Zeroed;
    if memOk {
      var cnt := Sectors(length);
      var (a, start) := Allocate(fs, cnt, true);
      AllocateMap(fs, cnt, temps, more);
      AllocateInv(fs, cnt, true, temps, more);
      InvParts(fs, temps, more);
      InvParts(a, temps, more);
      FreeFile(fs, temps, more);
      SameOwnersOf(fs, a);
      MapKeepsInodes(fs, a, temps, more);
      ClearSame(fs.disk, a.disk, AllOwners(fs) + more, sector, 1);
      if start.Some? {
        var e := Extent(start.value, length);
        UnmarkedClear(fs.disk, fs.free, AllOwners(fs) + more, e.start, cnt);
        ClearSame(fs.disk, a.disk, AllOwners(fs) + more, e.start, cnt);
        MarkedApart(fs.free, e, sector);
        MadeMap(a, sector, e, AllOwners(fs) + more);
      }
    }
  }

  lemma MarkedApart(free: seq<bool>, e: Extent, sector: nat)
    requires BM.Group(free, e.start, Sectors(e.length), false) && sector < |free| && free[sector]
    ensures !In(e, sector)
  {
  }

  lemma MadeMap(a: Fs, sector: nat, e: Extent, owners: set<nat>)
    requires MapOnDisk(a) && sector < |a.disk| && !In(e, sector) && FREE_MAP_SECTOR in owners
    requires AllClear(a.disk, owners, sector, 1) && AllClear(a.disk, owners, e.start, Sectors(e.length))
    ensures MapOnDisk(a.(disk := Made(a.disk, sector, e)))
  {
    hide Made, DecodeInode, Sectors, Content, PackedMap;
    MadeFacts(a.disk, sector, e);
    assert Clear(a.disk, 0, sector, 1) && Clear(a.disk, 0, e.start, Sectors(e.length));
    MapKept(a, a.(disk := Made(a.disk, sector, e)));
  }

  /** What changes the data of another owner leaves the map's file alone. */
  lemma OwnDataMap(fs: Fs, r: Fs, o: nat, temps: multiset<Ptr>, more: set<nat>)
    requires InvWith(fs, temps, more) && MapOnDisk(fs) && o in AllOwners(fs) + more && o != FREE_MAP_SECTOR
    requires o < |fs.disk| && OnlyIn(fs, r, Ext(fs.disk, o))
    ensures MapOnDisk(r)
  {
    hide Dir, NamedSectors, OpenSectors, DecodeInode, OpenOk, DataOk, DirOk, LinkOk, CountOk, DenyOk, MapOnDisk;
    assert OwnerOk(fs.disk, fs.free, 0) && OwnerOk(fs.disk, fs.free, o) && Apart(fs.disk, 0, o);
    MapKept(fs, r);
  }

  // The operations.

  lemma SameDisk(fs: Fs, r: Fs)
    requires MapOnDisk(fs) && r.disk == fs.disk && r.free == fs.free
    ensures MapOnDisk(r)
  {
  }

  /** inode_close: the two releases of a removed file, or none. */
  lemma InodeCloseMap(fs: Fs, p: Ptr, temps: multiset<Ptr>)
    requires InvWith(fs, temps + multiset{p}, {}) && p in fs.mem && MapOnDisk(fs)
    ensures MapOnDisk(InodeClose(fs, p, true, true))
  {
    hide InvWith, Release, Removed, MapOnDisk;
    var m := fs.mem[p];
    if m.openCnt == 1 && m.removed {
      LastCloseMap(fs, p, temps);
    } else {
      SameDisk(fs, InodeClose(fs, p, true, true));
    }
  }

  lemma LastCloseMap(fs: Fs, p: Ptr, temps: multiset<Ptr>)
    requires InvWith(fs, temps + multiset{p}, {}) && p in fs.mem && fs.mem[p].openCnt == 1 && fs.mem[p].removed
    requires MapOnDisk(fs)
    ensures var m := fs.mem[p];
            MapOnDisk(Release(Release(Dropped(fs, p), m.sector, 1, true), m.data.start, Sectors(m.data.length), true))
  {
    hide InvWith, Dir, AllOwners, Layout, AllClear, Release, Dropped, Ext, Sectors, MapOnDisk, MapFits;
    OnDiskFits(fs);
    var m, a := fs.mem[p], Dropped(fs, p);
    DroppedInv(fs, p, temps, {});
    DroppedParts(fs, p);
    InvParts(fs, temps + multiset{p}, {});
    FreeFile(fs, temps + multiset{p}, {});
    InodeOwner(fs, p, temps + multiset{p}, {});
    var fewer := AllOwners(a) + {};
    DroppedClear(fs.disk, fs.free, AllOwners(fs) + {}, fewer, m.sector);
    ReleaseInv(a, m.sector, 1, true, temps, {});
    var b := Release(a, m.sector, 1, true);
    InvParts(a, temps, {});
    InvParts(b, temps, {});
    MapKeepsInodes(a, b, temps, {});
    ClearSame(a.disk, b.disk, fewer, m.data.start, Sectors(m.data.length));
    SameOwnersOf(a, b);
    OnlyMapSize(a, b);
    FitsSame(fs, b);
    ReleaseMap(b, m.data.start, Sectors(m.data.length), temps, {});
  }

  /** dir_open_root and dir_close change neither the disk nor the map. */
  lemma ClosedMap(fs: Fs, d: Ptr, temps: multiset<Ptr>)
    requires InvWith(fs, temps + multiset{d}, {}) && d in fs.mem && fs.mem[d].sector == ROOT_DIR_SECTOR && MapOnDisk(fs)
    ensures MapOnDisk(Closed(fs, d))
  {
    hide InvWith, InodeClose, Dir, MapOnDisk, AllOwners;
    ClosedInv(fs, d, temps);
    SameDisk(fs, Closed(fs, d));
  }

  /** An entry of the root directory is written. */
  lemma EntryMap(fs: Fs, d: Ptr, i: nat, x: Entry, ok: bool, temps: multiset<Ptr>, more: set<nat>)
    requires InvWith(fs, temps, more) && d in fs.mem && fs.mem[d].sector == ROOT_DIR_SECTOR && MapOnDisk(fs)
    requires EntryOk(x)
    ensures MapOnDisk(InodeWrite(fs, fs.mem[d], EncodeEntry(x), 20 * i, ok).0)
  {
    hide InvWith, InodeWrite, EncodeEntry, MapOnDisk, OnlyIn, Ext, AllOwners, Dir, DirOk, LinkOk, Slots;
    RootData(fs, d, temps, more);
    FreeFile(fs, temps, more);
    InodeWriteOnly(fs, fs.mem[d], EncodeEntry(x), 20 * i, ok);
    OwnDataMap(fs, InodeWrite(fs, fs.mem[d], EncodeEntry(x), 20 * i, ok).0, ROOT_DIR_SECTOR, temps, more);
  }

  lemma MakeFileMap(b: Fs, d: Ptr, name: Name, sector: nat, size: nat, u: Supply)
    requires InvWith(b, multiset{d}, {}) && d in b.mem && b.mem[d].sector == ROOT_DIR_SECTOR && MapOnDisk(b)
    requires sector < |b.disk| && b.free[sector] && size < 0x8000_0000 && u.save2 && sector < 0x1_0000_0000
    requires AllClear(b.disk, AllOwners(b), sector, 1)
    ensures MapOnDisk(MakeFile(b, d, name, sector, size, u).0)
  {
    hide InvWith, InodeCreate, Dir, AllOwners, AllClear, MapOnDisk, CreateFrame, OnlyMap, Ext, InodeWrite, EncodeEntry,
         FindName, FindFree, Slots;
    InvParts(b, multiset{d}, {});
    assert AllOwners(b) + {} == AllOwners(b);
    InodeCreateMap(b, sector, size, u.block, multiset{d}, {});
    InodeCreateInv(b, sector, size, u.block, u.save2, multiset{d}, {});
    var (c, made) := InodeCreate(b, sector, size, u.block, u.save2);
    if made {
      var s := Slots(c.disk, c.mem[d].data);
      if name != [] && |name| <= NAME_MAX && FindName(s, name, 0).None? {
        var i := FindFree(s, 0);
        var was := if i < |s| then s[i] else Entry(0, seq(NAME_MAX + 1, _ => 0), false);
        EntryMap(c, d, i, NewEntry(was, name, sector), u.slot, multiset{d}, {} + {sector});
      }
    }
  }

  /** filesys_create. */
  lemma CreateMap(fs: Fs, name: Name, size: nat, u: Supply)
    requires Inv(fs) && Fresh(fs, u) && size < 0x8000_0000 && 0 !in name && MapOnDisk(fs)
    requires u.save1 && u.save2 && u.save3
    ensures MapOnDisk(Create(fs, name, size, u).0)
  {
    hide InvWith, OpenRoot, Allocate, MakeFile, Release, Closed, Dir, NameAdded, FindName, AllOwners, AllClear,
         DecodeInode, MapOnDisk, OnlyMap;
    var (a, d) := OpenRoot(fs, u);
    OpenRootInv(fs, u);
    SameDisk(fs, a);
    if d.Some? {
      var t := multiset{d.value};
      assert t == multiset{} + t;
      var (b, sector) := Allocate(a, 1, u.save1);
      AllocateInv(a, 1, u.save1, t, {});
      AllocateMap(a, 1, t, {});
      OnlyMapSize(a, b);
      if sector.None? {
        ClosedMap(b, d.value, multiset{});
      } else {
        TakenSector(a, b, sector.value, t);
        InvParts(b, t, {});
        MakeFileMap(b, d.value, name, sector.value, size, u);
        MakeFileInv(b, d.value, name, sector.value, size, u);
        var (c, added) := MakeFile(b, d.value, name, sector.value, size, u);
        InvParts(c, t, {});
        UndoMap(c, d.value, sector.value, added);
      }
    }
  }

  lemma UndoMap(c: Fs, d: Ptr, sector: nat, added: bool)
    requires InvWith(c, multiset{d}, {}) && d in c.mem && c.mem[d].sector == ROOT_DIR_SECTOR && MapOnDisk(c)
    requires sector < |c.free| && RootOk(c.disk) && (!added ==> AllClear(c.disk, AllOwners(c), sector, 1))
    ensures MapOnDisk(Closed(if !added && sector != 0 then Release(c, sector, 1, true) else c, d))
  {
    hide InvWith, Release, Closed, Dir, AllOwners, AllClear, MapOnDisk, MapFits, OnlyMap;
    assert multiset{d} == multiset{} + multiset{d};
    assert AllOwners(c) + {} == AllOwners(c);
    OnDiskFits(c);
    if !added && sector != 0 {
      ReleaseMap(c, sector, 1, multiset{d}, {});
      ReleaseInv(c, sector, 1, true, multiset{d}, {});
      ReleaseIs(c, sector, 1, true);
      ClosedMap(Release(c, sector, 1, true), d, multiset{});
    } else {
      ClosedMap(c, d, multiset{});
    }
  }

  /** filesys_remove. */
  lemma RemoveMap(fs: Fs, name: Name, u: Supply)
    requires Inv(fs) && Fresh(fs, u) && MapOnDisk(fs) && u.save1 && u.save2
    ensures MapOnDisk(Remove(fs, name, u).0)
  {
    hide InvWith, OpenRoot, DirRemove, Closed, Dir, FindName, MapOnDisk, AllOwners;
    var (a, d) := OpenRoot(fs, u);
    OpenRootInv(fs, u);
    SameDisk(fs, a);
    if d.Some? {
      assert multiset{d.value} == multiset{} + multiset{d.value};
      DirRemoveInv(a, d.value, name, u, multiset{d.value});
      DirRemoveMap(a, d.value, name, u, multiset{d.value});
      ClosedMap(DirRemove(a, d.value, name, u).0, d.value, multiset{});
    }
  }

  lemma DirRemoveMap(fs: Fs, d: Ptr, name: Name, u: Supply, temps: multiset<Ptr>)
    requires InvWith(fs, temps, {}) && d in fs.mem && fs.mem[d].sector == ROOT_DIR_SECTOR && MapOnDisk(fs)
    requires (u.inode.Some? ==> u.inode.value !in fs.mem) && u.save1 && u.save2
    ensures MapOnDisk(DirRemove(fs, d, name, u).0)
  {
    hide InvWith, Dir, NamedSectors, EncodeEntry, InodeWrite, CString, Ext, FindName, DirOk, LinkOk, Slots, InodeOpen,
         InodeClose, MapOnDisk, AllOwners;
    RootData(fs, d, temps, {});
    InvParts(fs, temps, {});
    var s := Dir(fs.disk);
    var found := FindName(s, name, 0);
    if found.Some? {
      var i := found.value;
      NamedDrop(s, i);
      InodeOpenInv(fs, s[i].sector, u.inode, temps, {});
      var (a, p) := InodeOpen(fs, s[i].sector, u.inode);
      SameDisk(fs, a);
      if p.Some? { EraseMap(a, d, i, p.value, u, temps); }
    }
  }

  lemma EraseMap(a: Fs, d: Ptr, i: nat, p: Ptr, u: Supply, temps: multiset<Ptr>)
    requires InvWith(a, temps + multiset{p}, {}) && d in a.mem && a.mem[d].sector == ROOT_DIR_SECTOR && MapOnDisk(a)
    requires i < |Dir(a.disk)| && Dir(a.disk)[i].inUse && p in a.mem && a.mem[p].sector == Dir(a.disk)[i].sector
    requires u.save1 && u.save2
    ensures var s := Dir(a.disk);
            var (b, written) := InodeWrite(a, a.mem[d], EncodeEntry(s[i].(inUse := false)), 20 * i, u.slot);
            b.mem == a.mem && MapOnDisk(InodeClose(if written then MarkRemoved(b, p) else b, p, u.save1, u.save2))
  {
    hide InvWith, Dir, NamedSectors, EncodeEntry, InodeWrite, CString, Ext, DirOk, LinkOk, Slots, InodeClose, MapOnDisk,
         OnlyIn;
    RootData(a, d, temps + multiset{p}, {});
    var s := Dir(a.disk);
    var x := s[i].(inUse := false);
    EntryWrite(a, a.mem[d], i, x, u.slot);
    EntryMap(a, d, i, x, u.slot, temps + multiset{p}, {});
    var (b, written) := InodeWrite(a, a.mem[d], EncodeEntry(x), 20 * i, u.slot);
    OnlyInIs(a, b, a.mem[d].data);
    if written {
      ErasedInv(a, b, i, p, temps + multiset{p});
      SameDisk(b, MarkRemoved(b, p));
      InodeCloseMap(MarkRemoved(b, p), p, temps);
    } else {
      InodeCloseMap(b, p, temps);
    }
  }

  lemma OnlyInIs(fs: Fs, r: Fs, e: Extent)
    requires OnlyIn(fs, r, e)
    ensures r == fs.(disk := r.disk)
  {
  }

  /** file_close. */
  lemma CloseMap(fs: Fs, f: Ptr, u: Supply)
    requires Inv(fs) && f in fs.files && fs.files[f].inode in fs.mem && MapOnDisk(fs) && u.save1 && u.save2
    ensures MapOnDisk(FileClose(fs, f, u))
  {
    hide InvWith, InodeClose, MapOnDisk;
    AllowInv(fs, f);
    var a, p := AllowWrite(fs, f), fs.files[f].inode;
    FileDropped(a, f);
    assert multiset{} + multiset{p} == multiset{p};
    SameDisk(fs, a.(files := a.files - {f}));
    InodeCloseMap(a.(files := a.files - {f}), p, multiset{});
  }

  /** file_write_at. */
  lemma WriteMap(fs: Fs, f: Ptr, data: seq<Byte>, offset: nat, ok: bool)
    requires Inv(fs) && f in fs.files && fs.files[f].inode in fs.mem && MapOnDisk(fs)
    ensures MapOnDisk(FileWrite(fs, f, data, offset, ok))
  {
    hide InvWith, InodeWrite, Dir, Owners, Ext, MapOnDisk, OnlyIn;
    FileFacts(fs, f);
    var p := fs.files[f].inode;
    InodeOwner(fs, p, multiset{}, {});
    InodeWriteOnly(fs, fs.mem[p], data, offset, ok);
    OwnDataMap(fs, FileWrite(fs, f, data, offset, ok), fs.mem[p].sector, multiset{}, {});
  }

  /** The operation gets the bounce buffers it needs for writing the free map. */
  predicate Buffered(op: Op) {
    match op
    case CreateOp(_, _, u) => u.save1 && u.save2 && u.save3
    case RemoveOp(_, u) => u.save1 && u.save2
    case CloseOp(_, u) => u.save1 && u.save2
    case _ => true
  }

  /** Every operation keeps the map on disk the map in memory. */
  lemma NextMap(fs: Fs, op: Op)
    requires Inv(fs) && Enabled(fs, op) && MapOnDisk(fs) && Buffered(op)
    ensures MapOnDisk(Next(fs, op))
  {
    hide Inv, Create, Open, Remove, FileReopen, FileClose, FileWrite, Fresh, MapOnDisk, OpenOn, SameSectors, Dir;
    match op
    case CreateOp(name, size, u) => CreateMap(fs, name, size, u);
    case OpenOp(name, u) =>
      OpenInv(fs, name, u);
      SameDisk(fs, Open(fs, name, u).0);
    case RemoveOp(name, u) => RemoveMap(fs, name, u);
    case ReopenOp(f, u) =>
      ReopenInv(fs, f, u);
      SameDisk(fs, FileReopen(fs, f, u).0);
    case CloseOp(f, u) => CloseMap(fs, f, u);
    case DenyOp(f) => SameDisk(fs, DenyWrite(fs, f));
    case AllowOp(f) => SameDisk(fs, AllowWrite(fs, f));
    case WriteOp(f, data, offset, bounce) => WriteMap(fs, f, data, offset, bounce);
  }

  lemma {:induction false} RunMap(fs: Fs, ops: seq<Op>)
    requires Inv(fs) && Legal(fs, ops) && MapOnDisk(fs) && forall i :: 0 <= i < |ops| ==> Buffered(ops[i])
    ensures MapOnDisk(After(fs, ops)) && Inv(After(fs, ops))
    decreases |ops|
  {
    hide Inv, Enabled, Next, MapOnDisk, Buffered;
    if ops != [] {
      NextInv(fs, ops[0]);
      NextMap(fs, ops[0]);
      RunMap(Next(fs, ops[0]), ops[1..]);
    }
  }

  // Mounting.

  /** filesys_init without formatting: what a kernel that has just started makes of a disk. */
  ghost function Rebooted(disk: Disk, p: Ptr): Fs { Mounted(Blank(disk, p), p) }

  /** A disk whose free map is up to date can be mounted whatever was open: the directory is in order,
      and the map is the one there was. */
  lemma RebootInv(fs: Fs, p: Ptr)
    requires Inv(fs) && MapOnDisk(fs)
    ensures var r := Rebooted(fs.disk, p);
            Inv(r) && MapOnDisk(r) && r.disk == fs.disk && r.free == fs.free && r.files == map[]
  {
    hide InvWith, PackedMap, UnpackedMap, Content, DecodeInode, Dir, NamedSectors;
    var r := Rebooted(fs.disk, p);
    InvParts(fs, multiset{}, {});
    OnDiskFits(fs);
    MapRoundTrip(fs.free);
    var a := InodeOpen(Blank(fs.disk, p), FREE_MAP_SECTOR, Some(p)).0;
    assert a.mem == map[p := Mem(FREE_MAP_SECTOR, 1, false, 0, Ext(fs.disk, FREE_MAP_SECTOR))];
    assert a.open == [p];
    assert r == a.(free := fs.free);
    DirectoryStays(fs);
    MountInv(r, p);
  }

  lemma DirectoryStays(fs: Fs)
    requires Inv(fs)
    ensures RootOk(fs.disk) && DirOk(Dir(fs.disk))
    ensures Layout(fs.disk, fs.free, {FREE_MAP_SECTOR, ROOT_DIR_SECTOR} + NamedSectors(Dir(fs.disk)))
  {
    hide OpenOk, DataOk, DirOk, LinkOk, CountOk, DenyOk, Dir, Layout, NamedSectors;
    LayoutLess(fs.disk, fs.free, Owners(Dir(fs.disk), fs.mem) + {},
               {FREE_MAP_SECTOR, ROOT_DIR_SECTOR} + NamedSectors(Dir(fs.disk)));
  }

  /** Nothing open but the free map file. */
  lemma MountInv(fs: Fs, p: Ptr)
    requires RootOk(fs.disk) && DirOk(Dir(fs.disk))
    requires Layout(fs.disk, fs.free, {FREE_MAP_SECTOR, ROOT_DIR_SECTOR} + NamedSectors(Dir(fs.disk)))
    requires fs.mem == map[p := Mem(FREE_MAP_SECTOR, 1, false, 0, Ext(fs.disk, FREE_MAP_SECTOR))]
    requires fs.open == [p] && fs.files == map[] && fs.freeInode == p
    ensures Inv(fs)
  {
    hide Layout, Dir, DirOk, DecodeInode, NamedSectors;
    var s := Dir(fs.disk);
    InOpenSectors(fs.mem, p);
    assert OpenSectors(fs.mem) == {FREE_MAP_SECTOR};
    assert Owners(s, fs.mem) + {} == {FREE_MAP_SECTOR, ROOT_DIR_SECTOR} + NamedSectors(s);
    hide OpenSectors;
    assert Handles(fs.files, p) == {} && Denied(fs.files, p) == {};
    assert CountOk(fs.mem, fs.files, multiset{p} + multiset{});
  }

  /** After formatting and any run in which the free map could always be written, a kernel that is
      started again, without formatting, has the same directory, the same contents and the same free
      map, and satisfies the invariant. */
  lemma MountAgain(disk: Disk, p: Ptr, ops: seq<Op>, q: Ptr)
    requires DiskOk(disk) && 2 <= |disk| <= 0x1_0000_0000 && Format(disk, p).Some?
    requires Legal(Format(disk, p).value, ops) && forall i :: 0 <= i < |ops| ==> Buffered(ops[i])
    ensures var r := After(Format(disk, p).value, ops);
            var m := Rebooted(r.disk, q);
            Inv(m) && m.disk == r.disk && m.free == r.free && m.files == map[]
  {
    hide Format, Legal, After, Inv, PackedMap, UnpackedMap, Content;
    FormatInv(disk, p);
    RunMap(Format(disk, p).value, ops);
    RebootInv(After(Format(disk, p).value, ops), q);
  }
}
