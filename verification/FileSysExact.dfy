/** Exactly when filesys_open, filesys_remove and filesys_create succeed, told from the directory,
    the open inodes, the free map and what the memory allocator gives (filesys/filesys.c). */
module FileSysExact {
  import opened Wrappers
  import opened Orders
  import opened Storage
  import opened Codec
  import opened FileSys
  import opened FileSysInv
  import opened FileSysSteps
  import opened FileSysRuns
  import BM = Bitmap

  /** Some in-memory inode is that of `sector`. */
  ghost predicate IsOpen(fs: Fs, sector: nat) { exists p :: p in fs.mem && fs.mem[p].sector == sector }

  /** An inode can be opened: it is open already or there is memory for it. */
  ghost predicate CanOpen(fs: Fs, sector: nat, alloc: Option<Ptr>) { IsOpen(fs, sector) || alloc.Some? }

  /** Some entry in use has the name. */
  ghost predicate Named(s: seq<Entry>, name: Name) { exists i :: 0 <= i < |s| && Names(s[i], name) }

  // Opening an inode.

  /** inode_open succeeds exactly if the inode is open already or there is memory for it; it gives
      the inode there is, with one more reference, or a new one read from disk. */
  lemma InodeOpenExact(fs: Fs, sector: nat, alloc: Option<Ptr>)
    requires OpenOk(fs.mem, fs.open) && sector < |fs.disk| && |fs.disk[sector]| == 512
    ensures var (r, p) := InodeOpen(fs, sector, alloc);
            && (p.Some? <==> CanOpen(fs, sector, alloc))
            && (p.None? ==> r == fs)
            && (IsOpen(fs, sector) && p.Some? ==>
                  && p.value in fs.mem && fs.mem[p.value].sector == sector && r.open == fs.open
                  && r.mem == fs.mem[p.value := fs.mem[p.value].(openCnt := fs.mem[p.value].openCnt + 1)])
            && (!IsOpen(fs, sector) && p.Some? ==>
                  && p == alloc && r.open == [p.value] + fs.open
                  && r.mem == fs.mem[p.value := Mem(sector, 1, false, 0, DecodeInode(fs.disk[sector]))])
  {
    hide DecodeInode, Distinct;
    var found := FindOpen(fs.open, fs.mem, sector);
    if found.Some? { assert found.value in fs.mem; }
    hide FindOpen;
  }

  /** Opening one inode does not change which others are open. */
  lemma OthersOpen(fs: Fs, sector: nat, alloc: Option<Ptr>, k: nat)
    requires OpenOk(fs.mem, fs.open) && sector < |fs.disk| && |fs.disk[sector]| == 512 && k != sector
    requires alloc.Some? ==> alloc.value !in fs.mem
    ensures IsOpen(InodeOpen(fs, sector, alloc).0, k) <==> IsOpen(fs, k)
  {
    hide DecodeInode, FindOpen, OpenOk, InodeOpen;
    InodeOpenExact(fs, sector, alloc);
    var (r, p) := InodeOpen(fs, sector, alloc);
    if IsOpen(fs, k) {
      var q :| q in fs.mem && fs.mem[q].sector == k;
      assert q in r.mem && r.mem[q].sector == k;
    }
  }

  lemma RootFacts(fs: Fs)
    requires Inv(fs)
    ensures OpenOk(fs.mem, fs.open) && |fs.disk| > 1 && |fs.disk[ROOT_DIR_SECTOR]| == 512 && RootOk(fs.disk)
    ensures DirOk(Dir(fs.disk))
  {
    hide Layout, DataOk, DirOk, LinkOk, CountOk, DenyOk, Owners;
  }

  /** dir_open_root succeeds exactly if the root directory's inode can be opened and a struct dir
      can be had. */
  lemma OpenRootExact(fs: Fs, u: Supply, k: nat)
    requires Inv(fs) && (u.root.Some? ==> u.root.value !in fs.mem)
    ensures var (a, d) := OpenRoot(fs, u);
            && (d.Some? <==> CanOpen(fs, ROOT_DIR_SECTOR, u.root) && u.dir)
            && (d.Some? ==> d.value in a.mem)
            && (d.Some? && k != ROOT_DIR_SECTOR ==> (IsOpen(a, k) <==> IsOpen(fs, k)))
  {
    RootFacts(fs);
    hide Inv, InodeOpen, InodeClose, OpenOk, CanOpen, IsOpen, Dir;
    InodeOpenExact(fs, ROOT_DIR_SECTOR, u.root);
    if k != ROOT_DIR_SECTOR { OthersOpen(fs, ROOT_DIR_SECTOR, u.root, k); }
    InodeOpenInv(fs, ROOT_DIR_SECTOR, u.root, multiset{}, {});
  }

  // filesys_open.

  /** Some entry in use has the name, and its inode can be opened. */
  ghost predicate CanFind(fs: Fs, s: seq<Entry>, name: Name, alloc: Option<Ptr>) {
    exists i :: 0 <= i < |s| && Names(s[i], name) && CanOpen(fs, s[i].sector, alloc)
  }

  lemma CanFindIs(fs: Fs, s: seq<Entry>, name: Name, alloc: Option<Ptr>)
    requires DirOk(s)
    ensures CanFind(fs, s, name, alloc) <==>
              FindName(s, name, 0).Some? && CanOpen(fs, s[FindName(s, name, 0).value].sector, alloc)
  {
    hide CanOpen, CString;
    if CanFind(fs, s, name, alloc) {
      var i :| 0 <= i < |s| && Names(s[i], name) && CanOpen(fs, s[i].sector, alloc);
      assert FindName(s, name, 0).value == i;
    }
  }

  /** filesys_open succeeds exactly if the directory names the file and all memory it needs can be
      had: a struct dir and a struct file, the root directory's inode unless that is open, and the
      file's inode unless that is. */
  lemma OpenExact(fs: Fs, name: Name, u: Supply)
    requires Inv(fs) && Fresh(fs, u)
    ensures RootOk(fs.disk)
    ensures Open(fs, name, u).1.Some? <==>
              u.dir && u.file.Some? && CanOpen(fs, ROOT_DIR_SECTOR, u.root) && CanFind(fs, Dir(fs.disk), name, u.inode)
  {
    hide InvWith, OpenRoot, Closed, Dir, FindName, FileOpen, Slots, OpenOn, AllOwners, IsOpen, DirOk, OpenOk, CanFind,
         DirLookup;
    RootFacts(fs);
    var s := Dir(fs.disk);
    NamedIs(s, name);
    CanFindIs(fs, s, name, u.inode);
    var (a, d) := OpenRoot(fs, u);
    OpenRootInv(fs, u);
    var found := FindName(s, name, 0);
    OpenRootExact(fs, u, if found.Some? then s[found.value].sector else 0);
    if d.Some? {
      LookupExact(a, d.value, name, u);
      var (b, q) := DirLookup(a, d.value, name, u);
      assert q.Some? <==> CanFind(fs, s, name, u.inode);
      assert q.Some? ==> Open(fs, name, u) == FileOpen(Closed(b, d.value), q.value, u);
      assert q.None? ==> Open(fs, name, u).1 == None;
    }
  }

  lemma NamedIs(s: seq<Entry>, name: Name)
    ensures Named(s, name) <==> FindName(s, name, 0).Some?
    ensures FindName(s, name, 0).Some? && DirOk(s) ==> s[FindName(s, name, 0).value].sector > ROOT_DIR_SECTOR
  {
  }

  lemma LookupExact(a: Fs, d: Ptr, name: Name, u: Supply)
    requires InvWith(a, multiset{d}, {}) && d in a.mem && a.mem[d].sector == ROOT_DIR_SECTOR
    requires (u.inode.Some? ==> u.inode.value !in a.mem) && RootOk(a.disk)
    ensures var (b, p) := DirLookup(a, d, name, u);
            var c, s := Closed(b, d), Dir(a.disk);
            var i := FindName(s, name, 0);
            && (p.Some? <==> i.Some? && CanOpen(a, s[i.value].sector, u.inode))
            && (p.Some? ==> p.value in c.mem && FileOpen(c, p.value, u).1 == u.file)
  {
    hide InvWith, InodeOpen, Closed, Dir, FindName, Slots, AllOwners, IsOpen, DirOk, OpenOk, FileOpen;
    var t := multiset{d};
    RootData(a, d, t, {});
    var s := Dir(a.disk);
    var found := FindName(s, name, 0);
    if found.Some? {
      var k := s[found.value].sector;
      SlotNamed(s, found.value);
      NamedIs(s, name);
      OpenListed(a, t);
      NamedOwner(a, k);
      InvParts(a, t, {});
      OwnerIn(a, t, {}, k);
      InodeOpenExact(a, k, u.inode);
      InodeOpenInv(a, k, u.inode, t, {});
      var (b, p) := InodeOpen(a, k, u.inode);
      if p.Some? {
        assert t + multiset{p.value} == multiset{p.value} + multiset{d};
        ClosedInv(b, d, multiset{p.value});
        FileOpenIs(Closed(b, d), p.value, u);
      }
    }
  }

  lemma FileOpenIs(fs: Fs, p: Ptr, u: Supply)
    requires p in fs.mem
    ensures FileOpen(fs, p, u).1 == u.file
  {
    hide InodeClose;
  }

  lemma OpenListed(fs: Fs, temps: multiset<Ptr>)
    requires InvWith(fs, temps, {})
    ensures OpenOk(fs.mem, fs.open)
  {
  }

  // filesys_remove.

  /** Nobody denies writes to the two system files. */
  lemma Undenied(fs: Fs, p: Ptr, temps: multiset<Ptr>, more: set<nat>)
    requires InvWith(fs, temps, more) && p in fs.mem && fs.mem[p].sector <= ROOT_DIR_SECTOR
    ensures fs.mem[p].denyCnt == 0
  {
    hide Layout, Dir, OpenOk, DirOk, DataOk, LinkOk, Owners, Handles;
    assert Denied(fs.files, p) == {};
  }

  /** An entry is written exactly if the slot exists and there is a bounce buffer. */
  lemma EntryExact(fs: Fs, m: Mem, i: nat, x: Entry, ok: bool)
    requires m.denyCnt == 0 && m.data.length == 320 && EntryOk(x)
    ensures InodeWrite(fs, m, EncodeEntry(x), 20 * i, ok).1 <==> i < 16 && ok
  {
    hide PatchedDisk, EncodeEntry;
  }

  /** filesys_remove succeeds exactly if the directory names the file and all memory it needs can be
      had, a bounce buffer for the entry among it. */
  lemma RemoveExact(fs: Fs, name: Name, u: Supply)
    requires Inv(fs) && Fresh(fs, u)
    ensures RootOk(fs.disk)
    ensures Remove(fs, name, u).1 <==>
              u.dir && u.slot && CanOpen(fs, ROOT_DIR_SECTOR, u.root) && CanFind(fs, Dir(fs.disk), name, u.inode)
  {
    hide InvWith, OpenRoot, Closed, Dir, FindName, DirRemove, Slots, OpenOn, AllOwners, IsOpen, DirOk, OpenOk, CanFind;
    RootFacts(fs);
    var s := Dir(fs.disk);
    NamedIs(s, name);
    CanFindIs(fs, s, name, u.inode);
    var (a, d) := OpenRoot(fs, u);
    OpenRootInv(fs, u);
    var found := FindName(s, name, 0);
    OpenRootExact(fs, u, if found.Some? then s[found.value].sector else 0);
    if d.Some? { EraseExact(a, d.value, name, u); }
  }

  lemma EraseExact(a: Fs, d: Ptr, name: Name, u: Supply)
    requires InvWith(a, multiset{d}, {}) && d in a.mem && a.mem[d].sector == ROOT_DIR_SECTOR
    requires (u.inode.Some? ==> u.inode.value !in a.mem) && RootOk(a.disk)
    ensures var s := Dir(a.disk);
            var i := FindName(s, name, 0);
            DirRemove(a, d, name, u).1 <==> i.Some? && CanOpen(a, s[i.value].sector, u.inode) && u.slot
  {
    hide InvWith, InodeOpen, InodeClose, Dir, FindName, Slots, AllOwners, IsOpen, DirOk, OpenOk, InodeWrite,
         EncodeEntry;
    var t := multiset{d};
    RootData(a, d, t, {});
    var s := Dir(a.disk);
    var found := FindName(s, name, 0);
    if found.Some? {
      var i := found.value;
      var k := s[i].sector;
      SlotNamed(s, i);
      NamedIs(s, name);
      OpenListed(a, t);
      NamedOwner(a, k);
      InvParts(a, t, {});
      OwnerIn(a, t, {}, k);
      InodeOpenExact(a, k, u.inode);
      InodeOpenInv(a, k, u.inode, t, {});
      var (b, p) := InodeOpen(a, k, u.inode);
      if p.Some? {
        RootData(b, d, t + multiset{p.value}, {});
        Undenied(b, d, t + multiset{p.value}, {});
        SlotCount(s);
        EntryExact(b, b.mem[d], i, s[i].(inUse := false), u.slot);
      }
    }
  }

  // filesys_create.

  /** The free map can be written to its file: that is long enough, and there is a bounce buffer or
      the map fills whole sectors. */
  ghost predicate MapSaved(fs: Fs, ok: bool)
    requires DiskOk(fs.disk) && |fs.disk| > 0
  {
    var n := |PackedMap(fs.free)|;
    n <= Ext(fs.disk, FREE_MAP_SECTOR).length && (ok || n % 512 == 0)
  }

  lemma SaveExact(fs: Fs, ok: bool, temps: multiset<Ptr>, more: set<nat>)
    requires InvWith(fs, temps, more)
    ensures DiskOk(fs.disk) && |fs.disk| > 0
    ensures Save(fs, ok).1 <==> MapSaved(fs, ok)
  {
    hide InvWith, PatchedDisk, PackedMap, Ext, AllOwners;
    FreeFile(fs, temps, more);
    FreeMapInode(fs, temps, more);
    Undenied(fs, fs.freeInode, temps, more);
    WholeTransfer(Ext(fs.disk, FREE_MAP_SECTOR).length, |PackedMap(fs.free)|, ok);
  }

  lemma FreeMapInode(fs: Fs, temps: multiset<Ptr>, more: set<nat>)
    requires InvWith(fs, temps, more)
    ensures fs.freeInode in fs.mem && fs.mem[fs.freeInode].sector == FREE_MAP_SECTOR
  {
  }

  lemma WholeTransfer(length: nat, n: nat, ok: bool)
    ensures Transferred(length, n, 0, ok) == n <==> n <= length && (ok || n % 512 == 0)
  {
  }

  /** There are `cnt` free sectors in a row. */
  ghost predicate HasRun(free: seq<bool>, cnt: nat) { exists k: nat :: BM.Group(free, k, cnt, false) }

  lemma RunFound(free: seq<bool>, cnt: nat)
    ensures HasRun(free, cnt) <==> BM.Scanned(free, 0, cnt, false).Some?
  {
    hide BM.Group;
  }

  /** free_map_allocate succeeds exactly if there is a long enough run of free sectors and the map
      can be saved; it takes the first run. */
  lemma AllocateExact(fs: Fs, cnt: nat, ok: bool, temps: multiset<Ptr>, more: set<nat>)
    requires InvWith(fs, temps, more)
    ensures DiskOk(fs.disk) && |fs.disk| > 0
    ensures var k := Allocate(fs, cnt, ok).1;
            && (k.Some? <==> HasRun(fs.free, cnt) && MapSaved(fs, ok))
            && (k.Some? ==> BM.FirstGroup(fs.free, 0, cnt, false, k))
  {
    hide InvWith, Save, MapSaved, HasRun, Layout, AllOwners, BM.FirstGroup;
    RunFound(fs.free, cnt);
    InvParts(fs, temps, more);
    var g := BM.Scanned(fs.free, 0, cnt, false);
    if g.Some? {
      var m := Marked(fs, g.value, cnt, true);
      GroupFits(fs.free, g.value, cnt);
      LayoutMark(fs.disk, fs.free, AllOwners(fs) + more, g.value, cnt);
      FreeInv(fs, m.free, temps, more);
      SaveExact(m, ok, temps, more);
      SameSaved(fs, m, ok);
    }
  }

  lemma GroupFits(free: seq<bool>, k: nat, cnt: nat)
    requires BM.Scanned(free, 0, cnt, false) == Some(k)
    ensures k + cnt <= |free|
  {
    assert BM.Group(free, k, cnt, false);
  }

  /** That the map can be saved depends on its size only. */
  lemma SameSaved(fs: Fs, r: Fs, ok: bool)
    requires DiskOk(fs.disk) && |fs.disk| > 0 && DiskOk(r.disk) && |r.disk| > 0 && r.disk[0] == fs.disk[0]
    requires |r.free| == |fs.free|
    ensures MapSaved(r, ok) <==> MapSaved(fs, ok)
  {
  }

  lemma InodeCreateExact(fs: Fs, sector: nat, length: nat, memOk: bool, saveOk: bool, temps: multiset<Ptr>)
    requires InvWith(fs, temps, {}) && sector < |fs.disk|
    ensures DiskOk(fs.disk) && |fs.disk| > 0
    ensures InodeCreate(fs, sector, length, memOk, saveOk).1 <==>
              memOk && HasRun(fs.free, Sectors(length)) && MapSaved(fs, saveOk)
  {
    hide InvWith, Allocate, HasRun, MapSaved, Sectors, EncodeInode, Zeroed, Dir, AllOwners, BM.FirstGroup;
    InvParts(fs, temps, {});
    AllocateExact(fs, Sectors(length), saveOk, temps, {});
    AllocateInv(fs, Sectors(length), saveOk, temps, {});
    OnlyMapSize(fs, Allocate(fs, Sectors(length), saveOk).0);
  }

  lemma OnlyMapSize(fs: Fs, r: Fs)
    requires OnlyMap(fs, r)
    ensures |r.disk| == |fs.disk| && |r.free| == |fs.free| && DiskOk(r.disk) && r.mem == fs.mem
  {
  }

  /** dir_add succeeds exactly if the name is neither empty nor too long nor taken, and there are a
      free slot and a bounce buffer. */
  lemma DirAddExact(fs: Fs, d: Ptr, name: Name, sector: nat, ok: bool, temps: multiset<Ptr>, more: set<nat>)
    requires InvWith(fs, temps, more) && d in fs.mem && fs.mem[d].sector == ROOT_DIR_SECTOR && sector < 0x1_0000_0000
    ensures RootOk(fs.disk)
    ensures DirAdd(fs, d, name, sector, ok).1 <==>
              0 < |name| <= NAME_MAX && !Named(Dir(fs.disk), name) && HasSlot(Dir(fs.disk)) && ok
  {
    hide InvWith, Dir, InodeWrite, EncodeEntry, FindName, Slots, DirOk, Named, HasSlot, AllOwners;
    RootData(fs, d, temps, more);
    InvParts(fs, temps, more);
    Undenied(fs, d, temps, more);
    var s := Dir(fs.disk);
    NamedIs(s, name);
    SlotCount(s);
    SlotFound(s);
    if name != [] && |name| <= NAME_MAX && FindName(s, name, 0).None? {
      var i := FindFree(s, 0);
      var was := if i < |s| then s[i] else Entry(0, seq(NAME_MAX + 1, _ => 0), false);
      EntryExact(fs, fs.mem[d], i, NewEntry(was, name, sector), ok);
    }
  }

  ghost predicate HasSlot(s: seq<Entry>) { exists i :: 0 <= i < |s| && !s[i].inUse }

  lemma SlotFound(s: seq<Entry>)
    ensures HasSlot(s) <==> FindFree(s, 0) < |s|
  {
    if HasSlot(s) {
      var i :| 0 <= i < |s| && !s[i].inUse;
      assert FindFree(s, 0) <= i;
    }
  }

  /** There are a free sector for the inode and, besides, a run of free sectors for the data. */
  ghost predicate HasRoom(free: seq<bool>, size: nat) {
    exists k: nat :: BM.FirstGroup(free, 0, 1, false, Some(k)) && k < |free| && HasRun(free[k := true], Sectors(size))
  }

  /** filesys_create succeeds exactly if the name is neither empty nor too long nor taken, there are
      a free slot and room on the disk, the free map can be saved both times, and all memory it needs
      can be had. */
  lemma CreateExact(fs: Fs, name: Name, size: nat, u: Supply)
    requires Inv(fs) && Fresh(fs, u) && size < 0x8000_0000 && 0 !in name
    ensures RootOk(fs.disk)
    ensures Create(fs, name, size, u).1 <==>
              && u.dir && u.block && u.slot && CanOpen(fs, ROOT_DIR_SECTOR, u.root)
              && 0 < |name| <= NAME_MAX && !Named(Dir(fs.disk), name) && HasSlot(Dir(fs.disk))
              && HasRoom(fs.free, size) && MapSaved(fs, u.save1) && MapSaved(fs, u.save2)
  {
    hide InvWith, OpenRoot, Allocate, MakeFile, Release, Closed, Dir, AllOwners, IsOpen, DirOk, OpenOk, Named, HasSlot,
         HasRoom, MapSaved, HasRun, BM.FirstGroup;
    RootFacts(fs);
    var (a, d) := OpenRoot(fs, u);
    OpenRootInv(fs, u);
    OpenRootExact(fs, u, 0);
    if d.Some? {
      var t := multiset{d.value};
      SameSaved(fs, a, u.save1);
      AllocateExact(a, 1, u.save1, t, {});
      AllocateInv(a, 1, u.save1, t, {});
      var (b, sector) := Allocate(a, 1, u.save1);
      RoomIs(fs.free, size, sector);
      if sector.Some? {
        OnlyMapSize(a, b);
        OneMarked(fs.free, b.free, sector.value);
        TakenSector(a, b, sector.value, t);
        SameSaved(fs, b, u.save2);
        MakeExact(b, d.value, name, sector.value, size, u);
      }
    }
  }

  lemma OneMarked(free: seq<bool>, r: seq<bool>, k: nat)
    requires BM.Group(free, k, 1, false) && r == BM.SetRange(free, k, 1, true)
    ensures k < |free| && r == free[k := true]
  {
  }

  lemma RoomIs(free: seq<bool>, size: nat, sector: Option<nat>)
    requires sector.Some? ==> BM.FirstGroup(free, 0, 1, false, sector)
    ensures HasRoom(free, size) ==> HasRun(free, 1)
    ensures sector.Some? ==> (HasRoom(free, size) <==>
              sector.value < |free| && HasRun(free[sector.value := true], Sectors(size)))
  {
    hide HasRun, Sectors;
    if HasRoom(free, size) {
      var k: nat :| BM.FirstGroup(free, 0, 1, false, Some(k)) && k < |free| && HasRun(free[k := true], Sectors(size));
      RunAt(free, k, 1);
      if sector.Some? { BM.FirstGroupUnique(free, 0, 1, false, Some(k), sector); }
    }
  }

  lemma RunAt(free: seq<bool>, k: nat, cnt: nat)
    requires BM.Group(free, k, cnt, false)
    ensures HasRun(free, cnt)
  {
  }

  lemma MakeExact(b: Fs, d: Ptr, name: Name, sector: nat, size: nat, u: Supply)
    requires InvWith(b, multiset{d}, {}) && d in b.mem && b.mem[d].sector == ROOT_DIR_SECTOR
    requires sector < |b.disk| && b.free[sector] && size < 0x8000_0000 && RootOk(b.disk)
    requires AllClear(b.disk, AllOwners(b), sector, 1)
    ensures MakeFile(b, d, name, sector, size, u).1 <==>
              && u.block && u.slot && 0 < |name| <= NAME_MAX && !Named(Dir(b.disk), name) && HasSlot(Dir(b.disk))
              && HasRun(b.free, Sectors(size)) && MapSaved(b, u.save2)
  {
    hide InvWith, InodeCreate, DirAdd, Dir, AllOwners, AllClear, Named, HasSlot, MapSaved, HasRun, Sectors, CreateFrame,
         OnlyMap, Ext;
    InvParts(b, multiset{d}, {});
    assert AllOwners(b) + {} == AllOwners(b);
    InodeCreateExact(b, sector, size, u.block, u.save2, multiset{d});
    InodeCreateInv(b, sector, size, u.block, u.save2, multiset{d}, {});
    var (c, made) := InodeCreate(b, sector, size, u.block, u.save2);
    if made { DirAddExact(c, d, name, sector, u.slot, multiset{d}, {} + {sector}); }
  }
}
