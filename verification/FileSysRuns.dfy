/** Every operation keeps the file system's invariant, and what it may touch. */
module FileSysRuns {
  import opened Wrappers
  import opened Orders
  import opened Storage
  import opened Codec
  import opened FileSys
  import opened FileSysInv
  import opened FileSysSteps
  import BM = Bitmap

  /** From disk `d` to disk `r`, of the sectors that are marked in `fs` only the data of the two
      system files may change. */
  ghost predicate Untouched(fs: Fs, d: Disk, r: Disk)
    requires DiskOk(fs.disk) && |fs.disk| > 1
  {
    && |d| == |r| == |fs.free|
    && forall k :: 0 <= k < |d| && fs.free[k]
                      && !In(Ext(fs.disk, FREE_MAP_SECTOR), k) && !In(Ext(fs.disk, ROOT_DIR_SECTOR), k)
         ==> r[k] == d[k]
  }

  ghost predicate Grows(f: seq<bool>, g: seq<bool>) {
    |f| == |g| && forall k :: 0 <= k < |f| && f[k] ==> g[k]
  }

  lemma OpenRootInv(fs: Fs, u: Supply)
    requires Inv(fs) && (u.root.Some? ==> u.root.value !in fs.mem)
    ensures var (a, d) := OpenRoot(fs, u);
            && a == fs.(mem := a.mem, open := a.open)
            && (d.None? ==> Inv(a))
            && (d.Some? ==>
                  d.value in a.mem && a.mem[d.value].sector == ROOT_DIR_SECTOR
                  && InvWith(a, multiset{d.value}, {}))
            && (forall q :: q in a.mem && q !in fs.mem ==> u.root == Some(q))
            && SameSectors(fs.mem, a.mem) && AllOwners(a) == AllOwners(fs)
  {
    hide InvWith, InodeOpen, InodeClose;
    InodeOpenInv(fs, ROOT_DIR_SECTOR, u.root, multiset{}, {});
    var (a, p) := InodeOpen(fs, ROOT_DIR_SECTOR, u.root);
    OpenedIs(fs, ROOT_DIR_SECTOR, u.root);
    if p.Some? {
      assert multiset{} + multiset{p.value} == multiset{p.value};
      if !u.dir {
        NotRemoved(a, p.value, multiset{p.value}, {});
        InodeCloseInv(a, p.value, true, true, multiset{}, {});
        InodeCloseIs(a, p.value, true, true);
      }
    }
  }

  lemma NotRemoved(fs: Fs, p: Ptr, temps: multiset<Ptr>, more: set<nat>)
    requires InvWith(fs, temps, more) && p in fs.mem && fs.mem[p].sector <= ROOT_DIR_SECTOR
    ensures !fs.mem[p].removed
  {
    hide Layout, Dir, NamedSectors, OpenOk, DirOk, DataOk, CountOk, DenyOk, Owners;
  }

  lemma InodeCloseIs(fs: Fs, p: Ptr, save1: bool, save2: bool)
    requires p in fs.mem && !fs.mem[p].removed
    ensures var r := InodeClose(fs, p, save1, save2); r == fs.(mem := r.mem, open := r.open)
    ensures var r := InodeClose(fs, p, save1, save2); forall q :: q in r.mem ==> q in fs.mem
  {
    hide Removed;
  }

  /** dir_close. */
  lemma ClosedInv(fs: Fs, d: Ptr, temps: multiset<Ptr>)
    requires InvWith(fs, temps + multiset{d}, {}) && d in fs.mem && fs.mem[d].sector == ROOT_DIR_SECTOR
    ensures var r := Closed(fs, d);
            && InvWith(r, temps, {}) && Dir(r.disk) == Dir(fs.disk) && r == fs.(mem := r.mem, open := r.open)
            && AllOwners(r) == AllOwners(fs)
            && (forall q :: q in fs.mem && q != d ==> q in r.mem && r.mem[q].sector == fs.mem[q].sector)
            && (forall q :: q in r.mem ==> q in fs.mem && r.mem[q].sector == fs.mem[q].sector)
  {
    hide InvWith, InodeClose, Dir;
    NotRemoved(fs, d, temps + multiset{d}, {});
    InodeCloseInv(fs, d, true, true, temps, {});
    InodeCloseIs(fs, d, true, true);
  }

  // filesys_create.

  /** Once the inode sector has been allocated, up to the point where a failure is undone. */
  lemma MakeFileInv(b: Fs, d: Ptr, name: Name, sector: nat, size: nat, u: Supply)
    requires InvWith(b, multiset{d}, {}) && d in b.mem && b.mem[d].sector == ROOT_DIR_SECTOR
    requires sector < |b.disk| && b.free[sector] && size < 0x8000_0000 && 0 !in name
    requires AllClear(b.disk, AllOwners(b), sector, 1)
    ensures var (e, added) := MakeFile(b, d, name, sector, size, u);
            && InvWith(e, multiset{d}, {}) && e == b.(disk := e.disk, free := e.free) && |e.disk| == |b.disk|
            && |e.free| == |b.free|
            && e.free[sector]
            && (!added ==> AllClear(e.disk, AllOwners(e), sector, 1) && Dir(e.disk) == Dir(b.disk))
            && (added ==> sector > ROOT_DIR_SECTOR && 0 < |name| <= NAME_MAX)
            && (added ==> FindName(Dir(b.disk), name, 0).None? && NameAdded(Dir(b.disk), Dir(e.disk), name, sector))
  {
    hide InvWith, Dir, AllOwners, AllClear, InodeCreate, DirAdd, NameAdded, FindName, CreateFrame, OnlyMap, Ext;
    InvParts(b, multiset{d}, {});
    assert AllOwners(b) + {} == AllOwners(b);
    InodeCreateInv(b, sector, size, u.block, u.save2, multiset{d}, {});
    var (c, made) := InodeCreate(b, sector, size, u.block, u.save2);
    if made {
      assert {} + {sector} == {sector};
      InvParts(c, multiset{d}, {sector});
      assert AllOwners(c) + {} == AllOwners(c);
      NameFileInv(c, d, name, sector, u);
    } else {
      InvParts(c, multiset{d}, {});
      assert AllOwners(c) + {} == AllOwners(c);
    }
  }

  lemma NameFileInv(c: Fs, d: Ptr, name: Name, sector: nat, u: Supply)
    requires InvWith(c, multiset{d}, {sector}) && d in c.mem && c.mem[d].sector == ROOT_DIR_SECTOR && 0 !in name
    requires AllClear(c.disk, AllOwners(c), sector, 1)
    ensures var (e, added) := DirAdd(c, d, name, sector, u.slot);
            && InvWith(e, multiset{d}, {}) && e == c.(disk := e.disk) && |e.disk| == |c.disk|
            && (!added ==> e == c)
            && (added ==> sector > ROOT_DIR_SECTOR && 0 < |name| <= NAME_MAX)
            && (added ==> FindName(Dir(c.disk), name, 0).None? && NameAdded(Dir(c.disk), Dir(e.disk), name, sector))
  {
    hide InvWith, Dir, AllOwners, AllClear, DirAdd, NameAdded, FindName, Ext;
    ClearNotOwner(c, sector, multiset{d});
    DirAddInv(c, d, name, sector, u.slot, multiset{d});
    LessInv(c, sector, multiset{d});
  }

  lemma ClearNotOwner(c: Fs, sector: nat, temps: multiset<Ptr>)
    requires InvWith(c, temps, {sector}) && AllClear(c.disk, AllOwners(c), sector, 1)
    ensures sector !in AllOwners(c) && sector > ROOT_DIR_SECTOR && sector < |c.disk| <= 0x1_0000_0000
  {
    hide Dir, NamedSectors, OpenSectors, DecodeInode, OpenOk, DataOk, DirOk, LinkOk, CountOk, DenyOk;
    assert OwnerOk(c.disk, c.free, 0) && OwnerOk(c.disk, c.free, 1) && OwnerOk(c.disk, c.free, sector);
    assert Clear(c.disk, 0, sector, 1) && Clear(c.disk, 1, sector, 1);
  }

  lemma LessInv(fs: Fs, sector: nat, temps: multiset<Ptr>)
    requires InvWith(fs, temps, {sector})
    ensures InvWith(fs, temps, {})
  {
    hide Dir, Owners, OpenOk, DataOk, DirOk, LinkOk, CountOk, DenyOk, OwnerOk, Apart;
    LayoutLess(fs.disk, fs.free, AllOwners(fs) + {sector}, AllOwners(fs) + {});
  }

  /** What filesys_create does to the directory. */
  ghost predicate CreateResult(s: seq<Entry>, s': seq<Entry>, name: Name, added: bool) {
    if added then
      0 < |name| <= NAME_MAX && FindName(s, name, 0).None? && exists sector: nat :: NameAdded(s, s', name, sector)
    else s' == s
  }

  lemma CreateInv(fs: Fs, name: Name, size: nat, u: Supply)
    requires Inv(fs) && Fresh(fs, u) && size < 0x8000_0000 && 0 !in name
    ensures var (r, added) := Create(fs, name, size, u);
            && Inv(r) && r.files == fs.files && r.freeInode == fs.freeInode
            && CreateResult(Dir(fs.disk), Dir(r.disk), name, added)
            && SameSectors(fs.mem, r.mem)
  {
    hide InvWith, OpenRoot, Allocate, MakeFile, Release, Closed, Dir, NameAdded, FindName, AllOwners, AllClear,
         DecodeInode;
    var (a, d) := OpenRoot(fs, u);
    OpenRootInv(fs, u);
    if d.Some? {
      var (b, sector) := Allocate(a, 1, u.save1);
      AllocateInv(a, 1, u.save1, multiset{d.value}, {});
      assert multiset{d.value} == multiset{} + multiset{d.value};
      if sector.None? {
        ClosedInv(b, d.value, multiset{});
      } else {
        TakenSector(a, b, sector.value, multiset{d.value});
        AfterSector(b, d.value, name, sector.value, size, u);
      }
    }
  }

  /** The sector just allocated for the inode is marked and has no owner. */
  lemma TakenSector(a: Fs, b: Fs, sector: nat, temps: multiset<Ptr>)
    requires InvWith(a, temps, {}) && InvWith(b, temps, {}) && OnlyMap(a, b) && Dir(b.disk) == Dir(a.disk)
    requires BM.Group(a.free, sector, 1, false) && b.free == BM.SetRange(a.free, sector, 1, true)
    ensures RootOk(b.disk) && sector < |b.disk| == |b.free| && b.free[sector]
    ensures AllClear(b.disk, AllOwners(b), sector, 1) && sector != 0
  {
    hide InvWith, Dir, AllOwners, Layout, AllClear;
    InvParts(a, temps, {});
    InvParts(b, temps, {});
    SameOwnersOf(a, b);
    assert AllOwners(a) + {} == AllOwners(a);
    UnmarkedClear(a.disk, a.free, AllOwners(a), sector, 1);
    MapKeepsInodes(a, b, temps, {});
    ClearSame(a.disk, b.disk, AllOwners(a), sector, 1);
    OwnerIn(a, temps, {}, 0) by { FreeFile(a, temps, {}); }
  }

  lemma AfterSector(b: Fs, d: Ptr, name: Name, sector: nat, size: nat, u: Supply)
    requires InvWith(b, multiset{d}, {}) && d in b.mem && b.mem[d].sector == ROOT_DIR_SECTOR
    requires sector < |b.disk| == |b.free| && b.free[sector] && size < 0x8000_0000 && 0 !in name && sector != 0
    requires AllClear(b.disk, AllOwners(b), sector, 1)
    ensures var (c, added) := MakeFile(b, d, name, sector, size, u);
            var e := if !added && sector != 0 then Release(c, sector, 1, u.save3) else c;
            var r := Closed(e, d);
            && Inv(r) && r.files == b.files && r.freeInode == b.freeInode
            && CreateResult(Dir(b.disk), Dir(r.disk), name, added)
            && (forall q :: q in r.mem ==> q in b.mem && r.mem[q].sector == b.mem[q].sector)
  {
    hide InvWith, MakeFile, Release, Closed, Dir, NameAdded, FindName, AllOwners, AllClear, OnlyMap;
    MakeFileInv(b, d, name, sector, size, u);
    var (c, added) := MakeFile(b, d, name, sector, size, u);
    InvParts(c, multiset{d}, {});
    assert AllOwners(c) + {} == AllOwners(c);
    assert multiset{d} == multiset{} + multiset{d};
    if !added {
      ReleaseInv(c, sector, 1, u.save3, multiset{d}, {});
      ReleaseIs(c, sector, 1, u.save3);
    }
    ClosedInv(if added then c else Release(c, sector, 1, u.save3), d, multiset{});
  }

  lemma ReleaseIs(fs: Fs, k: nat, cnt: nat, ok: bool)
    ensures var r := Release(fs, k, cnt, ok); r == fs.(disk := r.disk, free := r.free)
  {
  }

  // The other operations.

  /** What filesys_open and file_reopen do: a new open file on the inode in `sector`, or nothing. */
  ghost predicate OpenResult(fs: Fs, r: Fs, f: Option<Ptr>, sector: Option<nat>) {
    && r == fs.(mem := r.mem, open := r.open, files := r.files) && SameSectors(fs.mem, r.mem)
    && (f.None? ==> r.files == fs.files)
    && (f.Some? ==> f.value !in fs.files && sector.Some? && OpenOn(r, f.value, sector.value)
                    && r.files == fs.files[f.value := r.files[f.value]])
  }

  /** The inode sector the directory has for `name`. */
  ghost function SectorOf(s: seq<Entry>, name: Name): Option<nat> {
    var i := FindName(s, name, 0);
    if i.Some? then Some(s[i.value].sector) else None
  }

  lemma OpenInv(fs: Fs, name: Name, u: Supply)
    requires Inv(fs) && Fresh(fs, u)
    ensures var (r, f) := Open(fs, name, u); Inv(r) && OpenResult(fs, r, f, SectorOf(Dir(fs.disk), name))
  {
    hide InvWith, OpenRoot, InodeOpen, Closed, Dir, FindName, FileOpen, Slots, OpenOn, AllOwners;
    var (a, d) := OpenRoot(fs, u);
    OpenRootInv(fs, u);
    if d.Some? {
      var t := multiset{d.value};
      assert t == multiset{} + multiset{d.value};
      RootData(a, d.value, t, {});
      var s := Dir(fs.disk);
      var found := FindName(s, name, 0);
      if found.Some? {
        SlotNamed(s, found.value);
        InodeOpenInv(a, s[found.value].sector, u.inode, t, {});
        OpenedIs(a, s[found.value].sector, u.inode);
        var (b, p) := InodeOpen(a, s[found.value].sector, u.inode);
        if p.Some? {
          assert t + multiset{p.value} == multiset{p.value} + multiset{d.value};
          ClosedInv(b, d.value, multiset{p.value});
          NamedFacts(Closed(b, d.value), p.value, multiset{p.value});
          FileOpenInv(Closed(b, d.value), p.value, u);
          SameThrough(fs.mem, a.mem, b.mem, Closed(b, d.value).mem, u.inode);
          SameLast(fs.mem, Closed(b, d.value).mem, FileOpen(Closed(b, d.value), p.value, u).0.mem);
        } else {
          ClosedInv(b, d.value, multiset{});
          SameThrough(fs.mem, a.mem, b.mem, Closed(b, d.value).mem, u.inode);
        }
      } else {
        ClosedInv(a, d.value, multiset{});
      }
    }
  }

  lemma SameThrough(m0: map<Ptr, Mem>, m1: map<Ptr, Mem>, m2: map<Ptr, Mem>, m3: map<Ptr, Mem>, x: Option<Ptr>)
    requires SameSectors(m0, m1) && SameSectors(m1, m2) && (x.Some? ==> x.value !in m0)
    requires forall q :: q in m2 && q !in m1 ==> x == Some(q)
    requires forall q :: q in m3 ==> q in m2 && m3[q].sector == m2[q].sector
    ensures SameSectors(m0, m3)
  {
  }

  lemma SameLast(m0: map<Ptr, Mem>, m2: map<Ptr, Mem>, m3: map<Ptr, Mem>)
    requires SameSectors(m0, m2) && SameSectors(m2, m3) && forall q :: q in m3 ==> q in m2
    ensures SameSectors(m0, m3)
  {
  }

  lemma NamedFacts(fs: Fs, p: Ptr, temps: multiset<Ptr>)
    requires InvWith(fs, temps, {}) && p in fs.mem && fs.mem[p].sector in NamedSectors(Dir(fs.disk))
    ensures fs.mem[p].sector > ROOT_DIR_SECTOR && !fs.mem[p].removed
  {
    hide Layout, Dir, OpenOk, DataOk, Owners, CountOk, DenyOk;
  }

  lemma SlotNamed(s: seq<Entry>, i: nat)
    requires i < |s| && s[i].inUse
    ensures s[i].sector in NamedSectors(s)
  {
  }

  /** Open file `f` is on the inode in `sector`. */
  ghost predicate OpenOn(fs: Fs, f: Ptr, sector: nat) {
    f in fs.files && fs.files[f].inode in fs.mem && fs.mem[fs.files[f].inode].sector == sector
  }

  /** file_open of a reference that is not to a removed file. */
  lemma FileOpenInv(fs: Fs, p: Ptr, u: Supply)
    requires InvWith(fs, multiset{p}, {}) && p in fs.mem && fs.mem[p].sector > ROOT_DIR_SECTOR
    requires !fs.mem[p].removed || fs.mem[p].openCnt > 1
    requires u.file.Some? ==> u.file.value !in fs.files
    ensures var (r, f) := FileOpen(fs, p, u);
            && Inv(r) && f == u.file && (forall q :: q in r.mem ==> q in fs.mem)
            && OpenResult(fs, r, f, Some(fs.mem[p].sector))
  {
    hide Layout, Dir, OpenOk, DirOk, DataOk, LinkOk, Owners, CountOk, DenyOk, InodeClose;
    assert multiset{p} == multiset{} + multiset{p};
    if u.file.None? {
      InodeCloseInv(fs, p, u.save1, u.save2, multiset{}, {});
      InodeCloseFrame(fs, p, u.save1, u.save2);
    } else {
      assert multiset{fs.freeInode} + multiset{} + multiset{p} == multiset{fs.freeInode} + multiset{p};
      CountToFile(fs.mem, fs.files, multiset{fs.freeInode} + multiset{}, u.file.value, p);
      DenyFile(fs.mem, fs.files, u.file.value, p);
    }
  }

  lemma InodeCloseFrame(fs: Fs, p: Ptr, save1: bool, save2: bool)
    requires p in fs.mem && (!fs.mem[p].removed || fs.mem[p].openCnt > 1)
    ensures var r := InodeClose(fs, p, save1, save2); r == fs.(mem := r.mem, open := r.open)
  {
    hide Removed;
  }

  /** What filesys_remove does to the directory. */
  ghost predicate RemoveResult(s: seq<Entry>, s': seq<Entry>, name: Name, done: bool) {
    var i := FindName(s, name, 0);
    if done then i.Some? && s' == s[i.value := s[i.value].(inUse := false)] else s' == s
  }

  lemma RemoveInv(fs: Fs, name: Name, u: Supply)
    requires Inv(fs) && Fresh(fs, u)
    ensures var (r, done) := Remove(fs, name, u);
            && Inv(r) && r.files == fs.files && r.freeInode == fs.freeInode
            && RemoveResult(Dir(fs.disk), Dir(r.disk), name, done)
            && SameSectors(fs.mem, r.mem)
  {
    hide InvWith, OpenRoot, DirRemove, Closed, Dir, FindName;
    var (a, d) := OpenRoot(fs, u);
    OpenRootInv(fs, u);
    if d.Some? {
      assert multiset{d.value} == multiset{} + multiset{d.value};
      DirRemoveInv(a, d.value, name, u, multiset{d.value});
      ClosedInv(DirRemove(a, d.value, name, u).0, d.value, multiset{});
    }
  }

  /** An open file's inode. */
  lemma FileFacts(fs: Fs, f: Ptr)
    requires Inv(fs) && f in fs.files
    ensures fs.files[f].inode in fs.mem && fs.mem[fs.files[f].inode].sector > ROOT_DIR_SECTOR
    ensures fs.mem[fs.files[f].inode].openCnt > 0
  {
    hide Layout, Dir, OpenOk, DirOk, DataOk, LinkOk, Owners, DenyOk, Handles;
  }

  lemma ReopenInv(fs: Fs, f: Ptr, u: Supply)
    requires Inv(fs) && f in fs.files && fs.files[f].inode in fs.mem && Fresh(fs, u)
    ensures var (r, g) := FileReopen(fs, f, u);
            Inv(r) && OpenResult(fs, r, g, Some(fs.mem[fs.files[f].inode].sector))
  {
    hide Layout, Dir, OpenOk, DirOk, DataOk, LinkOk, Owners, CountOk, DenyOk, FileOpen;
    FileFacts(fs, f);
    var p := fs.files[f].inode;
    var m := fs.mem[p].(openCnt := fs.mem[p].openCnt + 1);
    assert multiset{} + multiset{p} == multiset{p};
    CountInc(fs.mem, fs.files, multiset{fs.freeInode} + multiset{}, p);
    assert multiset{fs.freeInode} + multiset{} + multiset{p} == multiset{fs.freeInode} + multiset{p};
    UpdatedInv(fs, p, m, multiset{}, multiset{p}, {});
    FileOpenInv(Reopened(fs, p), p, u);
  }

  lemma FlagInv(fs: Fs, f: Ptr, flag: bool)
    requires Inv(fs) && f in fs.files && fs.files[f].inode in fs.mem && fs.files[f].denied != flag
    ensures var p := fs.files[f].inode;
            var m := fs.mem[p].(denyCnt := fs.mem[p].denyCnt + if flag then 1 else -1);
            Inv(fs.(files := fs.files[f := File(p, flag)], mem := fs.mem[p := m]))
  {
    hide Layout, Dir, OpenOk, DirOk, DataOk, LinkOk, NamedSectors, OpenSectors, CountOk, DenyOk;
    var p := fs.files[f].inode;
    var m := fs.mem[p].(denyCnt := fs.mem[p].denyCnt + if flag then 1 else -1);
    var s := Dir(fs.disk);
    DenyFlag(fs.mem, fs.files, multiset{fs.freeInode} + multiset{}, f, flag);
    OpenUpdate(fs.mem, fs.open, p, m);
    DataUpdate(fs.mem, fs.disk, p, m);
    LinkSame(s, fs.mem, p, m);
    InOpenSectors(fs.mem, p);
    OwnersUpdate(s, fs.mem, p, m);
  }

  lemma LinkSame(s: seq<Entry>, mem: map<Ptr, Mem>, p: Ptr, m: Mem)
    requires LinkOk(s, mem) && p in mem && m.sector == mem[p].sector && m.removed == mem[p].removed
    ensures LinkOk(s, mem[p := m])
  {
    hide NamedSectors;
  }

  lemma AllowInv(fs: Fs, f: Ptr)
    requires Inv(fs) && f in fs.files && fs.files[f].inode in fs.mem
    ensures Inv(AllowWrite(fs, f)) && Inv(DenyWrite(fs, f))
  {
    hide InvWith;
    if fs.files[f].denied { FlagInv(fs, f, false); } else { FlagInv(fs, f, true); }
  }

  /** The open file becomes a reference, which inode_close then gives up. */
  lemma FileDropped(fs: Fs, f: Ptr)
    requires Inv(fs) && f in fs.files && fs.files[f].inode in fs.mem && !fs.files[f].denied
    ensures InvWith(fs.(files := fs.files - {f}), multiset{fs.files[f].inode}, {})
  {
    hide Layout, Dir, OpenOk, DirOk, DataOk, LinkOk, Owners, CountOk, DenyOk;
    CountFromFile(fs.mem, fs.files, multiset{fs.freeInode} + multiset{}, f);
    assert multiset{fs.freeInode} + multiset{} + multiset{fs.files[f].inode} ==
           multiset{fs.freeInode} + multiset{fs.files[f].inode};
    DenyDropFile(fs.mem, fs.files, f);
  }

  lemma CloseInv(fs: Fs, f: Ptr, u: Supply)
    requires Inv(fs) && f in fs.files && fs.files[f].inode in fs.mem
    ensures var r := FileClose(fs, f, u);
            && Inv(r) && r.files == fs.files - {f} && r.freeInode == fs.freeInode && Dir(r.disk) == Dir(fs.disk)
            && SameSectors(fs.mem, r.mem)
  {
    hide InvWith, InodeClose, Dir;
    AllowInv(fs, f);
    var a, p := AllowWrite(fs, f), fs.files[f].inode;
    FileDropped(a, f);
    assert multiset{} + multiset{p} == multiset{p};
    InodeCloseInv(a.(files := a.files - {f}), p, u.save1, u.save2, multiset{}, {});
    assert a.files - {f} == fs.files - {f};
  }

  lemma WriteInv(fs: Fs, f: Ptr, data: seq<Byte>, offset: nat, ok: bool)
    requires Inv(fs) && f in fs.files && fs.files[f].inode in fs.mem
    ensures var r := FileWrite(fs, f, data, offset, ok);
            Inv(r) && r == fs.(disk := r.disk) && Dir(r.disk) == Dir(fs.disk)
  {
    hide InvWith, InodeWrite, Dir, Owners, Ext;
    FileFacts(fs, f);
    var p := fs.files[f].inode;
    InodeOwner(fs, p, multiset{}, {});
    InodeWriteOnly(fs, fs.mem[p], data, offset, ok);
    OwnDataInv(fs, FileWrite(fs, f, data, offset, ok), fs.mem[p].sector, multiset{}, {});
  }

  /** Every operation keeps the invariant. */
  lemma NextInv(fs: Fs, op: Op)
    requires Inv(fs) && Enabled(fs, op)
    ensures Inv(Next(fs, op))
  {
    hide Inv, Create, Open, Remove, FileReopen, FileClose, FileWrite, AllowWrite, DenyWrite, Fresh;
    match op
    case CreateOp(name, size, u) => CreateInv(fs, name, size, u);
    case OpenOp(name, u) => OpenInv(fs, name, u);
    case RemoveOp(name, u) => RemoveInv(fs, name, u);
    case ReopenOp(f, u) => ReopenInv(fs, f, u);
    case CloseOp(f, u) => CloseInv(fs, f, u);
    case DenyOp(f) => AllowInv(fs, f);
    case AllowOp(f) => AllowInv(fs, f);
    case WriteOp(f, data, offset, bounce) => WriteInv(fs, f, data, offset, bounce);
  }

  ghost predicate Legal(fs: Fs, ops: seq<Op>)
    decreases |ops|
  {
    ops == [] || (Enabled(fs, ops[0]) && Legal(Next(fs, ops[0]), ops[1..]))
  }

  ghost function After(fs: Fs, ops: seq<Op>): Fs
    requires Legal(fs, ops)
    decreases |ops|
  {
    if ops == [] then fs else After(Next(fs, ops[0]), ops[1..])
  }

  /** The invariant holds after every sequence of operations. */
  lemma {:induction false} RunInv(fs: Fs, ops: seq<Op>)
    requires Inv(fs) && Legal(fs, ops)
    ensures Inv(After(fs, ops))
    decreases |ops|
  {
    hide Inv, Enabled, Next;
    if ops != [] {
      NextInv(fs, ops[0]);
      RunInv(Next(fs, ops[0]), ops[1..]);
    }
  }
}
