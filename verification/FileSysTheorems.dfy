/** What the file system's invariant means: files never share sectors, and the sectors of a
    removed file are freed exactly when it is neither named nor open any more. */
module FileSysTheorems {
  import opened Wrappers
  import opened Orders
  import opened Storage
  import opened Codec
  import opened FileSys
  import opened FileSysInv
  import opened FileSysSteps
  import opened FileSysRuns

  /** Sector `k` is the inode or a data sector of the file whose inode is in sector `o`. */
  ghost predicate Region(d: Disk, o: nat, k: int)
    requires DiskOk(d) && o < |d|
  {
    k == o || In(Ext(d, o), k)
  }

  /** In every reachable state, the sectors of all files that are named or open are marked, no
      two files share one, and no two in-memory inodes stand for the same sector. */
  lemma FilesShareNothing(start: Fs, ops: seq<Op>)
    requires Inv(start) && Legal(start, ops)
    ensures var fs := After(start, ops);
            && RootOk(fs.disk) && |fs.free| == |fs.disk|
            && (forall o :: o in AllOwners(fs) ==> o < |fs.disk|)
            && (forall o, k :: o in AllOwners(fs) && Region(fs.disk, o, k) ==> 0 <= k < |fs.free| && fs.free[k])
            && (forall o, q, k :: o in AllOwners(fs) && q in AllOwners(fs) && o != q ==>
                  !(Region(fs.disk, o, k) && Region(fs.disk, q, k)))
            && (forall p, q :: p in fs.mem && q in fs.mem && p != q ==> fs.mem[p].sector != fs.mem[q].sector)
  {
    hide After, Legal, Dir, Owners, DecodeInode, DirOk, DataOk, LinkOk, CountOk, DenyOk, Distinct;
    RunInv(start, ops);
    var fs := After(start, ops);
    assert AllOwners(fs) + {} == AllOwners(fs);
    LayoutMeans(fs.disk, fs.free, AllOwners(fs));
  }

  lemma LayoutMeans(d: Disk, free: seq<bool>, owners: set<nat>)
    requires Layout(d, free, owners)
    ensures forall o :: o in owners ==> o < |d|
    ensures forall o, k :: o in owners && Region(d, o, k) ==> 0 <= k < |free| && free[k]
    ensures forall o, q, k :: o in owners && q in owners && o != q ==> !(Region(d, o, k) && Region(d, q, k))
  {
    forall o | o in owners ensures o < |d| { assert OwnerOk(d, free, o); }
    forall o, k | o in owners && Region(d, o, k) ensures 0 <= k < |free| && free[k] { assert OwnerOk(d, free, o); }
    forall o, q, k | o in owners && q in owners && o != q ensures !(Region(d, o, k) && Region(d, q, k)) {
      assert Apart(d, o, q);
    }
  }

  // Which sectors an operation frees.

  /** The free map after the inode in sector `o` and its data have been released. */
  ghost predicate Reclaimed(fs: Fs, r: Fs, o: nat)
    requires DiskOk(fs.disk) && o < |fs.disk|
  {
    |r.free| == |fs.free| &&
    forall k :: 0 <= k < |fs.free| ==> r.free[k] == (fs.free[k] && !Region(fs.disk, o, k))
  }

  /** A step of a file's life: no file ends and nothing is freed, or one file ends and its sectors
      are freed. */
  ghost predicate Lifecycle(fs: Fs, r: Fs)
    requires RootOk(fs.disk) && RootOk(r.disk)
  {
    || (AllOwners(fs) <= AllOwners(r) && Grows(fs.free, r.free))
    || (exists o :: o in AllOwners(fs) && o < |fs.disk| && AllOwners(r) == AllOwners(fs) - {o} && Reclaimed(fs, r, o))
  }

  lemma CloseLife(fs: Fs, p: Ptr, save1: bool, save2: bool, temps: multiset<Ptr>)
    requires InvWith(fs, temps + multiset{p}, {}) && p in fs.mem
    ensures var r := InodeClose(fs, p, save1, save2);
            && RootOk(fs.disk) && RootOk(r.disk) && Lifecycle(fs, r)
            && Untouched(fs, fs.disk, r.disk)
  {
    hide InvWith, Dir, Owners, InodeClose, DecodeInode, Sectors;
    InvParts(fs, temps + multiset{p}, {});
    InodeCloseInv(fs, p, save1, save2, temps, {});
    var r := InodeClose(fs, p, save1, save2);
    InvParts(r, temps, {});
    var m := fs.mem[p];
    if m.removed && m.openCnt == 1 {
      LastCloseInv(fs, p, save1, save2, temps, {});
      DroppedInv(fs, p, temps, {});
      InodeOwner(fs, p, temps + multiset{p}, {});
      SameOwnersOf(Dropped(fs, p), r);
      assert Reclaimed(fs, r, m.sector);
    } else if m.removed {
      CountedDown(fs, p, save1, save2, temps);
    }
  }

  lemma CountedDown(fs: Fs, p: Ptr, save1: bool, save2: bool, temps: multiset<Ptr>)
    requires InvWith(fs, temps + multiset{p}, {}) && p in fs.mem && fs.mem[p].openCnt != 1
    ensures var r := InodeClose(fs, p, save1, save2);
            r.disk == fs.disk && r.free == fs.free && RootOk(fs.disk) && AllOwners(r) == AllOwners(fs)
  {
    hide InvWith, Dir, NamedSectors, OpenSectors;
    InvParts(fs, temps + multiset{p}, {});
    InOpenSectors(fs.mem, p);
    OwnersUpdate(Dir(fs.disk), fs.mem, p, fs.mem[p].(openCnt := fs.mem[p].openCnt - 1));
  }

  /** An in-memory inode of a file is there because some open file refers to it. */
  lemma OpenHasFile(fs: Fs, p: Ptr) returns (f: Ptr)
    requires Inv(fs) && p in fs.mem && fs.mem[p].sector > ROOT_DIR_SECTOR
    ensures f in fs.files && fs.files[f].inode == p
  {
    hide Layout, Dir, OpenOk, DirOk, DataOk, LinkOk, Owners, DenyOk;
    assert (multiset{fs.freeInode} + multiset{})[p] == 0;
    assert |Handles(fs.files, p)| > 0;
    f :| f in Handles(fs.files, p);
  }

  /** As long as names and open files stay, so do the owners. */
  lemma OwnersStay(fs: Fs, r: Fs)
    requires Inv(fs) && Inv(r) && SameSectors(fs.mem, r.mem)
    requires forall f :: f in fs.files ==> f in r.files && r.files[f].inode == fs.files[f].inode
    requires NamedSectors(Dir(fs.disk)) <= NamedSectors(Dir(r.disk))
    ensures AllOwners(fs) <= AllOwners(r)
  {
    hide InvWith, Dir, NamedSectors;
    InvParts(fs, multiset{}, {});
    InvParts(r, multiset{}, {});
    forall x | x in OpenSectors(fs.mem) ensures x in AllOwners(r) {
      var p :| p in fs.mem && fs.mem[p].sector == x;
      if x > ROOT_DIR_SECTOR {
        var f := OpenHasFile(fs, p);
        FileFacts(r, f);
        InOpenSectors(r.mem, p);
      }
    }
  }

  lemma CreateNames(s: seq<Entry>, s': seq<Entry>, name: Name, added: bool)
    requires CreateResult(s, s', name, added)
    ensures NamedSectors(s) <= NamedSectors(s')
  {
    if added {
      var sector :| NameAdded(s, s', name, sector);
      var i := FindFree(s, 0);
      NamedAdd(s, i, s'[i]);
    }
  }

  // filesys_create marks sectors and touches nothing that was marked.

  lemma UntouchedTrans(fs: Fs, a: Disk, b: Disk, c: Disk)
    requires DiskOk(fs.disk) && |fs.disk| > 1 && Untouched(fs, a, b) && Untouched(fs, b, c)
    ensures Untouched(fs, a, c)
  {
  }

  /** The two system inodes are where they were. */
  ghost predicate SameRoots(fs: Fs, r: Fs) {
    && DiskOk(fs.disk) && DiskOk(r.disk) && |r.disk| == |fs.disk| == |fs.free| && |fs.disk| > 1
    && r.disk[0] == fs.disk[0] && r.disk[1] == fs.disk[1]
  }

  lemma MapUntouched(fs: Fs, a: Fs, b: Fs, temps: multiset<Ptr>)
    requires InvWith(a, temps, {}) && OnlyMap(a, b) && SameRoots(fs, a)
    ensures SameRoots(fs, b) && Untouched(fs, a.disk, b.disk)
  {
    hide InvWith, DecodeInode, Owners, Dir;
    FreeFile(a, temps, {});
    MapKeepsInodes(a, b, temps, {});
  }

  lemma CreateFrameUntouched(fs: Fs, b: Fs, c: Fs, sector: nat)
    requires CreateFrame(b, c, sector) && SameRoots(fs, b) && Grows(fs.free, b.free) && 0 <= sector < |fs.free|
    requires !fs.free[sector]
    ensures Untouched(fs, b.disk, c.disk) && Grows(fs.free, c.free)
  {
    hide DecodeInode;
  }

  lemma MakeFileKeeps(fs: Fs, b: Fs, d: Ptr, name: Name, sector: nat, size: nat, u: Supply)
    requires InvWith(b, multiset{d}, {}) && d in b.mem && b.mem[d].sector == ROOT_DIR_SECTOR
    requires sector < |b.disk| && b.free[sector] && size < 0x8000_0000 && 0 !in name
    requires AllClear(b.disk, AllOwners(b), sector, 1)
    requires SameRoots(fs, b) && Grows(fs.free, b.free) && sector < |fs.free| && !fs.free[sector]
    ensures var e := MakeFile(b, d, name, sector, size, u).0;
            SameRoots(fs, e) && Untouched(fs, b.disk, e.disk) && Grows(fs.free, e.free)
  {
    hide InvWith, Dir, AllOwners, AllClear, InodeCreate, DirAdd, NameAdded, FindName, CreateFrame, OnlyMap, DecodeInode;
    InvParts(b, multiset{d}, {});
    assert AllOwners(b) + {} == AllOwners(b);
    InodeCreateInv(b, sector, size, u.block, u.save2, multiset{d}, {});
    var (c, made) := InodeCreate(b, sector, size, u.block, u.save2);
    var more := if made then {} + {sector} else {};
    InvParts(c, multiset{d}, more);
    RootsStay(fs, b, c, sector, multiset{d});
    CreateFrameUntouched(fs, b, c, sector);
    if made {
      assert {} + {sector} == {sector};
      assert AllOwners(c) + {} == AllOwners(c);
      ClearNotOwner(c, sector, multiset{d});
      DirAddInv(c, d, name, sector, u.slot, multiset{d});
      var e := DirAdd(c, d, name, sector, u.slot).0;
      RootData(c, d, multiset{d}, {sector});
      DirUntouched(fs, c, e, multiset{d}, {sector});
      UntouchedTrans(fs, b.disk, c.disk, e.disk);
    }
  }

  lemma RootsStay(fs: Fs, b: Fs, c: Fs, sector: nat, temps: multiset<Ptr>)
    requires InvWith(b, temps, {}) && SameRoots(fs, b) && CreateFrame(b, c, sector) && DiskOk(c.disk)
    requires RootOk(b.disk) && AllClear(b.disk, AllOwners(b), sector, 1)
    ensures SameRoots(fs, c)
  {
    hide Dir, NamedSectors, OpenSectors, DecodeInode, OpenOk, DataOk, DirOk, LinkOk, CountOk, DenyOk;
    assert OwnerOk(b.disk, b.free, 0) && OwnerOk(b.disk, b.free, 1) && Apart(b.disk, 0, 1);
    assert Clear(b.disk, 0, sector, 1) && Clear(b.disk, 1, sector, 1);
  }

  lemma DirUntouched(fs: Fs, c: Fs, e: Fs, temps: multiset<Ptr>, more: set<nat>)
    requires InvWith(c, temps, more) && SameRoots(fs, c) && OnlyIn(c, e, Ext(c.disk, ROOT_DIR_SECTOR))
    ensures SameRoots(fs, e) && Untouched(fs, c.disk, e.disk)
  {
    hide Dir, NamedSectors, OpenSectors, DecodeInode, OpenOk, DataOk, DirOk, LinkOk, CountOk, DenyOk;
    assert OwnerOk(c.disk, c.free, 0) && OwnerOk(c.disk, c.free, 1) && Apart(c.disk, 0, 1);
  }

  lemma RootsRefl(fs: Fs, a: Fs, temps: multiset<Ptr>)
    requires InvWith(a, temps, {}) && a.disk == fs.disk && a.free == fs.free
    ensures SameRoots(fs, a) && Untouched(fs, fs.disk, a.disk) && Grows(fs.free, a.free)
  {
    hide Dir, Owners, DecodeInode, OpenOk, DataOk, DirOk, LinkOk, CountOk, DenyOk, OwnerOk, Apart;
  }

  lemma CreateKeeps(fs: Fs, name: Name, size: nat, u: Supply)
    requires Inv(fs) && Fresh(fs, u) && size < 0x8000_0000 && 0 !in name
    ensures var r := Create(fs, name, size, u).0;
            SameRoots(fs, r) && Untouched(fs, fs.disk, r.disk) && Grows(fs.free, r.free)
  {
    hide InvWith, OpenRoot, Allocate, MakeFile, Release, Closed, Dir, AllOwners, AllClear, DecodeInode, Untouched,
         OnlyMap;
    RootsRefl(fs, fs, multiset{});
    var (a, d) := OpenRoot(fs, u);
    OpenRootInv(fs, u);
    if d.Some? {
      RootsRefl(fs, a, multiset{d.value});
      var (b, sector) := Allocate(a, 1, u.save1);
      AllocateInv(a, 1, u.save1, multiset{d.value}, {});
      MapUntouched(fs, a, b, multiset{d.value});
      assert multiset{d.value} == multiset{} + multiset{d.value};
      OnlyMapParts(a, b);
      if sector.None? {
        ClosedInv(b, d.value, multiset{});
      } else {
        TakenSector(a, b, sector.value, multiset{d.value});
        SectorKeeps(fs, b, d.value, name, sector.value, size, u);
        UntouchedTrans(fs, fs.disk, b.disk, Create(fs, name, size, u).0.disk);
      }
    }
  }

  lemma OnlyMapParts(a: Fs, b: Fs)
    requires OnlyMap(a, b)
    ensures b.mem == a.mem && b.files == a.files && |b.disk| == |a.disk| && |b.free| == |a.free| && DiskOk(b.disk)
  {
  }

  lemma SectorKeeps(fs: Fs, b: Fs, d: Ptr, name: Name, sector: nat, size: nat, u: Supply)
    requires InvWith(b, multiset{d}, {}) && d in b.mem && b.mem[d].sector == ROOT_DIR_SECTOR
    requires sector < |b.disk| == |b.free| && b.free[sector] && size < 0x8000_0000 && 0 !in name && sector != 0
    requires AllClear(b.disk, AllOwners(b), sector, 1)
    requires SameRoots(fs, b) && Grows(fs.free, b.free) && sector < |fs.free| && !fs.free[sector]
    ensures var (c, added) := MakeFile(b, d, name, sector, size, u);
            var e := if !added && sector != 0 then Release(c, sector, 1, u.save3) else c;
            var r := Closed(e, d);
            SameRoots(fs, r) && Untouched(fs, b.disk, r.disk) && Grows(fs.free, r.free)
  {
    hide InvWith, MakeFile, Release, Closed, Dir, NameAdded, FindName, AllOwners, AllClear, OnlyMap, DecodeInode,
         Untouched;
    MakeFileInv(b, d, name, sector, size, u);
    MakeFileKeeps(fs, b, d, name, sector, size, u);
    var (c, added) := MakeFile(b, d, name, sector, size, u);
    InvParts(c, multiset{d}, {});
    assert AllOwners(c) + {} == AllOwners(c);
    assert multiset{d} == multiset{} + multiset{d};
    if !added {
      var e := Release(c, sector, 1, u.save3);
      ReleaseInv(c, sector, 1, u.save3, multiset{d}, {});
      ReleaseIs(c, sector, 1, u.save3);
      MapUntouched(fs, c, e, multiset{d});
      UntouchedTrans(fs, b.disk, c.disk, e.disk);
    }
    ClosedInv(if added then c else Release(c, sector, 1, u.save3), d, multiset{});
  }

  // filesys_remove and file_close may end a file.

  /** The same files, free map and inodes. */
  ghost predicate SameFiles(fs: Fs, c: Fs) {
    && RootOk(fs.disk) && RootOk(c.disk) && AllOwners(c) == AllOwners(fs) && c.free == fs.free && SameRoots(fs, c)
    && forall o :: o in AllOwners(fs) && o < |fs.disk| ==> c.disk[o] == fs.disk[o]
  }

  lemma LifeFrom(fs: Fs, c: Fs, r: Fs)
    requires SameFiles(fs, c) && RootOk(r.disk) && Lifecycle(c, r) && Untouched(c, c.disk, r.disk)
    ensures Lifecycle(fs, r) && Untouched(fs, c.disk, r.disk)
  {
    hide Owners, Dir, DecodeInode;
    if !(AllOwners(c) <= AllOwners(r) && Grows(c.free, r.free)) {
      var o :| o in AllOwners(c) && o < |c.disk| && AllOwners(r) == AllOwners(c) - {o} && Reclaimed(c, r, o);
      assert Reclaimed(fs, r, o);
    }
  }

  lemma LifeThen(fs: Fs, r: Fs, q: Fs)
    requires RootOk(fs.disk) && RootOk(r.disk) && Lifecycle(fs, r)
    requires q.disk == r.disk && q.free == r.free && AllOwners(q) == AllOwners(r)
    ensures Lifecycle(fs, q)
  {
    hide Owners, Dir, DecodeInode, Region;
    if !(AllOwners(fs) <= AllOwners(r) && Grows(fs.free, r.free)) {
      var o :| o in AllOwners(fs) && o < |fs.disk| && AllOwners(r) == AllOwners(fs) - {o} && Reclaimed(fs, r, o);
      assert Reclaimed(fs, q, o);
    }
  }

  lemma SameFilesRefl(fs: Fs, a: Fs, temps: multiset<Ptr>)
    requires InvWith(a, temps, {}) && a.disk == fs.disk && a.free == fs.free && AllOwners(a) == AllOwners(fs)
    ensures SameFiles(fs, a)
  {
    hide InvWith, Owners, Dir, DecodeInode;
    InvParts(a, temps, {});
    RootsRefl(fs, a, temps);
  }

  /** Erasing the entry and marking the inode leaves the file where it is. */
  lemma EraseKeeps(a: Fs, d: Ptr, i: nat, p: Ptr, ok: bool, temps: multiset<Ptr>)
    requires InvWith(a, temps, {}) && d in a.mem && a.mem[d].sector == ROOT_DIR_SECTOR
    requires i < |Dir(a.disk)| && Dir(a.disk)[i].inUse && p in a.mem && a.mem[p].sector == Dir(a.disk)[i].sector
    ensures var (b, written) := InodeWrite(a, a.mem[d], EncodeEntry(Dir(a.disk)[i].(inUse := false)), 20 * i, ok);
            && p in b.mem
            && var c := if written then MarkRemoved(b, p) else b;
               InvWith(c, temps, {}) && SameFiles(a, c) && Untouched(a, a.disk, c.disk)
  {
    hide InvWith, Dir, NamedSectors, EncodeEntry, InodeWrite, Ext, DirOk, LinkOk, Slots, Owners, OnlyIn;
    RootData(a, d, temps, {});
    InvParts(a, temps, {});
    var s := Dir(a.disk);
    var x := s[i].(inUse := false);
    EntryWrite(a, a.mem[d], i, x, ok);
    var (b, written) := InodeWrite(a, a.mem[d], EncodeEntry(x), 20 * i, ok);
    RootsRefl(a, a, temps);
    OnlyInParts(a, b, a.mem[d].data);
    if written {
      ErasedInv(a, b, i, p, temps);
      DirIs(a, b);
      OwnersRemove(s, a.mem, i, p);
      DirUntouched(a, a, b, temps, {});
      DirInodes(a, b, temps);
    } else {
      SameFilesRefl(a, b, temps);
    }
  }

  lemma OnlyInParts(fs: Fs, r: Fs, e: Extent)
    requires OnlyIn(fs, r, e)
    ensures r == fs.(disk := r.disk) && |r.disk| == |fs.disk| && DiskOk(r.disk)
  {
  }

  lemma DirInodes(fs: Fs, r: Fs, temps: multiset<Ptr>)
    requires InvWith(fs, temps, {}) && OnlyIn(fs, r, Ext(fs.disk, ROOT_DIR_SECTOR))
    ensures forall o :: o in AllOwners(fs) && o < |fs.disk| ==> r.disk[o] == fs.disk[o]
  {
    hide Dir, NamedSectors, OpenSectors, DecodeInode, OpenOk, DataOk, DirOk, LinkOk, CountOk, DenyOk;
    forall o | o in AllOwners(fs) && o < |fs.disk| ensures r.disk[o] == fs.disk[o] {
      assert OwnerOk(fs.disk, fs.free, o) && OwnerOk(fs.disk, fs.free, 1);
      assert o != 1 ==> Apart(fs.disk, 1, o);
    }
  }

  lemma SameFilesTrans(fs: Fs, a: Fs, b: Fs)
    requires SameFiles(fs, a) && SameFiles(a, b)
    ensures SameFiles(fs, b)
  {
    hide Owners, Dir, DecodeInode;
  }

  lemma DirRemoveLife(fs: Fs, d: Ptr, name: Name, u: Supply, temps: multiset<Ptr>)
    requires InvWith(fs, temps, {}) && d in fs.mem && fs.mem[d].sector == ROOT_DIR_SECTOR
    requires u.inode.Some? ==> u.inode.value !in fs.mem
    ensures var r := DirRemove(fs, d, name, u).0;
            RootOk(fs.disk) && RootOk(r.disk) && Lifecycle(fs, r) && Untouched(fs, fs.disk, r.disk)
  {
    hide InvWith, Dir, NamedSectors, EncodeEntry, InodeWrite, CString, Ext, FindName, DirOk, LinkOk, Slots, InodeOpen,
         InodeClose,
         AllOwners, SameFiles, Lifecycle, Untouched;
    RootData(fs, d, temps, {});
    InvParts(fs, temps, {});
    SameFilesRefl(fs, fs, temps);
    RootsRefl(fs, fs, temps);
    NothingEnds(fs, fs, temps);
    var s := Dir(fs.disk);
    var found := FindName(s, name, 0);
    if found.Some? {
      var i := found.value;
      NamedDrop(s, i);
      InodeOpenInv(fs, s[i].sector, u.inode, temps, {});
      OpenedIs(fs, s[i].sector, u.inode);
      var (a, p) := InodeOpen(fs, s[i].sector, u.inode);
      if p.Some? {
        var t := temps + multiset{p.value};
        SameFilesRefl(fs, a, t);
        RootData(a, d, t, {});
        EraseKeeps(a, d, i, p.value, u.slot, t);
        var (b, written) := InodeWrite(a, a.mem[d], EncodeEntry(s[i].(inUse := false)), 20 * i, u.slot);
        var c := if written then MarkRemoved(b, p.value) else b;
        var r := InodeClose(c, p.value, u.save1, u.save2);
        CloseLife(c, p.value, u.save1, u.save2, temps);
        SameFilesTrans(fs, a, c);
        LifeFrom(fs, c, r);
        UntouchedAs(fs, a, c.disk);
        UntouchedTrans(fs, fs.disk, c.disk, r.disk);
      }
    }
  }

  lemma UntouchedAs(fs: Fs, a: Fs, r: Disk)
    requires DiskOk(fs.disk) && |fs.disk| > 1 && a.disk == fs.disk && a.free == fs.free && Untouched(a, a.disk, r)
    ensures Untouched(fs, fs.disk, r)
  {
  }

  lemma NothingEnds(fs: Fs, r: Fs, temps: multiset<Ptr>)
    requires InvWith(fs, temps, {}) && InvWith(r, temps, {}) && AllOwners(fs) <= AllOwners(r) && Grows(fs.free, r.free)
    ensures RootOk(fs.disk) && RootOk(r.disk) && Lifecycle(fs, r)
  {
    hide InvWith, AllOwners;
    InvParts(fs, temps, {});
    InvParts(r, temps, {});
  }

  lemma RemoveLife(fs: Fs, name: Name, u: Supply)
    requires Inv(fs) && Fresh(fs, u)
    ensures var r := Remove(fs, name, u).0;
            RootOk(fs.disk) && RootOk(r.disk) && Lifecycle(fs, r) && Untouched(fs, fs.disk, r.disk)
  {
    hide InvWith, OpenRoot, DirRemove, Closed, Dir, FindName, AllOwners, SameFiles, Lifecycle, Untouched;
    var (a, d) := OpenRoot(fs, u);
    OpenRootInv(fs, u);
    RootsRefl(fs, fs, multiset{});
    InvParts(fs, multiset{}, {});
    if d.Some? {
      var t := multiset{d.value};
      assert t == multiset{} + multiset{d.value};
      SameFilesRefl(fs, a, t);
      DirRemoveInv(a, d.value, name, u, t);
      DirRemoveLife(a, d.value, name, u, t);
      var b := DirRemove(a, d.value, name, u).0;
      LifeFrom(fs, a, b);
      ClosedInv(b, d.value, multiset{});
      LifeThen(fs, b, Closed(b, d.value));
    } else {
      NothingEnds(fs, a, multiset{});
    }
  }

  lemma FileCloseLife(fs: Fs, f: Ptr, u: Supply)
    requires Inv(fs) && f in fs.files && fs.files[f].inode in fs.mem
    ensures var r := FileClose(fs, f, u);
            RootOk(fs.disk) && RootOk(r.disk) && Lifecycle(fs, r) && Untouched(fs, fs.disk, r.disk)
  {
    hide InvWith, InodeClose, Dir, Owners, SameFiles, Lifecycle, Untouched;
    AllowInv(fs, f);
    var a, p := AllowWrite(fs, f), fs.files[f].inode;
    FileDropped(a, f);
    var b := a.(files := a.files - {f});
    assert multiset{} + multiset{p} == multiset{p};
    InvParts(fs, multiset{}, {});
    AllowOwners(fs, f);
    SameFilesRefl(fs, b, multiset{p});
    CloseLife(b, p, u.save1, u.save2, multiset{});
    LifeFrom(fs, b, FileClose(fs, f, u));
  }

  lemma AllowOwners(fs: Fs, f: Ptr)
    requires RootOk(fs.disk) && f in fs.files && fs.files[f].inode in fs.mem
    ensures AllOwners(AllowWrite(fs, f)) == AllOwners(fs)
  {
    hide Dir, NamedSectors, OpenSectors;
    var p := fs.files[f].inode;
    InOpenSectors(fs.mem, p);
    OwnersUpdate(Dir(fs.disk), fs.mem, p, fs.mem[p].(denyCnt := fs.mem[p].denyCnt - 1));
  }

  // Every operation.

  lemma WriteOnly(fs: Fs, f: Ptr, data: seq<Byte>, offset: nat, ok: bool)
    requires Inv(fs) && f in fs.files && fs.files[f].inode in fs.mem
    ensures DiskOk(fs.disk) && fs.mem[fs.files[f].inode].data == Ext(fs.disk, fs.mem[fs.files[f].inode].sector)
    ensures OnlyIn(fs, FileWrite(fs, f, data, offset, ok), fs.mem[fs.files[f].inode].data)
  {
    hide InvWith, InodeWrite, Dir, Owners, Ext, OnlyIn;
    InodeOwner(fs, fs.files[f].inode, multiset{}, {});
    InodeWriteOnly(fs, fs.mem[fs.files[f].inode], data, offset, ok);
  }

  lemma StaysLife(fs: Fs, r: Fs)
    requires Inv(fs) && Inv(r) && SameSectors(fs.mem, r.mem) && r.free == fs.free && Dir(r.disk) == Dir(fs.disk)
    requires forall f :: f in fs.files ==> f in r.files && r.files[f].inode == fs.files[f].inode
    ensures RootOk(fs.disk) && RootOk(r.disk) && Lifecycle(fs, r)
  {
    hide InvWith, Dir, AllOwners, Lifecycle;
    InvParts(fs, multiset{}, {});
    OwnersStay(fs, r);
    NothingEnds(fs, r, multiset{});
  }

  lemma CreateLife(fs: Fs, name: Name, size: nat, u: Supply)
    requires Inv(fs) && Fresh(fs, u) && size < 0x8000_0000 && 0 !in name
    ensures var r := Create(fs, name, size, u).0;
            RootOk(fs.disk) && RootOk(r.disk) && Lifecycle(fs, r) && Untouched(fs, fs.disk, r.disk)
  {
    hide InvWith, Create, Dir, AllOwners, CreateResult, Lifecycle, Untouched;
    CreateInv(fs, name, size, u);
    CreateKeeps(fs, name, size, u);
    var (r, added) := Create(fs, name, size, u);
    InvParts(fs, multiset{}, {});
    InvParts(r, multiset{}, {});
    CreateNames(Dir(fs.disk), Dir(r.disk), name, added);
    OwnersStay(fs, r);
    NothingEnds(fs, r, multiset{});
  }

  lemma OpenLife(fs: Fs, name: Name, u: Supply)
    requires Inv(fs) && Fresh(fs, u)
    ensures var r := Open(fs, name, u).0;
            RootOk(fs.disk) && RootOk(r.disk) && Lifecycle(fs, r) && r.disk == fs.disk
  {
    hide InvWith, Open, Dir, AllOwners, Lifecycle, SectorOf;
    OpenInv(fs, name, u);
    var (r, f) := Open(fs, name, u);
    InvParts(fs, multiset{}, {});
    OpenedLife(fs, r, f, SectorOf(Dir(fs.disk), name));
  }

  lemma ReopenLife(fs: Fs, f: Ptr, u: Supply)
    requires Inv(fs) && f in fs.files && fs.files[f].inode in fs.mem && Fresh(fs, u)
    ensures var r := FileReopen(fs, f, u).0;
            RootOk(fs.disk) && RootOk(r.disk) && Lifecycle(fs, r) && r.disk == fs.disk
  {
    hide InvWith, FileReopen, Dir, AllOwners, Lifecycle;
    ReopenInv(fs, f, u);
    var (r, g) := FileReopen(fs, f, u);
    OpenedLife(fs, r, g, Some(fs.mem[fs.files[f].inode].sector));
  }

  lemma FlagLife(fs: Fs, f: Ptr)
    requires Inv(fs) && f in fs.files && fs.files[f].inode in fs.mem
    ensures RootOk(fs.disk) && Lifecycle(fs, DenyWrite(fs, f)) && Lifecycle(fs, AllowWrite(fs, f))
  {
    hide InvWith, Dir, AllOwners, Lifecycle;
    AllowInv(fs, f);
    StaysLife(fs, DenyWrite(fs, f));
    StaysLife(fs, AllowWrite(fs, f));
  }

  lemma WriteLife(fs: Fs, f: Ptr, data: seq<Byte>, offset: nat, ok: bool)
    requires Inv(fs) && f in fs.files && fs.files[f].inode in fs.mem
    ensures var r := FileWrite(fs, f, data, offset, ok); RootOk(fs.disk) && RootOk(r.disk) && Lifecycle(fs, r)
  {
    hide InvWith, Dir, AllOwners, Lifecycle, FileWrite;
    WriteInv(fs, f, data, offset, ok);
    StaysLife(fs, FileWrite(fs, f, data, offset, ok));
  }

  lemma NextLife(fs: Fs, op: Op)
    requires Inv(fs) && Enabled(fs, op)
    ensures var r := Next(fs, op);
            && RootOk(fs.disk) && RootOk(r.disk) && Lifecycle(fs, r)
            && (!op.WriteOp? ==> Untouched(fs, fs.disk, r.disk))
  {
    hide Inv, Create, Open, Remove, FileReopen, FileClose, FileWrite, Fresh, RootOk, Lifecycle, Untouched;
    UntouchedRefl(fs);
    match op
    case CreateOp(name, size, u) => CreateLife(fs, name, size, u);
    case OpenOp(name, u) => OpenLife(fs, name, u);
    case RemoveOp(name, u) => RemoveLife(fs, name, u);
    case ReopenOp(f, u) => ReopenLife(fs, f, u);
    case CloseOp(f, u) => FileCloseLife(fs, f, u);
    case DenyOp(f) => FlagLife(fs, f);
    case AllowOp(f) => FlagLife(fs, f);
    case WriteOp(f, data, offset, bounce) => WriteLife(fs, f, data, offset, bounce);
  }

  lemma OpenedLife(fs: Fs, r: Fs, f: Option<Ptr>, sector: Option<nat>)
    requires Inv(fs) && Inv(r) && OpenResult(fs, r, f, sector)
    ensures RootOk(fs.disk) && RootOk(r.disk) && Lifecycle(fs, r) && r.disk == fs.disk
  {
    hide InvWith, Dir, AllOwners, Lifecycle;
    StaysLife(fs, r);
  }

  lemma UntouchedRefl(fs: Fs)
    requires Inv(fs)
    ensures DiskOk(fs.disk) && |fs.disk| > 1 && Untouched(fs, fs.disk, fs.disk)
  {
    hide InvWith, Dir, AllOwners;
    InvParts(fs, multiset{}, {});
  }

  /** A sector is freed by an operation exactly if it belongs to a file that was named or open
      before the operation and is neither afterwards. */
  lemma FreedExactly(fs: Fs, op: Op, k: nat)
    requires Inv(fs) && Enabled(fs, op) && k < |fs.free|
    ensures var r := Next(fs, op);
            && RootOk(fs.disk) && RootOk(r.disk) && |r.free| == |fs.free|
            && (fs.free[k] && !r.free[k] <==>
                  exists o :: o in AllOwners(fs) && o !in AllOwners(r) && o < |fs.disk| && Region(fs.disk, o, k))
  {
    hide InvWith, Next, Enabled, Dir, Owners, DecodeInode;
    NextLife(fs, op);
    var r := Next(fs, op);
    InvParts(fs, multiset{}, {});
    assert AllOwners(fs) + {} == AllOwners(fs);
    LayoutMeans(fs.disk, fs.free, AllOwners(fs));
  }

  /** The inode of a file stays as it is. */
  lemma InodeStays(fs: Fs, op: Op, o: nat)
    requires Inv(fs) && Enabled(fs, op) && o in AllOwners(fs)
    ensures var r := Next(fs, op); |r.disk| == |fs.disk| && o < |fs.disk| && r.disk[o] == fs.disk[o]
  {
    hide InvWith, Next, Enabled, Dir, NamedSectors, OpenSectors, DecodeInode, Lifecycle;
    NextLife(fs, op);
    InvParts(fs, multiset{}, {});
    assert AllOwners(fs) + {} == AllOwners(fs);
    assert OwnerOk(fs.disk, fs.free, o) && OwnerOk(fs.disk, fs.free, 0) && OwnerOk(fs.disk, fs.free, 1);
    assert o != 0 ==> Apart(fs.disk, 0, o);
    assert o != 1 ==> Apart(fs.disk, 1, o);
    if op.WriteOp? { WriteStays(fs, op, o); } else if o <= 1 { RootsStayNext(fs, op); }
  }

  lemma WriteStays(fs: Fs, op: Op, o: nat)
    requires Inv(fs) && Enabled(fs, op) && op.WriteOp? && o in AllOwners(fs)
    ensures var r := Next(fs, op); |r.disk| == |fs.disk| && o < |fs.disk| && r.disk[o] == fs.disk[o]
  {
    hide Dir, NamedSectors, OpenSectors, DecodeInode, FileWrite, OpenOk, DataOk, DirOk, LinkOk, CountOk, DenyOk;
    var p := fs.files[op.file].inode;
    WriteOnly(fs, op.file, op.data, op.offset, op.bounce);
    InOpenSectors(fs.mem, p);
    var q := fs.mem[p].sector;
    assert OwnerOk(fs.disk, fs.free, o) && OwnerOk(fs.disk, fs.free, q);
    assert o != q ==> Apart(fs.disk, q, o);
  }

  lemma RootsStayNext(fs: Fs, op: Op)
    requires Inv(fs) && Enabled(fs, op) && !op.WriteOp?
    ensures var r := Next(fs, op); |r.disk| == |fs.disk| > 1 && r.disk[0] == fs.disk[0] && r.disk[1] == fs.disk[1]
  {
    hide Dir, NamedSectors, OpenSectors, DecodeInode, Next, Enabled, OpenOk, DataOk, DirOk, LinkOk, CountOk, DenyOk,
         Lifecycle;
    NextLife(fs, op);
    assert OwnerOk(fs.disk, fs.free, 0) && OwnerOk(fs.disk, fs.free, 1) && Apart(fs.disk, 0, 1);
  }

  /** The file with its inode in sector `o` is named or open in every state of the run. */
  ghost predicate Lives(fs: Fs, ops: seq<Op>, o: nat)
    requires Legal(fs, ops)
    decreases |ops|
  {
    RootOk(fs.disk) && o in AllOwners(fs) && (ops != [] ==> Lives(Next(fs, ops[0]), ops[1..], o))
  }

  lemma {:induction false} InodeLives(fs: Fs, ops: seq<Op>, o: nat)
    requires Inv(fs) && Legal(fs, ops) && Lives(fs, ops, o)
    ensures var r := After(fs, ops);
            && Inv(r) && RootOk(r.disk) && o in AllOwners(r)
            && |r.disk| == |fs.disk| && o < |fs.disk| && DiskOk(fs.disk) && r.disk[o] == fs.disk[o]
    decreases |ops|
  {
    hide InvWith, Next, Enabled, Dir, AllOwners;
    OwnerIn(fs, multiset{}, {}, o) by { assert AllOwners(fs) + {} == AllOwners(fs); }
    if ops != [] {
      NextInv(fs, ops[0]);
      InodeStays(fs, ops[0], o);
      InodeLives(Next(fs, ops[0]), ops[1..], o);
    }
  }

  /** The life of a file over any run: as long as it is named or open, its sectors are those of
      its inode and all are marked; in the very operation after which it is neither, all of them
      are freed. */
  lemma LifeOfFile(fs: Fs, ops: seq<Op>, op: Op, o: nat)
    requires Inv(fs) && Legal(fs, ops) && Lives(fs, ops, o) && Enabled(After(fs, ops), op)
    ensures var s := After(fs, ops);
            var r := Next(s, op);
            && RootOk(fs.disk) && o < |fs.disk| && RootOk(r.disk) && |r.free| == |s.free|
            && (forall k :: Region(fs.disk, o, k) ==> 0 <= k < |s.free| && s.free[k])
            && (o !in AllOwners(r) ==> forall k :: Region(fs.disk, o, k) ==> 0 <= k < |r.free| && !r.free[k])
  {
    hide InvWith, Next, Enabled, Dir, AllOwners, Legal, After, Lives, DecodeInode, Sectors;
    InodeLives(fs, ops, o);
    var s := After(fs, ops);
    InvParts(fs, multiset{}, {});
    InvParts(s, multiset{}, {});
    assert AllOwners(s) + {} == AllOwners(s);
    LayoutMeans(s.disk, s.free, AllOwners(s));
    NextLife(s, op);
    var r := Next(s, op);
    forall k | Region(fs.disk, o, k) ensures 0 <= k < |s.free| && s.free[k] {
      assert Region(s.disk, o, k);
    }
    if o !in AllOwners(r) {
      forall k | Region(fs.disk, o, k) ensures 0 <= k < |r.free| && !r.free[k] {
        assert Region(s.disk, o, k);
      }
    }
  }

  /** A file is an owner exactly if the directory names it or some open file is on it. */
  lemma OwnerMeans(fs: Fs, o: nat)
    requires Inv(fs) && o > ROOT_DIR_SECTOR
    ensures RootOk(fs.disk) && (o in AllOwners(fs) <==> o in NamedSectors(Dir(fs.disk)) || exists f :: OpenOn(fs, f, o))
  {
    hide InvWith, Dir, NamedSectors;
    InvParts(fs, multiset{}, {});
    if o in OpenSectors(fs.mem) {
      var p :| p in fs.mem && fs.mem[p].sector == o;
      var f := OpenHasFile(fs, p);
      assert OpenOn(fs, f, o);
    }
    forall f | OpenOn(fs, f, o) ensures o in OpenSectors(fs.mem) { InOpenSectors(fs.mem, fs.files[f].inode); }
  }

  // Contents.

  /** No operation changes a byte of a file, except a write through a file that is open on it. */
  lemma ContentKept(fs: Fs, op: Op, o: nat)
    requires Inv(fs) && Enabled(fs, op) && o in AllOwners(fs) && o > ROOT_DIR_SECTOR
    requires op.WriteOp? ==> !OpenOn(fs, op.file, o)
    ensures var r := Next(fs, op);
            && DiskOk(fs.disk) && DiskOk(r.disk) && o < |fs.disk| == |r.disk| && Ext(r.disk, o) == Ext(fs.disk, o)
            && Fits(fs.disk, Ext(fs.disk, o)) && Content(r.disk, Ext(fs.disk, o)) == Content(fs.disk, Ext(fs.disk, o))
  {
    hide InvWith, Next, Enabled, Dir, Owners, DecodeInode, Lifecycle, Content, Layout;
    var r := Next(fs, op);
    NextLife(fs, op);
    InodeStays(fs, op, o);
    InvParts(fs, multiset{}, {});
    assert AllOwners(fs) + {} == AllOwners(fs);
    LayoutFits(fs.disk, fs.free, AllOwners(fs), o);
    forall k | 0 <= k < |fs.disk| && In(Ext(fs.disk, o), k) ensures r.disk[k] == fs.disk[k] {
      if op.WriteOp? { WriteElsewhere(fs, op, o, k); } else { OwnDataUntouched(fs, r, o, k); }
    }
    ContentSame(fs.disk, r.disk, Ext(fs.disk, o));
  }

  lemma LayoutFits(d: Disk, free: seq<bool>, owners: set<nat>, o: nat)
    requires Layout(d, free, owners) && o in owners
    ensures o < |d| && Fits(d, Ext(d, o)) && forall k :: In(Ext(d, o), k) ==> 0 <= k < |d| && free[k]
  {
    assert OwnerOk(d, free, o);
  }

  lemma OwnDataUntouched(fs: Fs, r: Fs, o: nat, k: nat)
    requires Inv(fs) && RootOk(fs.disk) && o in AllOwners(fs) && o > ROOT_DIR_SECTOR && o < |fs.disk| && k < |fs.disk|
    requires Untouched(fs, fs.disk, r.disk) && In(Ext(fs.disk, o), k)
    ensures r.disk[k] == fs.disk[k]
  {
    hide Dir, NamedSectors, OpenSectors, DecodeInode, OpenOk, DataOk, DirOk, LinkOk, CountOk, DenyOk;
    assert OwnerOk(fs.disk, fs.free, o) && Apart(fs.disk, 0, o) && Apart(fs.disk, 1, o);
  }

  lemma WriteElsewhere(fs: Fs, op: Op, o: nat, k: nat)
    requires Inv(fs) && Enabled(fs, op) && op.WriteOp? && o in AllOwners(fs) && !OpenOn(fs, op.file, o)
    requires o < |fs.disk| && k < |fs.disk| && In(Ext(fs.disk, o), k)
    ensures var r := Next(fs, op); |r.disk| == |fs.disk| && r.disk[k] == fs.disk[k]
  {
    hide Dir, NamedSectors, OpenSectors, DecodeInode, FileWrite, OpenOk, DataOk, DirOk, LinkOk, CountOk, DenyOk;
    var p := fs.files[op.file].inode;
    WriteOnly(fs, op.file, op.data, op.offset, op.bounce);
    InOpenSectors(fs.mem, p);
    assert Apart(fs.disk, fs.mem[p].sector, o);
  }

  /** A write through an open file changes its file as a write to a flat array would, and tells
      how far it got. */
  lemma WriteContent(fs: Fs, f: Ptr, data: seq<Byte>, offset: nat, ok: bool)
    requires Inv(fs) && f in fs.files && fs.files[f].inode in fs.mem
    ensures var m := fs.mem[fs.files[f].inode];
            var r := FileWrite(fs, f, data, offset, ok);
            var n := if m.denyCnt > 0 then 0 else Transferred(m.data.length, |data|, offset, ok);
            && DiskOk(fs.disk) && DiskOk(r.disk) && |r.disk| == |fs.disk| && Fits(fs.disk, m.data)
            && n <= |data| && (n == 0 || offset + n <= m.data.length)
            && Content(r.disk, m.data) == Patched(Content(fs.disk, m.data), offset, data[..n])
  {
    hide InvWith, Dir, Owners, DecodeInode, Content, Layout, PatchedDisk;
    var p := fs.files[f].inode;
    var m := fs.mem[p];
    InvParts(fs, multiset{}, {});
    InodeOwner(fs, p, multiset{}, {});
    assert AllOwners(fs) + {} == AllOwners(fs);
    LayoutFits(fs.disk, fs.free, AllOwners(fs), m.sector);
    ReachWithin(m.data.length, |data|, offset, ok);
    var n := if m.denyCnt > 0 then 0 else Transferred(m.data.length, |data|, offset, ok);
    PatchedContent(fs.disk, m.data, offset, data[..n]);
  }

  // A new file.

  /** The inode in `sector` describes a file of `length` bytes, all zero. */
  ghost predicate ZeroFile(d: Disk, sector: nat, length: nat) {
    && DiskOk(d) && sector < |d| && Ext(d, sector).length == length && Fits(d, Ext(d, sector))
    && forall k :: In(Ext(d, sector), k) ==> 0 <= k < |d| && d[k] == Zeros()
  }

  lemma ZeroContent(d: Disk, sector: nat, length: nat)
    requires ZeroFile(d, sector, length)
    ensures Content(d, Ext(d, sector)) == seq(length, _ => 0)
  {
    hide DecodeInode;
    var e := Ext(d, sector);
    forall pos | 0 <= pos < length ensures Content(d, e)[pos] == 0 { assert In(e, e.start + pos / 512); }
  }

  /** inode_create leaves a file of zeros. */
  lemma InodeCreateZero(b: Fs, sector: nat, length: nat, memOk: bool, saveOk: bool, temps: multiset<Ptr>)
    requires InvWith(b, temps, {}) && sector < |b.disk| && b.free[sector] && length < 0x8000_0000
    ensures var (c, made) := InodeCreate(b, sector, length, memOk, saveOk); made ==> ZeroFile(c.disk, sector, length)
  {
    hide InvWith, Allocate, Made, EncodeInode, DecodeInode, Sectors, Zeroed;
    if memOk {
      var (a, start) := Allocate(b, Sectors(length), saveOk);
      AllocateInv(b, Sectors(length), saveOk, temps, {});
      InvParts(b, temps, {});
      InvParts(a, temps, {});
      if start.Some? {
        var e := Extent(start.value, length);
        AllocatedStart(b, Sectors(length), saveOk);
        assert !In(e, sector);
        MadeFacts(a.disk, sector, e);
        MadeZeros(a.disk, sector, e);
        InodeRoundTrip(e);
        MadeIs(a.disk, sector, e);
      }
    }
  }

  lemma MadeIs(d: Disk, sector: nat, e: Extent)
    requires sector < |d|
    ensures Made(d, sector, e) == Zeroed(d[sector := EncodeInode(e)], e.start, Sectors(e.length))
  {
  }

  /** Writing the directory entry does not touch the new file. */
  lemma ZeroKept(c: Fs, e: Fs, sector: nat, length: nat, temps: multiset<Ptr>)
    requires InvWith(c, temps, {sector}) && OnlyIn(c, e, Ext(c.disk, ROOT_DIR_SECTOR))
    requires ZeroFile(c.disk, sector, length) && sector > 1
    ensures ZeroFile(e.disk, sector, length)
  {
    hide Dir, Owners, DecodeInode, OpenOk, DataOk, DirOk, LinkOk, CountOk, DenyOk;
    FreeFile(c, temps, {sector});
    assert Apart(c.disk, 1, sector);
  }

  lemma MakeFileZero(b: Fs, d: Ptr, name: Name, sector: nat, size: nat, u: Supply)
    requires InvWith(b, multiset{d}, {}) && d in b.mem && b.mem[d].sector == ROOT_DIR_SECTOR
    requires sector < |b.disk| && b.free[sector] && size < 0x8000_0000 && 0 !in name
    requires AllClear(b.disk, AllOwners(b), sector, 1)
    ensures var (e, added) := MakeFile(b, d, name, sector, size, u); added ==> ZeroFile(e.disk, sector, size)
  {
    hide InvWith, Dir, AllOwners, AllClear, InodeCreate, DirAdd, NameAdded, FindName, CreateFrame, OnlyMap, ZeroFile,
         Ext;
    InvParts(b, multiset{d}, {});
    assert AllOwners(b) + {} == AllOwners(b);
    InodeCreateInv(b, sector, size, u.block, u.save2, multiset{d}, {});
    InodeCreateZero(b, sector, size, u.block, u.save2, multiset{d});
    var (c, made) := InodeCreate(b, sector, size, u.block, u.save2);
    if made {
      assert {} + {sector} == {sector};
      InvParts(c, multiset{d}, {sector});
      assert AllOwners(c) + {} == AllOwners(c);
      ClearNotOwner(c, sector, multiset{d});
      DirAddInv(c, d, name, sector, u.slot, multiset{d});
      ZeroKept(c, DirAdd(c, d, name, sector, u.slot).0, sector, size, multiset{d});
    }
  }

  /** The new entry is the one a lookup finds. */
  lemma FoundAdded(s: seq<Entry>, s': seq<Entry>, name: Name, sector: nat)
    requires NameAdded(s, s', name, sector) && FindName(s, name, 0).None?
    ensures SectorOf(s', name) == Some(sector)
  {
    hide FindFree, Names;
    var i := FindFree(s, 0);
    assert forall j :: 0 <= j < |s| && j != i ==> s'[j] == s[j] && !Names(s[j], name);
  }

  /** A file that filesys_create has made is found under its name and has the size asked for, all zeros. */
  lemma CreatedFile(fs: Fs, name: Name, size: nat, u: Supply)
    requires Inv(fs) && Fresh(fs, u) && size < 0x8000_0000 && 0 !in name
    ensures var (r, added) := Create(fs, name, size, u);
            added ==> && RootOk(r.disk)
                      && var sector := SectorOf(Dir(r.disk), name);
                         sector.Some? && ZeroFile(r.disk, sector.value, size)
                         && Content(r.disk, Ext(r.disk, sector.value)) == seq(size, _ => 0)
  {
    hide InvWith, OpenRoot, Allocate, MakeFile, Release, Closed, Dir, AllOwners, AllClear, DecodeInode, NameAdded,
         FindName, ZeroFile, OnlyMap, SectorOf;
    CreateInv(fs, name, size, u);
    OpenRootInv(fs, u);
    var (a, d) := OpenRoot(fs, u);
    if d.Some? {
      var t := multiset{d.value};
      assert t == multiset{} + multiset{d.value};
      var (b, sector) := Allocate(a, 1, u.save1);
      AllocateInv(a, 1, u.save1, t, {});
      OnlyMapParts(a, b);
      if sector.Some? {
        TakenSector(a, b, sector.value, t);
        MakeFileInv(b, d.value, name, sector.value, size, u);
        MakeFileZero(b, d.value, name, sector.value, size, u);
        var (c, added) := MakeFile(b, d.value, name, sector.value, size, u);
        if added {
          InvParts(c, t, {});
          FoundAdded(Dir(b.disk), Dir(c.disk), name, sector.value);
          ClosedInv(c, d.value, multiset{});
          ZeroContent(c.disk, sector.value, size);
        }
      }
    }
    InvParts(Create(fs, name, size, u).0, multiset{}, {});
  }
}
