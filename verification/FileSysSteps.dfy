/** Every building block of the file system keeps its invariant. */
module FileSysSteps {
  import opened Wrappers
  import opened Orders
  import opened Storage
  import opened Codec
  import opened FileSys
  import opened FileSysInv
  import BM = Bitmap

  ghost function AllOwners(fs: Fs): set<nat>
    requires RootOk(fs.disk)
  {
    Owners(Dir(fs.disk), fs.mem)
  }

  /** Nothing but the free map and, in the data sectors of the free map file, the disk changes. */
  ghost predicate OnlyMap(fs: Fs, r: Fs) {
    && r == fs.(disk := r.disk, free := r.free) && |r.free| == |fs.free|
    && |r.disk| == |fs.disk| && DiskOk(r.disk)
    && (DiskOk(fs.disk) && |fs.disk| > 0 ==>
          forall k :: 0 <= k < |fs.disk| && !In(Ext(fs.disk, FREE_MAP_SECTOR), k) ==> r.disk[k] == fs.disk[k])
  }

  lemma OnlyMapTrans(fs: Fs, r: Fs, q: Fs)
    requires OnlyMap(fs, r) && OnlyMap(r, q) && DiskOk(fs.disk) && |fs.disk| > 0
    requires r.disk[0] == fs.disk[0]
    ensures OnlyMap(fs, q)
  {
  }

  lemma FreeFile(fs: Fs, temps: multiset<Ptr>, more: set<nat>)
    requires InvWith(fs, temps, more)
    ensures fs.freeInode in fs.mem && |fs.disk| > 1 && DiskOk(fs.disk)
    ensures fs.mem[fs.freeInode].data == Ext(fs.disk, FREE_MAP_SECTOR)
    ensures FREE_MAP_SECTOR in AllOwners(fs) && ROOT_DIR_SECTOR in AllOwners(fs)
  {
    hide Layout, OpenOk, DirOk, LinkOk, CountOk, DenyOk, Dir, DecodeInode, NamedSectors, OpenSectors;
  }

  lemma SaveInv(fs: Fs, ok: bool, temps: multiset<Ptr>, more: set<nat>)
    requires InvWith(fs, temps, more)
    ensures var r := Save(fs, ok).0;
            && InvWith(r, temps, more) && Dir(r.disk) == Dir(fs.disk) && OnlyMap(fs, r) && r.free == fs.free
            && r.disk[0] == fs.disk[0]
  {
    hide InvWith, InodeWrite, Owners, Dir, Ext;
    FreeFile(fs, temps, more);
    var m := fs.mem[fs.freeInode];
    var r := InodeWrite(fs, m, PackedMap(fs.free), 0, ok).0;
    InodeWriteOnly(fs, m, PackedMap(fs.free), 0, ok);
    InvParts(fs, temps, more);
    OwnDataInv(fs, r, FREE_MAP_SECTOR, temps, more);
    NotInOwn(fs, temps, more, 0);
  }

  lemma InvParts(fs: Fs, temps: multiset<Ptr>, more: set<nat>)
    requires InvWith(fs, temps, more)
    ensures RootOk(fs.disk) && |fs.free| == |fs.disk| <= 0x1_0000_0000 && DiskOk(fs.disk)
    ensures Layout(fs.disk, fs.free, AllOwners(fs) + more)
  {
    hide OpenOk, DataOk, DirOk, LinkOk, CountOk, DenyOk, Dir, Owners, OwnerOk, Apart;
  }

  lemma NotInOwn(fs: Fs, temps: multiset<Ptr>, more: set<nat>, o: nat)
    requires InvWith(fs, temps, more) && RootOk(fs.disk) && o in AllOwners(fs) + more
    ensures o < |fs.disk| && !In(Ext(fs.disk, o), o)
  {
    hide OpenOk, DataOk, DirOk, LinkOk, CountOk, DenyOk, Dir, Owners, Apart;
    assert OwnerOk(fs.disk, fs.free, o);
  }

  /** The free map may change if the layout allows it. */
  lemma FreeInv(fs: Fs, free: seq<bool>, temps: multiset<Ptr>, more: set<nat>)
    requires InvWith(fs, temps, more) && RootOk(fs.disk) && Layout(fs.disk, free, AllOwners(fs) + more)
    ensures InvWith(fs.(free := free), temps, more)
  {
    hide Layout, OpenOk, DataOk, DirOk, LinkOk, CountOk, DenyOk, Dir, Owners;
  }

  lemma AllocateInv(fs: Fs, cnt: nat, ok: bool, temps: multiset<Ptr>, more: set<nat>)
    requires InvWith(fs, temps, more)
    ensures var (r, k) := Allocate(fs, cnt, ok);
            && InvWith(r, temps, more) && Dir(r.disk) == Dir(fs.disk) && OnlyMap(fs, r) && r.disk[0] == fs.disk[0]
            && (k.None? ==> r.free == fs.free)
            && (k.Some? ==>
                  BM.Group(fs.free, k.value, cnt, false)
                  && r.free == BM.SetRange(fs.free, k.value, cnt, true))
  {
    hide InvWith, Save, Dir, Layout, AllOwners, Ext;
    InvParts(fs, temps, more);
    var g := BM.Scanned(fs.free, 0, cnt, false);
    if g.Some? {
      var k := g.value;
      var m := Marked(fs, k, cnt, true);
      LayoutMark(fs.disk, fs.free, AllOwners(fs) + more, k, cnt);
      FreeInv(fs, m.free, temps, more);
      SaveInv(m, ok, temps, more);
      var (s, saved) := Save(m, ok);
      if !saved {
        assert BM.SetRange(s.free, k, cnt, false) == fs.free;
        InvParts(s, temps, more);
        FreeFile(fs, temps, more);
        SameOwners(fs, s);
        LayoutSame(fs, s, AllOwners(fs) + more);
        FreeInv(s, fs.free, temps, more);
      }
    }
  }

  lemma SameOwners(fs: Fs, r: Fs)
    requires RootOk(fs.disk) && RootOk(r.disk) && Dir(r.disk) == Dir(fs.disk) && r.mem == fs.mem
    ensures AllOwners(r) == AllOwners(fs)
  {
  }

  lemma LayoutSame(fs: Fs, r: Fs, owners: set<nat>)
    requires Layout(fs.disk, fs.free, owners) && Layout(r.disk, r.free, owners) && |r.disk| == |fs.disk|
    requires |fs.disk| > 0
    requires 0 in owners && OnlyMap(fs.(free := r.free), r)
    ensures Layout(r.disk, fs.free, owners)
  {
    forall o | o in owners ensures r.disk[o] == fs.disk[o] {
      assert OwnerOk(fs.disk, fs.free, o) && OwnerOk(fs.disk, fs.free, 0);
      assert o != 0 ==> Apart(fs.disk, 0, o);
    }
    hide OwnerOk, Apart, In;
    LayoutDisk(fs.disk, r.disk, fs.free, owners);
  }

  /** None of the owners uses the `cnt` sectors from `k` on. */
  ghost predicate AllClear(d: Disk, owners: set<nat>, k: nat, cnt: nat)
    requires DiskOk(d)
  {
    forall o :: o in owners && o < |d| ==> Clear(d, o, k, cnt)
  }

  lemma ReleaseInv(fs: Fs, k: nat, cnt: nat, ok: bool, temps: multiset<Ptr>, more: set<nat>)
    requires InvWith(fs, temps, more) && k + cnt <= |fs.free|
    requires AllClear(fs.disk, AllOwners(fs) + more, k, cnt)
    ensures var r := Release(fs, k, cnt, ok);
            && InvWith(r, temps, more) && Dir(r.disk) == Dir(fs.disk) && OnlyMap(fs, r) && r.disk[0] == fs.disk[0]
            && r.free == BM.SetRange(fs.free, k, cnt, false)
  {
    hide InvWith, Save, Dir, Layout, AllOwners, Ext, Clear;
    InvParts(fs, temps, more);
    var m := Marked(fs, k, cnt, false);
    LayoutRelease(fs.disk, fs.free, AllOwners(fs) + more, k, cnt);
    FreeInv(fs, m.free, temps, more);
    SaveInv(m, ok, temps, more);
  }

  /** A reference is taken on the inode of a file that has not been removed. */
  lemma InodeOpenInv(fs: Fs, sector: nat, alloc: Option<Ptr>, temps: multiset<Ptr>, more: set<nat>)
    requires InvWith(fs, temps, more) && (alloc.Some? ==> alloc.value !in fs.mem)
    requires sector in {FREE_MAP_SECTOR, ROOT_DIR_SECTOR} + NamedSectors(Dir(fs.disk))
    ensures var (r, p) := InodeOpen(fs, sector, alloc);
            && r == fs.(mem := r.mem, open := r.open)
            && (p.None? ==> r == fs)
            && (p.Some? ==>
                  p.value in r.mem && r.mem[p.value].sector == sector
                  && InvWith(r, temps + multiset{p.value}, more))
            && (forall q :: q in fs.mem ==> q in r.mem && r.mem[q].sector == fs.mem[q].sector)
            && (forall q :: q in r.mem && q !in fs.mem ==> p == Some(q))
            && AllOwners(r) == AllOwners(fs)
  {
    hide InvWith, Dir, NamedSectors, AllOwners, DecodeInode;
    FreeFile(fs, temps, more);
    InvParts(fs, temps, more);
    var found := FindOpen(fs.open, fs.mem, sector);
    if found.Some? {
      ReopenedInv(fs, found.value, temps, more);
    } else {
      NamedOwner(fs, sector);
      OwnerIn(fs, temps, more, sector);
      if alloc.Some? { OpenNewInv(fs, sector, alloc.value, temps, more); }
    }
  }

  lemma NamedOwner(fs: Fs, sector: nat)
    requires RootOk(fs.disk) && sector in {FREE_MAP_SECTOR, ROOT_DIR_SECTOR} + NamedSectors(Dir(fs.disk))
    ensures sector in AllOwners(fs)
  {
  }

  lemma ReopenedInv(fs: Fs, p: Ptr, temps: multiset<Ptr>, more: set<nat>)
    requires InvWith(fs, temps, more) && p in fs.mem
    ensures InvWith(Reopened(fs, p), temps + multiset{p}, more) && AllOwners(Reopened(fs, p)) == AllOwners(fs)
  {
    hide Layout, Dir, OpenOk, DirOk, DataOk, LinkOk, Owners, CountOk, DenyOk;
    var all := multiset{fs.freeInode} + temps;
    CountInc(fs.mem, fs.files, all, p);
    assert all + multiset{p} == multiset{fs.freeInode} + (temps + multiset{p});
    UpdatedInv(fs, p, fs.mem[p].(openCnt := fs.mem[p].openCnt + 1), temps, temps + multiset{p}, more);
  }

  lemma OpenedIs(fs: Fs, sector: nat, alloc: Option<Ptr>)
    ensures var (a, p) := InodeOpen(fs, sector, alloc);
            a == fs.(mem := a.mem, open := a.open) && forall q :: q in a.mem && q !in fs.mem ==> alloc == Some(q)
  {
  }

  lemma OwnerIn(fs: Fs, temps: multiset<Ptr>, more: set<nat>, sector: nat)
    requires InvWith(fs, temps, more) && sector in AllOwners(fs) + more
    ensures sector < |fs.disk| && DiskOk(fs.disk) && |fs.disk[sector]| == 512 && fs.free[sector]
  {
    hide OpenOk, DataOk, DirOk, LinkOk, CountOk, DenyOk, Dir, Owners, Apart;
    assert OwnerOk(fs.disk, fs.free, sector);
  }

  /** An in-memory inode changes its open count or is marked as removed. */
  lemma UpdatedInv(fs: Fs, p: Ptr, m: Mem, temps: multiset<Ptr>, temps': multiset<Ptr>, more: set<nat>)
    requires InvWith(fs, temps, more) && p in fs.mem
    requires m == fs.mem[p].(openCnt := m.openCnt)
    requires CountOk(fs.mem[p := m], fs.files, multiset{fs.freeInode} + temps')
    ensures InvWith(fs.(mem := fs.mem[p := m]), temps', more)
    ensures AllOwners(fs.(mem := fs.mem[p := m])) == AllOwners(fs)
  {
    hide Layout, Dir, NamedSectors, DirOk, OpenSectors, Distinct, Ext, CountOk, Handles, Denied, OpenOk, DenyOk;
    var s := Dir(fs.disk);
    OpenUpdate(fs.mem, fs.open, p, m);
    LinkUpdate(s, fs.mem, p, m);
    assert m.sector in OpenSectors(fs.mem) by { InOpenSectors(fs.mem, p); }
    OwnersUpdate(s, fs.mem, p, m);
    DenySame(fs.mem, fs.files, p, m);
  }

  lemma InOpenSectors(mem: map<Ptr, Mem>, p: Ptr)
    requires p in mem
    ensures mem[p].sector in OpenSectors(mem)
  {
  }

  lemma OpenNewInv(fs: Fs, sector: nat, p: Ptr, temps: multiset<Ptr>, more: set<nat>)
    requires InvWith(fs, temps, more) && p !in fs.mem && FindOpen(fs.open, fs.mem, sector).None?
    requires sector in {FREE_MAP_SECTOR, ROOT_DIR_SECTOR} + NamedSectors(Dir(fs.disk))
    requires sector < |fs.disk| && DiskOk(fs.disk)
    ensures var m := Mem(sector, 1, false, 0, DecodeInode(fs.disk[sector]));
            && InvWith(fs.(open := [p] + fs.open, mem := fs.mem[p := m]), temps + multiset{p}, more)
            && AllOwners(fs.(open := [p] + fs.open, mem := fs.mem[p := m])) == AllOwners(fs)
  {
    hide Layout, Dir, NamedSectors, DirOk, OpenSectors, Distinct, DecodeInode, CountOk, Handles, Denied, DenyOk,
         FindOpen;
    var s, m := Dir(fs.disk), Mem(sector, 1, false, 0, DecodeInode(fs.disk[sector]));
    OpenPush(fs.mem, fs.open, p, m);
    LinkUpdate(s, fs.mem, p, m);
    OwnersUpdate(s, fs.mem, p, m);
    CountNew(fs.mem, fs.files, multiset{fs.freeInode} + temps, p, m);
    DenyNew(fs.mem, fs.files, multiset{fs.freeInode} + temps, p, m);
    assert multiset{fs.freeInode} + temps + multiset{p} == multiset{fs.freeInode} + (temps + multiset{p});
  }

  /** An in-memory inode stays with its sector. */
  ghost predicate SameSectors(m: map<Ptr, Mem>, m': map<Ptr, Mem>) {
    forall q :: q in m && q in m' ==> m'[q].sector == m[q].sector
  }

  // Closing.

  /** The in-memory inode goes, its sectors stay as they are. */
  lemma DroppedInv(fs: Fs, p: Ptr, temps: multiset<Ptr>, more: set<nat>)
    requires InvWith(fs, temps + multiset{p}, more) && p in fs.mem && fs.mem[p].openCnt == 1
    ensures InvWith(Dropped(fs, p), temps, more)
    ensures AllOwners(Dropped(fs, p)) == if fs.mem[p].removed then AllOwners(fs) - {fs.mem[p].sector} else AllOwners(fs)
  {
    hide Dir, NamedSectors, DirOk, OpenSectors, Distinct, Ext, Handles, Denied, CountOk, OpenOk, OwnerOk, Apart,
         Removed;
    var s := Dir(fs.disk);
    var all := multiset{fs.freeInode} + temps;
    assert multiset{fs.freeInode} + (temps + multiset{p}) == all + multiset{p};
    CountDrop(fs.mem, fs.files, all, p);
    OpenDrop(fs.mem, fs.open, p);
    LinkDrop(s, fs.mem, p);
    OwnersDrop(s, fs.mem, p);
    LayoutLess(fs.disk, fs.free, Owners(s, fs.mem) + more, Owners(s, fs.mem - {p}) + more);
    if fs.mem[p].removed { OwnersRemoved(s, fs.mem, fs.open, p); }
    DroppedOwners(s, fs.mem, p);
  }

  lemma DroppedOwners(s: seq<Entry>, mem: map<Ptr, Mem>, p: Ptr)
    requires LinkOk(s, mem) && p in mem
    ensures Owners(s, mem) - {mem[p].sector} <= Owners(s, mem - {p})
    ensures !mem[p].removed ==> mem[p].sector in {FREE_MAP_SECTOR, ROOT_DIR_SECTOR} + NamedSectors(s)
  {
    hide NamedSectors;
    forall x | x in OpenSectors(mem) && x != mem[p].sector ensures x in OpenSectors(mem - {p}) {
      var q :| q in mem && mem[q].sector == x;
      assert q in mem - {p};
    }
  }

  /** The sectors of an inode that is no owner any more are used by no owner. */
  lemma DroppedClear(d: Disk, free: seq<bool>, owners: set<nat>, fewer: set<nat>, o: nat)
    requires Layout(d, free, owners) && fewer <= owners && o in owners && o !in fewer
    ensures o < |d| && Fits(d, Ext(d, o)) && free[o] && !In(Ext(d, o), o)
    ensures AllClear(d, fewer, o, 1)
    ensures AllClear(d, fewer, Ext(d, o).start, Sectors(Ext(d, o).length))
    ensures BM.Group(free, Ext(d, o).start, Sectors(Ext(d, o).length), true)
  {
    assert OwnerOk(d, free, o);
    forall q | q in fewer && q < |d|
      ensures Clear(d, q, o, 1) && Clear(d, q, Ext(d, o).start, Sectors(Ext(d, o).length))
    {
      assert OwnerOk(d, free, q);
      assert Apart(d, o, q);
      ApartClear(d, o, q);
    }
  }

  lemma ApartClear(d: Disk, o: nat, q: nat)
    requires DiskOk(d) && o < |d| && q < |d| && o != q && Apart(d, o, q)
    ensures Clear(d, q, o, 1) && Clear(d, q, Ext(d, o).start, Sectors(Ext(d, o).length))
  {
    hide DecodeInode, Sectors;
    var e, f := Ext(d, o), Ext(d, q);
    forall j | In(f, j) ensures !(e.start <= j < e.start + Sectors(e.length)) {
      assert !(In(e, j) && In(f, j));
    }
  }

  lemma ClearSame(d: Disk, r: Disk, owners: set<nat>, k: nat, cnt: nat)
    requires DiskOk(d) && DiskOk(r) && |r| == |d| && AllClear(d, owners, k, cnt)
    requires forall o :: o in owners && o < |d| ==> r[o] == d[o]
    ensures AllClear(r, owners, k, cnt)
  {
    forall o | o in owners && o < |r| ensures Clear(r, o, k, cnt) {
      assert Clear(d, o, k, cnt);
      assert Ext(r, o) == Ext(d, o);
    }
  }

  /** Writing the free map changes no inode. */
  lemma MapKeepsInodes(fs: Fs, r: Fs, temps: multiset<Ptr>, more: set<nat>)
    requires InvWith(fs, temps, more) && OnlyMap(fs, r)
    ensures forall o :: o in AllOwners(fs) + more && o < |fs.disk| ==> r.disk[o] == fs.disk[o]
  {
    hide Dir, NamedSectors, OpenSectors, DecodeInode, OpenOk, DataOk, DirOk, LinkOk, CountOk, DenyOk;
    forall o | o in AllOwners(fs) + more && o < |fs.disk| ensures r.disk[o] == fs.disk[o] {
      assert OwnerOk(fs.disk, fs.free, o) && OwnerOk(fs.disk, fs.free, 0);
      assert o != 0 ==> Apart(fs.disk, 0, o);
    }
  }

  /** The last reference to a removed file goes: its sectors are released, and they were marked. */
  lemma LastCloseInv(fs: Fs, p: Ptr, save1: bool, save2: bool, temps: multiset<Ptr>, more: set<nat>)
    requires InvWith(fs, temps + multiset{p}, more) && p in fs.mem && fs.mem[p].openCnt == 1 && fs.mem[p].removed
    requires fs.mem[p].sector !in more
    ensures var r, m := InodeClose(fs, p, save1, save2), fs.mem[p];
            && InvWith(r, temps, more) && Dir(r.disk) == Dir(fs.disk) && r.disk[0] == fs.disk[0]
            && m.sector < |fs.free| && BM.Group(fs.free, m.data.start, Sectors(m.data.length), true)
            && fs.free[m.sector]
            && r.free == BM.SetRange(BM.SetRange(fs.free, m.sector, 1, false),
                                     m.data.start, Sectors(m.data.length), false)
            && OnlyMap(Dropped(fs, p), r)
  {
    hide InvWith, Dir, AllOwners, Layout, AllClear, Release, Dropped, Ext, Sectors;
    var m, a := fs.mem[p], Dropped(fs, p);
    DroppedInv(fs, p, temps, more);
    DroppedParts(fs, p);
    InvParts(fs, temps + multiset{p}, more);
    FreeFile(fs, temps + multiset{p}, more);
    InodeOwner(fs, p, temps + multiset{p}, more);
    var fewer := AllOwners(a) + more;
    DroppedClear(fs.disk, fs.free, AllOwners(fs) + more, fewer, m.sector);
    ReleaseInv(a, m.sector, 1, save1, temps, more);
    var b := Release(a, m.sector, 1, save1);
    InvParts(a, temps, more);
    InvParts(b, temps, more);
    MapKeepsInodes(a, b, temps, more);
    ClearSame(a.disk, b.disk, fewer, m.data.start, Sectors(m.data.length));
    SameOwnersOf(a, b);
    ReleaseInv(b, m.data.start, Sectors(m.data.length), save2, temps, more);
    OnlyMapTrans(a, b, Release(b, m.data.start, Sectors(m.data.length), save2));
  }

  lemma DroppedParts(fs: Fs, p: Ptr)
    ensures var a := Dropped(fs, p);
            a.disk == fs.disk && a.free == fs.free && a == fs.(mem := fs.mem - {p}, open := a.open)
  {
  }

  lemma SameOwnersOf(fs: Fs, r: Fs)
    requires RootOk(fs.disk) && RootOk(r.disk) && Dir(r.disk) == Dir(fs.disk) && OnlyMap(fs, r)
    ensures AllOwners(r) == AllOwners(fs)
  {
  }

  lemma InodeOwner(fs: Fs, p: Ptr, temps: multiset<Ptr>, more: set<nat>)
    requires InvWith(fs, temps, more) && p in fs.mem
    ensures fs.mem[p].sector in AllOwners(fs) && fs.mem[p].sector < |fs.disk| && DiskOk(fs.disk)
    ensures fs.mem[p].data == Ext(fs.disk, fs.mem[p].sector)
  {
    hide Layout, Dir, NamedSectors, DecodeInode, OpenOk, DirOk, LinkOk, CountOk, DenyOk;
    InOpenSectors(fs.mem, p);
  }

  /** inode_close. */
  lemma InodeCloseInv(fs: Fs, p: Ptr, save1: bool, save2: bool, temps: multiset<Ptr>, more: set<nat>)
    requires InvWith(fs, temps + multiset{p}, more) && p in fs.mem && fs.mem[p].sector !in more
    ensures var r := InodeClose(fs, p, save1, save2);
            && InvWith(r, temps, more) && Dir(r.disk) == Dir(fs.disk)
            && r.files == fs.files && r.freeInode == fs.freeInode
            && (!fs.mem[p].removed ==> r.disk == fs.disk && r.free == fs.free && AllOwners(r) == AllOwners(fs))
            && (forall q :: q in fs.mem && (q != p || fs.mem[p].openCnt != 1) ==> q in r.mem)
            && (forall q :: q in r.mem ==> q in fs.mem && r.mem[q] == fs.mem[q].(openCnt := r.mem[q].openCnt))
  {
    hide Layout, Dir, NamedSectors, OpenSectors, DecodeInode, OpenOk, DirOk, LinkOk, DataOk, Owners, CountOk, DenyOk,
         Removed, Release;
    var m := fs.mem[p];
    if m.openCnt != 1 {
      assert multiset{fs.freeInode} + (temps + multiset{p}) == multiset{fs.freeInode} + temps + multiset{p};
      CountDec(fs.mem, fs.files, multiset{fs.freeInode} + temps, p);
      UpdatedInv(fs, p, m.(openCnt := m.openCnt - 1), temps + multiset{p}, temps, more);
    } else if m.removed {
      LastCloseInv(fs, p, save1, save2, temps, more);
    } else {
      DroppedInv(fs, p, temps, more);
    }
  }

  // Creating.

  /** Sectors that are not marked are used by no owner. */
  lemma UnmarkedClear(d: Disk, free: seq<bool>, owners: set<nat>, k: nat, cnt: nat)
    requires Layout(d, free, owners) && BM.Group(free, k, cnt, false)
    ensures AllClear(d, owners, k, cnt)
  {
    forall o | o in owners && o < |d| ensures Clear(d, o, k, cnt) {
      assert OwnerOk(d, free, o);
    }
  }

  /** The inode just written describes sectors that were free until now. */
  lemma NewOwner(d: Disk, free: seq<bool>, owners: set<nat>, o: nat, e: Extent)
    requires Layout(d, free, owners) && o < |d| && free[o] && Ext(d, o) == e && Fits(d, e) && !In(e, o)
    requires AllClear(d, owners, o, 1) && AllClear(d, owners, e.start, Sectors(e.length))
    requires forall k :: In(e, k) ==> free[k]
    ensures Layout(d, free, owners + {o})
  {
    forall q | q in owners && q != o ensures Apart(d, o, q) {
      assert OwnerOk(d, free, q);
      assert Clear(d, q, o, 1) && Clear(d, q, e.start, Sectors(e.length));
    }
    LayoutNew(d, free, owners, o);
  }

  lemma AddedOwnerInv(fs: Fs, o: nat, temps: multiset<Ptr>, more: set<nat>)
    requires InvWith(fs, temps, more) && Layout(fs.disk, fs.free, AllOwners(fs) + more + {o})
    ensures InvWith(fs, temps, more + {o})
  {
    hide Layout, OpenOk, DataOk, DirOk, LinkOk, CountOk, DenyOk, Dir, Owners;
    assert AllOwners(fs) + more + {o} == AllOwners(fs) + (more + {o});
  }

  /** The disk after inode_create has its sectors. */
  ghost function Made(d: Disk, sector: nat, e: Extent): (r: Disk)
    requires sector < |d|
    ensures |r| == |d|
  {
    Zeroed(d[sector := EncodeInode(e)], e.start, Sectors(e.length))
  }

  lemma MadeFacts(d: Disk, sector: nat, e: Extent)
    requires DiskOk(d) && sector < |d| && !In(e, sector)
    ensures DiskOk(Made(d, sector, e)) && Made(d, sector, e)[sector] == EncodeInode(e)
    ensures forall k :: 0 <= k < |d| && k != sector && !In(e, k) ==> Made(d, sector, e)[k] == d[k]
  {
    hide EncodeInode, Sectors;
    var r := Made(d, sector, e);
    assert forall k :: 0 <= k < |d| ==> r[k] == if In(e, k) then Zeros() else d[sector := EncodeInode(e)][k];
  }

  lemma MadeZeros(d: Disk, sector: nat, e: Extent)
    requires sector < |d| && Fits(d, e)
    ensures forall k :: In(e, k) ==> 0 <= k < |d| && Made(d, sector, e)[k] == Zeros()
  {
  }

  lemma MadeKeeps(d: Disk, owners: set<nat>, sector: nat, e: Extent)
    requires DiskOk(d) && |d| > 1 && sector < |d| && !In(e, sector) && ROOT_DIR_SECTOR in owners
    requires AllClear(d, owners, sector, 1) && AllClear(d, owners, e.start, Sectors(e.length))
    ensures Keeps(d, Made(d, sector, e), owners)
  {
    hide Made, DecodeInode, Sectors;
    MadeFacts(d, sector, e);
    forall o | o in owners && o < |d| ensures Made(d, sector, e)[o] == d[o] {
      assert Clear(d, o, sector, 1) && Clear(d, o, e.start, Sectors(e.length));
    }
    assert Clear(d, 1, sector, 1) && Clear(d, 1, e.start, Sectors(e.length));
  }

  lemma FirstOfNone(v: seq<bool>)
    ensures BM.Scanned(v, 0, 0, false) == Some(0)
  {
    assert BM.Group(v, 0, 0, false);
  }

  lemma MadeInv(fs: Fs, sector: nat, e: Extent, temps: multiset<Ptr>, more: set<nat>)
    requires InvWith(fs, temps, more) && sector < |fs.disk| && fs.free[sector] && !In(e, sector) && Fits(fs.disk, e)
    requires e.start < 0x1_0000_0000 && e.length < 0x8000_0000
    requires BM.Group(fs.free, e.start, Sectors(e.length), true)
    requires AllClear(fs.disk, AllOwners(fs) + more, sector, 1)
    requires AllClear(fs.disk, AllOwners(fs) + more, e.start, Sectors(e.length))
    ensures var r := fs.(disk := Made(fs.disk, sector, e));
            && InvWith(r, temps, more + {sector}) && Dir(r.disk) == Dir(fs.disk)
            && DiskOk(r.disk) && Ext(r.disk, sector) == e
  {
    hide InvWith, Dir, Owners, Layout, AllClear, Made, Sectors, EncodeInode, DecodeInode, Keeps;
    var r := fs.(disk := Made(fs.disk, sector, e));
    InvParts(fs, temps, more);
    var owners := AllOwners(fs) + more;
    FreeFile(fs, temps, more);
    MadeKeeps(fs.disk, owners, sector, e);
    DiskInv(fs, r.disk, temps, more);
    MadeFacts(fs.disk, sector, e);
    InodeRoundTrip(e);
    KeepsInodes(fs.disk, r.disk, owners);
    ClearSame(fs.disk, r.disk, owners, sector, 1);
    ClearSame(fs.disk, r.disk, owners, e.start, Sectors(e.length));
    InvParts(r, temps, more);
    SameOwners(fs, r);
    NewOwner(r.disk, r.free, owners, sector, e);
    AddedOwnerInv(r, sector, temps, more);
  }

  lemma KeepsInodes(d: Disk, r: Disk, owners: set<nat>)
    requires DiskOk(d) && |d| > 1 && Keeps(d, r, owners)
    ensures DiskOk(r) && |r| == |d| && forall o :: o in owners && o < |d| ==> r[o] == d[o]
  {
  }

  /** inode_create in a sector that is marked and belongs to no owner. */
  lemma InodeCreateInv(fs: Fs, sector: nat, length: nat, memOk: bool, saveOk: bool, temps: multiset<Ptr>,
                       more: set<nat>)
    requires InvWith(fs, temps, more) && sector < |fs.disk| && fs.free[sector] && length < 0x8000_0000
    requires AllClear(fs.disk, AllOwners(fs) + more, sector, 1)
    ensures var (r, made) := InodeCreate(fs, sector, length, memOk, saveOk);
            && r == fs.(disk := r.disk, free := r.free) && |r.disk| == |fs.disk| && |r.free| == |fs.free|
            && InvWith(r, temps, if made then more + {sector} else more) && Dir(r.disk) == Dir(fs.disk)
            && (!made ==> r.free == fs.free && OnlyMap(fs, r))
            && (made ==> DiskOk(r.disk) && Ext(r.disk, sector).length == length)
            && r.free[sector]
            && AllClear(r.disk, AllOwners(r) + more, sector, 1)
            && CreateFrame(fs, r, sector)
  {
    hide InvWith, Dir, AllOwners, Layout, AllClear, Allocate, Zeroed, Sectors, EncodeInode, DecodeInode;
    InvParts(fs, temps, more);
    FreeFile(fs, temps, more);
    OnlyMapRefl(fs);
    if memOk {
      var cnt := Sectors(length);
      var (a, start) := Allocate(fs, cnt, saveOk);
      AllocateInv(fs, cnt, saveOk, temps, more);
      InvParts(a, temps, more);
      SameOwnersOf(fs, a);
      MapKeepsInodes(fs, a, temps, more);
      ClearSame(fs.disk, a.disk, AllOwners(fs) + more, sector, 1);
      if start.Some? {
        var e := Extent(start.value, length);
        AllocatedStart(fs, cnt, saveOk);
        UnmarkedClear(fs.disk, fs.free, AllOwners(fs) + more, e.start, cnt);
        ClearSame(fs.disk, a.disk, AllOwners(fs) + more, e.start, cnt);
        MadeInv(a, sector, e, temps, more);
        var r := a.(disk := Made(a.disk, sector, e));
        InvParts(r, temps, more + {sector});
        SameOwners(a, r);
        MadeClear(a, sector, e, AllOwners(a) + more, temps, more);
        MadeFacts(a.disk, sector, e);
        hide Made, In;
        assert CreateFrame(fs, r, sector) by { AllocatedFrame(fs, a, r, sector, e); }
      }
    }
  }

  /** inode_create marks sectors, and writes only to `sector`, to sectors that were not marked and
      to the free map file. */
  ghost predicate CreateFrame(fs: Fs, r: Fs, sector: nat) {
    && |r.free| == |fs.free| == |fs.disk| == |r.disk| && DiskOk(fs.disk) && |fs.disk| > 0
    && (forall k :: 0 <= k < |fs.free| && fs.free[k] ==> r.free[k])
    && (forall k :: 0 <= k < |fs.disk| && fs.free[k] && k != sector && !In(Ext(fs.disk, FREE_MAP_SECTOR), k) ==>
          r.disk[k] == fs.disk[k])
  }

  lemma AllocatedFrame(fs: Fs, a: Fs, r: Fs, sector: nat, e: Extent)
    requires |fs.free| == |fs.disk| && DiskOk(fs.disk) && |fs.disk| > 0 && OnlyMap(fs, a)
    requires BM.Group(fs.free, e.start, Sectors(e.length), false)
    requires a.free == BM.SetRange(fs.free, e.start, Sectors(e.length), true)
    requires r.free == a.free && |r.disk| == |a.disk|
    requires forall k :: 0 <= k < |a.disk| && k != sector && !In(e, k) ==> r.disk[k] == a.disk[k]
    ensures CreateFrame(fs, r, sector)
  {
  }

  lemma MadeClear(fs: Fs, sector: nat, e: Extent, owners: set<nat>, temps: multiset<Ptr>, more: set<nat>)
    requires InvWith(fs, temps, more) && sector < |fs.disk| && !In(e, sector) && RootOk(fs.disk)
    requires owners == AllOwners(fs) + more
    requires AllClear(fs.disk, owners, sector, 1) && AllClear(fs.disk, owners, e.start, Sectors(e.length))
    ensures DiskOk(Made(fs.disk, sector, e)) && AllClear(Made(fs.disk, sector, e), owners, sector, 1)
  {
    hide InvWith, Dir, AllOwners, AllClear, Made, Sectors, DecodeInode, Keeps;
    FreeFile(fs, temps, more);
    MadeKeeps(fs.disk, owners, sector, e);
    KeepsInodes(fs.disk, Made(fs.disk, sector, e), owners);
    ClearSame(fs.disk, Made(fs.disk, sector, e), owners, sector, 1);
  }

  lemma OnlyMapRefl(fs: Fs)
    requires DiskOk(fs.disk)
    ensures OnlyMap(fs, fs)
  {
  }

  lemma AllocatedStart(fs: Fs, cnt: nat, ok: bool)
    requires |fs.free| <= 0x1_0000_0000
    ensures var k := Allocate(fs, cnt, ok).1; k.Some? ==> k.value < 0x1_0000_0000 && k.value + cnt <= |fs.free|
  {
    hide Save, Marked;
    if cnt == 0 { FirstOfNone(fs.free); }
  }

  // The directory.

  lemma SlotWritten(d: Disk, e: Extent, i: nat, x: Entry)
    requires DiskOk(d) && Fits(d, e) && e.length == 320 && i < 16 && EntryOk(x)
    ensures var r := PatchedDisk(d, e.start, 20 * i, EncodeEntry(x));
            DiskOk(r) && |r| == |d| && Slots(r, e) == Slots(d, e)[i := x]
  {
    hide PatchedDisk, EncodeEntry, DecodeEntry, Content;
    var b := EncodeEntry(x);
    var r := PatchedDisk(d, e.start, 20 * i, b);
    PatchedContent(d, e, 20 * i, b);
    EntryRoundTrip(x);
    var c := Content(d, e);
    var c' := Patched(c, 20 * i, b);
    forall j | 0 <= j < 16
      ensures DecodeEntry(c'[20 * j..20 * j + 20]) == if j == i then x else DecodeEntry(c[20 * j..20 * j + 20])
    {
      SlotBytes(c, i, j, b);
    }
    assert Slots(r, e) == Slots(d, e)[i := x];
  }

  lemma SlotBytes(c: seq<Byte>, i: nat, j: nat, b: seq<Byte>)
    requires |c| == 320 && |b| == 20 && i < 16 && j < 16
    ensures Patched(c, 20 * i, b)[20 * j..20 * j + 20] == if j == i then b else c[20 * j..20 * j + 20]
  {
    var r := Patched(c, 20 * i, b);
    assert forall n :: 0 <= n < 320 ==> r[n] == if 20 * i <= n < 20 * i + 20 then b[n - 20 * i] else c[n];
    if j < i { assert 20 * j + 20 <= 20 * i; }
    if i < j { assert 20 * i + 20 <= 20 * j; }
  }

  lemma SlotTransfer(i: nat, ok: bool)
    ensures Transferred(320, 20, 20 * i, ok) == if i < 16 && ok then 20 else 0
  {
    if i < 16 { assert 20 * i + 20 <= 320; } else { assert 20 * i >= 320; }
  }

  /** Writing one directory entry does all or nothing. */
  lemma EntryWrite(fs: Fs, m: Mem, i: nat, x: Entry, ok: bool)
    requires DiskOk(fs.disk) && Fits(fs.disk, m.data) && m.data.length == 320 && EntryOk(x)
    ensures var (r, written) := InodeWrite(fs, m, EncodeEntry(x), 20 * i, ok);
            && OnlyIn(fs, r, m.data)
            && (!written ==> r == fs)
            && (written ==> i < 16 && Slots(r.disk, m.data) == Slots(fs.disk, m.data)[i := x])
  {
    hide PatchedDisk, Slots, Transferred, OnlyIn, EncodeEntry;
    InodeWriteOnly(fs, m, EncodeEntry(x), 20 * i, ok);
    SlotTransfer(i, ok);
    NothingPatched(fs.disk, m.data.start, 20 * i);
    var b := EncodeEntry(x);
    assert b[..20] == b && b[..0] == [];
    if i < 16 { SlotWritten(fs.disk, m.data, i, x); }
  }

  /** The directory's own data changes: inodes stay where they are. */
  lemma DirDataKeeps(fs: Fs, r: Fs, temps: multiset<Ptr>, more: set<nat>)
    requires InvWith(fs, temps, more) && OnlyIn(fs, r, Ext(fs.disk, ROOT_DIR_SECTOR))
    ensures RootOk(r.disk) && Ext(r.disk, ROOT_DIR_SECTOR) == Ext(fs.disk, ROOT_DIR_SECTOR)
    ensures Layout(r.disk, r.free, AllOwners(fs) + more) && DataOk(r.mem, r.disk)
  {
    hide Dir, NamedSectors, DecodeInode, OpenOk, DirOk, LinkOk, CountOk, DenyOk;
    var owners := AllOwners(fs) + more;
    assert 1 in owners;
    forall o | o in owners ensures o < |fs.disk| && r.disk[o] == fs.disk[o] {
      assert OwnerOk(fs.disk, fs.free, o) && OwnerOk(fs.disk, fs.free, 1);
      assert o != 1 ==> Apart(fs.disk, 1, o);
    }
    assert OpenSectors(fs.mem) <= owners;
    hide Owners, OpenSectors, OwnerOk, Apart;
    LayoutDisk(fs.disk, r.disk, fs.free, owners);
    DataSame(fs.mem, fs.disk, r.disk);
  }

  lemma NamedAdd(s: seq<Entry>, i: nat, x: Entry)
    requires i < |s| && !s[i].inUse && x.inUse
    ensures NamedSectors(s[i := x]) == NamedSectors(s) + {x.sector}
  {
    var s' := s[i := x];
    forall n | n in NamedSectors(s) ensures n in NamedSectors(s') {
      var j :| 0 <= j < |s| && s[j].inUse && s[j].sector == n;
      assert s'[j].inUse && s'[j].sector == n;
    }
    assert s'[i].inUse && s'[i].sector == x.sector;
  }

  lemma DirOkAdd(s: seq<Entry>, i: nat, x: Entry)
    requires DirOk(s) && i < |s| && x.inUse && x.sector > ROOT_DIR_SECTOR && x.sector !in NamedSectors(s)
    requires FindName(s, CString(x.field), 0).None?
    ensures DirOk(s[i := x])
  {
    hide CString;
  }

  lemma LinkAdd(s: seq<Entry>, mem: map<Ptr, Mem>, i: nat, x: Entry)
    requires LinkOk(s, mem) && i < |s| && !s[i].inUse && x.inUse && x.sector !in OpenSectors(mem)
    ensures LinkOk(s[i := x], mem)
  {
    NamedAdd(s, i, x);
    hide NamedSectors;
  }

  lemma RootData(fs: Fs, d: Ptr, temps: multiset<Ptr>, more: set<nat>)
    requires InvWith(fs, temps, more) && d in fs.mem && fs.mem[d].sector == ROOT_DIR_SECTOR
    ensures DiskOk(fs.disk) && |fs.disk| > 1 && fs.mem[d].data == Ext(fs.disk, ROOT_DIR_SECTOR)
    ensures Fits(fs.disk, fs.mem[d].data) && fs.mem[d].data.length == 320
    ensures Slots(fs.disk, fs.mem[d].data) == Dir(fs.disk)
    ensures DirOk(Dir(fs.disk)) && LinkOk(Dir(fs.disk), fs.mem) && !In(fs.mem[d].data, 1)
  {
    hide OpenOk, DirOk, LinkOk, CountOk, DenyOk, NamedSectors, OpenSectors, DecodeInode, Slots;
    assert OwnerOk(fs.disk, fs.free, 1);
  }

  /** The first free slot of `s` now names `sector`; the others are as before. */
  ghost predicate NameAdded(s: seq<Entry>, s': seq<Entry>, name: Name, sector: nat) {
    var i := FindFree(s, 0);
    i < |s| == |s'| && Names(s'[i], name) && s'[i].sector == sector && s' == s[i := s'[i]]
  }

  lemma AddedInv(fs: Fs, r: Fs, i: nat, x: Entry, temps: multiset<Ptr>)
    requires InvWith(fs, temps, {x.sector}) && OnlyIn(fs, r, Ext(fs.disk, ROOT_DIR_SECTOR))
    requires x.sector !in AllOwners(fs) && x.inUse && FindName(Dir(fs.disk), CString(x.field), 0).None?
    requires i < |Dir(fs.disk)| && !Dir(fs.disk)[i].inUse
    requires Slots(r.disk, Ext(fs.disk, ROOT_DIR_SECTOR)) == Dir(fs.disk)[i := x]
    ensures InvWith(r, temps, {})
  {
    hide Layout, OpenOk, DataOk, DirOk, LinkOk, CountOk, DenyOk, NamedSectors, OpenSectors, CString, Ext, FindName,
         Slots;
    var s := Dir(fs.disk);
    DirDataKeeps(fs, r, temps, {x.sector});
    NamedAdd(s, i, x);
    DirOkAdd(s, i, x);
    LinkAdd(s, fs.mem, i, x);
    assert Owners(s[i := x], fs.mem) + {} == Owners(s, fs.mem) + {x.sector};
  }

  /** dir_add of an inode that nothing names or has open. */
  lemma DirAddInv(fs: Fs, d: Ptr, name: Name, sector: nat, ok: bool, temps: multiset<Ptr>)
    requires InvWith(fs, temps, {sector}) && d in fs.mem && fs.mem[d].sector == ROOT_DIR_SECTOR
    requires sector !in AllOwners(fs) && sector < 0x1_0000_0000 && 0 !in name
    ensures var (r, added) := DirAdd(fs, d, name, sector, ok);
            && DiskOk(fs.disk) && |fs.disk| > 1 && OnlyIn(fs, r, Ext(fs.disk, ROOT_DIR_SECTOR))
            && (!added ==> r == fs)
            && (added ==>
                  && InvWith(r, temps, {})
                  && 0 < |name| <= NAME_MAX && FindName(Dir(fs.disk), name, 0).None?
                  && NameAdded(Dir(fs.disk), Dir(r.disk), name, sector))
  {
    hide InvWith, Dir, NamedSectors, OpenSectors, EncodeEntry, InodeWrite, CString, Ext, FindName, FindFree, LinkOk,
         DirOk, Slots;
    RootData(fs, d, temps, {sector});
    InvParts(fs, temps, {sector});
    var m, s := fs.mem[d], Dir(fs.disk);
    if name != [] && |name| <= NAME_MAX && FindName(s, name, 0).None? {
      var i := FindFree(s, 0);
      var was := if i < |s| then s[i] else Entry(0, seq(NAME_MAX + 1, _ => 0), false);
      var x := NewEntry(was, name, sector);
      NameFieldString(name, was.field[|name| + 1..]);
      EntryWrite(fs, m, i, x, ok);
      var (r, written) := InodeWrite(fs, m, EncodeEntry(x), 20 * i, ok);
      SlotCount(s);
      if written {
        AddedInv(fs, r, i, x, temps);
        DirIs(fs, r);
      }
    }
  }

  lemma DirIs(fs: Fs, r: Fs)
    requires RootOk(fs.disk) && OnlyIn(fs, r, Ext(fs.disk, ROOT_DIR_SECTOR))
    requires !In(Ext(fs.disk, ROOT_DIR_SECTOR), 1)
    ensures RootOk(r.disk) && Dir(r.disk) == Slots(r.disk, Ext(fs.disk, ROOT_DIR_SECTOR))
  {
  }

  lemma SlotCount(s: seq<Entry>)
    requires DirOk(s)
    ensures |s| == 16
  {
  }


  lemma NamedDrop(s: seq<Entry>, i: nat)
    requires DirOk(s) && i < |s| && s[i].inUse
    ensures NamedSectors(s[i := s[i].(inUse := false)]) == NamedSectors(s) - {s[i].sector}
    ensures s[i].sector in NamedSectors(s) && s[i].sector > ROOT_DIR_SECTOR
  {
    var s' := s[i := s[i].(inUse := false)];
    forall n | n in NamedSectors(s) && n != s[i].sector ensures n in NamedSectors(s') {
      var j :| 0 <= j < |s| && s[j].inUse && s[j].sector == n;
      assert s'[j].inUse && s'[j].sector == n;
    }
  }

  lemma DirOkDrop(s: seq<Entry>, i: nat)
    requires DirOk(s) && i < |s|
    ensures DirOk(s[i := s[i].(inUse := false)])
  {
    hide CString;
  }

  lemma LinkRemove(s: seq<Entry>, mem: map<Ptr, Mem>, open: seq<Ptr>, i: nat, p: Ptr)
    requires DirOk(s) && LinkOk(s, mem) && OpenOk(mem, open) && i < |s| && s[i].inUse && p in mem
    requires mem[p].sector == s[i].sector
    ensures LinkOk(s[i := s[i].(inUse := false)], mem[p := mem[p].(removed := true)])
  {
    NamedDrop(s, i);
    hide NamedSectors, Distinct, DirOk;
  }

  lemma OwnersRemove(s: seq<Entry>, mem: map<Ptr, Mem>, i: nat, p: Ptr)
    requires DirOk(s) && i < |s| && s[i].inUse && p in mem && mem[p].sector == s[i].sector
    ensures Owners(s[i := s[i].(inUse := false)], mem[p := mem[p].(removed := true)]) == Owners(s, mem)
  {
    hide DirOk;
    NamedDrop(s, i);
    InOpenSectors(mem, p);
    OwnersUpdate(s, mem, p, mem[p].(removed := true));
    InOpenSectors(mem[p := mem[p].(removed := true)], p);
    hide NamedSectors, OpenSectors;
  }

  /** The entry is gone and the inode is marked as removed. */
  lemma ErasedInv(fs: Fs, r: Fs, i: nat, p: Ptr, temps: multiset<Ptr>)
    requires InvWith(fs, temps, {}) && OnlyIn(fs, r, Ext(fs.disk, ROOT_DIR_SECTOR))
    requires i < |Dir(fs.disk)| && Dir(fs.disk)[i].inUse && p in fs.mem && fs.mem[p].sector == Dir(fs.disk)[i].sector
    requires Slots(r.disk, Ext(fs.disk, ROOT_DIR_SECTOR)) == Dir(fs.disk)[i := Dir(fs.disk)[i].(inUse := false)]
    ensures InvWith(MarkRemoved(r, p), temps, {})
  {
    hide Layout, OpenOk, DataOk, DirOk, LinkOk, CountOk, DenyOk, Owners, NamedSectors, OpenSectors, Ext, Slots;
    var s, m := Dir(fs.disk), fs.mem[p].(removed := true);
    DirDataKeeps(fs, r, temps, {});
    DirOkDrop(s, i);
    LinkRemove(s, fs.mem, fs.open, i, p);
    OwnersRemove(s, fs.mem, i, p);
    OpenUpdate(fs.mem, fs.open, p, m);
    CountSame(fs.mem, fs.files, multiset{fs.freeInode} + temps, p, m);
    DenySame(fs.mem, fs.files, p, m);
    DataUpdate(fs.mem, r.disk, p, m);
  }

  lemma DataUpdate(mem: map<Ptr, Mem>, d: Disk, p: Ptr, m: Mem)
    requires DataOk(mem, d) && p in mem && m.sector == mem[p].sector && m.data == mem[p].data
    ensures DataOk(mem[p := m], d)
  {
  }

  /** dir_remove. */
  lemma DirRemoveInv(fs: Fs, d: Ptr, name: Name, u: Supply, temps: multiset<Ptr>)
    requires InvWith(fs, temps, {}) && d in fs.mem && fs.mem[d].sector == ROOT_DIR_SECTOR
    requires u.inode.Some? ==> u.inode.value !in fs.mem
    ensures var (r, done) := DirRemove(fs, d, name, u);
            && InvWith(r, temps, {}) && d in r.mem && r.mem[d].sector == ROOT_DIR_SECTOR
            && r.files == fs.files && r.freeInode == fs.freeInode && SameSectors(fs.mem, r.mem)
            && (forall q :: q in r.mem && q !in fs.mem ==> u.inode == Some(q))
            && var i := FindName(Dir(fs.disk), name, 0);
               && (!done ==> Dir(r.disk) == Dir(fs.disk))
               && (done ==> i.Some? && Dir(r.disk) == Dir(fs.disk)[i.value := Dir(fs.disk)[i.value].(inUse := false)])
  {
    hide InvWith, Dir, NamedSectors, EncodeEntry, InodeWrite, CString, Ext, FindName, DirOk, LinkOk, Slots, InodeOpen,
         InodeClose;
    RootData(fs, d, temps, {});
    InvParts(fs, temps, {});
    var s := Dir(fs.disk);
    var found := FindName(s, name, 0);
    if found.Some? {
      var i := found.value;
      NamedDrop(s, i);
      InodeOpenInv(fs, s[i].sector, u.inode, temps, {});
      var (a, p) := InodeOpen(fs, s[i].sector, u.inode);
      OpenedIs(fs, s[i].sector, u.inode);
      if p.Some? { EraseInv(a, d, i, p.value, u, temps); }
    }
  }

  lemma EraseInv(a: Fs, d: Ptr, i: nat, p: Ptr, u: Supply, temps: multiset<Ptr>)
    requires InvWith(a, temps + multiset{p}, {}) && d in a.mem && a.mem[d].sector == ROOT_DIR_SECTOR
    requires i < |Dir(a.disk)| && Dir(a.disk)[i].inUse && p in a.mem && a.mem[p].sector == Dir(a.disk)[i].sector
    ensures var s := Dir(a.disk);
            var (b, written) := InodeWrite(a, a.mem[d], EncodeEntry(s[i].(inUse := false)), 20 * i, u.slot);
            && b.mem == a.mem
            && var c := if written then MarkRemoved(b, p) else b;
               var r := InodeClose(c, p, u.save1, u.save2);
               && InvWith(r, temps, {}) && d in r.mem && r.mem[d].sector == ROOT_DIR_SECTOR
               && r.files == a.files && r.freeInode == a.freeInode
               && (forall q :: q in r.mem ==> q in a.mem && r.mem[q].sector == a.mem[q].sector)
               && Dir(r.disk) == if written then s[i := s[i].(inUse := false)] else s
  {
    hide InvWith, Dir, NamedSectors, EncodeEntry, InodeWrite, CString, Ext, DirOk, LinkOk, Slots, InodeClose;
    RootData(a, d, temps + multiset{p}, {});
    var s := Dir(a.disk);
    var x := s[i].(inUse := false);
    EntryWrite(a, a.mem[d], i, x, u.slot);
    var (b, written) := InodeWrite(a, a.mem[d], EncodeEntry(x), 20 * i, u.slot);
    NamedDrop(s, i);
    if written {
      ErasedInv(a, b, i, p, temps + multiset{p});
      DirIs(a, b);
      InodeCloseInv(MarkRemoved(b, p), p, u.save1, u.save2, temps, {});
    } else {
      InodeCloseInv(b, p, u.save1, u.save2, temps, {});
    }
  }
}
