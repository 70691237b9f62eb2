/** The invariant of the file system, and the proof that its building blocks keep it. */
module FileSysInv {
  import opened Orders
  import opened Storage
  import opened Codec
  import opened FileSys
  import BM = Bitmap

  // Where things lie on the disk.

  /** Sector `k` is a data sector of the file with extent `e`. */
  ghost predicate In(e: Extent, k: int) { e.start <= k < e.start + Sectors(e.length) }

  /** The extent that the inode in sector `o` describes. */
  ghost function Ext(d: Disk, o: nat): Extent
    requires o < |d| && DiskOk(d)
  {
    DecodeInode(d[o])
  }

  /** The inode in sector `o` and the data it describes exist, do not overlap and are marked. */
  ghost predicate OwnerOk(d: Disk, free: seq<bool>, o: nat)
    requires DiskOk(d) && |free| == |d|
  {
    && o < |d| && free[o]
    && Fits(d, Ext(d, o)) && !In(Ext(d, o), o)
    && (forall k :: In(Ext(d, o), k) ==> free[k])
  }

  /** Two inodes share no sector. */
  ghost predicate Apart(d: Disk, o: nat, q: nat)
    requires DiskOk(d) && o < |d| && q < |d|
  {
    && !In(Ext(d, o), q) && !In(Ext(d, q), o)
    && (forall k :: !(In(Ext(d, o), k) && In(Ext(d, q), k)))
  }

  /** The inodes in the sectors `owners` are in order and share nothing. */
  ghost predicate Layout(d: Disk, free: seq<bool>, owners: set<nat>) {
    && DiskOk(d) && |free| == |d| <= 0x1_0000_0000
    && (forall o :: o in owners ==> OwnerOk(d, free, o))
    && (forall o, q :: o in owners && q in owners && o != q ==> Apart(d, o, q))
  }

  // Memory.

  /** open_inodes lists every in-memory inode once, and there is at most one for each sector. */
  ghost predicate OpenOk(mem: map<Ptr, Mem>, open: seq<Ptr>) {
    && Distinct(open)
    && (forall p :: p in open <==> p in mem)
    && (forall p, q :: p in mem && q in mem && p != q ==> mem[p].sector != mem[q].sector)
  }

  /** An in-memory inode agrees with the one on disk. */
  ghost predicate DataOk(mem: map<Ptr, Mem>, d: Disk) {
    DiskOk(d) && forall p :: p in mem ==> mem[p].sector < |d| && mem[p].data == Ext(d, mem[p].sector)
  }

  ghost function NamedSectors(s: seq<Entry>): set<nat> {
    set i | 0 <= i < |s| && s[i].inUse :: s[i].sector
  }

  ghost function OpenSectors(mem: map<Ptr, Mem>): set<nat> {
    set p | p in mem :: mem[p].sector
  }

  /** The sectors of all inodes of files that are named or still open, and of the two system files. */
  ghost function Owners(s: seq<Entry>, mem: map<Ptr, Mem>): set<nat> {
    {FREE_MAP_SECTOR, ROOT_DIR_SECTOR} + NamedSectors(s) + OpenSectors(mem)
  }

  /** Entries in use differ in name and in inode; none is one of the system files. */
  ghost predicate DirOk(s: seq<Entry>) {
    && |s| == 16
    && (forall i :: 0 <= i < |s| && s[i].inUse ==> s[i].sector > ROOT_DIR_SECTOR)
    && (forall i, j :: 0 <= i < j < |s| && s[i].inUse && s[j].inUse ==>
          s[i].sector != s[j].sector && CString(s[i].field) != CString(s[j].field))
  }

  /** An open inode is marked as removed exactly if no entry names it any more. */
  ghost predicate LinkOk(s: seq<Entry>, mem: map<Ptr, Mem>) {
    forall p :: p in mem ==>
      (mem[p].removed <==> mem[p].sector > ROOT_DIR_SECTOR && mem[p].sector !in NamedSectors(s))
  }

  ghost function Handles(files: map<Ptr, File>, p: Ptr): set<Ptr> {
    set f | f in files && files[f].inode == p
  }

  ghost function Denied(files: map<Ptr, File>, p: Ptr): set<Ptr> {
    set f | f in files && files[f].inode == p && files[f].denied
  }

  /** Each inode's open count is the number of references to it: open files, and the references
      `temps` that operations hold for the moment. */
  ghost predicate CountOk(mem: map<Ptr, Mem>, files: map<Ptr, File>, temps: multiset<Ptr>) {
    && (forall p :: p in mem ==> mem[p].openCnt == |Handles(files, p)| + temps[p] && mem[p].openCnt > 0)
    && (forall f :: f in files ==> files[f].inode in mem && mem[files[f].inode].sector > ROOT_DIR_SECTOR)
    && (forall p :: p in temps ==> p in mem)
  }

  ghost predicate DenyOk(mem: map<Ptr, Mem>, files: map<Ptr, File>) {
    forall p :: p in mem ==> mem[p].denyCnt == |Denied(files, p)|
  }

  ghost predicate FreeFileOk(mem: map<Ptr, Mem>, p: Ptr) { p in mem && mem[p].sector == FREE_MAP_SECTOR }

  ghost predicate RootOk(d: Disk) { DiskOk(d) && |d| > 1 && Ext(d, ROOT_DIR_SECTOR).length == 320 }

  /** The root directory's entries. */
  ghost function Dir(d: Disk): seq<Entry>
    requires RootOk(d)
  {
    Slots(d, Ext(d, ROOT_DIR_SECTOR))
  }

  /** The invariant, while an operation holds the references `temps` and the sectors `more`. */
  ghost predicate InvWith(fs: Fs, temps: multiset<Ptr>, more: set<nat>) {
    && RootOk(fs.disk)
    && Layout(fs.disk, fs.free, Owners(Dir(fs.disk), fs.mem) + more)
    && OpenOk(fs.mem, fs.open)
    && DataOk(fs.mem, fs.disk)
    && DirOk(Dir(fs.disk))
    && LinkOk(Dir(fs.disk), fs.mem)
    && CountOk(fs.mem, fs.files, multiset{fs.freeInode} + temps)
    && DenyOk(fs.mem, fs.files)
    && FreeFileOk(fs.mem, fs.freeInode)
  }

  ghost predicate Inv(fs: Fs) { InvWith(fs, multiset{}, {}) }

  // Layout.

  lemma LayoutLess(d: Disk, free: seq<bool>, owners: set<nat>, fewer: set<nat>)
    requires Layout(d, free, owners) && fewer <= owners
    ensures Layout(d, free, fewer)
  {
    hide OwnerOk, Apart;
  }

  lemma LayoutMark(d: Disk, free: seq<bool>, owners: set<nat>, k: nat, cnt: nat)
    requires Layout(d, free, owners) && k + cnt <= |free|
    ensures Layout(d, BM.SetRange(free, k, cnt, true), owners)
  {
  }

  /** The inode in sector `o` uses none of the `cnt` sectors from `k` on. */
  ghost predicate Clear(d: Disk, o: nat, k: nat, cnt: nat)
    requires DiskOk(d) && o < |d|
  {
    !(k <= o < k + cnt) && forall j :: In(Ext(d, o), j) ==> !(k <= j < k + cnt)
  }

  lemma LayoutRelease(d: Disk, free: seq<bool>, owners: set<nat>, k: nat, cnt: nat)
    requires Layout(d, free, owners) && k + cnt <= |free|
    requires forall o :: o in owners && o < |d| ==> Clear(d, o, k, cnt)
    ensures Layout(d, BM.SetRange(free, k, cnt, false), owners)
  {
    hide Apart;
    var f := BM.SetRange(free, k, cnt, false);
    forall o | o in owners ensures OwnerOk(d, f, o) {
      assert OwnerOk(d, free, o);
      assert Clear(d, o, k, cnt);
    }
  }

  lemma LayoutNew(d: Disk, free: seq<bool>, owners: set<nat>, o: nat)
    requires Layout(d, free, owners) && OwnerOk(d, free, o)
    requires forall q :: q in owners && q != o ==> Apart(d, o, q)
    ensures Layout(d, free, owners + {o})
  {
    hide OwnerOk;
  }

  /** The disk may change wherever no inode of an owner lies. */
  lemma LayoutDisk(d: Disk, r: Disk, free: seq<bool>, owners: set<nat>)
    requires Layout(d, free, owners) && DiskOk(r) && |r| == |d|
    requires forall o :: o in owners && o < |d| ==> r[o] == d[o]
    ensures Layout(r, free, owners)
  {
    forall o | o in owners ensures OwnerOk(r, free, o) { assert OwnerOk(d, free, o); }
    forall o, q | o in owners && q in owners && o != q ensures Apart(r, o, q) { assert Apart(d, o, q); }
  }

  // Open inodes.

  lemma OpenUpdate(mem: map<Ptr, Mem>, open: seq<Ptr>, p: Ptr, m: Mem)
    requires OpenOk(mem, open) && p in mem && m.sector == mem[p].sector
    ensures OpenOk(mem[p := m], open)
  {
    hide Distinct;
  }

  lemma OpenPush(mem: map<Ptr, Mem>, open: seq<Ptr>, p: Ptr, m: Mem)
    requires OpenOk(mem, open) && p !in mem
    requires forall q :: q in mem ==> mem[q].sector != m.sector
    ensures OpenOk(mem[p := m], [p] + open)
  {
    ConsDistinct(p, open);
    hide Distinct;
  }

  lemma OpenDrop(mem: map<Ptr, Mem>, open: seq<Ptr>, p: Ptr)
    requires OpenOk(mem, open) && p in mem
    ensures OpenOk(mem - {p}, Removed(open, p))
  {
    hide Distinct, Removed;
    RemovedDistinct(open, p);
  }

  // References.

  lemma HandlesAdd(files: map<Ptr, File>, f: Ptr, g: File, p: Ptr)
    requires f !in files
    ensures Handles(files[f := g], p) == Handles(files, p) + (if g.inode == p then {f} else {})
    ensures Denied(files[f := g], p) == Denied(files, p) + (if g.inode == p && g.denied then {f} else {})
  {
  }

  lemma HandlesDrop(files: map<Ptr, File>, f: Ptr, p: Ptr)
    requires f in files
    ensures Handles(files - {f}, p) == Handles(files, p) - (if files[f].inode == p then {f} else {})
    ensures Denied(files - {f}, p) == Denied(files, p) - (if files[f].inode == p && files[f].denied then {f} else {})
  {
  }

  /** A reference becomes an open file. */
  lemma CountToFile(mem: map<Ptr, Mem>, files: map<Ptr, File>, temps: multiset<Ptr>, f: Ptr, p: Ptr)
    requires CountOk(mem, files, temps + multiset{p}) && f !in files && p in mem && mem[p].sector > ROOT_DIR_SECTOR
    ensures CountOk(mem, files[f := File(p, false)], temps)
  {
    hide Handles;
    forall q | q in mem ensures mem[q].openCnt == |Handles(files[f := File(p, false)], q)| + temps[q] {
      HandlesAdd(files, f, File(p, false), q);
      InHandles(files, f, q);
    }
  }

  lemma InHandles(files: map<Ptr, File>, f: Ptr, q: Ptr)
    ensures f in Handles(files, q) <==> f in files && files[f].inode == q
  {
  }

  /** An open file becomes a reference. */
  lemma CountFromFile(mem: map<Ptr, Mem>, files: map<Ptr, File>, temps: multiset<Ptr>, f: Ptr)
    requires CountOk(mem, files, temps) && f in files
    ensures CountOk(mem, files - {f}, temps + multiset{files[f].inode})
  {
    hide Handles;
    var p := files[f].inode;
    forall q | q in mem ensures mem[q].openCnt == |Handles(files - {f}, q)| + (temps + multiset{p})[q] {
      HandlesDrop(files, f, q);
      InHandles(files, f, q);
    }
  }

  lemma CountInc(mem: map<Ptr, Mem>, files: map<Ptr, File>, temps: multiset<Ptr>, p: Ptr)
    requires CountOk(mem, files, temps) && p in mem
    ensures CountOk(mem[p := mem[p].(openCnt := mem[p].openCnt + 1)], files, temps + multiset{p})
  {
    hide Handles;
  }

  lemma CountDec(mem: map<Ptr, Mem>, files: map<Ptr, File>, temps: multiset<Ptr>, p: Ptr)
    requires CountOk(mem, files, temps + multiset{p}) && p in mem && mem[p].openCnt != 1
    ensures CountOk(mem[p := mem[p].(openCnt := mem[p].openCnt - 1)], files, temps)
  {
    hide Handles;
  }

  lemma CountNew(mem: map<Ptr, Mem>, files: map<Ptr, File>, temps: multiset<Ptr>, p: Ptr, m: Mem)
    requires CountOk(mem, files, temps) && p !in mem && m.openCnt == 1
    ensures CountOk(mem[p := m], files, temps + multiset{p})
  {
    assert Handles(files, p) == {};
    hide Handles;
  }

  lemma CountDrop(mem: map<Ptr, Mem>, files: map<Ptr, File>, temps: multiset<Ptr>, p: Ptr)
    requires CountOk(mem, files, temps + multiset{p}) && p in mem && mem[p].openCnt == 1
    ensures CountOk(mem - {p}, files, temps) && Handles(files, p) == {} && p !in temps
  {
    assert |Handles(files, p)| == 0;
    assert Handles(files, p) == {};
    forall f | f in files ensures files[f].inode in mem - {p} {
      InHandles(files, f, p);
    }
  }

  /** Counts do not depend on the other fields. */
  lemma CountSame(mem: map<Ptr, Mem>, files: map<Ptr, File>, temps: multiset<Ptr>, p: Ptr, m: Mem)
    requires CountOk(mem, files, temps) && p in mem && m.openCnt == mem[p].openCnt && m.sector == mem[p].sector
    ensures CountOk(mem[p := m], files, temps)
  {
    hide Handles;
  }

  lemma DenySame(mem: map<Ptr, Mem>, files: map<Ptr, File>, p: Ptr, m: Mem)
    requires DenyOk(mem, files) && p in mem && m.denyCnt == mem[p].denyCnt
    ensures DenyOk(mem[p := m], files)
  {
    hide Denied;
  }

  lemma DenyNew(mem: map<Ptr, Mem>, files: map<Ptr, File>, temps: multiset<Ptr>, p: Ptr, m: Mem)
    requires DenyOk(mem, files) && CountOk(mem, files, temps) && p !in mem && m.denyCnt == 0
    ensures DenyOk(mem[p := m], files)
  {
    assert Denied(files, p) == {};
    hide Denied, Handles;
  }

  lemma DenyFile(mem: map<Ptr, Mem>, files: map<Ptr, File>, f: Ptr, p: Ptr)
    requires DenyOk(mem, files) && f !in files
    ensures DenyOk(mem, files[f := File(p, false)])
  {
    hide Denied;
    forall q | q in mem ensures mem[q].denyCnt == |Denied(files[f := File(p, false)], q)| {
      HandlesAdd(files, f, File(p, false), q);
    }
  }

  lemma DenyDropFile(mem: map<Ptr, Mem>, files: map<Ptr, File>, f: Ptr)
    requires DenyOk(mem, files) && f in files && !files[f].denied
    ensures DenyOk(mem, files - {f})
  {
    hide Denied;
    forall q | q in mem ensures mem[q].denyCnt == |Denied(files - {f}, q)| {
      HandlesDrop(files, f, q);
    }
  }

  /** Setting or clearing one file's flag, with the inode's count. */
  lemma DenyFlag(mem: map<Ptr, Mem>, files: map<Ptr, File>, temps: multiset<Ptr>, f: Ptr, flag: bool)
    requires DenyOk(mem, files) && CountOk(mem, files, temps) && f in files && files[f].denied != flag
    ensures var p := files[f].inode;
            && p in mem
            && var m := mem[p].(denyCnt := mem[p].denyCnt + if flag then 1 else -1);
               && DenyOk(mem[p := m], files[f := File(p, flag)])
               && CountOk(mem[p := m], files[f := File(p, flag)], temps)
  {
    var p := files[f].inode;
    var m, files' := mem[p].(denyCnt := mem[p].denyCnt + if flag then 1 else -1), files[f := File(p, flag)];
    forall q | q in mem
      ensures Handles(files', q) == Handles(files, q)
      ensures mem[p := m][q].denyCnt == |Denied(files', q)|
    {
      FlagSets(files, f, flag, q);
    }
    hide Denied, Handles;
  }

  lemma FlagSets(files: map<Ptr, File>, f: Ptr, flag: bool, q: Ptr)
    requires f in files && files[f].denied != flag
    ensures var files' := files[f := File(files[f].inode, flag)];
            && Handles(files', q) == Handles(files, q)
            && |Denied(files', q)| == |Denied(files, q)| + (if files[f].inode != q then 0 else if flag then 1 else -1)
  {
    var files' := files[f := File(files[f].inode, flag)];
    assert Handles(files', q) == Handles(files, q);
    if files[f].inode != q {
      assert Denied(files', q) == Denied(files, q);
    } else if flag {
      assert Denied(files', q) == Denied(files, q) + {f};
    } else {
      assert Denied(files', q) + {f} == Denied(files, q);
    }
  }

  // Names and owners.

  lemma LinkUpdate(s: seq<Entry>, mem: map<Ptr, Mem>, p: Ptr, m: Mem)
    requires LinkOk(s, mem)
    requires m.removed <==> m.sector > ROOT_DIR_SECTOR && m.sector !in NamedSectors(s)
    ensures LinkOk(s, mem[p := m])
  {
    hide NamedSectors;
  }

  lemma LinkDrop(s: seq<Entry>, mem: map<Ptr, Mem>, p: Ptr)
    requires LinkOk(s, mem)
    ensures LinkOk(s, mem - {p})
  {
    hide NamedSectors;
  }

  lemma OwnersUpdate(s: seq<Entry>, mem: map<Ptr, Mem>, p: Ptr, m: Mem)
    requires p in mem ==> m.sector == mem[p].sector
    requires m.sector in Owners(s, mem)
    ensures Owners(s, mem[p := m]) == Owners(s, mem)
  {
    hide NamedSectors;
    var a, b := OpenSectors(mem), OpenSectors(mem[p := m]);
    assert b == a + {m.sector} by {
      forall x | x in a ensures x in b {
        var q :| q in mem && mem[q].sector == x;
        assert q in mem[p := m] && mem[p := m][q].sector == x;
      }
      assert p in mem[p := m] && mem[p := m][p].sector == m.sector;
    }
  }

  lemma OwnersDrop(s: seq<Entry>, mem: map<Ptr, Mem>, p: Ptr)
    requires p in mem
    ensures Owners(s, mem - {p}) <= Owners(s, mem)
    ensures mem[p].sector in {FREE_MAP_SECTOR, ROOT_DIR_SECTOR} + NamedSectors(s) ==>
              Owners(s, mem - {p}) == Owners(s, mem)
  {
    hide NamedSectors;
    forall x | x in OpenSectors(mem) && x != mem[p].sector ensures x in OpenSectors(mem - {p}) {
      var q :| q in mem && mem[q].sector == x;
      assert q in mem - {p};
    }
  }

  /** The sector of a removed inode has no other owner. */
  lemma OwnersRemoved(s: seq<Entry>, mem: map<Ptr, Mem>, open: seq<Ptr>, p: Ptr)
    requires p in mem && mem[p].removed && LinkOk(s, mem) && OpenOk(mem, open)
    ensures mem[p].sector !in Owners(s, mem - {p})
  {
    hide NamedSectors, Distinct;
  }

  // Changes to the disk.

  /** Only the disk changes, and only in the data sectors of `e`. */
  ghost predicate OnlyIn(fs: Fs, r: Fs, e: Extent) {
    && r == fs.(disk := r.disk) && |r.disk| == |fs.disk| && DiskOk(r.disk)
    && forall k :: 0 <= k < |fs.disk| && !In(e, k) ==> r.disk[k] == fs.disk[k]
  }

  lemma InodeWriteOnly(fs: Fs, m: Mem, data: seq<Byte>, offset: nat, ok: bool)
    requires DiskOk(fs.disk)
    ensures OnlyIn(fs, InodeWrite(fs, m, data, offset, ok).0, m.data)
  {
    hide PatchedDisk, Sectors, DiskOk;
    var n := if m.denyCnt > 0 then 0 else Transferred(m.data.length, |data|, offset, ok);
    ReachWithin(m.data.length, |data|, offset, ok);
    PatchedOk(fs.disk, m.data.start, offset, data[..n]);
    forall k | 0 <= k < |fs.disk| && !In(m.data, k)
      ensures PatchedDisk(fs.disk, m.data.start, offset, data[..n])[k] == fs.disk[k]
    {
      PatchedElsewhere(fs.disk, m.data, offset, data[..n], k);
    }
  }

  /** The directory is what its data sectors say. */
  lemma DirSame(d: Disk, r: Disk)
    requires RootOk(d) && DiskOk(r) && |r| == |d| && r[1] == d[1]
    requires forall k :: 0 <= k < |d| && In(Ext(d, ROOT_DIR_SECTOR), k) ==> r[k] == d[k]
    ensures RootOk(r) && Dir(r) == Dir(d)
  {
    hide DecodeInode, DecodeEntry;
    var e := Ext(d, ROOT_DIR_SECTOR);
    if Fits(d, e) { ContentSame(d, r, e); }
  }

  lemma ContentSame(d: Disk, r: Disk, e: Extent)
    requires DiskOk(d) && DiskOk(r) && |r| == |d| && Fits(d, e)
    requires forall k :: 0 <= k < |d| && In(e, k) ==> r[k] == d[k]
    ensures Content(r, e) == Content(d, e)
  {
    forall pos | 0 <= pos < e.length ensures Content(r, e)[pos] == Content(d, e)[pos] {
      assert In(e, e.start + pos / 512);
    }
  }

  /** Nothing the invariant speaks of changes if inodes and directory keep their sectors. */
  ghost predicate Keeps(d: Disk, r: Disk, owners: set<nat>)
    requires DiskOk(d) && |d| > 1
  {
    && DiskOk(r) && |r| == |d|
    && (forall o :: o in owners && o < |d| ==> r[o] == d[o])
    && (forall k :: 0 <= k < |d| && In(Ext(d, ROOT_DIR_SECTOR), k) ==> r[k] == d[k])
  }

  lemma DataSame(mem: map<Ptr, Mem>, d: Disk, r: Disk)
    requires DataOk(mem, d) && DiskOk(r) && |r| == |d|
    requires forall o :: o in OpenSectors(mem) && o < |d| ==> r[o] == d[o]
    ensures DataOk(mem, r)
  {
  }

  lemma DiskInv(fs: Fs, r: Disk, temps: multiset<Ptr>, more: set<nat>)
    requires InvWith(fs, temps, more) && Keeps(fs.disk, r, Owners(Dir(fs.disk), fs.mem) + more)
    ensures InvWith(fs.(disk := r), temps, more) && Dir(r) == Dir(fs.disk)
  {
    hide Layout, OpenOk, DataOk, DirOk, LinkOk, CountOk, DenyOk, Dir, NamedSectors, Ext;
    var owners := Owners(Dir(fs.disk), fs.mem) + more;
    assert 1 in owners && OpenSectors(fs.mem) <= owners;
    hide Owners, OpenSectors;
    RootFacts(fs.disk);
    DirSame(fs.disk, r);
    LayoutDisk(fs.disk, r, fs.free, owners);
    DataSame(fs.mem, fs.disk, r);
  }

  lemma RootFacts(d: Disk)
    requires RootOk(d)
    ensures DiskOk(d) && |d| > 1
  {
  }

  /** The data of one owner may change, if that owner is not the directory. */
  lemma OwnDataInv(fs: Fs, r: Fs, o: nat, temps: multiset<Ptr>, more: set<nat>)
    requires InvWith(fs, temps, more)
    requires o in Owners(Dir(fs.disk), fs.mem) + more && o != ROOT_DIR_SECTOR && o < |fs.disk|
    requires OnlyIn(fs, r, Ext(fs.disk, o))
    ensures InvWith(r, temps, more) && Dir(r.disk) == Dir(fs.disk)
  {
    hide Dir, NamedSectors, OpenSectors, Ext, OpenOk, DataOk, DirOk, LinkOk, CountOk, DenyOk;
    RootFacts(fs.disk);
    var owners := Owners(Dir(fs.disk), fs.mem) + more;
    assert 1 in owners;
    hide Owners;
    forall q | q in owners && q < |fs.disk| ensures r.disk[q] == fs.disk[q] {
      assert OwnerOk(fs.disk, fs.free, o);
      assert q != o ==> Apart(fs.disk, o, q);
    }
    assert Apart(fs.disk, o, 1);
    hide Layout, OwnerOk, Apart;
    DiskInv(fs, r.disk, temps, more);
  }
}
