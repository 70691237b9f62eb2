/** A file that denies writes protects its contents for as long as it is open and denying
    (file_deny_write, filesys/file.c and filesys/inode.c). */
module FileSysDeny {
  import opened Wrappers
  import opened Orders
  import opened Storage
  import opened Codec
  import opened FileSys
  import opened FileSysInv
  import opened FileSysSteps
  import opened FileSysRuns
  import opened FileSysTheorems
  import BM = Bitmap

  // In-memory inodes.

  /** The inodes in `r` are those of `m` and new ones at `ptrs`, and none changes its sector. */
  ghost predicate SectorsStay(m: map<Ptr, Mem>, r: map<Ptr, Mem>, ptrs: set<Ptr>) {
    forall p :: p in r && p !in ptrs ==> p in m && r[p].sector == m[p].sector
  }

  lemma SectorsThen(m: map<Ptr, Mem>, n: map<Ptr, Mem>, r: map<Ptr, Mem>, ptrs: set<Ptr>, more: set<Ptr>)
    requires SectorsStay(m, n, ptrs) && SectorsStay(n, r, more)
    ensures SectorsStay(m, r, ptrs + more)
  {
  }

  function PtrSet(p: Option<Ptr>): set<Ptr> { if p.Some? then {p.value} else {} }

  lemma InodeOpenStays(fs: Fs, sector: nat, alloc: Option<Ptr>)
    ensures var r := InodeOpen(fs, sector, alloc).0;
            r.files == fs.files && SectorsStay(fs.mem, r.mem, PtrSet(alloc))
  {
    hide DecodeInode, FindOpen;
  }

  lemma InodeCloseStays(fs: Fs, p: Ptr, save1: bool, save2: bool)
    requires p in fs.mem
    ensures var r := InodeClose(fs, p, save1, save2); r.files == fs.files && SectorsStay(fs.mem, r.mem, {})
  {
    hide InodeWrite, Removed, Sectors;
    MapOnly(Dropped(fs, p), fs.mem[p].sector, 1, save1);
    MapOnly(Release(Dropped(fs, p), fs.mem[p].sector, 1, save1), fs.mem[p].data.start,
            Sectors(fs.mem[p].data.length), save2);
  }

  lemma WriteDiskOnly(fs: Fs, m: Mem, data: seq<Byte>, offset: nat, ok: bool)
    ensures var r := InodeWrite(fs, m, data, offset, ok).0; r.files == fs.files && r.mem == fs.mem
  {
    hide PatchedDisk, Transferred;
  }

  /** The free map is changed and saved. */
  lemma MapOnly(fs: Fs, k: nat, cnt: nat, ok: bool)
    ensures var r := Release(fs, k, cnt, ok); r.files == fs.files && r.mem == fs.mem
  {
    hide InodeWrite, PackedMap, BM.SetRange;
    var m := Marked(fs, k, cnt, false);
    if m.freeInode in m.mem { WriteDiskOnly(m, m.mem[m.freeInode], PackedMap(m.free), 0, ok); }
  }

  lemma AllocateOnly(fs: Fs, cnt: nat, ok: bool)
    ensures var r := Allocate(fs, cnt, ok).0; r.files == fs.files && r.mem == fs.mem
  {
    hide InodeWrite, PackedMap, BM.SetRange;
    var g := BM.Scanned(fs.free, 0, cnt, false);
    if g.Some? {
      var m := Marked(fs, g.value, cnt, true);
      if m.freeInode in m.mem { WriteDiskOnly(m, m.mem[m.freeInode], PackedMap(m.free), 0, ok); }
    }
  }

  lemma OpenRootStays(fs: Fs, u: Supply)
    ensures var r := OpenRoot(fs, u).0; r.files == fs.files && SectorsStay(fs.mem, r.mem, PtrSet(u.root))
  {
    hide InodeOpen, InodeClose, SectorsStay, PtrSet;
    var (a, p) := InodeOpen(fs, ROOT_DIR_SECTOR, u.root);
    InodeOpenStays(fs, ROOT_DIR_SECTOR, u.root);
    if p.Some? && p.value in a.mem && !u.dir {
      InodeCloseStays(a, p.value, true, true);
      SectorsThen(fs.mem, a.mem, InodeClose(a, p.value, true, true).mem, PtrSet(u.root), {});
      assert PtrSet(u.root) + {} == PtrSet(u.root);
    }
  }

  lemma ClosedStays(fs: Fs, d: Ptr)
    ensures var r := Closed(fs, d); r.files == fs.files && SectorsStay(fs.mem, r.mem, {})
  {
    hide InodeClose;
    if d in fs.mem { InodeCloseStays(fs, d, true, true); }
  }

  lemma MakeFileOnly(fs: Fs, d: Ptr, name: Name, sector: nat, size: nat, u: Supply)
    ensures var r := MakeFile(fs, d, name, sector, size, u).0; r.files == fs.files && r.mem == fs.mem
  {
    hide Allocate, InodeWrite, EncodeEntry, EncodeInode, Zeroed, FindName, FindFree, Slots, Sectors;
    AllocateOnly(fs, Sectors(size), u.save2);
    var (a, made) := InodeCreate(fs, sector, size, u.block, u.save2);
    assert a.files == fs.files && a.mem == fs.mem;
    if made && d in a.mem {
      var s := Slots(a.disk, a.mem[d].data);
      if name != [] && |name| <= NAME_MAX && FindName(s, name, 0).None? {
        var i := FindFree(s, 0);
        var was := if i < |s| then s[i] else Entry(0, seq(NAME_MAX + 1, _ => 0), false);
        WriteDiskOnly(a, a.mem[d], EncodeEntry(NewEntry(was, name, sector)), 20 * i, u.slot);
      }
    }
  }

  lemma CreateStays(fs: Fs, name: Name, size: nat, u: Supply)
    ensures var r := Create(fs, name, size, u).0; r.files == fs.files && SectorsStay(fs.mem, r.mem, PtrSet(u.root))
  {
    hide OpenRoot, Allocate, MakeFile, Release, Closed, SectorsStay, PtrSet;
    OpenRootStays(fs, u);
    var (a, d) := OpenRoot(fs, u);
    if d.Some? && d.value in a.mem {
      var (b, sector) := Allocate(a, 1, u.save1);
      AllocateOnly(a, 1, u.save1);
      var e := b;
      if sector.Some? {
        var (c, added) := MakeFile(b, d.value, name, sector.value, size, u);
        MakeFileOnly(b, d.value, name, sector.value, size, u);
        MapOnly(c, sector.value, 1, u.save3);
        e := if !added && sector.value != 0 then Release(c, sector.value, 1, u.save3) else c;
      }
      ClosedStays(e, d.value);
      SectorsThen(fs.mem, a.mem, Closed(e, d.value).mem, PtrSet(u.root), {});
      assert PtrSet(u.root) + {} == PtrSet(u.root);
    }
  }

  lemma DirRemoveStays(fs: Fs, d: Ptr, name: Name, u: Supply)
    requires d in fs.mem
    ensures var r := DirRemove(fs, d, name, u).0; r.files == fs.files && SectorsStay(fs.mem, r.mem, PtrSet(u.inode))
  {
    hide InodeOpen, InodeWrite, InodeClose, EncodeEntry, FindName, Slots, PtrSet;
    var s := Slots(fs.disk, fs.mem[d].data);
    var found := FindName(s, name, 0);
    if found.Some? {
      var i := found.value;
      var (a, p) := InodeOpen(fs, s[i].sector, u.inode);
      InodeOpenStays(fs, s[i].sector, u.inode);
      if p.Some? && p.value in a.mem && d in a.mem {
        WriteDiskOnly(a, a.mem[d], EncodeEntry(s[i].(inUse := false)), 20 * i, u.slot);
        var (b, written) := InodeWrite(a, a.mem[d], EncodeEntry(s[i].(inUse := false)), 20 * i, u.slot);
        var c := if written then MarkRemoved(b, p.value) else b;
        assert SectorsStay(fs.mem, c.mem, PtrSet(u.inode));
        InodeCloseStays(c, p.value, u.save1, u.save2);
        SectorsThen(fs.mem, c.mem, InodeClose(c, p.value, u.save1, u.save2).mem, PtrSet(u.inode), {});
        assert PtrSet(u.inode) + {} == PtrSet(u.inode);
      }
    }
  }

  lemma RemoveStays(fs: Fs, name: Name, u: Supply)
    ensures var r := Remove(fs, name, u).0;
            r.files == fs.files && SectorsStay(fs.mem, r.mem, PtrSet(u.root) + PtrSet(u.inode))
  {
    hide OpenRoot, DirRemove, Closed, SectorsStay, PtrSet;
    OpenRootStays(fs, u);
    var (a, d) := OpenRoot(fs, u);
    var none: set<Ptr> := {};
    assert SectorsStay(a.mem, a.mem, PtrSet(u.inode)) by { SameMem(a.mem, PtrSet(u.inode)); }
    var b := a;
    if d.Some? && d.value in a.mem {
      DirRemoveStays(a, d.value, name, u);
      ClosedStays(DirRemove(a, d.value, name, u).0, d.value);
      b := Closed(DirRemove(a, d.value, name, u).0, d.value);
      SectorsThen(a.mem, DirRemove(a, d.value, name, u).0.mem, b.mem, PtrSet(u.inode), none);
      assert PtrSet(u.inode) + none == PtrSet(u.inode);
    }
    SectorsThen(fs.mem, a.mem, b.mem, PtrSet(u.root), PtrSet(u.inode));
  }

  lemma SameMem(m: map<Ptr, Mem>, ptrs: set<Ptr>)
    ensures SectorsStay(m, m, ptrs)
  {
  }

  /** The open files stay, but for a new one. */
  ghost predicate FilesStay(files: map<Ptr, File>, r: map<Ptr, File>, ptrs: set<Ptr>) {
    forall f :: f in files && f !in ptrs ==> f in r && r[f] == files[f]
  }

  lemma FileOpenStays(fs: Fs, p: Ptr, u: Supply)
    requires p in fs.mem
    ensures var r := FileOpen(fs, p, u).0;
            FilesStay(fs.files, r.files, PtrSet(u.file)) && SectorsStay(fs.mem, r.mem, {})
  {
    hide InodeClose;
    InodeCloseStays(fs, p, u.save1, u.save2);
  }

  lemma OpenStays(fs: Fs, name: Name, u: Supply)
    ensures var r := Open(fs, name, u).0;
            && FilesStay(fs.files, r.files, PtrSet(u.file))
            && SectorsStay(fs.mem, r.mem, PtrSet(u.root) + PtrSet(u.inode))
  {
    hide OpenRoot, InodeOpen, FindName, Slots, Closed, FileOpen, SectorsStay, PtrSet;
    OpenRootStays(fs, u);
    var (a, d) := OpenRoot(fs, u);
    var none: set<Ptr> := {};
    SameMem(a.mem, PtrSet(u.inode));
    var r := a;
    if d.Some? && d.value in a.mem {
      var (b, p) := DirLookup(a, d.value, name, u);
      var s := Slots(a.disk, a.mem[d.value].data);
      var found := FindName(s, name, 0);
      if found.Some? { InodeOpenStays(a, s[found.value].sector, u.inode); }
      var c := Closed(b, d.value);
      ClosedStays(b, d.value);
      SectorsThen(a.mem, b.mem, c.mem, PtrSet(u.inode), none);
      assert PtrSet(u.inode) + none == PtrSet(u.inode);
      r := c;
      if p.Some? && p.value in c.mem {
        FileOpenStays(c, p.value, u);
        r := FileOpen(c, p.value, u).0;
        SectorsThen(a.mem, c.mem, r.mem, PtrSet(u.inode), none);
      }
    }
    SectorsThen(fs.mem, a.mem, r.mem, PtrSet(u.root), PtrSet(u.inode));
  }

  lemma ReopenStays(fs: Fs, f: Ptr, u: Supply)
    requires f in fs.files && fs.files[f].inode in fs.mem
    ensures var r := FileReopen(fs, f, u).0;
            FilesStay(fs.files, r.files, PtrSet(u.file)) && SectorsStay(fs.mem, r.mem, {})
  {
    hide FileOpen, PtrSet;
    FileOpenStays(Reopened(fs, fs.files[f].inode), fs.files[f].inode, u);
  }

  // Denying.

  /** `f` is open on the file with its inode in sector `o`, and denies writes to it. */
  ghost predicate Denies(fs: Fs, f: Ptr, o: nat) { OpenOn(fs, f, o) && fs.files[f].denied }

  /** file_deny_write and file_allow_write set the mark of one file, and change nothing else but the
      number of files that deny. */
  lemma FlagExact(fs: Fs, f: Ptr)
    requires Inv(fs) && f in fs.files && fs.files[f].inode in fs.mem
    ensures var p := fs.files[f].inode;
            var (d, a) := (DenyWrite(fs, f), AllowWrite(fs, f));
            && p in d.mem && d == fs.(files := fs.files[f := File(p, true)],
                                      mem := fs.mem[p := fs.mem[p].(denyCnt := d.mem[p].denyCnt)])
            && p in a.mem && a == fs.(files := fs.files[f := File(p, false)],
                                      mem := fs.mem[p := fs.mem[p].(denyCnt := a.mem[p].denyCnt)])
  {
    hide Inv;
    assert fs.files[f := fs.files[f]] == fs.files;
    assert fs.mem[fs.files[f].inode := fs.mem[fs.files[f].inode]] == fs.mem;
  }

  /** Writes to an inode are refused exactly if some open file denies them. */
  lemma DeniedExact(fs: Fs, p: Ptr)
    requires Inv(fs) && p in fs.mem
    ensures fs.mem[p].denyCnt > 0 <==> exists f :: f in fs.files && fs.files[f].inode == p && fs.files[f].denied
  {
    hide OpenOk, DataOk, DirOk, LinkOk, CountOk, Layout, AllOwners;
    if f :| f in fs.files && fs.files[f].inode == p && fs.files[f].denied {
      assert f in Denied(fs.files, p);
    } else {
      assert Denied(fs.files, p) == {};
    }
  }

  /** The operation ends the denial. */
  predicate Ends(op: Op, f: Ptr) { (op.AllowOp? || op.CloseOp?) && op.file == f }

  /** No other operation ends it. */
  lemma NextDenies(fs: Fs, op: Op, f: Ptr, o: nat)
    requires Inv(fs) && Enabled(fs, op) && Denies(fs, f, o) && !Ends(op, f)
    ensures Denies(Next(fs, op), f, o)
  {
    hide InvWith, Create, Open, Remove, FileReopen, InodeWrite, InodeClose;
    NextInv(fs, op);
    var p, r := fs.files[f].inode, Next(fs, op);
    FileIn(r, f);
    match op
    case CreateOp(name, size, u) => CreateStays(fs, name, size, u);
    case OpenOp(name, u) => OpenStays(fs, name, u);
    case RemoveOp(name, u) => RemoveStays(fs, name, u);
    case ReopenOp(g, u) => ReopenStays(fs, g, u);
    case CloseOp(g, u) => CloseStays(fs, g, u);
    case DenyOp(g) =>
    case AllowOp(g) =>
    case WriteOp(g, data, offset, bounce) =>
      WriteDiskOnly(fs, fs.mem[fs.files[g].inode], data, offset, bounce);
  }

  lemma CloseStays(fs: Fs, g: Ptr, u: Supply)
    requires g in fs.files && fs.files[g].inode in fs.mem
    ensures var r := FileClose(fs, g, u);
            FilesStay(fs.files, r.files, {g}) && SectorsStay(fs.mem, r.mem, {})
  {
    hide InodeClose;
    var a := AllowWrite(fs, g);
    var b := a.(files := a.files - {g});
    InodeCloseStays(b, fs.files[g].inode, u.save1, u.save2);
  }

  lemma FileIn(fs: Fs, f: Ptr)
    requires Inv(fs)
    ensures f in fs.files ==> fs.files[f].inode in fs.mem
  {
    hide OpenOk, DataOk, DirOk, LinkOk, DenyOk, Layout, AllOwners;
  }

  /** Nor does any operation change the contents. */
  lemma NextProtected(fs: Fs, op: Op, f: Ptr, o: nat)
    requires Inv(fs) && Enabled(fs, op) && Denies(fs, f, o)
    ensures var r := Next(fs, op);
            && DiskOk(fs.disk) && DiskOk(r.disk) && o < |fs.disk| == |r.disk| && Ext(r.disk, o) == Ext(fs.disk, o)
            && Fits(fs.disk, Ext(fs.disk, o)) && Content(r.disk, Ext(fs.disk, o)) == Content(fs.disk, Ext(fs.disk, o))
  {
    hide InvWith, Next, Enabled, Dir, DecodeInode, Content, NamedSectors;
    DeniedOwner(fs, f, o);
    if op.WriteOp? && OpenOn(fs, op.file, o) {
      WriteRefused(fs, op, f, o);
    } else {
      ContentKept(fs, op, o);
    }
  }

  lemma DeniedOwner(fs: Fs, f: Ptr, o: nat)
    requires Inv(fs) && OpenOn(fs, f, o)
    ensures o in AllOwners(fs) && o > ROOT_DIR_SECTOR
  {
    hide OpenOk, DataOk, DirOk, LinkOk, DenyOk, Layout, Dir, NamedSectors;
    InOpenSectors(fs.mem, fs.files[f].inode);
  }

  lemma WriteRefused(fs: Fs, op: Op, f: Ptr, o: nat)
    requires Inv(fs) && Enabled(fs, op) && Denies(fs, f, o) && op.WriteOp? && OpenOn(fs, op.file, o)
    ensures var r := Next(fs, op);
            && DiskOk(fs.disk) && DiskOk(r.disk) && o < |fs.disk| == |r.disk| && Ext(r.disk, o) == Ext(fs.disk, o)
            && Fits(fs.disk, Ext(fs.disk, o)) && Content(r.disk, Ext(fs.disk, o)) == Content(fs.disk, Ext(fs.disk, o))
  {
    hide InvWith, Dir, DecodeInode, Content, NamedSectors, AllOwners, PatchedDisk, InodeWrite;
    var p := fs.files[f].inode;
    SameInode(fs, op.file, f, o);
    DeniedExact(fs, p);
    DeniedOwner(fs, f, o);
    InodeStays(fs, op, o);
    WriteContent(fs, op.file, op.data, op.offset, op.bounce);
  }

  lemma SameInode(fs: Fs, g: Ptr, f: Ptr, o: nat)
    requires Inv(fs) && OpenOn(fs, f, o) && OpenOn(fs, g, o)
    ensures fs.files[g].inode == fs.files[f].inode && o < |fs.disk| && DiskOk(fs.disk)
    ensures fs.mem[fs.files[f].inode].data == Ext(fs.disk, o)
  {
    hide DirOk, LinkOk, DenyOk, Layout, Dir, NamedSectors;
  }

  /** Over any run, from when a file denies writes until it allows them or is closed, the file it is
      open on keeps every byte. */
  lemma {:induction false} DenyProtects(fs: Fs, ops: seq<Op>, f: Ptr, o: nat)
    requires Inv(fs) && Legal(fs, ops) && Denies(fs, f, o) && forall i :: 0 <= i < |ops| ==> !Ends(ops[i], f)
    ensures var r := After(fs, ops);
            && Denies(r, f, o)
            && DiskOk(fs.disk) && DiskOk(r.disk) && o < |fs.disk| == |r.disk| && Ext(r.disk, o) == Ext(fs.disk, o)
            && Fits(fs.disk, Ext(fs.disk, o)) && Content(r.disk, Ext(fs.disk, o)) == Content(fs.disk, Ext(fs.disk, o))
    decreases |ops|
  {
    hide InvWith, Next, Enabled, Denies, DecodeInode, Content, Ends;
    if ops == [] {
      DeniedFits(fs, f, o);
    } else {
      NextInv(fs, ops[0]);
      NextProtected(fs, ops[0], f, o);
      NextDenies(fs, ops[0], f, o);
      DenyProtects(Next(fs, ops[0]), ops[1..], f, o);
    }
  }

  lemma DeniedFits(fs: Fs, f: Ptr, o: nat)
    requires Inv(fs) && Denies(fs, f, o)
    ensures DiskOk(fs.disk) && o < |fs.disk| && Fits(fs.disk, Ext(fs.disk, o))
  {
    hide OpenOk, DirOk, LinkOk, DenyOk, CountOk, Dir, NamedSectors, Layout, DecodeInode;
    DeniedOwner(fs, f, o);
    InvParts(fs, multiset{}, {});
    assert AllOwners(fs) + {} == AllOwners(fs);
    LayoutFits(fs.disk, fs.free, AllOwners(fs), o);
  }
}
