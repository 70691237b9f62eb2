/** Formatting and mounting establish the file system's invariant (filesys/filesys.c,
    filesys/free-map.c). */
module FileSysBoot {
  import opened Wrappers
  import opened Bits
  import opened Storage
  import opened Codec
  import opened FileSys
  import opened FileSysInv
  import opened FileSysSteps
  import opened FileSysRuns
  import BM = Bitmap

  lemma {:induction false} MapBitsBit(free: seq<bool>, base: nat, n: nat, i: nat)
    requires i < n
    ensures Bit(MapBits(free, base, n), i) <==> base + i < |free| && free[base + i]
    decreases n
  {
    Halve(MapBits(free, base + 1, n - 1), base < |free| && free[base]);
    if i > 0 { MapBitsBit(free, base + 1, n - 1, i - 1); }
  }

  /** Reading the free map back gives what was written. */
  lemma MapRoundTrip(free: seq<bool>)
    ensures |free| <= 8 * |PackedMap(free)| && UnpackedMap(PackedMap(free), |free|) == free
  {
    hide MapBits;
    var b := PackedMap(free);
    forall k | 0 <= k < |free| ensures UnpackedMap(b, |free|)[k] == free[k] {
      MapBitsBit(free, 8 * (k / 8), 8, k % 8);
    }
  }

  /** An inode is written into a sector that is marked and has no owner. */
  lemma MadeLayout(d: Disk, free: seq<bool>, owners: set<nat>, o: nat, e: Extent)
    requires Layout(d, free, owners) && o < |d| && free[o] && !In(e, o) && Fits(d, e)
    requires e.start < 0x1_0000_0000 && e.length < 0x1_0000_0000
    requires AllClear(d, owners, o, 1) && AllClear(d, owners, e.start, Sectors(e.length))
    requires forall k :: In(e, k) ==> free[k]
    ensures var r := Made(d, o, e);
            DiskOk(r) && Layout(r, free, owners + {o}) && Ext(r, o) == e
  {
    hide OwnerOk, Apart, Made, EncodeInode, DecodeInode, Sectors;
    var r := Made(d, o, e);
    MadeFacts(d, o, e);
    InodeRoundTrip(e);
    forall q | q in owners && q < |d| ensures r[q] == d[q] {
      assert Clear(d, q, o, 1) && Clear(d, q, e.start, Sectors(e.length));
    }
    LayoutDisk(d, r, free, owners);
    ClearSame(d, r, owners, o, 1);
    ClearSame(d, r, owners, e.start, Sectors(e.length));
    NewOwner(r, free, owners, o, e);
  }

  /** Two owners, no directory entries, nothing open but the free map file. */
  lemma BootInv(fs: Fs, p: Ptr)
    requires Layout(fs.disk, fs.free, {FREE_MAP_SECTOR, ROOT_DIR_SECTOR}) && RootOk(fs.disk)
    requires fs.mem == map[p := Mem(FREE_MAP_SECTOR, 1, false, 0, Ext(fs.disk, FREE_MAP_SECTOR))]
    requires fs.open == [p] && fs.files == map[] && fs.freeInode == p
    requires |Dir(fs.disk)| == 16 && forall i :: 0 <= i < 16 ==> !Dir(fs.disk)[i].inUse
    ensures Inv(fs)
  {
    hide Layout, Dir, DecodeInode;
    var s := Dir(fs.disk);
    assert NamedSectors(s) == {};
    InOpenSectors(fs.mem, p);
    assert OpenSectors(fs.mem) == {FREE_MAP_SECTOR};
    assert Owners(s, fs.mem) + {} == {FREE_MAP_SECTOR, ROOT_DIR_SECTOR};
    hide NamedSectors, OpenSectors;
    assert Handles(fs.files, p) == {} && Denied(fs.files, p) == {};
    assert CountOk(fs.mem, fs.files, multiset{p} + multiset{});
  }

  /** A directory of zeros has sixteen free entries. */
  lemma ZeroSlots(d: Disk, e: Extent)
    requires DiskOk(d) && Fits(d, e) && e.length == 320
    requires forall k :: In(e, k) ==> 0 <= k < |d| && d[k] == Zeros()
    ensures |Slots(d, e)| == 16 && forall i :: 0 <= i < 16 ==> !Slots(d, e)[i].inUse
  {
    assert In(e, e.start);
    forall pos | 0 <= pos < 320 ensures Content(d, e)[pos] == 0 {
      assert pos / 512 == 0;
    }
  }

  lemma BlankFacts(disk: Disk, p: Ptr)
    requires DiskOk(disk) && 2 <= |disk| <= 0x1_0000_0000
    ensures var a := Blank(disk, p);
            && Layout(a.disk, a.free, {}) && |a.free| == |disk| && a.free[0] && a.free[1] && a.disk == disk
            && a.mem == map[] && a.open == [] && a.files == map[] && a.freeInode == p
  {
  }

  /** Sectors found by the scan avoid what is marked. */
  lemma ScanFacts(free: seq<bool>, length: nat)
    requires 2 <= |free| <= 0x1_0000_0000 && free[0] && free[1]
    ensures var k := BM.Scanned(free, 0, Sectors(length), false);
            k.Some? ==> && k.value + Sectors(length) <= |free| && k.value < 0x1_0000_0000
                        && BM.Group(free, k.value, Sectors(length), false)
                        && !In(Extent(k.value, length), 0) && !In(Extent(k.value, length), 1)
  {
    if Sectors(length) == 0 { FirstOfNone(free); }
  }

  /** The free map's own inode and its first contents. */
  lemma MapFile(disk: Disk, p: Ptr, length: nat)
    requires DiskOk(disk) && 2 <= |disk| <= 0x1_0000_0000 && length < 0x1_0000_0000
    ensures var (b, made) := InodeCreate(Blank(disk, p), FREE_MAP_SECTOR, length, true, true);
            made ==>
              && Layout(b.disk, b.free, {FREE_MAP_SECTOR}) && Ext(b.disk, FREE_MAP_SECTOR).length == length
              && b.free[1] && b.free[0] && !In(Ext(b.disk, FREE_MAP_SECTOR), 1)
              && b.mem == map[] && b.open == [] && b.files == map[] && b.freeInode == p && |b.disk| == |disk|
  {
    hide Layout, Sectors, DecodeInode, EncodeInode, Zeroed, AllClear;
    var a := Blank(disk, p);
    BlankFacts(disk, p);
    ScanFacts(a.free, length);
    var g := BM.Scanned(a.free, 0, Sectors(length), false);
    if g.Some? {
      var e := Extent(g.value, length);
      LayoutMark(a.disk, a.free, {}, e.start, Sectors(length));
      NoneClear(a.disk, 0, 1);
      NoneClear(a.disk, e.start, Sectors(length));
      MadeLayout(a.disk, BM.SetRange(a.free, e.start, Sectors(length), true), {}, FREE_MAP_SECTOR, e);
      assert {} + {FREE_MAP_SECTOR} == {FREE_MAP_SECTOR};
    }
  }

  lemma NoneClear(d: Disk, k: nat, cnt: nat)
    requires DiskOk(d)
    ensures AllClear(d, {}, k, cnt)
  {
  }

  /** The free map file is open and holds `saved` or anything else. */
  ghost predicate Started(fs: Fs, p: Ptr, length: nat) {
    && Layout(fs.disk, fs.free, {FREE_MAP_SECTOR}) && |fs.disk| > 1
    && Ext(fs.disk, FREE_MAP_SECTOR).length == length && !In(Ext(fs.disk, FREE_MAP_SECTOR), 1)
    && fs.free[0] && fs.free[1]
    && fs.mem == map[p := Mem(FREE_MAP_SECTOR, 1, false, 0, Ext(fs.disk, FREE_MAP_SECTOR))]
    && fs.open == [p] && fs.files == map[] && fs.freeInode == p
  }

  lemma OpenedFirst(b: Fs, p: Ptr, length: nat)
    requires Layout(b.disk, b.free, {FREE_MAP_SECTOR}) && |b.disk| > 1 && Ext(b.disk, FREE_MAP_SECTOR).length == length
    requires b.free[0] && b.free[1] && !In(Ext(b.disk, FREE_MAP_SECTOR), 1)
    requires b.mem == map[] && b.open == [] && b.files == map[] && b.freeInode == p
    ensures Started(InodeOpen(b, FREE_MAP_SECTOR, Some(p)).0, p, length)
  {
    hide OwnerOk, Apart, DecodeInode;
    assert [p] + b.open == [p];
  }

  /** Writing the map out. */
  lemma SaveStarted(c: Fs, p: Ptr, length: nat)
    requires Started(c, p, length) && |PackedMap(c.free)| == length
    ensures var (r, saved) := Save(c, true);
            && saved && Started(r, p, length) && r.free == c.free && |r.disk| == |c.disk| && r.disk[0] == c.disk[0]
            && Fits(r.disk, Ext(r.disk, FREE_MAP_SECTOR))
            && Content(r.disk, Ext(r.disk, FREE_MAP_SECTOR)) == PackedMap(c.free)
  {
    hide DecodeInode, PackedMap, PatchedDisk, Content, Sectors;
    var e, b := Ext(c.disk, FREE_MAP_SECTOR), PackedMap(c.free);
    assert OwnerOk(c.disk, c.free, 0);
    InodeWriteOnly(c, c.mem[p], b, 0, true);
    var r := Save(c, true).0;
    assert r.disk == PatchedDisk(c.disk, e.start, 0, b) by { assert b[..length] == b; }
    PatchedContent(c.disk, e, 0, b);
    assert Patched(Content(c.disk, e), 0, b) == b;
    hide OwnerOk, Apart;
    LayoutDisk(c.disk, r.disk, c.free, {FREE_MAP_SECTOR});
  }

  /** The root directory is made, and the map on disk is the map in memory. */
  lemma RootMade(c: Fs, p: Ptr, length: nat)
    requires Started(c, p, length) && |PackedMap(c.free)| == length
    ensures var (d, made) := InodeCreate(c, ROOT_DIR_SECTOR, 320, true, true);
            made ==>
              && Layout(d.disk, d.free, {FREE_MAP_SECTOR, ROOT_DIR_SECTOR}) && RootOk(d.disk) && |Dir(d.disk)| == 16
              && (forall i :: 0 <= i < 16 ==> !Dir(d.disk)[i].inUse)
              && Fits(d.disk, Ext(d.disk, FREE_MAP_SECTOR))
              && Content(d.disk, Ext(d.disk, FREE_MAP_SECTOR)) == PackedMap(d.free)
              && d.mem == map[p := Mem(FREE_MAP_SECTOR, 1, false, 0, Ext(d.disk, FREE_MAP_SECTOR))]
              && d.open == [p] && d.files == map[] && d.freeInode == p && |d.free| == |d.disk|
  {
    hide DecodeInode, EncodeInode, Zeroed, AllClear, Layout, Save, PackedMap, Content, Dir;
    var g := BM.Scanned(c.free, 0, Sectors(320), false);
    StartedFacts(c, p, length);
    ScanFacts(c.free, 320);
    if g.Some? {
      var e := Extent(g.value, 320);
      var m := Marked(c, e.start, 1, true);
      MarkStarted(c, p, length, e.start, 1);
      SaveStarted(m, p, length) by { PackedLength(c.free, m.free); }
      var s := Save(m, true).0;
      RootLaid(c, s, p, length, e);
    }
  }

  lemma StartedFacts(c: Fs, p: Ptr, length: nat)
    requires Started(c, p, length)
    ensures |c.free| == |c.disk| && 2 <= |c.free| <= 0x1_0000_0000 && c.free[0] && c.free[1] && DiskOk(c.disk)
    ensures Fits(c.disk, Ext(c.disk, FREE_MAP_SECTOR)) && Layout(c.disk, c.free, {FREE_MAP_SECTOR})
  {
    assert OwnerOk(c.disk, c.free, 0);
  }

  lemma PackedLength(f: seq<bool>, g: seq<bool>)
    requires |f| == |g|
    ensures |PackedMap(f)| == |PackedMap(g)|
  {
  }

  lemma MarkStarted(c: Fs, p: Ptr, length: nat, k: nat, cnt: nat)
    requires Started(c, p, length) && k + cnt <= |c.free|
    ensures Started(Marked(c, k, cnt, true), p, length)
  {
    hide OwnerOk, Apart, DecodeInode;
    LayoutMark(c.disk, c.free, {FREE_MAP_SECTOR}, k, cnt);
  }

  lemma RootLaid(c: Fs, s: Fs, p: Ptr, length: nat, e: Extent)
    requires Started(c, p, length) && Started(s, p, length) && e.length == 320 && e.start < 0x1_0000_0000
    requires BM.Group(c.free, e.start, 1, false) && s.free == BM.SetRange(c.free, e.start, 1, true)
    requires |s.disk| == |c.disk|
    requires Ext(s.disk, FREE_MAP_SECTOR) == Ext(c.disk, FREE_MAP_SECTOR)
    requires Fits(s.disk, Ext(s.disk, FREE_MAP_SECTOR)) && !In(e, 1)
    ensures var r := Made(s.disk, ROOT_DIR_SECTOR, e);
            && Layout(r, s.free, {FREE_MAP_SECTOR, ROOT_DIR_SECTOR}) && RootOk(r) && |Dir(r)| == 16
            && (forall i :: 0 <= i < 16 ==> !Dir(r)[i].inUse)
            && Ext(r, FREE_MAP_SECTOR) == Ext(s.disk, FREE_MAP_SECTOR)
            && Fits(r, Ext(r, FREE_MAP_SECTOR))
            && Content(r, Ext(r, FREE_MAP_SECTOR)) == Content(s.disk, Ext(s.disk, FREE_MAP_SECTOR))
  {
    hide DecodeInode, EncodeInode, Content, Slots, AllClear, Layout, Made;
    var r, one := Made(s.disk, ROOT_DIR_SECTOR, e), {FREE_MAP_SECTOR};
    StartedFacts(c, p, length);
    StartedFacts(s, p, length);
    ClearOfMap(c, s, p, length, e);
    MadeLayout(s.disk, s.free, one, ROOT_DIR_SECTOR, e);
    assert one + {ROOT_DIR_SECTOR} == {FREE_MAP_SECTOR, ROOT_DIR_SECTOR};
    MadeFacts(s.disk, ROOT_DIR_SECTOR, e);
    assert Sectors(320) == 1;
    ContentSame(s.disk, r, Ext(s.disk, FREE_MAP_SECTOR));
    MadeZeros(s.disk, ROOT_DIR_SECTOR, e);
    ZeroSlots(r, e);
  }

  lemma ClearOfMap(c: Fs, s: Fs, p: Ptr, length: nat, e: Extent)
    requires Started(c, p, length) && Started(s, p, length) && e.length == 320
    requires BM.Group(c.free, e.start, 1, false) && |s.disk| == |c.disk|
    requires Ext(s.disk, FREE_MAP_SECTOR) == Ext(c.disk, FREE_MAP_SECTOR)
    ensures AllClear(s.disk, {FREE_MAP_SECTOR}, ROOT_DIR_SECTOR, 1)
    ensures AllClear(s.disk, {FREE_MAP_SECTOR}, e.start, Sectors(e.length))
    ensures forall k :: In(Ext(s.disk, FREE_MAP_SECTOR), k) ==> k != 1 && k != e.start
    ensures e.start != 0
  {
    hide DecodeInode;
    assert Sectors(320) == 1;
    assert OwnerOk(c.disk, c.free, 0) && OwnerOk(s.disk, s.free, 0);
  }

  /** The free map's file holds the free map. */
  ghost predicate MapOnDisk(fs: Fs) {
    && DiskOk(fs.disk) && |fs.disk| > 0 && Fits(fs.disk, Ext(fs.disk, FREE_MAP_SECTOR))
    && Content(fs.disk, Ext(fs.disk, FREE_MAP_SECTOR)) == PackedMap(fs.free)
  }

  /** Whenever formatting and mounting succeed, the invariant holds and the free map is on disk. */
  lemma FormatInv(disk: Disk, p: Ptr)
    requires DiskOk(disk) && 2 <= |disk| <= 0x1_0000_0000
    ensures Format(disk, p).Some? ==> Inv(Format(disk, p).value) && MapOnDisk(Format(disk, p).value)
  {
    hide InodeCreate, Save, Layout, Dir, PackedMap, DecodeInode, Inv, InodeOpen, Content, Started, MapOnDisk;
    var a := Blank(disk, p);
    var length := |PackedMap(a.free)|;
    PackedSmall(a.free);
    MapFile(disk, p, length);
    var (b, made0) := InodeCreate(a, FREE_MAP_SECTOR, length, true, true);
    if made0 {
      OpenedFirst(b, p, length);
      var o := InodeOpen(b, FREE_MAP_SECTOR, Some(p)).0;
      OpenKeepsFree(b, p);
      StartedFacts(o, p, length);
      PackedLength(a.free, o.free) by { LayoutSizes(b.disk, b.free); }
      SaveStarted(o, p, length);
      var c := Save(o, true).0;
      RootMade(c, p, length);
      var (d, made1) := InodeCreate(c, ROOT_DIR_SECTOR, 320, true, true);
      if made1 { MountedInv(d, p); }
    }
  }

  // When formatting succeeds.

  /** The first `n` sectors are marked. */
  ghost predicate MarkedUpTo(free: seq<bool>, n: nat) {
    forall k :: 0 <= k < |free| ==> (free[k] <==> k < n)
  }

  lemma ScanUpTo(free: seq<bool>, n: nat, cnt: nat)
    requires MarkedUpTo(free, n) && cnt > 0
    ensures var k := BM.Scanned(free, 0, cnt, false); if n + cnt <= |free| then k == Some(n) else k.None?
  {
    assert n + cnt <= |free| ==> BM.Group(free, n, cnt, false);
    forall i | 0 <= i < n && i + cnt <= |free| ensures !BM.Group(free, i, cnt, false) {
      assert free[i];
    }
    forall i | n <= i && n + cnt > |free| ensures !BM.Group(free, i, cnt, false) { }
  }

  lemma MapMade(disk: Disk, p: Ptr, length: nat)
    requires DiskOk(disk) && 2 <= |disk| && length > 0
    ensures var (b, made) := InodeCreate(Blank(disk, p), FREE_MAP_SECTOR, length, true, true);
            && (made <==> 2 + Sectors(length) <= |disk|)
            && (made ==> MarkedUpTo(b.free, 2 + Sectors(length)) && |b.free| == |disk|)
  {
    hide EncodeInode, Zeroed, BM.Scanned;
    assert Sectors(length) > 0;
    ScanUpTo(Blank(disk, p).free, 2, Sectors(length));
  }

  lemma RootFound(c: Fs, n: nat)
    requires MarkedUpTo(c.free, n) && Save(Marked(c, n, 1, true), true).1
    requires |Save(Marked(c, n, 1, true), true).0.disk| == |c.disk| > 1
    ensures InodeCreate(c, ROOT_DIR_SECTOR, 320, true, true).1 <==> n < |c.free|
  {
    hide EncodeInode, Zeroed, BM.Scanned, Save;
    ScanUpTo(c.free, n, 1);
    assert Sectors(320) == 1;
  }

  /** Formatting succeeds exactly if the disk has room for the two system sectors, for the free map
      with a bit for every sector in 32-bit words, and for the root directory. */
  lemma FormatExact(disk: Disk, p: Ptr)
    requires DiskOk(disk) && 2 <= |disk| <= 0x1_0000_0000
    ensures Format(disk, p).Some? <==> 3 + Sectors(4 * ((|disk| + 31) / 32)) <= |disk|
  {
    hide InodeCreate, Save, Layout, Dir, PackedMap, DecodeInode, Inv, InodeOpen, Content, Started, MarkedUpTo, Sectors;
    var a := Blank(disk, p);
    var length := |PackedMap(a.free)|;
    PackedSmall(a.free);
    PackedSize(a.free);
    MapFile(disk, p, length);
    MapMade(disk, p, length);
    var (b, made0) := InodeCreate(a, FREE_MAP_SECTOR, length, true, true);
    if made0 {
      OpenedFirst(b, p, length);
      var o := InodeOpen(b, FREE_MAP_SECTOR, Some(p)).0;
      OpenKeepsFree(b, p);
      StartedFacts(o, p, length);
      PackedLength(a.free, o.free) by { LayoutSizes(b.disk, b.free); }
      SaveStarted(o, p, length);
      var c := Save(o, true).0;
      RootMade(c, p, length);
      var n := 2 + Sectors(length);
      StartedFacts(c, p, length);
      var m := Marked(c, n, 1, true);
      if n < |c.free| { MarkStarted(c, p, length, n, 1); }
      PackedLength(c.free, m.free);
      SaveStarted(m, p, length);
      RootFound(c, n);
    }
  }

  lemma PackedSize(free: seq<bool>)
    ensures |PackedMap(free)| == 4 * ((|free| + 31) / 32)
  {
  }

  /** A formatted disk, and any operations on it after that: the invariant holds throughout. */
  lemma FormattedRuns(disk: Disk, p: Ptr, ops: seq<Op>)
    requires DiskOk(disk) && 2 <= |disk| <= 0x1_0000_0000 && 3 + Sectors(4 * ((|disk| + 31) / 32)) <= |disk|
    requires Format(disk, p).Some? ==> Legal(Format(disk, p).value, ops)
    ensures Format(disk, p).Some? && Inv(After(Format(disk, p).value, ops))
  {
    hide Format, Inv, Legal, After, Sectors;
    FormatExact(disk, p);
    FormatInv(disk, p);
    RunInv(Format(disk, p).value, ops);
  }

  lemma LayoutSizes(d: Disk, free: seq<bool>)
    requires Layout(d, free, {FREE_MAP_SECTOR})
    ensures |free| == |d|
  {
  }

  lemma PackedSmall(free: seq<bool>)
    requires |free| <= 0x1_0000_0000
    ensures |PackedMap(free)| < 0x1_0000_0000
  {
  }

  lemma OpenKeepsFree(b: Fs, p: Ptr)
    ensures InodeOpen(b, FREE_MAP_SECTOR, Some(p)).0.free == b.free
  {
  }

  /** Closing and opening the free map file again, and reading the map back. */
  lemma MountedInv(d: Fs, p: Ptr)
    requires Layout(d.disk, d.free, {FREE_MAP_SECTOR, ROOT_DIR_SECTOR}) && RootOk(d.disk) && |Dir(d.disk)| == 16
    requires forall i :: 0 <= i < 16 ==> !Dir(d.disk)[i].inUse
    requires Fits(d.disk, Ext(d.disk, FREE_MAP_SECTOR))
    requires Content(d.disk, Ext(d.disk, FREE_MAP_SECTOR)) == PackedMap(d.free)
    requires d.mem == map[p := Mem(FREE_MAP_SECTOR, 1, false, 0, Ext(d.disk, FREE_MAP_SECTOR))]
    requires d.open == [p] && d.files == map[] && d.freeInode == p && |d.free| == |d.disk|
    ensures Inv(Mounted(InodeClose(d, p, true, true), p)) && MapOnDisk(Mounted(InodeClose(d, p, true, true), p))
  {
    hide Layout, Dir, PackedMap, DecodeInode, Inv, Content, UnpackedMap;
    var a := InodeClose(d, p, true, true);
    assert a.mem == map[];
    assert a.open == [];
    MapRoundTrip(d.free);
    var m := InodeOpen(a, FREE_MAP_SECTOR, Some(p)).0;
    assert m.open == [p] && m.mem == d.mem && m.disk == d.disk;
    BootInv(m.(free := d.free), p);
    assert Mounted(a, p) == m.(free := d.free);
  }
}
