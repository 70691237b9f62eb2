/** The file system: free map, inodes, root directory and open files as one state, and the
    operations of filesys/inode.c, free-map.c, directory.c, filesys.c and file.c on it. The
    answers of the memory allocator are parameters. */
module FileSys {
  import opened Wrappers
  import opened Arithmetic
  import opened Bits
  import opened Storage
  import opened Codec
  import BM = Bitmap
  import opened Orders

  const FREE_MAP_SECTOR: nat := 0
  const ROOT_DIR_SECTOR: nat := 1

  type Ptr = nat
  type Name = seq<Byte>

  /** struct inode. */
  datatype Mem = Mem(sector: nat, openCnt: int, removed: bool, denyCnt: int, data: Extent)

  /** struct file. */
  datatype File = File(inode: Ptr, denied: bool)

  /** `mem` and `open`: the in-memory inodes and the list open_inodes. `files`: the open files of
      the callers. `freeInode`: the inode of the file the free map is kept in. */
  datatype Fs = Fs(disk: Disk, free: seq<bool>, mem: map<Ptr, Mem>, open: seq<Ptr>, files: map<Ptr, File>,
                   freeInode: Ptr)

  /** What the memory allocator gives to one operation: inodes for the root directory and for the
      file, a struct dir, a struct file, the inode being created, a bounce buffer for the
      directory entry, and bounce buffers for up to three writes of the free map. */
  datatype Supply = Supply(root: Option<Ptr>, inode: Option<Ptr>, dir: bool, file: Option<Ptr>, block: bool, slot: bool,
                           save1: bool, save2: bool, save3: bool)

  // The free map.

  /** The number whose bits are the `n` bits of the map from `base` on. */
  function MapBits(free: seq<bool>, base: nat, n: nat): (x: nat)
    ensures x < Pow2(n)
    decreases n
  {
    if n == 0 then 0
    else 2 * MapBits(free, base + 1, n - 1) + Digit(base < |free| && free[base])
  }

  /** The free map as bytes, a whole number of 32-bit words. */
  function PackedMap(free: seq<bool>): (b: seq<Byte>) {
    Pow2Values();
    seq((|free| + 31) / 32 * 4, j requires 0 <= j => MapBits(free, 8 * j, 8))
  }

  /** inode_write_at, on the in-memory inode `m`. */
  ghost function InodeWrite(fs: Fs, m: Mem, data: seq<Byte>, offset: nat, ok: bool): (Fs, bool) {
    var n := if m.denyCnt > 0 then 0 else Transferred(m.data.length, |data|, offset, ok);
    ReachWithin(m.data.length, |data|, offset, ok);
    (fs.(disk := PatchedDisk(fs.disk, m.data.start, offset, data[..n])), n == |data|)
  }

  lemma ReachWithin(length: nat, size: nat, offset: nat, ok: bool)
    ensures Transferred(length, size, offset, ok) <= Reach(length, size, offset) <= size
  {
  }

  /** bitmap_write of the free map, if its file is open; it is not while formatting starts. */
  ghost function Save(fs: Fs, ok: bool): (Fs, bool) {
    if fs.freeInode !in fs.mem then (fs, true)
    else InodeWrite(fs, fs.mem[fs.freeInode], PackedMap(fs.free), 0, ok)
  }

  ghost function Marked(fs: Fs, k: nat, cnt: nat, value: bool): Fs {
    if k + cnt <= |fs.free| then fs.(free := BM.SetRange(fs.free, k, cnt, value)) else fs
  }

  /** free_map_allocate. */
  ghost function Allocate(fs: Fs, cnt: nat, ok: bool): (Fs, Option<nat>) {
    match BM.Scanned(fs.free, 0, cnt, false)
    case None => (fs, None)
    case Some(k) =>
      var (r, saved) := Save(Marked(fs, k, cnt, true), ok);
      if saved then (r, Some(k)) else (Marked(r, k, cnt, false), None)
  }

  /** free_map_release; a failure to write the map is ignored. */
  ghost function Release(fs: Fs, k: nat, cnt: nat, ok: bool): Fs {
    Save(Marked(fs, k, cnt, false), ok).0
  }

  /** bitmap_read: the free map as its file says. */
  function UnpackedMap(b: seq<Byte>, n: nat): (free: seq<bool>)
    requires n <= 8 * |b|
    ensures |free| == n
  {
    seq(n, k requires 0 <= k < n => Bit(b[k / 8], k % 8))
  }

  // Inodes.

  function Zeros(): (s: Sector)
    ensures |s| == 512
  {
    seq(512, _ => 0)
  }

  /** The disk with `cnt` sectors from `start` on filled with zeros. */
  function Zeroed(d: Disk, start: nat, cnt: nat): (r: Disk)
    ensures |r| == |d|
  {
    seq(|d|, k requires 0 <= k < |d| => if start <= k < start + cnt then Zeros() else d[k])
  }

  /** inode_create. */
  ghost function InodeCreate(fs: Fs, sector: nat, length: nat, memOk: bool, saveOk: bool): (Fs, bool) {
    if !memOk || sector >= |fs.disk| then (fs, false)
    else
      var (a, start) := Allocate(fs, Sectors(length), saveOk);
      if start.None? || sector >= |a.disk| then (a, false)
      else
        var d := a.disk[sector := EncodeInode(Extent(start.value, length))];
        (a.(disk := Zeroed(d, start.value, Sectors(length))), true)
  }

  /** The first inode on the list that belongs to `sector`. */
  function FindOpen(open: seq<Ptr>, mem: map<Ptr, Mem>, sector: nat): (r: Option<Ptr>)
    ensures r.Some? ==> r.value in open && r.value in mem && mem[r.value].sector == sector
    ensures r.None? ==> forall p :: p in open && p in mem ==> mem[p].sector != sector
  {
    if open == [] then None
    else if open[0] in mem && mem[open[0]].sector == sector then Some(open[0])
    else FindOpen(open[1..], mem, sector)
  }

  /** inode_reopen. */
  function Reopened(fs: Fs, p: Ptr): Fs
    requires p in fs.mem
  {
    fs.(mem := fs.mem[p := fs.mem[p].(openCnt := fs.mem[p].openCnt + 1)])
  }

  /** inode_open. */
  function InodeOpen(fs: Fs, sector: nat, alloc: Option<Ptr>): (Fs, Option<Ptr>) {
    match FindOpen(fs.open, fs.mem, sector)
    case Some(p) => (Reopened(fs, p), Some(p))
    case None =>
      if alloc.None? || sector >= |fs.disk| || |fs.disk[sector]| != 512 then (fs, None)
      else (fs.(open := [alloc.value] + fs.open,
                mem := fs.mem[alloc.value := Mem(sector, 1, false, 0, DecodeInode(fs.disk[sector]))]), alloc)
  }

  /** The last reference is gone: the inode leaves the list and the memory. */
  function Dropped(fs: Fs, p: Ptr): Fs {
    fs.(open := Removed(fs.open, p), mem := fs.mem - {p})
  }

  /** inode_close. */
  ghost function InodeClose(fs: Fs, p: Ptr, save1: bool, save2: bool): Fs
    requires p in fs.mem
  {
    var m := fs.mem[p];
    if m.openCnt != 1 then fs.(mem := fs.mem[p := m.(openCnt := m.openCnt - 1)])
    else if !m.removed then Dropped(fs, p)
    else Release(Release(Dropped(fs, p), m.sector, 1, save1), m.data.start, Sectors(m.data.length), save2)
  }

  /** inode_remove. */
  function MarkRemoved(fs: Fs, p: Ptr): Fs
    requires p in fs.mem
  {
    fs.(mem := fs.mem[p := fs.mem[p].(removed := true)])
  }

  // The root directory.

  /** The entries of the directory with extent `e`, as the scanning loops read them. */
  ghost function Slots(d: Disk, e: Extent): (s: seq<Entry>)
    ensures forall i :: 0 <= i < |s| ==> EntryOk(s[i])
  {
    if !DiskOk(d) || !Fits(d, e) then []
    else seq(e.length / 20, i requires 0 <= i < e.length / 20 && DiskOk(d) && Fits(d, e) =>
             DecodeEntry(Content(d, e)[20 * i..20 * i + 20]))
  }

  /** Entry `e` is in use under `name`. */
  predicate Names(e: Entry, name: Name) { e.inUse && CString(e.field) == name }

  /** lookup: the first entry for `name` at or after slot `i`. */
  function FindName(s: seq<Entry>, name: Name, i: nat): (r: Option<nat>)
    ensures r.Some? ==> i <= r.value < |s| && Names(s[r.value], name)
    ensures r.None? ==> forall j :: i <= j < |s| ==> !Names(s[j], name)
    decreases |s| - i
  {
    if i >= |s| then None else if Names(s[i], name) then Some(i) else FindName(s, name, i + 1)
  }

  /** The first free slot at or after `i`, or the number of slots. */
  function FindFree(s: seq<Entry>, i: nat): (r: nat)
    requires i <= |s|
    ensures i <= r <= |s| && (r < |s| ==> !s[r].inUse)
    ensures forall j :: i <= j < r ==> s[j].inUse
    decreases |s| - i
  {
    if i == |s| || !s[i].inUse then i else FindFree(s, i + 1)
  }

  /** dir_open_root: a reference to the root directory's inode, or none. */
  ghost function OpenRoot(fs: Fs, u: Supply): (Fs, Option<Ptr>) {
    var (a, p) := InodeOpen(fs, ROOT_DIR_SECTOR, u.root);
    if p.None? || p.value !in a.mem then (a, None)
    else if u.dir then (a, p)
    else (InodeClose(a, p.value, true, true), None)
  }

  /** The entry dir_add writes for `name` over entry `was`. */
  function NewEntry(was: Entry, name: Name, sector: nat): (e: Entry)
    requires |was.field| == NAME_MAX + 1 && |name| <= NAME_MAX
    ensures |e.field| == NAME_MAX + 1
  {
    Entry(sector, NameField(name, was.field), true)
  }

  /** dir_add. */
  ghost function DirAdd(fs: Fs, d: Ptr, name: Name, sector: nat, ok: bool): (Fs, bool)
    requires d in fs.mem
  {
    var m := fs.mem[d];
    var s := Slots(fs.disk, m.data);
    if name == [] || |name| > NAME_MAX || FindName(s, name, 0).Some? then (fs, false)
    else
      var i := FindFree(s, 0);
      var was := if i < |s| then s[i] else Entry(0, seq(NAME_MAX + 1, _ => 0), false);
      InodeWrite(fs, m, EncodeEntry(NewEntry(was, name, sector)), 20 * i, ok)
  }

  /** dir_remove. */
  ghost function DirRemove(fs: Fs, d: Ptr, name: Name, u: Supply): (Fs, bool)
    requires d in fs.mem
  {
    var s := Slots(fs.disk, fs.mem[d].data);
    match FindName(s, name, 0)
    case None => (fs, false)
    case Some(i) =>
      var (a, p) := InodeOpen(fs, s[i].sector, u.inode);
      if p.None? || p.value !in a.mem || d !in a.mem then (a, false)
      else
        var (b, written) := InodeWrite(a, a.mem[d], EncodeEntry(s[i].(inUse := false)), 20 * i, u.slot);
        var c := if written then MarkRemoved(b, p.value) else b;
        (InodeClose(c, p.value, u.save1, u.save2), written)
  }

  // Files.

  /** The inode and the directory entry of a new file. */
  ghost function MakeFile(fs: Fs, d: Ptr, name: Name, sector: nat, size: nat, u: Supply): (Fs, bool) {
    var (a, made) := InodeCreate(fs, sector, size, u.block, u.save2);
    if made && d in a.mem then DirAdd(a, d, name, sector, u.slot) else (a, false)
  }

  /** filesys_create. */
  ghost function Create(fs: Fs, name: Name, size: nat, u: Supply): (Fs, bool) {
    var (a, d) := OpenRoot(fs, u);
    if d.None? || d.value !in a.mem then (a, false)
    else
      var (b, sector) := Allocate(a, 1, u.save1);
      if sector.None? then (Closed(b, d.value), false)
      else
        var (c, added) := MakeFile(b, d.value, name, sector.value, size, u);
        var e := if !added && sector.value != 0 then Release(c, sector.value, 1, u.save3) else c;
        (Closed(e, d.value), added)
  }

  /** dir_close of a directory that is not being removed. */
  ghost function Closed(fs: Fs, d: Ptr): Fs {
    if d in fs.mem then InodeClose(fs, d, true, true) else fs
  }

  /** file_open of an inode reference. */
  ghost function FileOpen(fs: Fs, p: Ptr, u: Supply): (Fs, Option<Ptr>)
    requires p in fs.mem
  {
    if u.file.None? then (InodeClose(fs, p, u.save1, u.save2), None)
    else (fs.(files := fs.files[u.file.value := File(p, false)]), u.file)
  }

  /** dir_lookup: a reference to the inode of the file called `name`. */
  ghost function DirLookup(fs: Fs, d: Ptr, name: Name, u: Supply): (Fs, Option<Ptr>)
    requires d in fs.mem
  {
    var s := Slots(fs.disk, fs.mem[d].data);
    var found := FindName(s, name, 0);
    if found.Some? then InodeOpen(fs, s[found.value].sector, u.inode) else (fs, None)
  }

  /** filesys_open. */
  ghost function Open(fs: Fs, name: Name, u: Supply): (Fs, Option<Ptr>) {
    var (a, d) := OpenRoot(fs, u);
    if d.None? || d.value !in a.mem then (a, None)
    else
      var (b, p) := DirLookup(a, d.value, name, u);
      var c := Closed(b, d.value);
      if p.None? || p.value !in c.mem then (c, None) else FileOpen(c, p.value, u)
  }

  /** filesys_remove. */
  ghost function Remove(fs: Fs, name: Name, u: Supply): (Fs, bool) {
    var (a, d) := OpenRoot(fs, u);
    if d.None? || d.value !in a.mem then (a, false)
    else
      var (b, done) := DirRemove(a, d.value, name, u);
      (Closed(b, d.value), done)
  }

  /** file_reopen. */
  ghost function FileReopen(fs: Fs, f: Ptr, u: Supply): (Fs, Option<Ptr>)
    requires f in fs.files && fs.files[f].inode in fs.mem
  {
    FileOpen(Reopened(fs, fs.files[f].inode), fs.files[f].inode, u)
  }

  /** file_deny_write and file_allow_write. */
  function DenyWrite(fs: Fs, f: Ptr): Fs
    requires f in fs.files && fs.files[f].inode in fs.mem
  {
    if fs.files[f].denied then fs
    else
      var p := fs.files[f].inode;
      fs.(files := fs.files[f := File(p, true)], mem := fs.mem[p := fs.mem[p].(denyCnt := fs.mem[p].denyCnt + 1)])
  }

  function AllowWrite(fs: Fs, f: Ptr): Fs
    requires f in fs.files && fs.files[f].inode in fs.mem
  {
    if !fs.files[f].denied then fs
    else
      var p := fs.files[f].inode;
      fs.(files := fs.files[f := File(p, false)], mem := fs.mem[p := fs.mem[p].(denyCnt := fs.mem[p].denyCnt - 1)])
  }

  /** file_close. */
  ghost function FileClose(fs: Fs, f: Ptr, u: Supply): Fs
    requires f in fs.files && fs.files[f].inode in fs.mem
  {
    var a := AllowWrite(fs, f);
    InodeClose(a.(files := a.files - {f}), fs.files[f].inode, u.save1, u.save2)
  }

  /** file_write_at. */
  ghost function FileWrite(fs: Fs, f: Ptr, data: seq<Byte>, offset: nat, ok: bool): Fs
    requires f in fs.files && fs.files[f].inode in fs.mem
  {
    InodeWrite(fs, fs.mem[fs.files[f].inode], data, offset, ok).0
  }

  // Starting.

  /** The state in which formatting starts: only the two system sectors are marked. */
  ghost function Blank(disk: Disk, p: Ptr): Fs {
    Fs(disk, seq(|disk|, k => k == FREE_MAP_SECTOR || k == ROOT_DIR_SECTOR), map[], [], map[], p)
  }

  /** free_map_open: the map is read back from its file. */
  ghost function Mounted(fs: Fs, p: Ptr): Fs {
    var a := InodeOpen(fs, FREE_MAP_SECTOR, Some(p)).0;
    if p !in a.mem || !DiskOk(a.disk) || !Fits(a.disk, a.mem[p].data) || |a.disk| > 8 * a.mem[p].data.length then a
    else a.(free := UnpackedMap(Content(a.disk, a.mem[p].data), |a.disk|))
  }

  /** filesys_init with formatting, with memory available; no result means that it panics. */
  ghost function Format(disk: Disk, p: Ptr): Option<Fs> {
    var a := Blank(disk, p);
    var (b, made0) := InodeCreate(a, FREE_MAP_SECTOR, |PackedMap(a.free)|, true, true);
    var (c, saved) := Save(InodeOpen(b, FREE_MAP_SECTOR, Some(p)).0, true);
    var (d, made1) := InodeCreate(c, ROOT_DIR_SECTOR, 320, true, true);
    if !made0 || !saved || !made1 || p !in d.mem then None
    else Some(Mounted(InodeClose(d, p, true, true), p))
  }

  // Steps. Each runs under the file system lock.

  datatype Op =
    | CreateOp(name: Name, size: nat, supply: Supply)
    | OpenOp(name: Name, supply: Supply)
    | RemoveOp(name: Name, supply: Supply)
    | ReopenOp(file: Ptr, supply: Supply)
    | CloseOp(file: Ptr, supply: Supply)
    | DenyOp(file: Ptr)
    | AllowOp(file: Ptr)
    | WriteOp(file: Ptr, data: seq<Byte>, offset: nat, bounce: bool)

  /** The allocator hands out memory that is not in use. */
  ghost predicate Fresh(fs: Fs, u: Supply) {
    && (u.root.Some? ==> u.root.value !in fs.mem)
    && (u.inode.Some? ==> u.inode.value !in fs.mem && u.inode != u.root)
    && (u.file.Some? ==> u.file.value !in fs.files)
  }

  ghost predicate Enabled(fs: Fs, op: Op) {
    match op
    case CreateOp(name, size, u) => 0 !in name && size < 0x8000_0000 && Fresh(fs, u)
    case OpenOp(name, u) => 0 !in name && Fresh(fs, u)
    case RemoveOp(name, u) => 0 !in name && Fresh(fs, u)
    case ReopenOp(f, u) => f in fs.files && fs.files[f].inode in fs.mem && Fresh(fs, u)
    case CloseOp(f, u) => f in fs.files && fs.files[f].inode in fs.mem
    case DenyOp(f) => f in fs.files && fs.files[f].inode in fs.mem
    case AllowOp(f) => f in fs.files && fs.files[f].inode in fs.mem
    case WriteOp(f, data, offset, bounce) => f in fs.files && fs.files[f].inode in fs.mem
  }

  ghost function Next(fs: Fs, op: Op): Fs
    requires Enabled(fs, op)
  {
    match op
    case CreateOp(name, size, u) => Create(fs, name, size, u).0
    case OpenOp(name, u) => Open(fs, name, u).0
    case RemoveOp(name, u) => Remove(fs, name, u).0
    case ReopenOp(f, u) => FileReopen(fs, f, u).0
    case CloseOp(f, u) => FileClose(fs, f, u)
    case DenyOp(f) => DenyWrite(fs, f)
    case AllowOp(f) => AllowWrite(fs, f)
    case WriteOp(f, data, offset, bounce) => FileWrite(fs, f, data, offset, bounce)
  }
}
