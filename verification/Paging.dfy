/** Demand paging: frames, the supplemental page table, swap and memory-mapped files as one
    state, with eviction as one step (vm/frame.c, vm/page.c, vm/swap.c, vm/mmap.c and the loading
    part of page_fault in userprog/exception.c). */
module Paging {
  import opened Wrappers
  import opened Storage
  import opened Orders
  import BM = Bitmap

  const SECTORS_PER_PAGE: nat := 8

  type Pid = nat      // a supplemental page table entry
  type Fid = nat      // a struct frame
  type Kpage = nat    // a page of physical memory
  type FileId = nat
  type Data = seq<Byte>

  datatype Kind = Zero | FromFile | Swapped

  /** struct spt_entry. `slot` is the first sector of a swap slot; zero also stands for none. */
  datatype Page = Page(kind: Kind, file: FileId, offset: nat, readBytes: nat, slot: nat, frame: Option<Fid>)

  /** struct frame. */
  datatype Frame = Frame(kpage: Kpage, spte: Option<Pid>, pinned: bool)

  /** clock_hand: not set yet, the end of the list, or a frame. */
  datatype Hand = Null | End | At(frame: Fid)

  /** `table` is the frame list, `pool` the free user pages, `mem` the contents of physical memory;
      `accessed` and `dirty` are the pages whose hardware bits are set; `used` and `swap` are the
      bitmap and the contents of the swap slots. */
  datatype Vm = Vm(pages: map<Pid, Page>, table: seq<Fid>, frames: map<Fid, Frame>, hand: Hand,
                   mem: map<Kpage, Data>, pool: set<Kpage>, accessed: set<Pid>, dirty: set<Pid>,
                   used: seq<bool>, swap: seq<Data>, files: map<FileId, Data>)

  function Zeros(): (d: Data)
    ensures |d| == 4096
  {
    seq(4096, _ => 0)
  }

  // What a page shows.

  /** The contents a page has when it is not in memory. */
  ghost function Backing(p: Page, swap: seq<Data>, files: map<FileId, Data>): Data {
    match p.kind
    case Zero => Zeros()
    case FromFile =>
      if p.file in files && p.offset + p.readBytes <= |files[p.file]| && p.readBytes <= 4096
      then files[p.file][p.offset..p.offset + p.readBytes] + seq(4096 - p.readBytes, _ => 0)
      else Zeros()
    case Swapped => if p.slot / SECTORS_PER_PAGE < |swap| then swap[p.slot / SECTORS_PER_PAGE] else Zeros()
  }

  /** The contents of the page as its process sees them. */
  ghost function Shown(vm: Vm, p: Pid): Data
    requires p in vm.pages
  {
    var e := vm.pages[p];
    if e.frame.Some? && e.frame.value in vm.frames && vm.frames[e.frame.value].kpage in vm.mem
    then vm.mem[vm.frames[e.frame.value].kpage]
    else Backing(e, vm.swap, vm.files)
  }

  // Eviction.

  datatype Sweep = Stuck | Victim(index: nat, accessed: set<Pid>)

  /** The loop of do_eviction for at most `fuel` rounds, with the hand at index `h`. */
  function Clock(table: seq<Fid>, frames: map<Fid, Frame>, h: nat, accessed: set<Pid>, fuel: nat): (r: Sweep)
    requires forall f :: f in table ==> f in frames
    ensures r.Victim? ==>
              && r.index < |table| && r.accessed <= accessed
              && var f := frames[table[r.index]]; !f.pinned && f.spte.Some? && f.spte.value !in r.accessed
    decreases fuel
  {
    if fuel == 0 || table == [] then Stuck
    else
      var i := if h >= |table| then 0 else h;
      var f := frames[table[i]];
      if f.pinned || f.spte.None? then Clock(table, frames, i + 1, accessed, fuel - 1)
      else if f.spte.value in accessed then Clock(table, frames, i + 1, accessed - {f.spte.value}, fuel - 1)
      else Victim(i, accessed)
  }

  /** A frame that the clock may take. */
  predicate Candidate(frames: map<Fid, Frame>, f: Fid) {
    f in frames && !frames[f].pinned && frames[f].spte.Some?
  }

  /** How many rounds it takes the hand at `h` to come past index `c`. */
  function Distance(n: nat, h: nat, c: nat): int {
    if h <= c then c - h + 1 else c + n - h + 1
  }

  /** With one candidate the clock stops: as soon as the hand has come past it, or, if its
      accessed bit was set, the next time. */
  lemma {:induction false} ClockStops(table: seq<Fid>, frames: map<Fid, Frame>, h: nat, accessed: set<Pid>, fuel: nat,
                                      c: nat)
    requires (forall f :: f in table ==> f in frames) && c < |table| && Candidate(frames, table[c])
    requires h <= |table|
    requires Distance(|table|, h, c) + (if frames[table[c]].spte.value in accessed then |table| else 0) <= fuel
    ensures Clock(table, frames, h, accessed, fuel).Victim?
    decreases fuel
  {
    var i := if h >= |table| then 0 else h;
    var f := frames[table[i]];
    if f.pinned || f.spte.None? {
      ClockStops(table, frames, i + 1, accessed, fuel - 1, c);
    } else if f.spte.value in accessed {
      ClockStops(table, frames, i + 1, accessed - {f.spte.value}, fuel - 1, c);
    }
  }

  /** The clock stops within two sweeps if some mapped frame is not pinned. */
  lemma TwoSweeps(table: seq<Fid>, frames: map<Fid, Frame>, h: nat, accessed: set<Pid>)
    requires (forall f :: f in table ==> f in frames) && h <= |table|
    requires exists f :: f in table && Candidate(frames, f)
    ensures Clock(table, frames, h, accessed, 2 * |table|).Victim?
  {
    var f :| f in table && Candidate(frames, f);
    var c :| 0 <= c < |table| && table[c] == f;
    ClockStops(table, frames, h, accessed, 2 * |table|, c);
  }

  function IndexOf(s: seq<Fid>, x: Fid): (i: nat)
    ensures i <= |s| && (i < |s| ==> s[i] == x) && (x in s ==> i < |s|)
  {
    if s == [] || s[0] == x then 0 else 1 + IndexOf(s[1..], x)
  }

  function HandIndex(vm: Vm): (h: nat)
    ensures h <= |vm.table|
  {
    if vm.hand.At? then IndexOf(vm.table, vm.hand.frame) else |vm.table|
  }

  /** The hand does not point to a frame that is gone. */
  predicate HandOk(vm: Vm) { vm.hand.At? ==> vm.hand.frame in vm.table }

  /** The page of the victim at `i` is unlinked and the hand stands behind it. */
  function Unlinked(vm: Vm, i: nat, p: Pid, accessed: set<Pid>): Vm
    requires i < |vm.table| && p in vm.pages
  {
    vm.(table := vm.table[..i] + vm.table[i + 1..], frames := vm.frames - {vm.table[i]},
        hand := if i + 1 < |vm.table| then At(vm.table[i + 1]) else End,
        accessed := accessed, pages := vm.pages[p := vm.pages[p].(frame := None)])
  }

  /** The page's contents go to swap slot `k`. */
  function SwappedOut(vm: Vm, p: Pid, k: nat, data: Data): Vm
    requires p in vm.pages && k < |vm.used| && k < |vm.swap|
  {
    vm.(pages := vm.pages[p := vm.pages[p].(kind := Swapped, slot := k * SECTORS_PER_PAGE)],
        used := vm.used[k := true], swap := vm.swap[k := data])
  }

  /** What becomes of the contents of page `p`, just unlinked from a frame holding `data`: written
      to swap if they may differ from the backing store. No result means that swap is full. */
  function WrittenBack(vm: Vm, p: Pid, data: Data): Option<Vm>
    requires p in vm.pages
  {
    var e := vm.pages[p];
    if p !in vm.dirty && e.kind != Swapped then Some(vm)
    else if e.kind == Swapped && e.slot != 0 then
      var k := e.slot / SECTORS_PER_PAGE;
      if k < |vm.used| && k < |vm.swap| then Some(SwappedOut(vm, p, k, data)) else None
    else
      match BM.Scanned(vm.used, 0, 1, false)
      case None => None
      case Some(k) => if k < |vm.used| && k < |vm.swap| then Some(SwappedOut(vm, p, k, data)) else None
  }

  /** do_eviction: the page freed. No result means that it does not return. */
  function Evict(vm: Vm): Option<(Vm, Kpage)> {
    if exists f :: f in vm.table && f !in vm.frames then None
    else
      var r := Clock(vm.table, vm.frames, HandIndex(vm), vm.accessed, 2 * |vm.table|);
      if r.Stuck? then None
      else
        var f := vm.frames[vm.table[r.index]];
        var p := f.spte.value;
        if p !in vm.pages || f.kpage !in vm.mem then None
        else
          var w := WrittenBack(Unlinked(vm, r.index, p, r.accessed), p, vm.mem[f.kpage]);
          if w.None? then None else Some((w.value, f.kpage))
  }

  /** frame_alloc with a zeroed page: a free one, or the victim's. */
  function FrameAlloc(vm: Vm, fid: Fid, choice: Kpage): Option<(Vm, Kpage)> {
    var got := if vm.pool == {} then Evict(vm)
               else if choice in vm.pool then Some((vm.(pool := vm.pool - {choice}), choice))
               else None;
    if got.None? then None
    else
      var (v, k) := got.value;
      Some((v.(mem := v.mem[k := Zeros()], table := v.table + [fid],
               frames := v.frames[fid := Frame(k, None, false)]), k))
  }

  /** frame_free. The hand is not moved. */
  function FrameFree(vm: Vm, fid: Fid): Vm
    requires fid in vm.frames
  {
    vm.(table := Removed(vm.table, fid), frames := vm.frames - {fid}, pool := vm.pool + {vm.frames[fid].kpage})
  }

  /** swap_free. */
  function SwapFree(used: seq<bool>, slot: nat): (r: seq<bool>)
    ensures |r| == |used|
  {
    if slot / SECTORS_PER_PAGE < |used| then used[slot / SECTORS_PER_PAGE := false] else used
  }

  /** The page is read into the new frame and mapped. page_fault gives its swap slot back,
      vm_load_page keeps it. */
  ghost function Filled(vm: Vm, p: Pid, fid: Fid, k: Kpage, fault: bool, pin: bool): Vm
    requires p in vm.pages
  {
    var e := vm.pages[p];
    var giveBack := fault && e.kind == Swapped;
    vm.(mem := vm.mem[k := Backing(e, vm.swap, vm.files)],
        frames := vm.frames[fid := Frame(k, Some(p), pin)],
        pages := vm.pages[p := e.(frame := Some(fid), slot := if giveBack then 0 else e.slot)],
        used := if giveBack then SwapFree(vm.used, e.slot) else vm.used,
        accessed := vm.accessed - {p}, dirty := vm.dirty - {p})
  }

  /** The loading part of page_fault, and vm_load_page of a page that is not in memory; `mapped`
      tells whether the page table had room. */
  ghost function Load(vm: Vm, p: Pid, fid: Fid, choice: Kpage, fault: bool, pin: bool, mapped: bool): Option<Vm>
  {
    var got := FrameAlloc(vm, fid, choice);
    if got.None? || p !in got.value.0.pages || fid !in got.value.0.frames then None
    else
      var (v, k) := got.value;
      if mapped then Some(Filled(v, p, fid, k, fault, pin)) else Some(FrameFree(v, fid))
  }

  /** spt_destroy_func. */
  function Destroyed(vm: Vm, p: Pid): Vm
    requires p in vm.pages
  {
    var e := vm.pages[p];
    var v := if e.frame.Some? && e.frame.value in vm.frames then FrameFree(vm, e.frame.value) else vm;
    v.(pages := v.pages - {p}, accessed := v.accessed - {p}, dirty := v.dirty - {p},
       used := if e.kind == Swapped && e.slot != 0 then SwapFree(v.used, e.slot) else v.used)
  }

  /** file_write_at of the page's part of its file. */
  function WrittenFile(files: map<FileId, Data>, e: Page, data: Data): map<FileId, Data> {
    if e.file in files && e.offset + e.readBytes <= |files[e.file]| && e.readBytes <= |data|
    then files[e.file := files[e.file][..e.offset] + data[..e.readBytes] + files[e.file][e.offset + e.readBytes..]]
    else files
  }

  /** One page of mmap_unmap; `buffer` tells whether a page for reading swap could be had. */
  ghost function Unmapped(vm: Vm, p: Pid, buffer: bool): Vm
    requires p in vm.pages
  {
    var e := vm.pages[p];
    if e.frame.Some? && e.frame.value in vm.frames && vm.frames[e.frame.value].kpage in vm.mem then
      var files := if p in vm.dirty || e.kind == Swapped
                   then WrittenFile(vm.files, e, vm.mem[vm.frames[e.frame.value].kpage]) else vm.files;
      Destroyed(vm, p).(files := files)
    else if e.kind == Swapped then
      var files := if buffer then WrittenFile(vm.files, e, Backing(e, vm.swap, vm.files)) else vm.files;
      vm.(pages := vm.pages - {p}, accessed := vm.accessed - {p}, dirty := vm.dirty - {p},
          used := SwapFree(vm.used, e.slot), files := files)
    else Destroyed(vm, p)
  }

  // Steps.

  datatype Step =
    | ReadStep(page: Pid)                              // a user access to a page in memory
    | WriteStep(page: Pid, index: nat, byte: Byte)
    | FaultStep(page: Pid, fid: Fid, choice: Kpage)
    | LoadStep(page: Pid, fid: Fid, choice: Kpage, pin: bool, mapped: bool)
    | UnpinStep(page: Pid)
    | AddStep(page: Pid, entry: Page)                  // stack growth, load_segment, mmap_map
    | DestroyStep(page: Pid)
    | UnmapStep(page: Pid, buffer: bool)

  predicate InMemory(vm: Vm, p: Pid) {
    p in vm.pages && vm.pages[p].frame.Some? && vm.pages[p].frame.value in vm.frames
    && vm.frames[vm.pages[p].frame.value].kpage in vm.mem
  }

  /** mmap_unmap writes the page to its file. */
  ghost predicate WritesBack(vm: Vm, p: Pid, buffer: bool)
    requires p in vm.pages
  {
    if InMemory(vm, p) then p in vm.dirty || vm.pages[p].kind == Swapped else vm.pages[p].kind == Swapped && buffer
  }

  /** What the page shows is what its part of the file holds. */
  ghost predicate AsOnDisk(vm: Vm, q: Pid)
    requires q in vm.pages
  {
    vm.pages[q].kind == FromFile && !(InMemory(vm, q) && q in vm.dirty)
  }

  /** Two pages show the same wherever they stand for the same byte of a file. */
  ghost predicate Agree(vm: Vm, p: Pid, q: Pid)
    requires p in vm.pages && q in vm.pages
  {
    var e, g := vm.pages[p], vm.pages[q];
    e.file == g.file ==>
      forall i, j :: 0 <= i < e.readBytes && i < |Shown(vm, p)| && 0 <= j < g.readBytes && j < |Shown(vm, q)| ==>
                       e.offset + i == g.offset + j ==> Shown(vm, p)[i] == Shown(vm, q)[j]
  }

  /** What mmap_unmap writes for `p` is what the other pages that show the file already show. */
  ghost predicate Harmless(vm: Vm, p: Pid, buffer: bool)
    requires p in vm.pages
  {
    WritesBack(vm, p, buffer) ==> forall q :: q in vm.pages && q != p && AsOnDisk(vm, q) ==> Agree(vm, p, q)
  }

  ghost predicate FileOk(e: Page, files: map<FileId, Data>) {
    e.readBytes <= 4096 && (e.readBytes > 0 ==> e.file in files && e.offset + e.readBytes <= |files[e.file]|)
  }

  ghost predicate Enabled(vm: Vm, step: Step) {
    match step
    case ReadStep(p) => InMemory(vm, p)
    case WriteStep(p, i, b) => InMemory(vm, p) && i < 4096
    case FaultStep(p, fid, choice) =>
      p in vm.pages && vm.pages[p].frame.None? && fid !in vm.frames && HandOk(vm)
      && Load(vm, p, fid, choice, true, false, true).Some?
    case LoadStep(p, fid, choice, pin, mapped) =>
      p in vm.pages && vm.pages[p].frame.None? && fid !in vm.frames && HandOk(vm)
      && Load(vm, p, fid, choice, false, pin, mapped).Some?
    case UnpinStep(p) => InMemory(vm, p)
    case AddStep(p, e) => p !in vm.pages && e.kind != Swapped && e.slot == 0 && e.frame.None? && FileOk(e, vm.files)
    case DestroyStep(p) => p in vm.pages
    case UnmapStep(p, buffer) => p in vm.pages && Harmless(vm, p, buffer)
  }

  ghost function Next(vm: Vm, step: Step): Vm
    requires Enabled(vm, step)
  {
    match step
    case ReadStep(p) => vm.(accessed := vm.accessed + {p})
    case WriteStep(p, i, b) =>
      var k := vm.frames[vm.pages[p].frame.value].kpage;
      vm.(mem := vm.mem[k := if i < |vm.mem[k]| then vm.mem[k][i := b] else vm.mem[k]],
          accessed := vm.accessed + {p}, dirty := vm.dirty + {p})
    case FaultStep(p, fid, choice) => Load(vm, p, fid, choice, true, false, true).value
    case LoadStep(p, fid, choice, pin, mapped) => Load(vm, p, fid, choice, false, pin, mapped).value
    case UnpinStep(p) =>
      var f := vm.pages[p].frame.value;
      vm.(frames := vm.frames[f := vm.frames[f].(pinned := false)])
    case AddStep(p, e) => vm.(pages := vm.pages[p := e], dirty := vm.dirty - {p}, accessed := vm.accessed - {p})
    case DestroyStep(p) => Destroyed(vm, p)
    case UnmapStep(p, buffer) => Unmapped(vm, p, buffer)
  }
}
