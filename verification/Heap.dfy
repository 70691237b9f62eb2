/** The kernel's memory allocator: blocks of a few sizes cut from pages called arenas, and whole
    pages for big blocks (threads/malloc.c over threads/palloc.c). Addresses count from the start
    of the kernel pool. A page has 4096 bytes, an arena's header 12. */
module Heap {
  import opened Wrappers
  import opened Orders
  import opened Storage
  import BM = Bitmap

  type Addr = nat

  /** struct arena. The header of a small arena counts its free blocks, that of a big one its pages. */
  datatype Arena = Small(blockSize: nat, freeCnt: nat) | Big(pages: nat)

  /** `used` is the page allocator's bitmap, `arenas` the headers by page number, `free` the free
      lists by block size. `live` records the blocks handed out and how many bytes may be used. */
  datatype Heap = Heap(used: seq<bool>, arenas: map<nat, Arena>, free: map<nat, seq<Addr>>, live: map<Addr, nat>,
                       mem: seq<Byte>)

  /** malloc_init: the block sizes, each with the number of blocks in an arena. */
  function Sizes(): seq<nat> { [16, 32, 64, 128, 256, 512, 1024] }

  function PerArena(bs: nat): nat { if bs == 0 then 0 else 4084 / bs }

  /** arena_to_block. */
  function Block(k: nat, bs: nat, i: nat): Addr { 4096 * k + 12 + i * bs }

  /** The page number of an address, as pg_round_down gives it. */
  function PageOf(b: Addr): nat { b / 4096 }

  /** The smallest descriptor that satisfies a request. */
  function DescFor(size: nat): (r: Option<nat>)
    ensures r.Some? ==>
              r.value in Sizes() && size <= r.value && forall bs :: bs in Sizes() && size <= bs ==> r.value <= bs
    ensures r.None? ==> forall bs :: bs in Sizes() ==> bs < size
  {
    if size <= 16 then Some(16) else if size <= 32 then Some(32) else if size <= 64 then Some(64)
    else if size <= 128 then Some(128) else if size <= 256 then Some(256) else if size <= 512 then Some(512)
    else if size <= 1024 then Some(1024) else None
  }

  /** Pages for a big block. */
  function PagesFor(size: nat): nat { (size + 12 + 4095) % 0x1_0000_0000 / 4096 }

  /** How much of a request a block made for it really has: all of it, unless size plus header wraps
      around and a single page is made to do. */
  function Granted(size: nat): nat { if size + 12 <= 0x1_0000_0000 then size else 4084 }

  function Span(a: Arena): nat { if a.Small? then 1 else a.pages }

  /** The blocks of an arena, in order. */
  function Blocks(k: nat, bs: nat, n: nat): (s: seq<Addr>)
    ensures |s| == n && forall i :: 0 <= i < n ==> s[i] == Block(k, bs, i)
  {
    seq(n, i requires 0 <= i < n => Block(k, bs, i))
  }

  /** memset. */
  function FilledMem(mem: seq<Byte>, start: nat, cnt: nat, b: Byte): (r: seq<Byte>)
    ensures |r| == |mem| && forall i :: 0 <= i < |mem| ==> r[i] == if start <= i < start + cnt then b else mem[i]
  {
    seq(|mem|, i requires 0 <= i < |mem| => if start <= i < start + cnt then b else mem[i])
  }

  /** memcpy. */
  function Copied(mem: seq<Byte>, to: nat, from: nat, cnt: nat): (r: seq<Byte>)
    requires from + cnt <= |mem|
    ensures |r| == |mem|
    ensures forall i :: 0 <= i < |mem| ==> r[i] == if to <= i < to + cnt then mem[from + i - to] else mem[i]
  {
    seq(|mem|, i requires 0 <= i < |mem| => if to <= i < to + cnt then mem[from + i - to] else mem[i])
  }

  // threads/palloc.c

  /** palloc_get_multiple: the first page of a group, or none. */
  function GetPages(used: seq<bool>, cnt: nat): (r: Option<nat>)
    ensures r.Some? ==> cnt > 0 && BM.Group(used, r.value, cnt, false)
  {
    if cnt == 0 then None
    else BM.Scanned(used, 0, cnt, false)
  }

  /** palloc_free_multiple. */
  function FreePages(h: Heap, k: nat, cnt: nat): Heap {
    if k + cnt <= |h.used|
    then h.(used := BM.SetRange(h.used, k, cnt, false), mem := FilledMem(h.mem, 4096 * k, 4096 * cnt, 0xcc))
    else h
  }

  // threads/malloc.c

  /** The page becomes an arena, and its blocks are free. */
  function NewArena(h: Heap, bs: nat, k: nat): Heap
    requires bs in h.free && k < |h.used|
  {
    h.(used := BM.SetRange(h.used, k, 1, true), arenas := h.arenas[k := Small(bs, PerArena(bs))],
       free := h.free[bs := h.free[bs] + Blocks(k, bs, PerArena(bs))])
  }

  /** The first block of the free list is handed out. */
  function Popped(h: Heap, bs: nat, size: nat): Heap
    requires bs in h.free && h.free[bs] != []
  {
    var b := h.free[bs][0];
    var k := PageOf(b);
    h.(free := h.free[bs := h.free[bs][1..]], live := h.live[b := size],
       arenas := if k in h.arenas && h.arenas[k].Small? && h.arenas[k].freeCnt > 0
                 then h.arenas[k := h.arenas[k].(freeCnt := h.arenas[k].freeCnt - 1)] else h.arenas)
  }

  function MallocBig(h: Heap, size: nat): (Heap, Option<Addr>) {
    var cnt := PagesFor(size);
    match GetPages(h.used, cnt)
    case None => (h, None)
    case Some(k) =>
      (h.(used := BM.SetRange(h.used, k, cnt, true), arenas := h.arenas[k := Big(cnt)],
          live := h.live[4096 * k + 12 := Granted(size)]),
       Some(4096 * k + 12))
  }

  function MallocSmall(h: Heap, bs: nat, size: nat): (Heap, Option<Addr>)
    requires bs in h.free && PerArena(bs) > 0
  {
    if h.free[bs] != [] then (Popped(h, bs, size), Some(h.free[bs][0]))
    else
      match GetPages(h.used, 1)
      case None => (h, None)
      case Some(k) =>
        var a := NewArena(h, bs, k);
        (Popped(a, bs, size), Some(a.free[bs][0]))
  }

  function Malloc(h: Heap, size: nat): (Heap, Option<Addr>)
    requires forall bs :: bs in Sizes() ==> bs in h.free
  {
    if size == 0 then (h, None)
    else match DescFor(size)
         case None => MallocBig(h, size)
         case Some(bs) => MallocSmall(h, bs, size)
  }

  /** The free list without the first `n` blocks of the arena in page `k`. */
  function WithoutBlocks(s: seq<Addr>, k: nat, bs: nat, n: nat): seq<Addr> {
    if n == 0 then s else Removed(WithoutBlocks(s, k, bs, n - 1), Block(k, bs, n - 1))
  }

  /** The block goes to the front of its free list. */
  function Pushed(h: Heap, b: Addr, bs: nat): Heap
    requires bs in h.free && PageOf(b) in h.arenas && h.arenas[PageOf(b)].Small?
  {
    var a := h.arenas[PageOf(b)];
    h.(free := h.free[bs := [b] + h.free[bs]], live := h.live - {b},
       arenas := h.arenas[PageOf(b) := a.(freeCnt := a.freeCnt + 1)],
       mem := FilledMem(h.mem, b, bs, 0xcc))
  }

  /** The arena is taken apart and its page given back. */
  function DropArena(h: Heap, k: nat, bs: nat): Heap
    requires bs in h.free
  {
    FreePages(h.(free := h.free[bs := WithoutBlocks(h.free[bs], k, bs, PerArena(bs))], arenas := h.arenas - {k}), k, 1)
  }

  /** free. */
  function Free(h: Heap, p: Option<Addr>): Heap {
    if p.None? || PageOf(p.value) !in h.arenas then h
    else
      var b, k := p.value, PageOf(p.value);
      match h.arenas[k]
      case Big(cnt) => FreePages(h.(arenas := h.arenas - {k}, live := h.live - {b}), k, cnt)
      case Small(bs, freeCnt) =>
        if bs !in h.free then h
        else if freeCnt + 1 >= PerArena(bs) then DropArena(Pushed(h, b, bs), k, bs) else Pushed(h, b, bs)
  }

  /** block_size: the bytes a block can hold. */
  function Capacity(arenas: map<nat, Arena>, b: Addr): nat {
    var k := PageOf(b);
    if k !in arenas then 0
    else match arenas[k]
         case Small(bs, freeCnt) => bs
         case Big(cnt) => if b % 4096 <= 4096 * cnt then 4096 * cnt - b % 4096 else 0
  }

  function Min(a: nat, b: nat): nat { if a < b then a else b }

  /** realloc. */
  function Realloc(h: Heap, p: Option<Addr>, size: nat): (Heap, Option<Addr>)
    requires forall bs :: bs in Sizes() ==> bs in h.free
  {
    if size == 0 then (Free(h, p), None)
    else
      var (a, q) := Malloc(h, size);
      if p.None? || q.None? then (a, q)
      else
        var n := Min(size, Capacity(a.arenas, p.value));
        var c := if p.value + n <= |a.mem| then a.(mem := Copied(a.mem, q.value, p.value, n)) else a;
        (Free(c, p), q)
  }
}
