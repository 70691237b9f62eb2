/** The memory allocator as the C source runs it, with its loops. */
module HeapOps {
  import opened Wrappers
  import opened Orders
  import opened Storage
  import opened Heap
  import opened HeapInv
  import opened HeapTheorems
  import BM = Bitmap

  class Allocator {
    const pool: BM.Bitmap
    /** The bits of the page allocator's map. */
    ghost var used: seq<bool>
    var arenas: map<nat, Arena>
    var free: map<nat, seq<Addr>>
    ghost var live: map<Addr, nat>
    var mem: seq<Byte>
    var descs: seq<nat>

    ghost function View(): Heap
      reads this
    {
      Heap(used, arenas, free, live, mem)
    }

    /** malloc_init, on a pool of `n` pages. */
    constructor (n: nat, m: seq<Byte>)
      ensures descs == Sizes() && View() == Start(n, m) && BM.Is(pool, used)
    {
      pool := new BM.Bitmap(n);
      used := seq(n, _ => false);
      arenas := map[];
      live := map[];
      mem := m;
      var d: seq<nat>, f: map<nat, seq<Addr>> := [], map[];
      var blockSize := 16;
      while blockSize < 4096 / 2
        invariant |d| <= 7 && d == Sizes()[..|d|] && blockSize == if |d| < 7 then Sizes()[|d|] else 2048
        invariant f == map bs | bs in d :: []
        decreases 4096 - blockSize
      {
        d := d + [blockSize];
        f := f[blockSize := []];
        blockSize := blockSize * 2;
      }
      descs := d;
      free := f;
    }

    // threads/palloc.c

    /** palloc_get_multiple. */
    method PageAlloc(cnt: nat) returns (k: Option<nat>)
      requires BM.Is(pool, used)
      modifies this`used, pool.bits
      ensures BM.Is(pool, used) && k == GetPages(old(used), cnt)
      ensures used == if k.Some? then BM.SetRange(old(used), k.value, cnt, true) else old(used)
    {
      hide BM.Bitmap.Valid, BM.Bitmap.Contents;
      if cnt == 0 { return None; }
      k := pool.ScanAndFlip(0, cnt, false);
      if k.Some? { used := BM.SetRange(used, k.value, cnt, true); }
    }

    /** palloc_free_multiple; the pages must be in use. */
    method PageFree(k: nat, cnt: nat)
      requires BM.Is(pool, used) && BM.Group(used, k, cnt, true)
      modifies this`used, this`mem, pool.bits
      ensures BM.Is(pool, used) && View() == FreePages(old(View()), k, cnt)
    {
      hide BM.Bitmap.Valid, BM.Bitmap.Contents;
      mem := FilledMem(mem, 4096 * k, 4096 * cnt, 0xcc);
      pool.SetMultiple(k, cnt, false);
      used := BM.SetRange(used, k, cnt, false);
    }

    // threads/malloc.c

    /** The page becomes an arena, its blocks joining the free list one by one. */
    method InitArena(bs: nat, k: nat)
      requires bs in free
      modifies this`arenas, this`free
      ensures View() == old(View()).(arenas := old(arenas)[k := Small(bs, PerArena(bs))],
                                     free := old(free)[bs := old(free)[bs] + Blocks(k, bs, PerArena(bs))])
    {
      arenas := arenas[k := Small(bs, PerArena(bs))];
      ghost var before := free[bs];
      assert before + Blocks(k, bs, 0) == before;
      assert old(free)[bs := before] == free;
      for i := 0 to PerArena(bs)
        modifies this`free
        invariant bs in free && free == old(free)[bs := before + Blocks(k, bs, i)]
      {
        assert before + Blocks(k, bs, i + 1) == before + Blocks(k, bs, i) + [Block(k, bs, i)];
        free := free[bs := free[bs] + [Block(k, bs, i)]];
      }
    }

    method Allocate(size: nat) returns (r: Option<Addr>)
      requires Inv(View()) && BM.Is(pool, used) && descs == Sizes() && size < 0x1_0000_0000
      modifies this`used, this`arenas, this`free, this`live, pool.bits
      ensures (forall bs :: bs in Sizes() ==> bs in old(free)) && (View(), r) == Malloc(old(View()), size)
      ensures Inv(View()) && BM.Is(pool, used)
    {
      hide InvWith, Blocks, Block, BM.SetRange, Popped, GetPages, BM.Is;
      MallocInv(View(), size);
      if size == 0 { return None; }
      var i := 0;
      while i < |descs|
        invariant i <= |descs| && forall j :: 0 <= j < i ==> descs[j] < size
      {
        if descs[i] >= size { break; }
        i := i + 1;
      }
      if i == |descs| {
        var cnt := (size + 12 + 4095) % 0x1_0000_0000 / 4096;
        var g := PageAlloc(cnt);
        if g.None? { return None; }
        arenas := arenas[g.value := Big(cnt)];
        r := Some(4096 * g.value + 12);
        live := live[r.value := Granted(size)];
        return;
      }
      var bs := descs[i];
      assert DescFor(size) == Some(bs);
      SizesPositive(bs);
      if free[bs] == [] {
        var g := PageAlloc(1);
        if g.None? { return None; }
        NewArenaInv(old(View()), bs, g.value);
        InitArena(bs, g.value);
        assert View() == NewArena(old(View()), bs, g.value);
      }
      r := Take(bs, size);
    }

    /** The first free block leaves the list. */
    method Take(bs: nat, size: nat) returns (r: Option<Addr>)
      requires bs in free && free[bs] != []
      modifies this`free, this`arenas, this`live
      ensures View() == Popped(old(View()), bs, size) && r == Some(old(free[bs][0]))
    {
      var b := free[bs][0];
      free := free[bs := free[bs][1..]];
      var k := PageOf(b);
      if k in arenas && arenas[k].Small? && arenas[k].freeCnt > 0 {
        arenas := arenas[k := arenas[k].(freeCnt := arenas[k].freeCnt - 1)];
      }
      live := live[b := size];
      r := Some(b);
    }

    method Release(p: Option<Addr>)
      requires Inv(View()) && BM.Is(pool, used) && (p.Some? ==> p.value in live)
      modifies this`used, this`arenas, this`free, this`live, this`mem, pool.bits
      ensures View() == Free(old(View()), p) && Inv(View()) && BM.Is(pool, used)
    {
      hide BM.Is, BM.Group, InvWith, FilledMem, BM.SetRange, PerArena, DropArena, FreePages, HasBlock;
      FreeInv(View(), p);
      if p.None? { return; }
      var b := p.value;
      LiveArena(View(), b);
      InPool(View(), PageOf(b));
      PagesInUse(View(), PageOf(b));
      var k, a := PageOf(b), arenas[PageOf(b)];
      if a.Big? {
        live := live - {b};
        arenas := arenas - {k};
        PageFree(k, a.pages);
      } else {
        var bs := a.blockSize;
        mem := FilledMem(mem, b, bs, 0xcc);
        free := free[bs := [b] + free[bs]];
        live := live - {b};
        arenas := arenas[k := a.(freeCnt := a.freeCnt + 1)];
        assert View() == Pushed(old(View()), b, bs);
        if a.freeCnt + 1 >= PerArena(bs) { TakeApart(k, bs); }
      }
    }

    /** The blocks of an arena leave the free list one by one, and its page is given back. */
    method TakeApart(k: nat, bs: nat)
      requires bs in free && BM.Is(pool, used) && BM.Group(used, k, 1, true)
      modifies this`free, this`arenas, this`used, this`mem, pool.bits
      ensures View() == DropArena(old(View()), k, bs) && BM.Is(pool, used)
    {
      hide BM.Is, FilledMem, BM.SetRange, Block;
      ghost var s := free[bs];
      assert old(free)[bs := s] == free;
      for i := 0 to PerArena(bs)
        modifies this`free
        invariant bs in free && free == old(free)[bs := WithoutBlocks(s, k, bs, i)]
      {
        free := free[bs := Removed(free[bs], Block(k, bs, i))];
      }
      arenas := arenas - {k};
      PageFree(k, 1);
    }

    method Resize(p: Option<Addr>, size: nat) returns (r: Option<Addr>)
      requires Inv(View()) && descs == Sizes() && size < 0x1_0000_0000 && (p.Some? ==> p.value in live)
      requires BM.Is(pool, used) && CopyFits(View(), p, size)
      modifies this`used, this`arenas, this`free, this`live, this`mem, pool.bits
      ensures (forall bs :: bs in Sizes() ==> bs in old(free)) && (View(), r) == Realloc(old(View()), p, size)
      ensures Inv(View()) && BM.Is(pool, used)
    {
      hide BM.Is, InvWith, Malloc, Free, Sizes, Copied, Capacity;
      ReallocInv(View(), p, size);
      MallocInv(View(), size);
      if size == 0 {
        Release(p);
        return None;
      }
      r := Allocate(size);
      if p.Some? && r.Some? {
        BlockBounds(View(), p.value);
        var oldSize := Capacity(arenas, p.value);
        var n := if size < oldSize then size else oldSize;
        ghost var a := View();
        mem := Copied(mem, r.value, p.value, n);
        SameButMem(a, View());
        Release(p);
      }
    }
  }

  lemma PagesInUse(h: Heap, k: nat)
    requires Inv(h) && k in h.arenas
    ensures BM.Group(h.used, k, Span(h.arenas[k]), true)
  {
    hide SplitOk, CountOk, ListsOk, LiveOk;
  }
}
