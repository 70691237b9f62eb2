/** What the allocator promises: blocks in use never overlap, keep their contents, and pages go
    back exactly when their last block is freed. */
module HeapTheorems {
  import opened Wrappers
  import opened Orders
  import opened Storage
  import opened Heap
  import opened HeapInv
  import BM = Bitmap

  /** Where a block lies: it starts behind the header and stays inside its arena's pages. */
  lemma BlockBounds(h: Heap, b: Addr)
    requires Inv(h) && b in h.live
    ensures var k := PageOf(b);
            && k in h.arenas && h.live[b] <= Capacity(h.arenas, b) && Capacity(h.arenas, b) > 0
            && 4096 * k + 12 <= b && b + Capacity(h.arenas, b) <= 4096 * (k + Span(h.arenas[k]))
            && b + Capacity(h.arenas, b) <= |h.mem|
  {
    hide Inv, HasBlock, Block, Capacity;
    LiveArena(h, b);
    var k := PageOf(b);
    InPool(h, k);
    if h.arenas[k].Small? { SmallBounds(h, b); } else { BigBounds(h, b); }
  }

  lemma InPool(h: Heap, k: nat)
    requires Inv(h) && k in h.arenas
    ensures 4096 * (k + Span(h.arenas[k])) <= |h.mem| && Span(h.arenas[k]) > 0 && k + Span(h.arenas[k]) <= |h.used|
    ensures h.arenas[k].Small? ==> h.arenas[k].blockSize in Sizes()
  {
    hide SplitOk, CountOk, ListsOk, LiveOk;
    assert BM.Group(h.used, k, Span(h.arenas[k]), true);
  }

  lemma SmallBounds(h: Heap, b: Addr)
    requires b in h.live && LiveBlock(h.arenas, b, h.live[b]) && h.arenas[PageOf(b)].Small?
    requires h.arenas[PageOf(b)].blockSize in Sizes()
    ensures var k := PageOf(b);
            && h.live[b] <= Capacity(h.arenas, b) && Capacity(h.arenas, b) > 0
            && 4096 * k + 12 <= b && b + Capacity(h.arenas, b) <= 4096 * (k + 1)
  {
    var k := PageOf(b);
    var bs := h.arenas[k].blockSize;
    SizesPositive(bs);
    hide Sizes;
    var i := Number(h.arenas, bs, b);
    BlockPlace(k, bs, i);
  }

  lemma BigBounds(h: Heap, b: Addr)
    requires b in h.live && LiveBlock(h.arenas, b, h.live[b]) && h.arenas[PageOf(b)].Big?
    ensures var k := PageOf(b);
            && h.live[b] <= Capacity(h.arenas, b) && Capacity(h.arenas, b) > 0
            && 4096 * k + 12 <= b && b + Capacity(h.arenas, b) <= 4096 * (k + h.arenas[k].pages)
  {
    var k := PageOf(b);
    assert b == 4096 * k + 12 && b % 4096 == 12;
  }

  /** Two blocks in use have no byte in common. */
  lemma BlocksDisjoint(h: Heap, b: Addr, c: Addr)
    requires Inv(h) && b in h.live && c in h.live && b != c
    ensures b + Capacity(h.arenas, b) <= c || c + Capacity(h.arenas, c) <= b
  {
    hide InvWith, Capacity, HasBlock, Block;
    BlockBounds(h, b);
    BlockBounds(h, c);
    LiveArena(h, b);
    LiveArena(h, c);
    var k, j := PageOf(b), PageOf(c);
    if k != j {
      SpansApart(h, k, j);
    } else {
      SamePage(h, b, c);
    }
  }

  lemma SpansApart(h: Heap, k: nat, j: nat)
    requires Inv(h) && k in h.arenas && j in h.arenas && k != j
    ensures 4096 * (k + Span(h.arenas[k])) <= 4096 * j || 4096 * (j + Span(h.arenas[j])) <= 4096 * k
  {
    hide SplitOk, CountOk, ListsOk, LiveOk;
  }

  lemma SamePage(h: Heap, b: Addr, c: Addr)
    requires PageOf(b) == PageOf(c) && PageOf(b) in h.arenas && b != c && b in h.live && c in h.live
    requires LiveBlock(h.arenas, b, h.live[b]) && LiveBlock(h.arenas, c, h.live[c])
    ensures b + Capacity(h.arenas, b) <= c || c + Capacity(h.arenas, c) <= b
  {
    var k := PageOf(b);
    if h.arenas[k].Small? {
      var bs := h.arenas[k].blockSize;
      var i := Number(h.arenas, bs, b);
      var j := Number(h.arenas, bs, c);
      if i < j { BlocksApart(bs, i, j); }
      if j < i { BlocksApart(bs, j, i); }
    }
  }

  /** A block in use has no byte in common with a block on a free list, nor with any arena's header. */
  lemma FreeDisjoint(h: Heap, b: Addr, bs: nat, f: Addr)
    requires Inv(h) && b in h.live && bs in h.free && f in h.free[bs]
    ensures b + Capacity(h.arenas, b) <= f || f + bs <= b
  {
    hide SplitOk, CountOk, Distinct, LiveOk, HasBlock, Block, Capacity;
    assert ListOk(h.arenas, bs, h.free[bs]);
    var k, j := PageOf(b), PageOf(f);
    var n := Number(h.arenas, bs, f);
    ArenaIs(h.arenas, bs, f);
    SizesPositive(bs);
    FreePlace(j, bs, n);
    BlockBounds(h, b);
    LiveArena(h, b);
    if k != j { SpansApart(h, k, j); } else { FreeSamePage(h, b, bs, f, n); }
  }

  lemma FreePlace(k: nat, bs: nat, i: nat)
    requires bs > 0 && i < PerArena(bs)
    ensures 4096 * k <= Block(k, bs, i) && Block(k, bs, i) + bs <= 4096 * (k + 1)
  {
    BlockPlace(k, bs, i);
  }

  lemma FreeSamePage(h: Heap, b: Addr, bs: nat, f: Addr, n: nat)
    requires SplitOk(h.arenas, h.free, h.live) && b in h.live && bs in h.free && f in h.free[bs]
    requires PageOf(b) == PageOf(f)
    requires HasBlock(h.arenas, bs, f) && n < PerArena(bs) && f == Block(PageOf(f), bs, n)
    requires LiveBlock(h.arenas, b, h.live[b])
    ensures b + Capacity(h.arenas, b) <= f || f + bs <= b
  {
    var i := Number(h.arenas, bs, b);
    assert b != f;
    if i < n { BlocksApart(bs, i, n); }
    if n < i { BlocksApart(bs, n, i); }
  }

  lemma HeaderDisjoint(h: Heap, b: Addr, k: nat)
    requires Inv(h) && b in h.live && k in h.arenas
    ensures 4096 * k + 12 <= b || b + Capacity(h.arenas, b) <= 4096 * k
  {
    hide InvWith, Capacity;
    BlockBounds(h, b);
    if k != PageOf(b) { SpansApart(h, k, PageOf(b)); }
  }

  /** Freeing a small block gives its page back exactly if no other block of the page is in use. */
  lemma PageGoesBack(h: Heap, b: Addr)
    requires Inv(h) && b in h.live && PageOf(b) in h.arenas && h.arenas[PageOf(b)].Small?
    ensures var r, k := Free(h, Some(b)), PageOf(b);
            && k < |h.used| && h.used[k]
            && r.used == if exists c :: c in h.live && c != b && PageOf(c) == k then h.used else h.used[k := false]
  {
    hide InvWith, Pushed, DropArena, HasBlock, Block;
    var k := PageOf(b);
    LiveArena(h, b);
    var bs := h.arenas[k].blockSize;
    PushedInv(h, b, bs);
    PushedIs(h, b, bs);
    var r := Pushed(h, b, bs);
    UsedPage(h, k);
    if h.arenas[k].freeCnt + 1 >= PerArena(bs) {
      DropArenaInv(r, k, bs);
      WholeFree(r, k, bs);
      assert BM.SetRange(h.used, k, 1, false) == h.used[k := false];
    } else {
      SomeoneElse(r, k, bs);
    }
  }

  lemma UsedPage(h: Heap, k: nat)
    requires Inv(h) && k in h.arenas
    ensures k < |h.used| && h.used[k]
  {
    assert BM.Group(h.used, k, Span(h.arenas[k]), true);
  }

  /** Every small arena has a block in use. */
  lemma SomeoneElse(h: Heap, k: nat, bs: nat)
    requires Inv(h) && k in h.arenas && h.arenas[k].Small? && h.arenas[k].blockSize == bs && bs in h.free
    ensures exists c :: c in h.live && PageOf(c) == k
  {
    hide Block, Distinct, ListsOk, PagesOk, LiveOk;
    var f := FreeIn(h.free[bs], k, bs);
    Full(f, PerArena(bs));
    var i: nat :| i < PerArena(bs) && i !in f;
    PlaceOf(bs, i, k);
    assert Block(k, bs, i) in h.live;
  }

  // Contents.

  /** The same `n` bytes from `a` on. */
  ghost predicate SameBytes(m: seq<Byte>, r: seq<Byte>, a: nat, n: nat) {
    |r| == |m| && a + n <= |m| && r[a..a + n] == m[a..a + n]
  }

  /** free of one block leaves the bytes of every other block in use. */
  lemma FreeKeeps(h: Heap, b: Addr, c: Addr)
    requires Inv(h) && b in h.live && c in h.live && b != c
    ensures var r := Free(h, Some(b));
            SameBytes(h.mem, r.mem, c, Capacity(h.arenas, c)) && Capacity(r.arenas, c) == Capacity(h.arenas, c)
  {
    hide InvWith, HasBlock, Block, FilledMem, SameBytes, BM.SetRange, WithoutBlocks;
    var k, n := PageOf(b), Capacity(h.arenas, c);
    LiveArena(h, b);
    BlockBounds(h, b);
    BlockBounds(h, c);
    BlocksDisjoint(h, b, c);
    if h.arenas[k].Small? {
      var bs := h.arenas[k].blockSize;
      var v := Pushed(h, b, bs);
      PushedInv(h, b, bs);
      FilledElsewhere(h.mem, b, bs, c, n);
      if h.arenas[k].freeCnt + 1 >= PerArena(bs) {
        WholeFree(v, k, bs);
        SpansApart(h, k, PageOf(c));
        FilledElsewhere(v.mem, 4096 * k, 4096, c, n);
        SameTrans(h.mem, v.mem, FilledMem(v.mem, 4096 * k, 4096, 0xcc), c, n);
      }
    } else {
      BigAlone(h, b, c);
      SpansApart(h, k, PageOf(c));
      FilledElsewhere(h.mem, 4096 * k, 4096 * h.arenas[k].pages, c, n);
      SameRefl(h.mem, c, n);
    }
  }

  lemma FilledElsewhere(m: seq<Byte>, start: nat, cnt: nat, c: nat, n: nat)
    requires c + n <= |m| && (c + n <= start || start + cnt <= c)
    ensures SameBytes(m, FilledMem(m, start, cnt, 0xcc), c, n)
  {
  }

  lemma SameRefl(m: seq<Byte>, c: nat, n: nat)
    requires c + n <= |m|
    ensures SameBytes(m, m, c, n)
  {
  }

  lemma SameTrans(m: seq<Byte>, r: seq<Byte>, s: seq<Byte>, c: nat, n: nat)
    requires SameBytes(m, r, c, n) && SameBytes(r, s, c, n)
    ensures SameBytes(m, s, c, n)
  {
  }

  lemma BigAlone(h: Heap, b: Addr, c: Addr)
    requires Inv(h) && b in h.live && c in h.live && b != c && PageOf(b) in h.arenas && h.arenas[PageOf(b)].Big?
    ensures PageOf(c) != PageOf(b)
  {
    hide InvWith, HasBlock;
    LiveArena(h, b);
    LiveArena(h, c);
  }

  /** malloc hands out bytes that no other block in use has; the others stay where they are and
      keep theirs. */
  lemma MallocKeeps(h: Heap, size: nat, c: Addr)
    requires Inv(h) && size < 0x1_0000_0000 && c in h.live
    ensures forall bs :: bs in Sizes() ==> bs in h.free
    ensures var (r, b) := Malloc(h, size);
            && c in r.live && r.live[c] == h.live[c] && Capacity(r.arenas, c) == Capacity(h.arenas, c)
            && SameBytes(h.mem, r.mem, c, Capacity(h.arenas, c))
            && (b.Some? ==> b.value + Capacity(r.arenas, b.value) <= c || c + Capacity(r.arenas, c) <= b.value)
  {
    hide Inv, Block, Malloc, Capacity;
    MallocInv(h, size);
    LiveArena(h, c);
    MallocCapacity(h, size, c);
    BlockBounds(h, c);
    var (r, b) := Malloc(h, size);
    if b.Some? { BlocksDisjoint(r, b.value, c); }
  }

  lemma MallocCapacity(h: Heap, size: nat, c: Addr)
    requires Inv(h) && c in h.live && PageOf(c) in h.arenas && forall bs :: bs in Sizes() ==> bs in h.free
    ensures Capacity(Malloc(h, size).0.arenas, c) == Capacity(h.arenas, c)
  {
    hide Inv, Block, Malloc;
    MallocArenas(h, size, PageOf(c));
  }

  /** The 32-bit sum of size and header may wrap around: a block that malloc returns is as large
      as asked for exactly if it does not exceed 2^32, which shuts out the eleven largest sizes. */
  lemma MallocHolds(h: Heap, size: nat)
    requires Inv(h) && size < 0x1_0000_0000 && forall bs :: bs in Sizes() ==> bs in h.free
    requires Malloc(h, size).1.Some?
    ensures var (r, b) := Malloc(h, size); size <= Capacity(r.arenas, b.value) <==> size + 12 <= 0x1_0000_0000
  {
    hide Inv, Malloc, Capacity;
    if size + 12 <= 0x1_0000_0000 {
      MallocInv(h, size);
      BlockBounds(Malloc(h, size).0, Malloc(h, size).1.value);
    } else {
      MallocShort(h, size);
    }
  }

  lemma MallocShort(h: Heap, size: nat)
    requires size < 0x1_0000_0000 < size + 12 && forall bs :: bs in Sizes() ==> bs in h.free
    ensures var (r, b) := Malloc(h, size); b.Some? ==> Capacity(r.arenas, b.value) == 4084
  {
    hide MallocSmall, GetPages, BM.SetRange;
    assert DescFor(size) == None && PagesFor(size) == 1;
    var g := GetPages(h.used, 1);
    if g.Some? { HeaderPage(g.value); }
  }

  lemma HeaderPage(k: nat)
    ensures PageOf(4096 * k + 12) == k && (4096 * k + 12) % 4096 == 12
  {
  }

  /** With a single free page the largest request gets a block of 4084 bytes. */
  lemma WrappedRequest(mem: seq<Byte>)
    requires |mem| == 4096
    ensures var h := Start(1, mem);
            && (forall bs :: bs in Sizes() ==> bs in h.free)
            && var (r, b) := Malloc(h, 0xFFFF_FFFF); b == Some(12) && Capacity(r.arenas, 12) == 4084
  {
    var h := Start(1, mem);
    assert PagesFor(0xFFFF_FFFF) == 1 && BM.Group(h.used, 0, 1, false);
  }

  ghost predicate SameArena(h: map<nat, Arena>, r: map<nat, Arena>, k: nat) {
    && k in h && k in r && (r[k].Small? <==> h[k].Small?)
    && (r[k].Small? ==> r[k].blockSize == h[k].blockSize) && (r[k].Big? ==> r[k] == h[k])
  }

  lemma MallocArenas(h: Heap, size: nat, k: nat)
    requires Inv(h) && k in h.arenas && forall bs :: bs in Sizes() ==> bs in h.free
    ensures SameArena(h.arenas, Malloc(h, size).0.arenas, k)
  {
    hide SplitOk, CountOk, ListOk, LiveOk, Block, Blocks, BM.SetRange, GetPages, Popped;
    if size > 0 {
      var d := DescFor(size);
      var g := GetPages(h.used, if d.Some? then 1 else PagesFor(size));
      if g.Some? { PagesAdd(h.arenas, h.used, g.value, if d.Some? then Small(d.value, 0) else Big(PagesFor(size))); }
      if d.Some? {
        SizesPositive(d.value);
        if h.free[d.value] != [] {
          PoppedArenas(h, d.value, size, k);
        } else if g.Some? {
          PoppedArenas(NewArena(h, d.value, g.value), d.value, size, k);
        }
      }
    }
  }

  lemma PoppedArenas(h: Heap, bs: nat, size: nat, k: nat)
    requires bs in h.free && h.free[bs] != [] && k in h.arenas
    ensures SameArena(h.arenas, Popped(h, bs, size).arenas, k)
  {
  }

  /** The `n` bytes at `to` are those that were at `from`. */
  ghost predicate Moved(m: seq<Byte>, from: nat, r: seq<Byte>, to: nat, n: nat) {
    from + n <= |m| && to + n <= |r| && r[to..to + n] == m[from..from + n]
  }

  /** realloc keeps the invariant; it gives a block of the new size holding the bytes the old and
      the new block have in common, or, if memory is short, nothing, with the old block untouched. */
  lemma ReallocInv(h: Heap, p: Option<Addr>, size: nat)
    requires Inv(h) && size < 0x1_0000_0000 && (p.Some? ==> p.value in h.live) && CopyFits(h, p, size)
    ensures forall bs :: bs in Sizes() ==> bs in h.free
    ensures var (r, q) := Realloc(h, p, size);
            && Inv(r)
            && (size == 0 ==> q.None? && r == Free(h, p))
            && (size > 0 && q.None? ==> r == h)
            && (q.Some? ==>
                  && size > 0 && q.value !in h.live && |r.mem| == |h.mem|
                  && q.value + Granted(size) <= |r.mem|
                  && r.live == (if p.Some? then h.live - {p.value} else h.live)[q.value := Granted(size)])
            && (p.Some? && q.Some? ==> Moved(h.mem, p.value, r.mem, q.value, Min(size, Capacity(h.arenas, p.value))))
  {
    hide Inv, Malloc, Free, Capacity, Sizes, Granted;
    MallocInv(h, size);
    if size == 0 {
      FreeInv(h, p);
    } else {
      var (a, q) := Malloc(h, size);
      if q.Some? {
        BlockBounds(a, q.value);
        if p.Some? { MovedInv(h, a, p.value, q.value, size); }
      }
    }
  }

  /** What realloc copies fits into the new block: it does unless size plus header wraps around and
      the old block has more than the page less its header. */
  predicate CopyFits(h: Heap, p: Option<Addr>, size: nat) {
    size + 12 <= 0x1_0000_0000 || p.None? || Capacity(h.arenas, p.value) <= 4084
  }

  /** This is exactly the condition. */
  lemma CopyRoom(h: Heap, p: Addr, size: nat)
    requires Inv(h) && size < 0x1_0000_0000 && (forall bs :: bs in Sizes() ==> bs in h.free)
    ensures var (a, q) := Malloc(h, size);
            q.Some? ==> (Min(size, Capacity(h.arenas, p)) <= Capacity(a.arenas, q.value) <==>
                           CopyFits(h, Some(p), size))
  {
    hide Inv, Malloc, Capacity, Sizes;
    if Malloc(h, size).1.Some? {
      MallocHolds(h, size);
      if size + 12 > 0x1_0000_0000 { MallocShort(h, size); }
    }
  }

  /** With three pages, a block of 5000 bytes that is to become one of 2^32 - 1: its 8180 bytes do
      not fit in the block of 4084 that malloc gives. */
  lemma CopyTooLong(mem: seq<Byte>)
    requires |mem| == 3 * 4096
    ensures forall bs :: bs in Sizes() ==> bs in Start(3, mem).free
    ensures var (h, p) := Malloc(Start(3, mem), 5000);
            && Inv(h) && p == Some(12) && 12 in h.live && (forall bs :: bs in Sizes() ==> bs in h.free)
            && !CopyFits(h, p, 0xFFFF_FFFF) && Capacity(h.arenas, 12) == 8180
            && var (a, q) := Malloc(h, 0xFFFF_FFFF); q == Some(8204) && Capacity(a.arenas, 8204) == 4084
  {
    var s := Start(3, mem);
    StartInv(3, mem);
    MallocInv(s, 5000);
    FirstBlock(mem);
    hide Inv, Malloc, Start;
    LastPage(Malloc(s, 5000).0);
  }

  lemma FirstBlock(mem: seq<Byte>)
    ensures forall bs :: bs in Sizes() ==> bs in Start(3, mem).free
    ensures var (h, p) := Malloc(Start(3, mem), 5000);
            && p == Some(12) && 12 in h.live && (forall bs :: bs in Sizes() ==> bs in h.free)
            && h.used == [true, true, false] && 0 in h.arenas && h.arenas[0] == Big(2)
  {
    hide MallocSmall, Sizes;
    var s := Start(3, mem);
    assert PagesFor(5000) == 2 && BM.Group(s.used, 0, 2, false);
    assert DescFor(5000) == None by { NoDesc(5000); }
  }

  lemma NoDesc(size: nat)
    requires size > 1024
    ensures DescFor(size) == None
  {
  }

  lemma LastPage(h: Heap)
    requires h.used == [true, true, false] && forall bs :: bs in Sizes() ==> bs in h.free
    ensures var (a, q) := Malloc(h, 0xFFFF_FFFF); q == Some(8204) && Capacity(a.arenas, 8204) == 4084
  {
    hide MallocSmall, Sizes;
    NoDesc(0xFFFF_FFFF);
    assert PagesFor(0xFFFF_FFFF) == 1;
    assert h.used[0] && h.used[1];
    assert BM.Group(h.used, 2, 1, false) && !BM.Group(h.used, 0, 1, false) && !BM.Group(h.used, 1, 1, false);
    HeaderPage(2);
  }

  lemma MovedInv(h: Heap, a: Heap, p: Addr, q: Addr, size: nat)
    requires Inv(h) && Inv(a) && p in h.live && q !in h.live && a.live == h.live[q := Granted(size)] && a.mem == h.mem
    requires 0 < size < 0x1_0000_0000 && CopyFits(h, Some(p), size)
    requires (forall bs :: bs in Sizes() ==> bs in h.free) && Malloc(h, size) == (a, Some(q))
    ensures p + Capacity(a.arenas, p) <= |a.mem|
    ensures var n := Min(size, Capacity(a.arenas, p));
            var r := Free(a.(mem := Copied(a.mem, q, p, n)), Some(p));
            && Inv(r) && r.live == (h.live - {p})[q := Granted(size)] && |r.mem| == |h.mem|
            && q + Granted(size) <= |r.mem|
            && Capacity(a.arenas, p) == Capacity(h.arenas, p)
            && Moved(h.mem, p, r.mem, q, n)
  {
    hide Inv, Malloc, Free, Capacity, Sizes, Granted, Moved, CopyFits;
    BlockBounds(a, p);
    BlockBounds(a, q);
    MallocKeeps(h, size, p);
    var n := Min(size, Capacity(a.arenas, p));
    var c := a.(mem := Copied(a.mem, q, p, n));
    SameButMem(a, c);
    FreeInv(c, Some(p));
    FreeKeeps(c, p, q);
    assert (h.live - {p})[q := Granted(size)] == c.live - {p};
    CopyRoom(h, p, size);
    BytesMoved(a.mem, p, q, n, Free(c, Some(p)).mem, Capacity(a.arenas, q));
  }

  lemma BytesMoved(m: seq<Byte>, p: nat, q: nat, n: nat, r: seq<Byte>, room: nat)
    requires p + n <= |m| && q + room <= |m| && n <= room && SameBytes(Copied(m, q, p, n), r, q, room)
    ensures Moved(m, p, r, q, n)
  {
    var c := Copied(m, q, p, n);
    Prefix(c, r, q, room, n);
    assert c[q..q + n] == m[p..p + n];
  }

  lemma Prefix(m: seq<Byte>, r: seq<Byte>, a: nat, n: nat, i: nat)
    requires SameBytes(m, r, a, n) && i <= n
    ensures r[a..a + i] == m[a..a + i]
  {
    assert r[a..a + n][..i] == r[a..a + i] && m[a..a + n][..i] == m[a..a + i];
  }

  lemma SameButMem(h: Heap, c: Heap)
    requires Inv(h) && c == h.(mem := c.mem) && |c.mem| == |h.mem|
    ensures Inv(c)
  {
  }

  /** realloc leaves the bytes of every other block in use. */
  lemma ReallocKeeps(h: Heap, p: Option<Addr>, size: nat, c: Addr)
    requires Inv(h) && size < 0x1_0000_0000 && (p.Some? ==> p.value in h.live) && c in h.live && p != Some(c)
    requires CopyFits(h, p, size)
    ensures forall bs :: bs in Sizes() ==> bs in h.free
    ensures var r := Realloc(h, p, size).0;
            SameBytes(h.mem, r.mem, c, Capacity(h.arenas, c))
  {
    hide Inv, Malloc, Free, Capacity, Sizes;
    MallocInv(h, size);
    BlockBounds(h, c);
    if size == 0 {
      if p.Some? { FreeKeeps(h, p.value, c); } else { FreeNothing(h); }
    } else {
      var (a, q) := Malloc(h, size);
      if p.Some? && q.Some? {
        MallocKeeps(h, size, c);
        BlockBounds(a, p.value);
        BlockBounds(a, q.value);
        MallocCapacity(h, size, p.value) by { LiveArena(h, p.value); }
        CopyRoom(h, p.value, size);
        var n := Min(size, Capacity(a.arenas, p.value));
        var b := a.(mem := Copied(a.mem, q.value, p.value, n));
        CopiedElsewhere(a.mem, q.value, p.value, n, c, Capacity(a.arenas, c));
        SameButMem(a, b);
        FreeKeeps(b, p.value, c);
      }
    }
  }

  lemma CopiedElsewhere(m: seq<Byte>, to: nat, from: nat, cnt: nat, c: nat, n: nat)
    requires from + cnt <= |m| && c + n <= |m| && (c + n <= to || to + cnt <= c)
    ensures SameBytes(m, Copied(m, to, from, cnt), c, n)
  {
  }

  lemma FreeNothing(h: Heap)
    ensures Free(h, None) == h
  {
  }

  // Runs.

  datatype Op = MallocOp(size: nat) | FreeOp(block: Option<Addr>) | ReallocOp(block: Option<Addr>,
                         size: nat) | WriteOp(at: Addr, index: nat, byte: Byte)

  /** Callers pass blocks that are in use, and write inside them; sizes are 32-bit numbers, and what
      realloc copies fits into the new block. */
  ghost predicate Enabled(h: Heap, op: Op) {
    && (forall bs :: bs in Sizes() ==> bs in h.free)
    && match op
       case MallocOp(size) => size < 0x1_0000_0000
       case FreeOp(p) => p.Some? ==> p.value in h.live
       case ReallocOp(p, size) => size < 0x1_0000_0000 && (p.Some? ==> p.value in h.live) && CopyFits(h, p, size)
       case WriteOp(b, i, x) => b in h.live && i < h.live[b]
  }

  function Next(h: Heap, op: Op): Heap
    requires forall bs :: bs in Sizes() ==> bs in h.free
  {
    match op
    case MallocOp(size) => Malloc(h, size).0
    case FreeOp(p) => Free(h, p)
    case ReallocOp(p, size) => Realloc(h, p, size).0
    case WriteOp(b, i, x) => if b + i < |h.mem| then h.(mem := h.mem[b + i := x]) else h
  }

  lemma NextInv(h: Heap, op: Op)
    requires Inv(h) && Enabled(h, op)
    ensures Inv(Next(h, op))
  {
    hide InvWith, Malloc, Free, Realloc, Sizes;
    match op
    case MallocOp(size) => MallocInv(h, size);
    case FreeOp(p) => FreeInv(h, p);
    case ReallocOp(p, size) => ReallocInv(h, p, size);
    case WriteOp(b, i, x) => SameButMem(h, Next(h, op));
  }

  ghost predicate Legal(h: Heap, ops: seq<Op>)
    decreases |ops|
  {
    ops == [] || (Enabled(h, ops[0]) && Legal(Next(h, ops[0]), ops[1..]))
  }

  ghost function After(h: Heap, ops: seq<Op>): Heap
    requires Legal(h, ops)
    decreases |ops|
  {
    if ops == [] then h else After(Next(h, ops[0]), ops[1..])
  }

  lemma {:induction false} RunInv(h: Heap, ops: seq<Op>)
    requires Inv(h) && Legal(h, ops)
    ensures Inv(After(h, ops))
    decreases |ops|
  {
    hide InvWith, Next, Sizes;
    if ops != [] {
      NextInv(h, ops[0]);
      RunInv(Next(h, ops[0]), ops[1..]);
    }
  }

  /** After malloc_init, with `n` pages in the pool. */
  function Start(n: nat, mem: seq<Byte>): Heap {
    Heap(seq(n, _ => false), map[], map bs | bs in Sizes() :: [], map[], mem)
  }

  lemma StartInv(n: nat, mem: seq<Byte>)
    requires |mem| == 4096 * n
    ensures Inv(Start(n, mem))
  {
  }

  /** After any sequence of calls, blocks in use are disjoint and large enough, every free count
      is right, and every small arena has a block in use. */
  lemma AllocatorSafe(n: nat, mem: seq<Byte>, ops: seq<Op>, b: Addr, c: Addr)
    requires |mem| == 4096 * n && Legal(Start(n, mem), ops)
    ensures var h := After(Start(n, mem), ops);
            && (b in h.live ==> h.live[b] <= Capacity(h.arenas, b) && b + Capacity(h.arenas, b) <= |h.mem|)
            && (b in h.live && c in h.live && b != c ==>
                  b + Capacity(h.arenas, b) <= c || c + Capacity(h.arenas, c) <= b)
            && (forall k :: k in h.arenas && h.arenas[k].Small? ==>
                  && h.arenas[k].blockSize in h.free
                  && h.arenas[k].freeCnt == |FreeIn(h.free[h.arenas[k].blockSize], k, h.arenas[k].blockSize)|
                  && exists d :: d in h.live && PageOf(d) == k)
  {
    hide Legal, After, Capacity, FreeIn, SplitOk, LiveOk, ListOk;
    StartInv(n, mem);
    RunInv(Start(n, mem), ops);
    var h := After(Start(n, mem), ops);
    if b in h.live { BlockBounds(h, b); }
    if b in h.live && c in h.live && b != c { BlocksDisjoint(h, b, c); }
    forall k | k in h.arenas && h.arenas[k].Small? ensures exists d :: d in h.live && PageOf(d) == k {
      SomeoneElse(h, k, h.arenas[k].blockSize);
    }
  }
}
