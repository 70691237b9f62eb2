/** When malloc and realloc have a block to give, and which one it is (threads/malloc.c). */
module HeapExact {
  import opened Wrappers
  import opened Heap
  import opened HeapInv
  import opened HeapTheorems
  import BM = Bitmap

  /** `bs` is the smallest block size that is enough for `size`. */
  predicate Smallest(size: nat, bs: nat) {
    bs in Sizes() && size <= bs && forall c :: c in Sizes() && size <= c ==> bs <= c
  }

  /** There is no block for a request of `size` bytes: the list of its block size is empty and no
      page is free, or no run of free pages is long enough. */
  ghost predicate NoBlock(h: Heap, size: nat) {
    if size <= 1024 then
      && (forall bs :: Smallest(size, bs) && bs in h.free ==> h.free[bs] == [])
      && (forall k :: 0 <= k < |h.used| ==> h.used[k])
    else
      PagesFor(size) == 0 || forall k :: 0 <= k ==> !BM.Group(h.used, k, PagesFor(size), false)
  }

  lemma SmallestIs(size: nat, bs: nat)
    requires DescFor(size) == Some(bs)
    ensures Smallest(size, bs) && size <= 1024 && forall c :: Smallest(size, c) ==> c == bs
  {
  }

  lemma NoneSmall(size: nat)
    ensures DescFor(size).None? <==> size > 1024
  {
  }

  lemma NoPage(used: seq<bool>)
    ensures GetPages(used, 1).None? <==> forall k :: 0 <= k < |used| ==> used[k]
  {
    if GetPages(used, 1).None? {
      forall k | 0 <= k < |used| ensures used[k] { assert !BM.Group(used, k, 1, false); }
    } else {
      var k := GetPages(used, 1).value;
      assert BM.Group(used, k, 1, false);
      assert !used[k];
    }
  }

  /** malloc gives no block exactly if none was asked for or there is none. */
  lemma MallocExact(h: Heap, size: nat)
    requires Inv(h)
    ensures forall bs :: bs in Sizes() ==> bs in h.free
    ensures Malloc(h, size).1.None? <==> size == 0 || NoBlock(h, size)
  {
    HasLists(h);
    hide Inv, Sizes, GetPages, PagesFor, DescFor, Smallest, Popped, NewArena, BM.SetRange;
    NoneSmall(size);
    NoPage(h.used);
    if size > 1024 {
      NoGroup(h.used, PagesFor(size));
    } else {
      SmallestIs(size, DescFor(size).value);
    }
  }

  lemma NoGroup(used: seq<bool>, cnt: nat)
    ensures GetPages(used, cnt).None? <==> cnt == 0 || forall k :: 0 <= k ==> !BM.Group(used, k, cnt, false)
  {
    hide BM.Group;
  }

  lemma HasLists(h: Heap)
    requires Inv(h)
    ensures forall bs :: bs in Sizes() ==> bs in h.free
  {
    MallocInv(h, 0);
  }

  /** A small request gets a block of the smallest sufficient size: the first on its free list, and
      then no page is taken; or the first of the first free page. */
  lemma SmallBlock(h: Heap, size: nat, bs: nat)
    requires Inv(h) && 0 < size <= 1024 && Smallest(size, bs)
    ensures forall c :: c in Sizes() ==> c in h.free
    ensures var (r, b) := Malloc(h, size);
            b.Some? ==>
              && Capacity(r.arenas, b.value) == bs
              && (h.free[bs] != [] ==> b.value == h.free[bs][0] && r.used == h.used)
              && (h.free[bs] == [] ==>
                    && BM.FirstGroup(h.used, 0, 1, false, Some(PageOf(b.value))) && b.value % 4096 == 12
                    && PageOf(b.value) < |h.used| && r.used == h.used[PageOf(b.value) := true])
  {
    hide InvWith, Sizes, Smallest, DescFor, BM.FirstGroup, Capacity, Popped, NewArena, HasBlock, ListOk, PerArena;
    HasLists(h);
    NoneSmall(size);
    SmallestIs(size, DescFor(size).value);
    if h.free[bs] != [] {
      FrontFacts(h, bs, None);
      PoppedSize(h, bs, size);
    } else if GetPages(h.used, 1).Some? {
      var k := GetPages(h.used, 1).value;
      assert bs in Sizes() by { SmallestIs(size, bs); }
      SomeBlocks(bs);
      NewBlock(h, bs, size, k);
    }
  }

  lemma PoppedSize(h: Heap, bs: nat, size: nat)
    requires bs in h.free && h.free[bs] != [] && HasBlock(h.arenas, bs, h.free[bs][0])
    ensures Capacity(Popped(h, bs, size).arenas, h.free[bs][0]) == bs && Popped(h, bs, size).used == h.used
  {
  }

  lemma SomeBlocks(bs: nat)
    requires bs in Sizes()
    ensures PerArena(bs) > 0
  {
  }

  lemma NewBlock(h: Heap, bs: nat, size: nat, k: nat)
    requires bs in h.free && h.free[bs] == [] && PerArena(bs) > 0 && k < |h.used|
    ensures var a := NewArena(h, bs, k);
            && a.free[bs] != [] && a.free[bs][0] == 4096 * k + 12 && PageOf(4096 * k + 12) == k
            && (4096 * k + 12) % 4096 == 12
            && Capacity(Popped(a, bs, size).arenas, 4096 * k + 12) == bs
            && Popped(a, bs, size).used == h.used[k := true]
  {
    HeaderPage(k);
  }

  /** A larger one gets the first run of free pages that is long enough. */
  lemma BigBlock(h: Heap, size: nat)
    requires Inv(h) && size > 1024
    ensures forall c :: c in Sizes() ==> c in h.free
    ensures var (r, b) := Malloc(h, size);
            b.Some? ==>
              && BM.FirstGroup(h.used, 0, PagesFor(size), false, Some(PageOf(b.value))) && b.value % 4096 == 12
              && PageOf(b.value) + PagesFor(size) <= |h.used|
              && r.used == BM.SetRange(h.used, PageOf(b.value), PagesFor(size), true)
              && Capacity(r.arenas, b.value) == 4096 * PagesFor(size) - 12
  {
    hide Inv, Sizes, DescFor, PagesFor, BM.SetRange, MallocSmall, BM.FirstGroup, Capacity;
    HasLists(h);
    NoneSmall(size);
    var g := GetPages(h.used, PagesFor(size));
    if g.Some? { BigSize(h.arenas, g.value, PagesFor(size)); }
  }

  lemma BigSize(arenas: Arenas, k: nat, cnt: nat)
    requires cnt > 0
    ensures PageOf(4096 * k + 12) == k && (4096 * k + 12) % 4096 == 12
    ensures Capacity(arenas[k := Big(cnt)], 4096 * k + 12) == 4096 * cnt - 12
  {
    HeaderPage(k);
  }

  /** In 32-bit arithmetic: as many pages as the block and its header need; none for sizes at which
      rounding up wraps around, and one where adding the header does. */
  lemma PagesExact(size: nat)
    requires size < 0x1_0000_0000
    ensures var n := PagesFor(size);
            && (size + 4107 < 0x1_0000_0000 ==> 4096 * (n - 1) < size + 12 <= 4096 * n)
            && (size + 12 <= 0x1_0000_0000 <= size + 4107 ==> n == 0)
            && (size + 12 > 0x1_0000_0000 ==> n == 1)
  {
  }

  /** realloc gives no block exactly if none was asked for or malloc has none for the new size. */
  lemma ReallocExact(h: Heap, p: Option<Addr>, size: nat)
    requires Inv(h)
    ensures forall bs :: bs in Sizes() ==> bs in h.free
    ensures Realloc(h, p, size).1.None? <==> size == 0 || NoBlock(h, size)
  {
    hide Inv, Malloc, Free, NoBlock, Sizes;
    MallocExact(h, size);
  }
}
