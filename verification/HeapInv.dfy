/** The invariant of the memory allocator, kept by malloc, free and realloc. */
module HeapInv {
  import opened Wrappers
  import opened Arithmetic
  import opened Orders
  import opened Heap
  import BM = Bitmap

  type Arenas = map<nat, Arena>

  // Addresses.

  lemma BlockPlace(k: nat, bs: nat, i: nat)
    requires bs > 0 && i < PerArena(bs)
    ensures 12 + i * bs + bs <= 4096 && PageOf(Block(k, bs, i)) == k && Block(k, bs, i) % 4096 == 12 + i * bs
  {
    var n := PerArena(bs);
    DivBounds(4084, bs);
    MulMono(i + 1, n, bs);
    assert (i + 1) * bs == i * bs + bs;
    assert n * bs == bs * n;
  }

  lemma BlocksApart(bs: nat, i: nat, j: nat)
    requires bs > 0 && i < j
    ensures i * bs + bs <= j * bs
  {
    MulMono(i + 1, j, bs);
    assert (i + 1) * bs == i * bs + bs;
  }

  lemma BlockInjective(k: nat, bs: nat, i: nat, j: nat)
    requires bs > 0 && Block(k, bs, i) == Block(k, bs, j)
    ensures i == j
  {
    if i < j { BlocksApart(bs, i, j); }
    if j < i { BlocksApart(bs, j, i); }
  }

  // The invariant.

  type FreeLists = map<nat, seq<Addr>>

  /** Arenas lie in marked pages and do not overlap. */
  ghost predicate PagesOk(arenas: Arenas, used: seq<bool>) {
    && (forall k :: k in arenas ==> Span(arenas[k]) > 0 && BM.Group(used, k, Span(arenas[k]), true))
    && (forall k, j :: k in arenas && j in arenas && k < j ==> k + Span(arenas[k]) <= j)
    && (forall k :: k in arenas && arenas[k].Small? ==> arenas[k].blockSize in Sizes())
  }

  /** `b` is one of the blocks of a small arena for blocks of `bs` bytes. */
  ghost predicate HasBlock(arenas: Arenas, bs: nat, b: Addr) {
    && PageOf(b) in arenas && arenas[PageOf(b)].Small? && arenas[PageOf(b)].blockSize == bs
    && exists i :: 0 <= i < PerArena(bs) && b == Block(PageOf(b), bs, i)
  }

  ghost predicate ListsOk(arenas: Arenas, free: FreeLists) {
    && (forall bs :: bs in free <==> bs in Sizes())
    && (forall bs :: bs in free ==> ListOk(arenas, bs, free[bs]))
  }

  ghost predicate ListOk(arenas: Arenas, bs: nat, s: seq<Addr>) {
    Distinct(s) && forall b :: b in s ==> HasBlock(arenas, bs, b)
  }

  /** Every block of a small arena is either on the free list or in use. */
  ghost predicate SplitOk(arenas: Arenas, free: FreeLists, live: map<Addr, nat>) {
    forall k, i :: k in arenas && arenas[k].Small? && arenas[k].blockSize in free
                   && 0 <= i < PerArena(arenas[k].blockSize) ==>
      (Block(k, arenas[k].blockSize, i) in free[arenas[k].blockSize] <==> Block(k, arenas[k].blockSize, i) !in live)
  }

  /** A block in use belongs to an arena and is large enough. */
  ghost predicate LiveOk(arenas: Arenas, live: map<Addr, nat>) {
    && (forall b :: b in live ==> LiveBlock(arenas, b, live[b]))
    && (forall k :: k in arenas && arenas[k].Big? ==> 4096 * k + 12 in live)
  }

  ghost predicate LiveBlock(arenas: Arenas, b: Addr, size: nat) {
    && size > 0 && PageOf(b) in arenas
    && match arenas[PageOf(b)]
       case Small(bs, freeCnt) => size <= bs && HasBlock(arenas, bs, b)
       case Big(cnt) => b == 4096 * PageOf(b) + 12 && 12 + size <= 4096 * cnt
  }

  /** The blocks of an arena that are on the free list, by number. */
  ghost function FreeIn(s: seq<Addr>, k: nat, bs: nat): set<nat> {
    set i: nat | i < PerArena(bs) && Block(k, bs, i) in s
  }

  /** The free count is right, and some block of each small arena is in use, except perhaps of `whole`. */
  ghost predicate CountOk(arenas: Arenas, free: FreeLists, whole: Option<nat>) {
    forall k :: k in arenas && arenas[k].Small? && arenas[k].blockSize in free ==>
      && arenas[k].freeCnt == |FreeIn(free[arenas[k].blockSize], k, arenas[k].blockSize)|
      && (whole != Some(k) ==> arenas[k].freeCnt < PerArena(arenas[k].blockSize))
  }

  ghost predicate InvWith(h: Heap, whole: Option<nat>) {
    && |h.mem| == 4096 * |h.used|
    && PagesOk(h.arenas, h.used)
    && ListsOk(h.arenas, h.free)
    && SplitOk(h.arenas, h.free, h.live)
    && LiveOk(h.arenas, h.live)
    && CountOk(h.arenas, h.free, whole)
  }

  ghost predicate Inv(h: Heap) { InvWith(h, None) }

  // Handing out a block.

  lemma SizesPositive(bs: nat)
    requires bs in Sizes()
    ensures bs > 0 && PerArena(bs) > 0
  {
  }

  /** Changing a small arena's count changes nothing else. */
  lemma HasBlockSame(arenas: Arenas, k: nat, n: nat, bs: nat, b: Addr)
    requires k in arenas && arenas[k].Small?
    ensures HasBlock(arenas[k := arenas[k].(freeCnt := n)], bs, b) == HasBlock(arenas, bs, b)
  {
  }

  lemma PagesSame(arenas: Arenas, used: seq<bool>, k: nat, n: nat)
    requires PagesOk(arenas, used) && k in arenas && arenas[k].Small?
    ensures PagesOk(arenas[k := arenas[k].(freeCnt := n)], used)
  {
  }

  lemma LiveSame(arenas: Arenas, live: map<Addr, nat>, k: nat, n: nat)
    requires LiveOk(arenas, live) && k in arenas && arenas[k].Small?
    ensures LiveOk(arenas[k := arenas[k].(freeCnt := n)], live)
  {
    hide HasBlock;
    var r := arenas[k := arenas[k].(freeCnt := n)];
    forall b | b in live ensures LiveBlock(r, b, live[b]) {
      assert LiveBlock(arenas, b, live[b]);
      if arenas[PageOf(b)].Small? { HasBlockSame(arenas, k, n, arenas[PageOf(b)].blockSize, b); }
    }
  }

  lemma ListsSame(arenas: Arenas, free: FreeLists, k: nat, n: nat)
    requires ListsOk(arenas, free) && k in arenas && arenas[k].Small?
    ensures ListsOk(arenas[k := arenas[k].(freeCnt := n)], free)
  {
    hide HasBlock, Distinct;
    var r := arenas[k := arenas[k].(freeCnt := n)];
    forall bs | bs in free ensures ListOk(r, bs, free[bs]) {
      assert ListOk(arenas, bs, free[bs]);
      forall b | b in free[bs] ensures HasBlock(r, bs, b) { HasBlockSame(arenas, k, n, bs, b); }
    }
  }

  lemma ListTail(arenas: Arenas, bs: nat, s: seq<Addr>)
    requires ListOk(arenas, bs, s) && s != []
    ensures ListOk(arenas, bs, s[1..]) && s[0] !in s[1..] && forall b :: b in s <==> b == s[0] || b in s[1..]
  {
    hide HasBlock;
    assert s == [s[0]] + s[1..];
  }

  /** The number of a block in its arena. */
  lemma Number(arenas: Arenas, bs: nat, b: Addr) returns (i: nat)
    requires HasBlock(arenas, bs, b)
    ensures i < PerArena(bs) && b == Block(PageOf(b), bs, i)
  {
    i :| 0 <= i < PerArena(bs) && b == Block(PageOf(b), bs, i);
  }

  /** Taking one block off the list takes one number out of its arena's set, and none elsewhere. */
  lemma FreeInDrop(s: seq<Addr>, s': seq<Addr>, b: Addr, i: nat, bs: nat, k: nat)
    requires bs > 0 && i < PerArena(bs) && b == Block(PageOf(b), bs, i)
    requires b in s && b !in s' && forall x :: x in s <==> x == b || x in s'
    ensures FreeIn(s, k, bs) == if k == PageOf(b) then FreeIn(s', k, bs) + {i} else FreeIn(s', k, bs)
    ensures k == PageOf(b) ==> i !in FreeIn(s', k, bs)
  {
    forall j: nat | j < PerArena(bs) ensures (Block(k, bs, j) == b) <==> (k == PageOf(b) && j == i) {
      BlockPlace(k, bs, j);
      if k == PageOf(b) && Block(k, bs, j) == b { BlockInjective(k, bs, i, j); }
    }
  }

  /** Moving block `b`, number `i` of its arena, between the free list and the blocks in use. */
  lemma CountMoved(arenas: Arenas, free: FreeLists, whole: Option<nat>, bs: nat, s: seq<Addr>, s': seq<Addr>, b: Addr,
                   i: nat)
    requires CountOk(arenas, free, whole) && bs in free && bs > 0 && i < PerArena(bs) && b == Block(PageOf(b), bs, i)
    requires b in s && b !in s' && (forall x :: x in s <==> x == b || x in s')
    requires PageOf(b) in arenas && arenas[PageOf(b)].Small? && arenas[PageOf(b)].blockSize == bs
    ensures free[bs] == s ==>
              && arenas[PageOf(b)].freeCnt > 0
              && (whole.None? || whole == Some(PageOf(b)) ==>
                    CountOk(arenas[PageOf(b) := Small(bs, arenas[PageOf(b)].freeCnt - 1)], free[bs := s'], None))
    ensures free[bs] == s' && whole.None? ==>
              CountOk(arenas[PageOf(b) := Small(bs, arenas[PageOf(b)].freeCnt + 1)], free[bs := s], Some(PageOf(b)))
  {
    hide FreeIn;
    var k := PageOf(b);
    forall j | j in arenas && arenas[j].Small? && arenas[j].blockSize == bs
      ensures |FreeIn(s, j, bs)| == |FreeIn(s', j, bs)| + if j == k then 1 else 0
    {
      FreeInDrop(s, s', b, i, bs, j);
    }
    FreeInSize(s, k, bs);
  }

  lemma FreeInSize(s: seq<Addr>, k: nat, bs: nat)
    ensures |FreeIn(s, k, bs)| <= PerArena(bs)
  {
    Bounded(FreeIn(s, k, bs), PerArena(bs));
  }

  lemma {:induction false} Bounded(s: set<nat>, n: nat)
    requires forall i :: i in s ==> i < n
    ensures |s| <= n
    decreases n
  {
    if n == 0 {
      assert s == {};
    } else {
      Bounded(s - {n - 1}, n - 1);
      assert |s| <= |s - {n - 1}| + 1 by {
        if n - 1 in s { assert s == (s - {n - 1}) + {n - 1}; } else { assert s - {n - 1} == s; } }
    }
  }

  lemma SplitMoved(arenas: Arenas, free: FreeLists, live: map<Addr, nat>, bs: nat, s: seq<Addr>, live': map<Addr, nat>,
                   b: Addr)
    requires SplitOk(arenas, free, live) && bs in free && HasBlock(arenas, bs, b)
    requires forall x :: x != b ==> (x in s <==> x in free[bs]) && (x in live' <==> x in live)
    requires b in s <==> b !in live'
    ensures SplitOk(arenas, free[bs := s], live')
  {
    forall k, i | k in arenas && arenas[k].Small? && arenas[k].blockSize in free
                  && 0 <= i < PerArena(arenas[k].blockSize)
      ensures Block(k, arenas[k].blockSize, i) in free[bs := s][arenas[k].blockSize] <==>
                Block(k, arenas[k].blockSize, i) !in live'
    {
      var x, z := Block(k, arenas[k].blockSize, i), arenas[k].blockSize;
      PlaceOf(z, i, k);
      assert x in free[z] <==> x !in live;
    }
  }

  lemma PlaceOf(bs: nat, i: nat, k: nat)
    requires i < PerArena(bs)
    ensures PageOf(Block(k, bs, i)) == k
  {
    BlockPlace(k, bs, i);
  }

  lemma SplitSame(arenas: Arenas, free: FreeLists, live: map<Addr, nat>, k: nat, n: nat)
    requires SplitOk(arenas, free, live) && k in arenas && arenas[k].Small?
    ensures SplitOk(arenas[k := arenas[k].(freeCnt := n)], free, live)
  {
    hide Block;
  }

  lemma LiveAdd(arenas: Arenas, live: map<Addr, nat>, b: Addr, size: nat)
    requires LiveOk(arenas, live) && LiveBlock(arenas, b, size)
    ensures LiveOk(arenas, live[b := size])
  {
    hide LiveBlock;
  }

  /** The front of a free list is a block of an arena. */
  lemma FrontFacts(h: Heap, bs: nat, whole: Option<nat>)
    requires InvWith(h, whole) && bs in h.free && h.free[bs] != []
    ensures HasBlock(h.arenas, bs, h.free[bs][0]) && bs in Sizes() && ListOk(h.arenas, bs, h.free[bs])
  {
    hide PagesOk, SplitOk, LiveOk, CountOk, HasBlock, Distinct;
    assert ListOk(h.arenas, bs, h.free[bs]);
  }

  /** Handing out the first free block. */
  lemma PoppedInv(h: Heap, bs: nat, size: nat, whole: Option<nat>)
    requires InvWith(h, whole) && bs in h.free && h.free[bs] != [] && 0 < size <= bs
    requires whole.None? || whole == Some(PageOf(h.free[bs][0]))
    ensures Inv(Popped(h, bs, size)) && h.free[bs][0] !in h.live
  {
    hide HasBlock, Distinct, Block, PagesOk, LiveOk, CountOk, ListsOk, SplitOk;
    var s, b := h.free[bs], h.free[bs][0];
    var k := PageOf(b);
    FrontFacts(h, bs, whole);
    SizesPositive(bs);
    var i := Number(h.arenas, bs, b);
    ArenaIs(h.arenas, bs, b);
    ListTail(h.arenas, bs, s);
    CountMoved(h.arenas, h.free, whole, bs, s, s[1..], b, i);
    var n := h.arenas[k].freeCnt - 1;
    var r := h.arenas[k := h.arenas[k].(freeCnt := n)];
    assert r == h.arenas[k := Small(bs, n)];
    FreeNotLive(h, bs, b, i);
    ListsTail(h.arenas, h.free, bs, s[1..]);
    ListsSame(h.arenas, h.free[bs := s[1..]], k, n);
    SplitMoved(h.arenas, h.free, h.live, bs, s[1..], h.live[b := size], b);
    SplitSame(h.arenas, h.free[bs := s[1..]], h.live[b := size], k, n);
    LiveAdd(h.arenas, h.live, b, size) by { assert LiveBlock(h.arenas, b, size); }
    LiveSame(h.arenas, h.live[b := size], k, n);
    PagesSame(h.arenas, h.used, k, n);
  }

  lemma ArenaIs(arenas: Arenas, bs: nat, b: Addr)
    requires HasBlock(arenas, bs, b)
    ensures PageOf(b) in arenas && arenas[PageOf(b)].Small? && arenas[PageOf(b)].blockSize == bs
  {
  }

  lemma FreeNotLive(h: Heap, bs: nat, b: Addr, i: nat)
    requires SplitOk(h.arenas, h.free, h.live) && bs in h.free && HasBlock(h.arenas, bs, b) && i < PerArena(bs)
    requires b == Block(PageOf(b), bs, i)
    ensures b in h.free[bs] <==> b !in h.live
  {
  }

  lemma ListsTail(arenas: Arenas, free: FreeLists, bs: nat, s: seq<Addr>)
    requires ListsOk(arenas, free) && bs in free && ListOk(arenas, bs, s)
    ensures ListsOk(arenas, free[bs := s])
  {
    hide ListOk;
  }

  // A new arena.

  lemma PagesAdd(arenas: Arenas, used: seq<bool>, k: nat, a: Arena)
    requires PagesOk(arenas, used) && Span(a) > 0 && BM.Group(used, k, Span(a), false)
    requires (a.Small? ==> a.blockSize in Sizes())
    ensures k !in arenas && PagesOk(arenas[k := a], BM.SetRange(used, k, Span(a), true))
    ensures forall j :: j in arenas ==> j + Span(arenas[j]) <= k || k + Span(a) <= j
  {
    forall j | j in arenas ensures j + Span(arenas[j]) <= k || k + Span(a) <= j {
      GroupsApart(used, j, Span(arenas[j]), k, Span(a));
    }
  }

  lemma GroupsApart(used: seq<bool>, j: nat, m: nat, k: nat, n: nat)
    requires BM.Group(used, j, m, true) && BM.Group(used, k, n, false) && m > 0 && n > 0
    ensures j + m <= k || k + n <= j
  {
    var x := if j <= k then k else j;
    assert x < j + m ==> used[x];
    assert x < k + n ==> !used[x];
  }

  lemma NewBlocks(arenas: Arenas, k: nat, bs: nat, n: nat)
    requires bs in Sizes()
    ensures ListOk(arenas[k := Small(bs, n)], bs, Blocks(k, bs, PerArena(bs)))
  {
    var s := Blocks(k, bs, PerArena(bs));
    forall i, j | 0 <= i < j < |s| ensures s[i] != s[j] { BlocksApart(bs, i, j); }
    forall b | b in s ensures HasBlock(arenas[k := Small(bs, n)], bs, b) {
      var i :| 0 <= i < |s| && s[i] == b;
      BlockPlace(k, bs, i);
    }
  }

  lemma ListsAdd(arenas: Arenas, free: FreeLists, k: nat, a: Arena)
    requires ListsOk(arenas, free) && k !in arenas
    ensures ListsOk(arenas[k := a], free)
  {
    forall bs | bs in free ensures ListOk(arenas[k := a], bs, free[bs]) {
      assert ListOk(arenas, bs, free[bs]);
      forall b | b in free[bs] ensures HasBlock(arenas[k := a], bs, b) { assert HasBlock(arenas, bs, b); }
    }
  }

  lemma LiveAddArena(arenas: Arenas, live: map<Addr, nat>, k: nat, a: Arena)
    requires LiveOk(arenas, live) && k !in arenas
    ensures (forall b :: b in live ==> LiveBlock(arenas[k := a], b, live[b]) && PageOf(b) != k)
  {
    forall b | b in live ensures LiveBlock(arenas[k := a], b, live[b]) && PageOf(b) != k {
      assert LiveBlock(arenas, b, live[b]);
    }
  }

  /** In the new arena every block is free and none in use. */
  lemma SplitAdd(arenas: Arenas, free: FreeLists, live: map<Addr, nat>, k: nat, bs: nat, n: nat)
    requires SplitOk(arenas, free, live) && k !in arenas && bs in free && free[bs] == [] && bs > 0
    requires forall b :: b in live ==> PageOf(b) != k
    ensures SplitOk(arenas[k := Small(bs, n)], free[bs := Blocks(k, bs, PerArena(bs))], live)
  {
    hide Block;
    var s, r := Blocks(k, bs, PerArena(bs)), arenas[k := Small(bs, n)];
    forall j, i | j in r && r[j].Small? && r[j].blockSize in free && 0 <= i < PerArena(r[j].blockSize)
      ensures Block(j, r[j].blockSize, i) in free[bs := s][r[j].blockSize] <==> Block(j, r[j].blockSize, i) !in live
    {
      var x := Block(j, r[j].blockSize, i);
      PlaceOf(r[j].blockSize, i, j);
      if j == k {
        assert s[i] == x;
      } else {
        assert x in free[r[j].blockSize] <==> x !in live;
        BlocksPage(k, bs, x);
      }
    }
  }

  lemma BlocksPage(k: nat, bs: nat, x: Addr)
    requires bs > 0
    ensures x in Blocks(k, bs, PerArena(bs)) ==> PageOf(x) == k
  {
    if x in Blocks(k, bs, PerArena(bs)) {
      var i :| 0 <= i < PerArena(bs) && Blocks(k, bs, PerArena(bs))[i] == x;
      BlockPlace(k, bs, i);
    }
  }

  lemma CountAdd(arenas: Arenas, free: FreeLists, k: nat, bs: nat)
    requires CountOk(arenas, free, None) && k !in arenas && bs in free && free[bs] == [] && bs > 0
    ensures CountOk(arenas[k := Small(bs, PerArena(bs))], free[bs := Blocks(k, bs, PerArena(bs))], Some(k))
  {
    hide Block;
    var s := Blocks(k, bs, PerArena(bs));
    forall i: nat | i < PerArena(bs) ensures i in FreeIn(s, k, bs) { assert s[i] == Block(k, bs, i); }
    Full(FreeIn(s, k, bs), PerArena(bs));
    forall j | j in arenas && arenas[j].Small? && arenas[j].blockSize == bs
      ensures FreeIn(s, j, bs) == {} && FreeIn([], j, bs) == {}
    {
      forall i: nat | i < PerArena(bs) ensures Block(j, bs, i) !in s {
        PlaceOf(bs, i, j);
        BlocksPage(k, bs, Block(j, bs, i));
      }
    }
    hide FreeIn;
  }

  /** A set of numbers below `n` has `n` elements exactly if all are in it. */
  lemma {:induction false} Full(s: set<nat>, n: nat)
    requires forall i :: i in s ==> i < n
    ensures |s| == n <==> forall i: nat :: i < n ==> i in s
    decreases n
  {
    if n == 0 {
      assert s == {};
    } else {
      var t := s - {n - 1};
      Full(t, n - 1);
      Bounded(t, n - 1);
      if n - 1 in s {
        assert s == t + {n - 1};
        assert forall i: nat :: i < n - 1 ==> (i in t <==> i in s);
      } else {
        assert s == t;
      }
    }
  }

  lemma NewArenaInv(h: Heap, bs: nat, k: nat)
    requires Inv(h) && bs in h.free && h.free[bs] == [] && BM.Group(h.used, k, 1, false)
    ensures InvWith(NewArena(h, bs, k), Some(k)) && NewArena(h, bs, k).free[bs] == Blocks(k, bs, PerArena(bs))
  {
    hide HasBlock, Distinct, Block, PagesOk, CountOk, SplitOk, ListOk, LiveOk;
    assert bs in Sizes();
    SizesPositive(bs);
    var a, s := Small(bs, PerArena(bs)), Blocks(k, bs, PerArena(bs));
    assert h.free[bs] + s == s;
    PagesAdd(h.arenas, h.used, k, a);
    NewBlocks(h.arenas, k, bs, PerArena(bs));
    ListsAdd(h.arenas, h.free, k, a);
    ListsTail(h.arenas[k := a], h.free, bs, s);
    LiveAddArena(h.arenas, h.live, k, a);
    LiveKept(h.arenas, h.live, k, a);
    SplitAdd(h.arenas, h.free, h.live, k, bs, PerArena(bs));
    CountAdd(h.arenas, h.free, k, bs);
  }

  lemma LiveKept(arenas: Arenas, live: map<Addr, nat>, k: nat, a: Arena)
    requires LiveOk(arenas, live) && k !in arenas && a.Small?
    requires forall b :: b in live ==> LiveBlock(arenas[k := a], b, live[b])
    ensures LiveOk(arenas[k := a], live)
  {
    hide LiveBlock;
  }

  /** Blocks of up to 1024 bytes. */
  lemma MallocSmallInv(h: Heap, bs: nat, size: nat)
    requires Inv(h) && bs in h.free && 0 < size <= bs && PerArena(bs) > 0
    ensures var (r, b) := MallocSmall(h, bs, size);
            && Inv(r) && (b.None? ==> r == h)
            && (b.Some? ==> b.value !in h.live && r.live == h.live[b.value := size] && r.mem == h.mem)
  {
    hide InvWith, Block;
    if h.free[bs] != [] {
      PoppedInv(h, bs, size, None);
    } else {
      var g := GetPages(h.used, 1);
      if g.Some? {
        NewArenaInv(h, bs, g.value);
        var a := NewArena(h, bs, g.value);
        PlaceOf(bs, 0, g.value);
        PoppedInv(a, bs, size, Some(g.value));
      }
    }
  }

  // Big blocks.

  lemma BigSize(size: nat)
    requires 0 < size < 0x1_0000_0000
    ensures Granted(size) > 0 && (PagesFor(size) > 0 ==> 12 + Granted(size) <= 4096 * PagesFor(size))
  {
  }

  lemma MallocBigInv(h: Heap, size: nat)
    requires Inv(h) && 0 < size < 0x1_0000_0000
    ensures var (r, b) := MallocBig(h, size);
            && Inv(r) && (b.None? ==> r == h)
            && (b.Some? ==> b.value !in h.live && r.live == h.live[b.value := Granted(size)] && r.mem == h.mem)
  {
    hide HasBlock, Distinct, Block, PagesOk, CountOk, SplitOk, ListsOk, LiveOk, PagesFor, Granted;
    var g := GetPages(h.used, PagesFor(size));
    if g.Some? {
      var k, a := g.value, Big(PagesFor(size));
      var b := 4096 * k + 12;
      PagesAdd(h.arenas, h.used, k, a);
      ListsAdd(h.arenas, h.free, k, a);
      LiveAddArena(h.arenas, h.live, k, a);
      BigSize(size);
      BigLive(h.arenas, h.live, k, a, Granted(size));
      assert b !in h.live by { assert PageOf(b) == k; }
      SplitBig(h.arenas, h.free, h.live, k, a, Granted(size));
      CountBig(h.arenas, h.free, k, a);
    }
  }

  lemma BigLive(arenas: Arenas, live: map<Addr, nat>, k: nat, a: Arena, size: nat)
    requires LiveOk(arenas, live) && k !in arenas && a.Big? && size > 0 && 12 + size <= 4096 * a.pages
    requires forall b :: b in live ==> LiveBlock(arenas[k := a], b, live[b]) && PageOf(b) != k
    ensures LiveOk(arenas[k := a], live[4096 * k + 12 := size])
  {
    hide HasBlock;
    assert PageOf(4096 * k + 12) == k;
  }

  lemma SplitBig(arenas: Arenas, free: FreeLists, live: map<Addr, nat>, k: nat, a: Arena, size: nat)
    requires SplitOk(arenas, free, live) && k !in arenas && a.Big?
    ensures SplitOk(arenas[k := a], free, live[4096 * k + 12 := size])
  {
    hide Block;
    var r := arenas[k := a];
    forall j, i | j in r && r[j].Small? && r[j].blockSize in free && 0 <= i < PerArena(r[j].blockSize)
      ensures Block(j, r[j].blockSize, i) in free[r[j].blockSize] <==>
                Block(j, r[j].blockSize, i) !in live[4096 * k + 12 := size]
    {
      PlaceOf(r[j].blockSize, i, j);
      assert PageOf(4096 * k + 12) == k;
      assert Block(j, r[j].blockSize, i) in free[r[j].blockSize] <==> Block(j, r[j].blockSize, i) !in live;
    }
  }

  lemma CountBig(arenas: Arenas, free: FreeLists, k: nat, a: Arena)
    requires CountOk(arenas, free, None) && k !in arenas && a.Big?
    ensures CountOk(arenas[k := a], free, None)
  {
    hide FreeIn;
  }

  /** malloc: a new block, or nothing at all. */
  lemma MallocInv(h: Heap, size: nat)
    requires Inv(h) && size < 0x1_0000_0000
    ensures forall bs :: bs in Sizes() ==> bs in h.free
    ensures var (r, b) := Malloc(h, size);
            && Inv(r) && (b.None? ==> r == h)
            && (b.Some? ==>
                  size > 0 && b.value !in h.live
                  && r.live == h.live[b.value := Granted(size)] && r.mem == h.mem)
  {
    hide MallocBig, MallocSmall, PagesOk, CountOk, SplitOk, LiveOk, ListOk;
    if size > 0 {
      var d := DescFor(size);
      if d.Some? {
        SizesPositive(d.value);
        MallocSmallInv(h, d.value, size);
      } else {
        MallocBigInv(h, size);
      }
    }
  }

  // Freeing a block.

  lemma ListPush(arenas: Arenas, bs: nat, s: seq<Addr>, b: Addr)
    requires ListOk(arenas, bs, s) && HasBlock(arenas, bs, b) && b !in s
    ensures ListOk(arenas, bs, [b] + s) && ([b] + s)[1..] == s
  {
    hide HasBlock;
    ConsDistinct(b, s);
  }

  lemma LiveDrop(arenas: Arenas, live: map<Addr, nat>, b: Addr)
    requires LiveOk(arenas, live) && PageOf(b) in arenas && arenas[PageOf(b)].Small?
    ensures LiveOk(arenas, live - {b})
  {
    hide LiveBlock;
    forall k | k in arenas && arenas[k].Big? ensures 4096 * k + 12 in live - {b} { BigPage(k); }
  }

  lemma BigPage(k: nat)
    ensures PageOf(4096 * k + 12) == k
  {
  }

  /** A block goes back; its arena may now be entirely free. */
  lemma PushedInv(h: Heap, b: Addr, bs: nat)
    requires Inv(h) && b in h.live && PageOf(b) in h.arenas && h.arenas[PageOf(b)].Small?
    requires bs == h.arenas[PageOf(b)].blockSize
    requires bs in h.free
    ensures var r := Pushed(h, b, bs);
            && InvWith(r, Some(PageOf(b))) && (h.arenas[PageOf(b)].freeCnt + 1 < PerArena(bs) ==> Inv(r))
  {
    hide HasBlock, Distinct, Block, PagesOk, LiveOk, CountOk, ListsOk, SplitOk;
    var s, k := h.free[bs], PageOf(b);
    SmallLive(h, b, bs);
    SizesPositive(bs);
    var i := Number(h.arenas, bs, b);
    FreeNotLive(h, bs, b, i);
    ListPush(h.arenas, bs, s, b);
    var s' := [b] + s;
    CountMoved(h.arenas, h.free, None, bs, s', s, b, i);
    var n := h.arenas[k].freeCnt + 1;
    assert h.arenas[k := h.arenas[k].(freeCnt := n)] == h.arenas[k := Small(bs, n)];
    ListsTail(h.arenas, h.free, bs, s');
    ListsSame(h.arenas, h.free[bs := s'], k, n);
    SplitMoved(h.arenas, h.free, h.live, bs, s', h.live - {b}, b);
    SplitSame(h.arenas, h.free[bs := s'], h.live - {b}, k, n);
    LiveDrop(h.arenas, h.live, b);
    LiveSame(h.arenas, h.live - {b}, k, n);
    PagesSame(h.arenas, h.used, k, n);
    CountRelax(Pushed(h, b, bs).arenas, h.free[bs := s'], k);
  }

  lemma CountRelax(arenas: Arenas, free: FreeLists, k: nat)
    requires CountOk(arenas, free, Some(k)) && k in arenas && arenas[k].Small?
    ensures arenas[k].freeCnt < PerArena(arenas[k].blockSize) ==> CountOk(arenas, free, None)
  {
    hide FreeIn;
  }

  lemma SmallLive(h: Heap, b: Addr, bs: nat)
    requires Inv(h) && b in h.live && PageOf(b) in h.arenas && h.arenas[PageOf(b)].Small?
    requires bs == h.arenas[PageOf(b)].blockSize && bs in h.free
    ensures HasBlock(h.arenas, bs, b) && bs in Sizes() && ListOk(h.arenas, bs, h.free[bs])
  {
    hide HasBlock, Distinct, PagesOk, CountOk, SplitOk;
    assert LiveBlock(h.arenas, b, h.live[b]);
    assert ListOk(h.arenas, bs, h.free[bs]);
  }

  lemma {:induction false} WithoutFacts(s: seq<Addr>, k: nat, bs: nat, n: nat)
    requires Distinct(s)
    ensures Distinct(WithoutBlocks(s, k, bs, n))
    ensures forall x :: x in WithoutBlocks(s, k, bs, n) <==> x in s && !IsBlockBelow(x, k, bs, n)
  {
    hide Distinct, Block, Removed;
    if n > 0 {
      WithoutFacts(s, k, bs, n - 1);
      RemovedDistinct(WithoutBlocks(s, k, bs, n - 1), Block(k, bs, n - 1));
      forall x ensures IsBlockBelow(x, k, bs, n) <==> IsBlockBelow(x, k, bs, n - 1) || x == Block(k, bs, n - 1) { }
    }
  }

  ghost predicate IsBlockBelow(x: Addr, k: nat, bs: nat, n: nat) { exists i :: 0 <= i < n && x == Block(k, bs, i) }

  /** When every block of the arena is free, none is in use. */
  lemma WholeFree(h: Heap, k: nat, bs: nat)
    requires InvWith(h, Some(k)) && k in h.arenas && h.arenas[k].Small? && h.arenas[k].blockSize == bs && bs in h.free
    requires h.arenas[k].freeCnt >= PerArena(bs)
    ensures forall i :: 0 <= i < PerArena(bs) ==> Block(k, bs, i) in h.free[bs] && Block(k, bs, i) !in h.live
    ensures forall b :: b in h.live ==> PageOf(b) != k
    ensures h.arenas[k].freeCnt == PerArena(bs)
  {
    hide Block, Distinct, ListsOk, PagesOk;
    var f := FreeIn(h.free[bs], k, bs);
    Bounded(f, PerArena(bs));
    Full(f, PerArena(bs));
    forall i | 0 <= i < PerArena(bs) ensures Block(k, bs, i) in h.free[bs] && Block(k, bs, i) !in h.live {
      assert i in f;
    }
    forall b | b in h.live ensures PageOf(b) != k {
      assert LiveBlock(h.arenas, b, h.live[b]);
    }
  }

  lemma PagesDrop(arenas: Arenas, used: seq<bool>, k: nat)
    requires PagesOk(arenas, used) && k in arenas
    ensures k + Span(arenas[k]) <= |used| && PagesOk(arenas - {k}, BM.SetRange(used, k, Span(arenas[k]), false))
  {
    assert BM.Group(used, k, Span(arenas[k]), true);
    var r := BM.SetRange(used, k, Span(arenas[k]), false);
    forall j | j in arenas && j != k ensures BM.Group(r, j, Span(arenas[j]), true) {
      assert BM.Group(used, j, Span(arenas[j]), true);
      if j < k { assert j + Span(arenas[j]) <= k; } else { assert k + Span(arenas[k]) <= j; }
    }
  }

  lemma ListsDrop(arenas: Arenas, free: FreeLists, k: nat, bs: nat)
    requires ListsOk(arenas, free) && k in arenas && arenas[k].Small? && arenas[k].blockSize == bs && bs in free
    ensures ListsOk(arenas - {k}, free[bs := WithoutBlocks(free[bs], k, bs, PerArena(bs))])
  {
    hide Block, Distinct, WithoutBlocks;
    var s := WithoutBlocks(free[bs], k, bs, PerArena(bs));
    forall z | z in free ensures ListOk(arenas - {k}, z, free[bs := s][z]) {
      assert ListOk(arenas, z, free[z]);
      if z == bs { WithoutFacts(free[bs], k, bs, PerArena(bs)); }
      forall b | b in free[bs := s][z] ensures HasBlock(arenas - {k}, z, b) {
        assert HasBlock(arenas, z, b);
      }
    }
  }

  lemma SplitDrop(arenas: Arenas, free: FreeLists, live: map<Addr, nat>, k: nat, bs: nat)
    requires SplitOk(arenas, free, live) && k in arenas && arenas[k].Small? && arenas[k].blockSize == bs
    requires bs in free && Distinct(free[bs])
    ensures SplitOk(arenas - {k}, free[bs := WithoutBlocks(free[bs], k, bs, PerArena(bs))], live)
  {
    hide Block, Distinct, WithoutBlocks;
    var s, r := WithoutBlocks(free[bs], k, bs, PerArena(bs)), arenas - {k};
    WithoutFacts(free[bs], k, bs, PerArena(bs));
    forall j, i | j in r && r[j].Small? && r[j].blockSize in free && 0 <= i < PerArena(r[j].blockSize)
      ensures Block(j, r[j].blockSize, i) in free[bs := s][r[j].blockSize] <==> Block(j, r[j].blockSize, i) !in live
    {
      var z := r[j].blockSize;
      assert Block(j, z, i) in free[z] <==> Block(j, z, i) !in live;
      NotInOther(j, z, i, k, bs);
    }
  }

  lemma NotInOther(j: nat, z: nat, i: nat, k: nat, bs: nat)
    requires i < PerArena(z) && j != k
    ensures !IsBlockBelow(Block(j, z, i), k, bs, PerArena(bs))
  {
    PlaceOf(z, i, j);
    forall n | 0 <= n < PerArena(bs) ensures Block(k, bs, n) != Block(j, z, i) { PlaceOf(bs, n, k); }
    hide Block;
  }

  lemma CountDrop(arenas: Arenas, free: FreeLists, k: nat, bs: nat)
    requires CountOk(arenas, free, Some(k)) && k in arenas && bs in free && Distinct(free[bs])
    ensures CountOk(arenas - {k}, free[bs := WithoutBlocks(free[bs], k, bs, PerArena(bs))], None)
  {
    hide Block, Distinct, WithoutBlocks;
    var s := WithoutBlocks(free[bs], k, bs, PerArena(bs));
    WithoutFacts(free[bs], k, bs, PerArena(bs));
    forall j | j in arenas && j != k ensures FreeIn(s, j, bs) == FreeIn(free[bs], j, bs) {
      forall i: nat | i < PerArena(bs) ensures Block(j, bs, i) in s <==> Block(j, bs, i) in free[bs] {
        NotInOther(j, bs, i, k, bs);
      }
    }
    hide FreeIn;
  }

  lemma LiveDropArena(arenas: Arenas, live: map<Addr, nat>, k: nat)
    requires LiveOk(arenas, live) && forall b :: b in live ==> PageOf(b) != k
    ensures LiveOk(arenas - {k}, live)
  {
    forall b | b in live ensures LiveBlock(arenas - {k}, b, live[b]) { assert LiveBlock(arenas, b, live[b]); }
  }

  lemma DropArenaInv(h: Heap, k: nat, bs: nat)
    requires InvWith(h, Some(k)) && k in h.arenas && h.arenas[k].Small? && h.arenas[k].blockSize == bs && bs in h.free
    requires h.arenas[k].freeCnt >= PerArena(bs)
    ensures Inv(DropArena(h, k, bs))
    ensures k < |h.used| && DropArena(h, k, bs).used == BM.SetRange(h.used, k, 1, false)
  {
    hide HasBlock, Block, Distinct, PagesOk, LiveOk, CountOk, SplitOk, WithoutBlocks;
    WholeFree(h, k, bs);
    assert ListOk(h.arenas, bs, h.free[bs]);
    PagesDrop(h.arenas, h.used, k);
    ListsDrop(h.arenas, h.free, k, bs);
    SplitDrop(h.arenas, h.free, h.live, k, bs);
    LiveDropArena(h.arenas, h.live, k);
    CountDrop(h.arenas, h.free, k, bs);
  }

  /** A big block goes back with its pages. */
  lemma FreeBigInv(h: Heap, b: Addr)
    requires Inv(h) && b in h.live && PageOf(b) in h.arenas && h.arenas[PageOf(b)].Big?
    ensures Inv(Free(h, Some(b)))
    ensures var k := PageOf(b);
            && k + h.arenas[k].pages <= |h.used|
            && Free(h, Some(b)).used == BM.SetRange(h.used, k, h.arenas[k].pages, false)
  {
    hide HasBlock, Block, Distinct, PagesOk, CountOk, SplitOk, LiveOk;
    var k := PageOf(b);
    PagesDrop(h.arenas, h.used, k);
    BigOnly(h, b);
    ListsDropBig(h.arenas, h.free, k);
    SplitDropBig(h.arenas, h.free, h.live, k, b);
    CountDropBig(h.arenas, h.free, k);
  }

  lemma BigOnly(h: Heap, b: Addr)
    requires LiveOk(h.arenas, h.live) && b in h.live && PageOf(b) in h.arenas && h.arenas[PageOf(b)].Big?
    ensures b == 4096 * PageOf(b) + 12 && LiveOk(h.arenas - {PageOf(b)}, h.live - {b})
  {
    var k := PageOf(b);
    assert LiveBlock(h.arenas, b, h.live[b]);
    forall c | c in h.live && c != b ensures LiveBlock(h.arenas - {k}, c, h.live[c]) {
      assert LiveBlock(h.arenas, c, h.live[c]);
    }
    hide LiveBlock;
    forall j | j in h.arenas && j != k && h.arenas[j].Big? ensures 4096 * j + 12 in h.live - {b} { BigPage(j); }
  }

  lemma ListsDropBig(arenas: Arenas, free: FreeLists, k: nat)
    requires ListsOk(arenas, free) && k in arenas && arenas[k].Big?
    ensures ListsOk(arenas - {k}, free)
  {
    hide Block, Distinct;
    forall z | z in free ensures ListOk(arenas - {k}, z, free[z]) {
      assert ListOk(arenas, z, free[z]);
      forall b | b in free[z] ensures HasBlock(arenas - {k}, z, b) { assert HasBlock(arenas, z, b); }
    }
  }

  lemma SplitDropBig(arenas: Arenas, free: FreeLists, live: map<Addr, nat>, k: nat, b: Addr)
    requires SplitOk(arenas, free, live) && k in arenas && arenas[k].Big? && PageOf(b) == k
    ensures SplitOk(arenas - {k}, free, live - {b})
  {
    hide Block;
    var r := arenas - {k};
    forall j, i | j in r && r[j].Small? && r[j].blockSize in free && 0 <= i < PerArena(r[j].blockSize)
      ensures Block(j, r[j].blockSize, i) in free[r[j].blockSize] <==> Block(j, r[j].blockSize, i) !in live - {b}
    {
      PlaceOf(r[j].blockSize, i, j);
      assert Block(j, r[j].blockSize, i) in free[r[j].blockSize] <==> Block(j, r[j].blockSize, i) !in live;
    }
  }

  lemma CountDropBig(arenas: Arenas, free: FreeLists, k: nat)
    requires CountOk(arenas, free, None) && k in arenas
    ensures CountOk(arenas - {k}, free, None)
  {
    hide FreeIn;
  }

  /** free of a block in use, or of no block. */
  lemma FreeInv(h: Heap, p: Option<Addr>)
    requires Inv(h) && (p.Some? ==> p.value in h.live)
    ensures var r := Free(h, p); Inv(r) && r.live == if p.Some? then h.live - {p.value} else h.live
  {
    hide InvWith, Pushed, DropArena;
    if p.Some? {
      var b, k := p.value, PageOf(p.value);
      LiveArena(h, b);
      if h.arenas[k].Big? {
        FreeBigInv(h, b);
      } else {
        var bs := h.arenas[k].blockSize;
        PushedInv(h, b, bs);
        PushedIs(h, b, bs);
        if h.arenas[k].freeCnt + 1 >= PerArena(bs) {
          DropArenaInv(Pushed(h, b, bs), k, bs);
          DropArenaIs(Pushed(h, b, bs), k, bs);
        }
      }
    }
  }

  lemma LiveArena(h: Heap, b: Addr)
    requires Inv(h) && b in h.live
    ensures PageOf(b) in h.arenas && (h.arenas[PageOf(b)].Small? ==> h.arenas[PageOf(b)].blockSize in h.free)
    ensures LiveBlock(h.arenas, b, h.live[b])
  {
    hide HasBlock, SplitOk, CountOk, ListOk;
    assert LiveBlock(h.arenas, b, h.live[b]);
  }

  lemma PushedIs(h: Heap, b: Addr, bs: nat)
    requires bs in h.free && PageOf(b) in h.arenas && h.arenas[PageOf(b)].Small?
    ensures var r, a := Pushed(h, b, bs), h.arenas[PageOf(b)];
            && r.live == h.live - {b} && bs in r.free && PageOf(b) in r.arenas && r.used == h.used
            && r.arenas[PageOf(b)] == a.(freeCnt := a.freeCnt + 1)
  {
  }

  lemma DropArenaIs(h: Heap, k: nat, bs: nat)
    requires bs in h.free
    ensures DropArena(h, k, bs).live == h.live
  {
  }
}
