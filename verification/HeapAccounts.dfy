/** The allocator loses no memory: what is marked, and what free and malloc undo (threads/malloc.c). */
module HeapAccounts {
  import opened Wrappers
  import opened Storage
  import opened Heap
  import opened HeapInv
  import opened HeapTheorems
  import opened HeapExact
  import BM = Bitmap

  // Marked pages.

  /** Page `n` is part of an arena. */
  ghost predicate Covered(arenas: Arenas, n: nat) { exists j :: j in arenas && j <= n < j + Span(arenas[j]) }

  /** Page `n` is marked but not part of an arena: someone else has it. */
  ghost predicate Foreign(h: Heap, n: nat) { n < |h.used| && h.used[n] && !Covered(h.arenas, n) }

  ghost predicate SameForeign(h: Heap, r: Heap) {
    |r.used| == |h.used| && forall n: nat :: Foreign(r, n) <==> Foreign(h, n)
  }

  lemma CoverAt(arenas: Arenas, j: nat, n: nat)
    requires j in arenas && j <= n < j + Span(arenas[j])
    ensures Covered(arenas, n)
  {
  }

  /** A new arena takes pages that were not marked, and marks them. */
  lemma AddForeign(h: Heap, r: Heap, k: nat, a: Arena)
    requires PagesOk(h.arenas, h.used) && Span(a) > 0 && BM.Group(h.used, k, Span(a), false)
    requires r.arenas == h.arenas[k := a] && r.used == BM.SetRange(h.used, k, Span(a), true)
    ensures SameForeign(h, r) && k !in h.arenas
  {
    NewPage(h, k, Span(a));
    forall n: nat ensures Foreign(r, n) <==> Foreign(h, n) {
      if k <= n < k + Span(a) {
        CoverAt(r.arenas, k, n);
      } else {
        SameCover(h.arenas, r.arenas, k, n);
      }
    }
  }

  lemma NewPage(h: Heap, k: nat, cnt: nat)
    requires PagesOk(h.arenas, h.used) && cnt > 0 && BM.Group(h.used, k, cnt, false)
    ensures k !in h.arenas
  {
    assert !h.used[k];
  }

  /** Two sets of arenas that differ in the one at `k` only cover the same pages outside of it. */
  lemma SameCover(arenas: Arenas, others: Arenas, k: nat, n: nat)
    requires arenas - {k} == others - {k}
    requires k in arenas ==> !(k <= n < k + Span(arenas[k]))
    requires k in others ==> !(k <= n < k + Span(others[k]))
    ensures Covered(arenas, n) == Covered(others, n)
  {
    if j :| j in arenas && j <= n < j + Span(arenas[j]) {
      assert j in arenas - {k};
      CoverAt(others, j, n);
    }
    if j :| j in others && j <= n < j + Span(others[j]) {
      assert j in others - {k};
      CoverAt(arenas, j, n);
    }
  }

  /** An arena that goes gives its pages back. */
  lemma DropForeign(h: Heap, r: Heap, k: nat)
    requires PagesOk(h.arenas, h.used) && k in h.arenas
    requires r.arenas == h.arenas - {k} && k + Span(h.arenas[k]) <= |h.used|
    requires r.used == BM.SetRange(h.used, k, Span(h.arenas[k]), false)
    ensures SameForeign(h, r)
  {
    forall n: nat ensures Foreign(r, n) <==> Foreign(h, n) {
      if k <= n < k + Span(h.arenas[k]) {
        CoverAt(h.arenas, k, n);
      } else {
        SameCover(h.arenas, r.arenas, k, n);
      }
    }
  }

  /** Changing a free count changes no page. */
  lemma CountForeign(h: Heap, r: Heap, k: nat, n: nat)
    requires k in h.arenas && h.arenas[k].Small? && r.used == h.used
    requires r.arenas == h.arenas[k := h.arenas[k].(freeCnt := n)]
    ensures SameForeign(h, r)
  {
    forall n: nat ensures Covered(h.arenas, n) == Covered(r.arenas, n) {
      if j :| j in h.arenas && j <= n < j + Span(h.arenas[j]) { CoverAt(r.arenas, j, n); }
      if j :| j in r.arenas && j <= n < j + Span(r.arenas[j]) { CoverAt(h.arenas, j, n); }
    }
  }

  lemma PoppedForeign(h: Heap, bs: nat, size: nat)
    requires bs in h.free && h.free[bs] != []
    ensures SameForeign(h, Popped(h, bs, size))
  {
    hide Foreign;
    var k := PageOf(h.free[bs][0]);
    if k in h.arenas && h.arenas[k].Small? && h.arenas[k].freeCnt > 0 {
      CountForeign(h, Popped(h, bs, size), k, h.arenas[k].freeCnt - 1);
    } else {
      AsBefore(h, Popped(h, bs, size));
    }
  }

  lemma AsBefore(h: Heap, r: Heap)
    requires r.used == h.used && r.arenas == h.arenas
    ensures SameForeign(h, r)
  {
  }

  lemma TransForeign(h: Heap, a: Heap, r: Heap)
    requires SameForeign(h, a) && SameForeign(a, r)
    ensures SameForeign(h, r)
  {
    hide Foreign;
  }

  lemma MallocForeign(h: Heap, size: nat)
    requires Inv(h) && forall bs :: bs in Sizes() ==> bs in h.free
    ensures SameForeign(h, Malloc(h, size).0)
  {
    hide SameForeign, ListsOk, SplitOk, LiveOk, CountOk, BM.SetRange, PagesFor, Granted, Sizes;
    AsBefore(h, h);
    if size > 0 {
      match DescFor(size) {
        case None => MallocBigForeign(h, size);
        case Some(bs) => MallocSmallForeign(h, bs, size);
      }
    }
  }

  lemma MallocBigForeign(h: Heap, size: nat)
    requires PagesOk(h.arenas, h.used)
    ensures SameForeign(h, MallocBig(h, size).0)
  {
    hide PagesOk, SameForeign, PagesFor;
    AsBefore(h, h);
    var cnt := PagesFor(size);
    if GetPages(h.used, cnt).Some? {
      AddForeign(h, MallocBig(h, size).0, GetPages(h.used, cnt).value, Big(cnt));
    }
  }

  lemma MallocSmallForeign(h: Heap, bs: nat, size: nat)
    requires PagesOk(h.arenas, h.used) && bs in h.free && PerArena(bs) > 0
    ensures SameForeign(h, MallocSmall(h, bs, size).0)
  {
    hide PagesOk, SameForeign, PerArena, Popped;
    AsBefore(h, h);
    if h.free[bs] != [] {
      PoppedForeign(h, bs, size);
    } else if GetPages(h.used, 1).Some? {
      var k := GetPages(h.used, 1).value;
      AddForeign(h, NewArena(h, bs, k), k, Small(bs, PerArena(bs)));
      PoppedForeign(NewArena(h, bs, k), bs, size);
      TransForeign(h, NewArena(h, bs, k), Popped(NewArena(h, bs, k), bs, size));
    }
  }

  lemma FreeForeign(h: Heap, p: Option<Addr>)
    requires Inv(h) && (p.Some? ==> p.value in h.live)
    ensures SameForeign(h, Free(h, p))
  {
    hide SameForeign, ListsOk, SplitOk, LiveOk, CountOk, FilledMem, WithoutBlocks, HasBlock, PerArena;
    AsBefore(h, h);
    if p.Some? && PageOf(p.value) in h.arenas {
      var k := PageOf(p.value);
      assert BM.Group(h.used, k, Span(h.arenas[k]), true);
      if h.arenas[k].Big? {
        DropForeign(h, Free(h, p), k);
      } else if h.arenas[k].blockSize in h.free {
        var v := Pushed(h, p.value, h.arenas[k].blockSize);
        CountForeign(h, v, k, h.arenas[k].freeCnt + 1);
        if Free(h, p) != v {
          PagesSame(h.arenas, h.used, k, h.arenas[k].freeCnt + 1);
          DropForeign(v, Free(h, p), k);
          TransForeign(h, v, Free(h, p));
        }
      }
    }
  }

  /** No call changes which pages are marked without being part of an arena. */
  lemma NextForeign(h: Heap, op: Op)
    requires Inv(h) && Enabled(h, op)
    ensures SameForeign(h, Next(h, op))
  {
    hide InvWith, SameForeign, Malloc, Free, Sizes, Copied;
    match op
    case MallocOp(size) => MallocForeign(h, size);
    case FreeOp(p) => FreeForeign(h, p);
    case ReallocOp(p, size) => ReallocForeign(h, p, size);
    case WriteOp(b, i, x) => AsBefore(h, Next(h, op));
  }

  lemma ReallocForeign(h: Heap, p: Option<Addr>, size: nat)
    requires Inv(h) && (forall bs :: bs in Sizes() ==> bs in h.free) && size < 0x1_0000_0000
    requires p.Some? ==> p.value in h.live
    ensures SameForeign(h, Realloc(h, p, size).0)
  {
    hide InvWith, SameForeign, Malloc, Free, Sizes, Copied;
    if size == 0 {
      FreeForeign(h, p);
    } else {
      var (a, q) := Malloc(h, size);
      MallocForeign(h, size);
      MallocInv(h, size);
      if p.Some? && q.Some? {
        var n := Min(size, Capacity(a.arenas, p.value));
        var c := if p.value + n <= |a.mem| then a.(mem := Copied(a.mem, q.value, p.value, n)) else a;
        SameButMem(a, c);
        AsBefore(a, c);
        FreeForeign(c, p);
        TransForeign(a, c, Free(c, p));
        TransForeign(h, a, Free(c, p));
      }
    }
  }

  lemma {:induction false} RunForeign(h: Heap, ops: seq<Op>)
    requires Inv(h) && Legal(h, ops)
    ensures SameForeign(h, After(h, ops))
    decreases |ops|
  {
    hide InvWith, SameForeign, Next, Sizes;
    AsBefore(h, h);
    if ops != [] {
      NextInv(h, ops[0]);
      NextForeign(h, ops[0]);
      RunForeign(Next(h, ops[0]), ops[1..]);
      TransForeign(h, Next(h, ops[0]), After(h, ops));
    }
  }

  /** After any calls a page is marked exactly if it is part of an arena. */
  lemma MarkedExact(n: nat, mem: seq<Byte>, ops: seq<Op>, k: nat)
    requires |mem| == 4096 * n && Legal(Start(n, mem), ops) && k < n
    ensures var h := After(Start(n, mem), ops);
            |h.used| == n && (h.used[k] <==> Covered(h.arenas, k))
  {
    hide Legal, After, ListsOk, SplitOk, LiveOk, CountOk;
    var s := Start(n, mem);
    StartInv(n, mem);
    RunInv(s, ops);
    RunForeign(s, ops);
    var h := After(s, ops);
    assert !Foreign(s, k) && !Foreign(h, k);
    if j :| j in h.arenas && j <= k < j + Span(h.arenas[j]) {
      assert BM.Group(h.used, j, Span(h.arenas[j]), true);
    }
  }

  /** Nothing leaks: once every block has been freed, every page is free. */
  lemma NothingLeaks(n: nat, mem: seq<Byte>, ops: seq<Op>)
    requires |mem| == 4096 * n && Legal(Start(n, mem), ops) && After(Start(n, mem), ops).live == map[]
    ensures After(Start(n, mem), ops).used == Start(n, mem).used && After(Start(n, mem), ops).arenas == map[]
  {
    hide Legal, After, Covered;
    var h := After(Start(n, mem), ops);
    StartInv(n, mem);
    RunInv(Start(n, mem), ops);
    RunForeign(Start(n, mem), ops);
    NoArenas(h);
    forall k | 0 <= k < n ensures !h.used[k] {
      MarkedExact(n, mem, ops, k);
      assert !Covered(h.arenas, k) by { NotCovered(h.arenas, k); }
    }
  }

  lemma NotCovered(arenas: Arenas, k: nat)
    requires arenas == map[]
    ensures !Covered(arenas, k)
  {
  }

  /** Every arena has a block in use. */
  lemma NoArenas(h: Heap)
    requires Inv(h) && h.live == map[]
    ensures h.arenas == map[]
  {
    hide SplitOk, CountOk, FreeIn, HasBlock;
    forall k | k in h.arenas ensures false {
      if h.arenas[k].Small? { SomeoneElse(h, k, h.arenas[k].blockSize); }
    }
  }

  // Free undoes malloc.

  /** Freeing a block just had leaves the heap as it was, but for the bytes. */
  lemma FreeUndoes(h: Heap, size: nat)
    requires Inv(h) && 0 < size < 0x1_0000_0000 && (forall bs :: bs in Sizes() ==> bs in h.free)
    requires Malloc(h, size).1.Some?
    ensures var (a, b) := Malloc(h, size);
            Free(a, b) == h.(mem := Free(a, b).mem)
  {
    hide Inv, Free, MallocBig, Popped, NewArena, GetPages, Sizes;
    MallocInv(h, size);
    match DescFor(size)
    case None => BigUndone(h, size);
    case Some(bs) => if h.free[bs] != [] { PopUndone(h, bs, size); } else { ArenaUndone(h, bs, size); }
  }

  lemma BigUndone(h: Heap, size: nat)
    requires Inv(h) && MallocBig(h, size).1.Some? && MallocBig(h, size).1.value !in h.live
    ensures var (a, b) := MallocBig(h, size);
            Free(a, b) == h.(mem := Free(a, b).mem)
  {
    hide ListsOk, SplitOk, LiveOk, CountOk, FilledMem, PagesFor, Granted;
    var cnt := PagesFor(size);
    var k := GetPages(h.used, cnt).value;
    var (a, b) := MallocBig(h, size);
    NewPage(h, k, cnt);
    BigPage(k);
    MarksBack(h.used, k, cnt);
    assert h.arenas[k := Big(cnt)] - {k} == h.arenas;
    assert h.live[b.value := Granted(size)] - {b.value} == h.live;
  }

  lemma MarksBack(used: seq<bool>, k: nat, cnt: nat)
    requires BM.Group(used, k, cnt, false)
    ensures BM.SetRange(BM.SetRange(used, k, cnt, true), k, cnt, false) == used
  {
  }

  lemma PopUndone(h: Heap, bs: nat, size: nat)
    requires Inv(h) && bs in h.free && h.free[bs] != []
    ensures var a := Popped(h, bs, size);
            Free(a, Some(h.free[bs][0])) == h.(mem := Free(a, Some(h.free[bs][0])).mem)
  {
    hide Inv, Popped, Pushed, Free, PerArena;
    var b := h.free[bs][0];
    PopCount(h, bs, b);
    var a := Popped(h, bs, size);
    PushBack(h, bs, size);
    JustPushed(a, b, bs);
  }

  /** Pushing the block that was just popped. */
  lemma PushBack(h: Heap, bs: nat, size: nat)
    requires bs in h.free && h.free[bs] != [] && h.free[bs][0] !in h.live && PageOf(h.free[bs][0]) in h.arenas
    requires h.arenas[PageOf(h.free[bs][0])].Small? && h.arenas[PageOf(h.free[bs][0])].freeCnt > 0
    ensures var b := h.free[bs][0];
            var a := Popped(h, bs, size);
            && PageOf(b) in a.arenas && bs in a.free
            && a.arenas[PageOf(b)] == h.arenas[PageOf(b)].(freeCnt := h.arenas[PageOf(b)].freeCnt - 1)
            && Pushed(a, b, bs) == h.(mem := Pushed(a, b, bs).mem)
  {
    hide PageOf, FilledMem;
    var b := h.free[bs][0];
    var k := PageOf(b);
    var a := Popped(h, bs, size);
    assert [b] + h.free[bs][1..] == h.free[bs];
    assert a.free[bs := h.free[bs]] == h.free;
    assert a.arenas[k := h.arenas[k]] == h.arenas;
    assert a.live - {b} == h.live;
  }

  /** Free of a block whose arena stays. */
  lemma JustPushed(h: Heap, b: Addr, bs: nat)
    requires bs in h.free && PageOf(b) in h.arenas && h.arenas[PageOf(b)].Small?
    requires h.arenas[PageOf(b)].blockSize == bs && h.arenas[PageOf(b)].freeCnt + 1 < PerArena(bs)
    ensures Free(h, Some(b)) == Pushed(h, b, bs)
  {
    hide PageOf, PerArena, FilledMem, DropArena;
  }

  lemma PopCount(h: Heap, bs: nat, b: Addr)
    requires Inv(h) && bs in h.free && b in h.free[bs]
    ensures PageOf(b) in h.arenas && h.arenas[PageOf(b)].Small? && h.arenas[PageOf(b)].blockSize == bs
    ensures 0 < h.arenas[PageOf(b)].freeCnt < PerArena(bs) && b !in h.live
  {
    hide PagesOk, LiveOk;
    assert HasBlock(h.arenas, bs, b);
    var i := Number(h.arenas, bs, b);
    assert i in FreeIn(h.free[bs], PageOf(b), bs);
  }

  lemma ArenaUndone(h: Heap, bs: nat, size: nat)
    requires Inv(h) && bs in Sizes() && bs in h.free && h.free[bs] == [] && GetPages(h.used, 1).Some?
    requires MallocSmall(h, bs, size).1.Some? && MallocSmall(h, bs, size).1.value !in h.live
    ensures var (a, b) := MallocSmall(h, bs, size);
            Free(a, b) == h.(mem := Free(a, b).mem)
  {
    hide Inv, Popped, Pushed, Free, PerArena, GetPages, NewArena, Blocks, Sizes;
    var k := GetPages(h.used, 1).value;
    NewIs(h, bs, k);
    var n := NewArena(h, bs, k);
    PushBack(n, bs, size);
    Dropped(h, bs, k, n.free[bs][0], Popped(n, bs, size));
  }

  lemma NewIs(h: Heap, bs: nat, k: nat)
    requires Inv(h) && bs in Sizes() && bs in h.free && h.free[bs] == [] && GetPages(h.used, 1) == Some(k)
    ensures k !in h.arenas && PerArena(bs) > 0 && k < |h.used| && BM.Group(h.used, k, 1, false)
    ensures var n := NewArena(h, bs, k);
            && n.free == h.free[bs := Blocks(k, bs, PerArena(bs))]
            && n.arenas == h.arenas[k := Small(bs, PerArena(bs))] && n.live == h.live
            && n.used == BM.SetRange(h.used, k, 1, true)
            && PageOf(n.free[bs][0]) == k
  {
    hide ListsOk, SplitOk, LiveOk, CountOk, BM.SetRange, PageOf;
    NewPage(h, k, 1);
    SizesPositive(bs);
    BlockPlace(k, bs, 0);
    assert [] + Blocks(k, bs, PerArena(bs)) == Blocks(k, bs, PerArena(bs));
  }

  /** Freeing the only block in use of an arena. */
  lemma Dropped(h: Heap, bs: nat, k: nat, b: Addr, a: Heap)
    requires k !in h.arenas && bs in h.free && bs in a.free && h.free[bs] == [] && PageOf(b) == k
    requires PerArena(bs) > 0 && k in a.arenas && a.arenas[k] == Small(bs, PerArena(bs) - 1)
    requires k < |h.used| && BM.Group(h.used, k, 1, false)
    requires Pushed(a, b, bs) == h.(used := BM.SetRange(h.used, k, 1, true), mem := Pushed(a, b, bs).mem,
                                    arenas := h.arenas[k := Small(bs, PerArena(bs))],
                                    free := h.free[bs := Blocks(k, bs, PerArena(bs))])
    ensures Free(a, Some(b)) == h.(mem := Free(a, Some(b)).mem)
  {
    AllTaken(k, bs);
    MarksBack(h.used, k, 1);
    hide PageOf, PerArena, FilledMem, Pushed, WithoutBlocks, Blocks, BM.SetRange;
    var v := Pushed(a, b, bs);
    assert Free(a, Some(b)) == DropArena(v, k, bs);
    assert v.arenas - {k} == h.arenas;
    assert v.free[bs := []] == h.free;
  }

  /** Without its blocks nothing is left of a list that has only them. */
  lemma AllTaken(k: nat, bs: nat)
    ensures WithoutBlocks(Blocks(k, bs, PerArena(bs)), k, bs, PerArena(bs)) == []
  {
    var s, n := Blocks(k, bs, PerArena(bs)), PerArena(bs);
    WithoutFacts(s, k, bs, n);
    var r := WithoutBlocks(s, k, bs, n);
    if r != [] { SomeMember(r); }
  }

  lemma SomeMember(s: seq<Addr>)
    requires s != []
    ensures exists x :: x in s
  {
    assert s[0] in s;
  }

  // Malloc undoes free.

  /** A block that is freed while another of its arena is in use is the next to be given out, and
      giving it out again leaves the heap as it was, but for the bytes and the size asked for. */
  lemma ReuseFreed(h: Heap, b: Addr, c: Addr, size: nat)
    requires Inv(h) && b in h.live && c in h.live && c != b && PageOf(c) == PageOf(b)
    requires size > 0 && Smallest(size, Capacity(h.arenas, b))
    ensures var f := Free(h, Some(b));
            && (forall bs :: bs in Sizes() ==> bs in f.free)
            && Malloc(f, size) == (h.(live := h.live[b := size], mem := f.mem), Some(b))
  {
    var k := PageOf(b);
    FreeInv(h, Some(b));
    HasLists(Free(h, Some(b)));
    LiveArena(h, b);
    StaysArena(h, b, c);
    var bs := h.arenas[k].blockSize;
    DescIs(size, bs);
    hide Inv, PerArena, Sizes, LiveBlock, Smallest, DescFor, Pushed, Popped, Free, Capacity, PageOf;
    JustPushed(h, b, bs);
    PopBack(h, b, bs, size);
    SizesPositive(bs);
  }

  /** Popping the block that was just pushed. */
  lemma PopBack(h: Heap, b: Addr, bs: nat, size: nat)
    requires bs in h.free && PageOf(b) in h.arenas && h.arenas[PageOf(b)].Small?
    ensures var f := Pushed(h, b, bs);
            && bs in f.free && f.free[bs] != [] && f.free[bs][0] == b
            && Popped(f, bs, size) == h.(live := h.live[b := size], mem := f.mem)
  {
    hide PageOf, FilledMem;
    var f := Pushed(h, b, bs);
    assert f.free[bs][1..] == h.free[bs];
    var r := Popped(f, bs, size);
    assert r.free == h.free;
    assert r.arenas == h.arenas;
    assert r.live == h.live[b := size];
  }

  /** An arena with two blocks in use is small, and stays when one of them is freed. */
  lemma StaysArena(h: Heap, b: Addr, c: Addr)
    requires Inv(h) && b in h.live && c in h.live && c != b && PageOf(c) == PageOf(b) && PageOf(b) in h.arenas
    ensures h.arenas[PageOf(b)].Small? && h.arenas[PageOf(b)].freeCnt + 1 < PerArena(h.arenas[PageOf(b)].blockSize)
  {
    hide InvWith, Pushed, HasBlock;
    var k := PageOf(b);
    LiveArena(h, b);
    LiveArena(h, c);
    var bs := h.arenas[k].blockSize;
    PushedInv(h, b, bs);
    PushedIs(h, b, bs);
    if h.arenas[k].freeCnt + 1 >= PerArena(bs) {
      WholeFree(Pushed(h, b, bs), k, bs);
    }
  }

  lemma DescIs(size: nat, bs: nat)
    requires Smallest(size, bs)
    ensures DescFor(size) == Some(bs)
  {
  }

  // Freed bytes.

  /** Every byte of a block that is freed becomes 0xcc. */
  lemma FreeFills(h: Heap, b: Addr, i: nat)
    requires Inv(h) && b in h.live && b <= i < b + Capacity(h.arenas, b)
    ensures var r := Free(h, Some(b)); i < |r.mem| && r.mem[i] == 0xcc
  {
    hide InvWith, WithoutBlocks, BM.SetRange, HasBlock, PerArena;
    LiveArena(h, b);
    BlockBounds(h, b);
    BigRange(h, b);
  }

  lemma BigRange(h: Heap, b: Addr)
    requires Inv(h) && b in h.live && PageOf(b) in h.arenas
    ensures PageOf(b) + Span(h.arenas[PageOf(b)]) <= |h.used| && |h.mem| == 4096 * |h.used|
  {
    assert BM.Group(h.used, PageOf(b), Span(h.arenas[PageOf(b)]), true);
  }
}
