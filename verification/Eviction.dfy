/** Which page the clock evicts: the second-chance rule, counted from the clock hand (vm/frame.c). */
module Eviction {
  import opened Wrappers
  import opened Paging
  import opened PagingInv
  import BM = Bitmap

  /** The index `j` places on from the hand, around a table of `n`. */
  function Place(n: nat, h: nat, j: nat): (i: nat)
    requires j < n
    ensures i < n
  {
    var from := if h >= n then 0 else h;
    if from + j < n then from + j else from + j - n
  }

  /** The frame `j` places on from the hand can be evicted: it is mapped and not pinned. */
  predicate Cand(table: seq<Fid>, frames: map<Fid, Frame>, h: nat, j: nat)
    requires j < |table| && forall f :: f in table ==> f in frames
  {
    Candidate(frames, table[Place(|table|, h, j)])
  }

  /** Its page. */
  function PageAt(table: seq<Fid>, frames: map<Fid, Frame>, h: nat, j: nat): Pid
    requires j < |table| && (forall f :: f in table ==> f in frames) && Cand(table, frames, h, j)
  {
    frames[table[Place(|table|, h, j)]].spte.value
  }

  /** The pages of the candidates among the first `m` places. */
  ghost function Passed(table: seq<Fid>, frames: map<Fid, Frame>, h: nat, m: nat): set<Pid>
    requires m <= |table| && forall f :: f in table ==> f in frames
  {
    set j: nat | j < m && Cand(table, frames, h, j) :: PageAt(table, frames, h, j)
  }

  /** Every frame of the table is a frame, and different ones hold different pages. */
  ghost predicate Sane(table: seq<Fid>, frames: map<Fid, Frame>) {
    && (forall f :: f in table ==> f in frames)
    && (forall a, b :: 0 <= a < b < |table| && Candidate(frames, table[a]) && Candidate(frames, table[b]) ==>
          frames[table[a]].spte != frames[table[b]].spte)
  }

  /** All candidates among the first `m` places have been accessed. */
  ghost predicate AllAccessed(table: seq<Fid>, frames: map<Fid, Frame>, h: nat, accessed: set<Pid>, m: nat)
    requires m <= |table| && forall f :: f in table ==> f in frames
  {
    forall j: nat :: j < m && Cand(table, frames, h, j) ==> PageAt(table, frames, h, j) in accessed
  }

  lemma NextPlace(n: nat, h: nat, j: nat)
    requires j + 1 < n
    ensures Place(n, Place(n, h, 0) + 1, j) == Place(n, h, j + 1)
  {
  }

  lemma OtherPage(table: seq<Fid>, frames: map<Fid, Frame>, h: nat, i: nat, j: nat)
    requires Sane(table, frames) && i < j < |table| && Cand(table, frames, h, i) && Cand(table, frames, h, j)
    ensures PageAt(table, frames, h, i) != PageAt(table, frames, h, j)
  {
    var a, b := Place(|table|, h, i), Place(|table|, h, j);
    assert a != b;
    if a < b {
      assert frames[table[a]].spte != frames[table[b]].spte;
    } else {
      assert frames[table[b]].spte != frames[table[a]].spte;
    }
  }

  /** The hand passes a frame that is no candidate, or whose page was accessed and loses its mark. */
  lemma PassOne(table: seq<Fid>, frames: map<Fid, Frame>, h: nat, accessed: set<Pid>, fuel: nat)
    requires Sane(table, frames) && table != [] && fuel > 0 && AllAccessed(table, frames, h, accessed, 1)
    ensures Clock(table, frames, h, accessed, fuel) ==
            Clock(table, frames, Place(|table|, h, 0) + 1, accessed - Passed(table, frames, h, 1), fuel - 1)
  {
    var passed := Passed(table, frames, h, 1);
    if Cand(table, frames, h, 0) {
      assert passed == {PageAt(table, frames, h, 0)};
    } else {
      assert passed == {};
      assert accessed - passed == accessed;
    }
  }

  lemma PassedMore(table: seq<Fid>, frames: map<Fid, Frame>, h: nat, m: nat)
    requires 0 < m <= |table| && forall f :: f in table ==> f in frames
    ensures Passed(table, frames, h, m) ==
            Passed(table, frames, h, 1) + Passed(table, frames, Place(|table|, h, 0) + 1, m - 1)
  {
    var g := Place(|table|, h, 0) + 1;
    forall j: nat | j < m - 1
      ensures Cand(table, frames, g, j) == Cand(table, frames, h, j + 1)
    {
      NextPlace(|table|, h, j);
    }
    var a, b := Passed(table, frames, h, m), Passed(table, frames, h, 1) + Passed(table, frames, g, m - 1);
    forall p ensures p in a <==> p in b {
      if p in a {
        var j: nat :| j < m && Cand(table, frames, h, j) && p == PageAt(table, frames, h, j);
        if j > 0 {
          NextPlace(|table|, h, j - 1);
          assert Cand(table, frames, g, j - 1) && p == PageAt(table, frames, g, j - 1);
        }
      }
      if p in Passed(table, frames, g, m - 1) {
        var j: nat :| j < m - 1 && Cand(table, frames, g, j) && p == PageAt(table, frames, g, j);
        NextPlace(|table|, h, j);
        assert Cand(table, frames, h, j + 1) && p == PageAt(table, frames, h, j + 1);
      }
    }
  }

  /** Where the hand stands when it has passed `m` frames. */
  function Beyond(n: nat, h: nat, m: nat): nat
    requires m <= n
  {
    if m == 0 then h else Place(n, h, m - 1) + 1
  }

  lemma BeyondNext(n: nat, h: nat, m: nat)
    requires 0 < m <= n
    ensures Beyond(n, h, m) == Beyond(n, Place(n, h, 0) + 1, m - 1)
  {
    if m > 1 { NextPlace(n, h, m - 2); }
  }

  /** As long as all candidates have been accessed the hand moves on, and they lose their marks. */
  lemma {:induction false} Pass(table: seq<Fid>, frames: map<Fid, Frame>, h: nat, accessed: set<Pid>, fuel: nat, m: nat)
    requires Sane(table, frames) && m <= |table| && m <= fuel && AllAccessed(table, frames, h, accessed, m)
    ensures Clock(table, frames, h, accessed, fuel) ==
            Clock(table, frames, Beyond(|table|, h, m), accessed - Passed(table, frames, h, m), fuel - m)
    decreases m
  {
    if m == 0 {
      assert Passed(table, frames, h, 0) == {};
      assert accessed - {} == accessed;
    } else {
      var g, left := Place(|table|, h, 0) + 1, accessed - Passed(table, frames, h, 1);
      assert AllAccessed(table, frames, h, accessed, 1);
      PassOne(table, frames, h, accessed, fuel);
      StillAccessed(table, frames, h, accessed, m);
      hide Clock, AllAccessed, Sane, Passed;
      Pass(table, frames, g, left, fuel - 1, m - 1);
      PassedMore(table, frames, h, m);
      BeyondNext(|table|, h, m);
      assert left - Passed(table, frames, g, m - 1) == accessed - Passed(table, frames, h, m);
    }
  }

  lemma StillAccessed(table: seq<Fid>, frames: map<Fid, Frame>, h: nat, accessed: set<Pid>, m: nat)
    requires Sane(table, frames) && 0 < m <= |table| && AllAccessed(table, frames, h, accessed, m)
    ensures AllAccessed(table, frames, Place(|table|, h, 0) + 1, accessed - Passed(table, frames, h, 1), m - 1)
  {
    var g := Place(|table|, h, 0) + 1;
    forall j: nat | j < m - 1 && Cand(table, frames, g, j)
      ensures PageAt(table, frames, g, j) in accessed - Passed(table, frames, h, 1)
    {
      NextPlace(|table|, h, j);
      assert Cand(table, frames, h, j + 1);
      if Cand(table, frames, h, 0) { OtherPage(table, frames, h, 0, j + 1); }
    }
  }

  /** The frame under the hand is a candidate that has not been accessed. */
  lemma Stops(table: seq<Fid>, frames: map<Fid, Frame>, h: nat, accessed: set<Pid>, fuel: nat, m: nat)
    requires Sane(table, frames) && m < |table| && fuel > 0
    requires Cand(table, frames, h, m) && PageAt(table, frames, h, m) !in accessed
    ensures Clock(table, frames, Beyond(|table|, h, m), accessed, fuel) == Victim(Place(|table|, h, m), accessed)
  {
  }

  /** The place `m` is where the clock stops: the first candidate that has not been accessed, or, if
      all have been, the first candidate. */
  ghost predicate Chosen(table: seq<Fid>, frames: map<Fid, Frame>, h: nat, accessed: set<Pid>, m: nat)
    requires forall f :: f in table ==> f in frames
  {
    && m < |table| && Cand(table, frames, h, m)
    && if AllAccessed(table, frames, h, accessed, |table|)
       then forall j: nat :: j < m ==> !Cand(table, frames, h, j)
       else PageAt(table, frames, h, m) !in accessed && AllAccessed(table, frames, h, accessed, m)
  }

  /** The second-chance rule. The victim is the first candidate from the hand that has not been
      accessed, and exactly the candidates before it lose their marks; if all have been accessed, it
      is the first candidate, and all lose theirs. */
  lemma SecondChance(table: seq<Fid>, frames: map<Fid, Frame>, h: nat, accessed: set<Pid>, m: nat)
    requires Sane(table, frames) && Chosen(table, frames, h, accessed, m)
    ensures var lose := if AllAccessed(table, frames, h, accessed, |table|) then |table| else m;
            Clock(table, frames, h, accessed, 2 * |table|)
            == Victim(Place(|table|, h, m), accessed - Passed(table, frames, h, lose))
  {
    var n := |table|;
    if !AllAccessed(table, frames, h, accessed, n) {
      Pass(table, frames, h, accessed, 2 * n, m);
      Stops(table, frames, h, accessed - Passed(table, frames, h, m), 2 * n - m, m);
    } else {
      var g, left := Beyond(n, h, n), accessed - Passed(table, frames, h, n);
      Pass(table, frames, h, accessed, 2 * n, n);
      forall j: nat | j < n ensures Cand(table, frames, g, j) == Cand(table, frames, h, j) { SamePlace(n, h, j); }
      Pass(table, frames, g, left, n, m);
      assert Passed(table, frames, g, m) == {};
      assert left - {} == left;
      SamePlace(n, h, m);
      Stops(table, frames, g, left, n - m, m);
    }
  }

  lemma SamePlace(n: nat, h: nat, j: nat)
    requires j < n
    ensures Place(n, Beyond(n, h, n), j) == Place(n, h, j)
  {
  }

  /** There is such a place exactly if there is a candidate. */
  lemma SomeChosen(table: seq<Fid>, frames: map<Fid, Frame>, h: nat, accessed: set<Pid>)
    requires Sane(table, frames)
    ensures (exists m: nat :: Chosen(table, frames, h, accessed, m)) <==> exists f :: f in table && Candidate(frames, f)
  {
    if exists f :: f in table && Candidate(frames, f) {
      var f :| f in table && Candidate(frames, f);
      var i :| 0 <= i < |table| && table[i] == f;
      var c := Reach(|table|, h, i);
      if AllAccessed(table, frames, h, accessed, |table|) {
        var m := FirstCand(table, frames, h, c);
        assert Chosen(table, frames, h, accessed, m);
      } else {
        var m := FirstSpared(table, frames, h, accessed, |table|);
        assert Chosen(table, frames, h, accessed, m);
      }
    }
    if m: nat :| Chosen(table, frames, h, accessed, m) {
      assert table[Place(|table|, h, m)] in table;
    }
  }

  /** Every index is some places on from the hand. */
  lemma Reach(n: nat, h: nat, i: nat) returns (j: nat)
    requires i < n
    ensures j < n && Place(n, h, j) == i
  {
    var from := if h >= n then 0 else h;
    j := if from <= i then i - from else i + n - from;
  }

  lemma FirstCand(table: seq<Fid>, frames: map<Fid, Frame>, h: nat, c: nat) returns (m: nat)
    requires (forall f :: f in table ==> f in frames) && c < |table| && Cand(table, frames, h, c)
    ensures m <= c && Cand(table, frames, h, m) && forall j: nat :: j < m ==> !Cand(table, frames, h, j)
  {
    m := 0;
    while !Cand(table, frames, h, m)
      invariant m <= c && forall j: nat :: j < m ==> !Cand(table, frames, h, j)
      decreases c - m
    {
      m := m + 1;
    }
  }

  lemma FirstSpared(table: seq<Fid>, frames: map<Fid, Frame>, h: nat, accessed: set<Pid>, n: nat) returns (m: nat)
    requires (forall f :: f in table ==> f in frames) && n <= |table| && !AllAccessed(table, frames, h, accessed, n)
    ensures m < n && Cand(table, frames, h, m) && PageAt(table, frames, h, m) !in accessed
    ensures AllAccessed(table, frames, h, accessed, m)
  {
    m := 0;
    while AllAccessed(table, frames, h, accessed, m + 1)
      invariant m < n && AllAccessed(table, frames, h, accessed, m)
      decreases n - m
    {
      m := m + 1;
      if m == n { assert false; }
    }
  }

  // do_eviction.

  /** The frame `m` places on from the hand is the one to be evicted. */
  ghost predicate VictimAt(vm: Vm, m: nat)
    requires forall f :: f in vm.table ==> f in vm.frames
  {
    Chosen(vm.table, vm.frames, HandIndex(vm), vm.accessed, m)
  }

  /** The contents of the page have to go to a swap slot that it does not have. */
  predicate NeedsSlot(vm: Vm, p: Pid)
    requires p in vm.pages
  {
    if vm.pages[p].kind == Swapped then vm.pages[p].slot == 0 else p in vm.dirty
  }

  lemma InvSane(vm: Vm)
    requires Inv(vm)
    ensures Sane(vm.table, vm.frames)
  {
    hide MemOk, SlotsOk, CleanOk, FilesOk;
  }

  /** Eviction takes the page the second-chance rule picks, and fails exactly if that needs a swap
      slot and all are in use. The frame leaves the table and the hand stands behind it; nothing
      changes for any other page but the marks. */
  lemma EvictExact(vm: Vm, m: nat)
    requires Inv(vm)
    ensures Sane(vm.table, vm.frames)
    ensures VictimAt(vm, m) ==>
              var i := Place(|vm.table|, HandIndex(vm), m);
              var p := PageAt(vm.table, vm.frames, HandIndex(vm), m);
              var lose := if AllAccessed(vm.table, vm.frames, HandIndex(vm), vm.accessed, |vm.table|)
                          then |vm.table| else m;
              && p in vm.pages
              && (Evict(vm).Some? <==> !NeedsSlot(vm, p) || exists k :: 0 <= k < |vm.used| && !vm.used[k])
              && (Evict(vm).Some? ==> var (r, k) := Evict(vm).value;
                                      && Taken(vm, r, i, p) && k == vm.frames[vm.table[i]].kpage
                                      && k in vm.mem && Stored(vm, r, p, vm.mem[k])
                                      && r.accessed == vm.accessed - Passed(vm.table, vm.frames, HandIndex(vm), lose))
  {
    InvSane(vm);
    if VictimAt(vm, m) {
      SecondChance(vm.table, vm.frames, HandIndex(vm), vm.accessed, m);
      var h := HandIndex(vm);
      var i, p := Place(|vm.table|, h, m), PageAt(vm.table, vm.frames, h, m);
      var lose := if AllAccessed(vm.table, vm.frames, h, vm.accessed, |vm.table|) then |vm.table| else m;
      hide Inv, Clock, HandIndex, Passed, AllAccessed, WrittenBack, Unlinked, Taken, Stored, NeedsSlot;
      VictimFacts(vm, i, p);
      WrittenExact(vm, i, p, vm.accessed - Passed(vm.table, vm.frames, h, lose),
                   vm.mem[vm.frames[vm.table[i]].kpage]);
    }
  }

  /** Writing the victim back. */
  lemma WrittenExact(vm: Vm, i: nat, p: Pid, accessed: set<Pid>, data: Data)
    requires Inv(vm) && i < |vm.table| && p in vm.pages
    ensures p in Unlinked(vm, i, p, accessed).pages
    ensures var w := WrittenBack(Unlinked(vm, i, p, accessed), p, data);
            && (w.Some? <==> !NeedsSlot(vm, p) || exists k :: 0 <= k < |vm.used| && !vm.used[k])
            && (w.Some? ==> Taken(vm, w.value, i, p) && Stored(vm, w.value, p, data) && w.value.accessed == accessed)
  {
    SameSizes(vm);
    FreeSlot(vm.used);
    if vm.pages[p].kind == Swapped && vm.pages[p].slot != 0 { OwnSlot(vm, p); }
    hide Inv;
  }

  lemma SameSizes(vm: Vm)
    requires Inv(vm)
    ensures |vm.used| == |vm.swap|
  {
    hide TableOk, LinkOk, SlotsOk, CleanOk, FilesOk;
  }

  lemma FreeSlot(used: seq<bool>)
    ensures var k := BM.Scanned(used, 0, 1, false);
            && (k.Some? ==> k.value < |used| && !used[k.value] && forall j :: 0 <= j < k.value ==> used[j])
            && (k.Some? <==> exists j :: 0 <= j < |used| && !used[j])
  {
    var k := BM.Scanned(used, 0, 1, false);
    forall j | 0 <= j < |used| && !used[j] ensures BM.Group(used, j, 1, false) {}
    if j :| 0 <= j < |used| && !used[j] { assert BM.Group(used, j, 1, false); }
    if k.Some? {
      assert BM.Group(used, k.value, 1, false);
      assert !used[k.value];
    }
  }

  /** From `vm` to `r`, page `p` is out of frame `i` of the table. */
  ghost predicate Taken(vm: Vm, r: Vm, i: nat, p: Pid)
    requires i < |vm.table| && p in vm.pages
  {
    && r.table == vm.table[..i] + vm.table[i + 1..] && r.frames == vm.frames - {vm.table[i]}
    && r.hand == (if i + 1 < |vm.table| then At(vm.table[i + 1]) else End)
    && p in r.pages && r.pages == vm.pages[p := r.pages[p]] && r.pages[p].frame.None?
    && r.dirty == vm.dirty && r.files == vm.files && r.pool == vm.pool && r.mem == vm.mem
  }

  /** What becomes of the bytes of page `p`, evicted from `vm` to `r`. A page that has neither been
      changed nor come from swap is dropped; any other goes to its own swap slot, or to the first free one. */
  ghost predicate Stored(vm: Vm, r: Vm, p: Pid, data: Data)
    requires p in vm.pages && p in r.pages
  {
    var (was, now) := (vm.pages[p], r.pages[p]);
    var k := now.slot / SECTORS_PER_PAGE;
    if p !in vm.dirty && was.kind != Swapped then now == was.(frame := None) && r.used == vm.used && r.swap == vm.swap
    else
      && now == was.(frame := None, kind := Swapped, slot := k * SECTORS_PER_PAGE)
      && k < |vm.used| && k < |vm.swap| && r.used == vm.used[k := true] && r.swap == vm.swap[k := data]
      && if NeedsSlot(vm, p) then !vm.used[k] && forall j :: 0 <= j < k ==> vm.used[j]
         else k == was.slot / SECTORS_PER_PAGE
  }

  lemma {:induction false} NeverStops(table: seq<Fid>, frames: map<Fid, Frame>, h: nat, accessed: set<Pid>, fuel: nat)
    requires (forall f :: f in table ==> f in frames) && forall f :: f in table ==> !Candidate(frames, f)
    ensures Clock(table, frames, h, accessed, fuel).Stuck?
    decreases fuel
  {
    if fuel > 0 && table != [] {
      var i := if h >= |table| then 0 else h;
      assert !Candidate(frames, table[i]);
      NeverStops(table, frames, i + 1, accessed, fuel - 1);
    }
  }

  // frame_alloc.

  /** While pages of memory are free one of them is taken and nothing is evicted. Otherwise a frame
      is had exactly if some frame can be evicted and its page does not lack a swap slot. */
  lemma AllocExact(vm: Vm, fid: Fid, choice: Kpage)
    requires Inv(vm) && (vm.pool != {} ==> choice in vm.pool)
    ensures Sane(vm.table, vm.frames)
    ensures vm.pool != {} ==>
              var a := FrameAlloc(vm, fid, choice);
              && a.Some? && a.value.1 == choice
              && a.value.0 == vm.(pool := vm.pool - {choice}, mem := vm.mem[choice := Zeros()],
                                  table := vm.table + [fid], frames := vm.frames[fid := Frame(choice, None, false)])
    ensures vm.pool == {} ==>
              (FrameAlloc(vm, fid, choice).Some? <==>
                 exists m: nat :: VictimAt(vm, m) && CanGo(vm, m))
  {
    InvSane(vm);
    hide Inv, Evict, Chosen, Sane, CanGo;
    if vm.pool == {} {
      EvictWhen(vm);
    }
  }

  /** The page at that place does not lack a swap slot. */
  ghost predicate CanGo(vm: Vm, m: nat)
    requires (forall f :: f in vm.table ==> f in vm.frames) && VictimAt(vm, m)
  {
    var p := PageAt(vm.table, vm.frames, HandIndex(vm), m);
    p in vm.pages && (!NeedsSlot(vm, p) || exists k :: 0 <= k < |vm.used| && !vm.used[k])
  }

  lemma EvictWhen(vm: Vm)
    requires Inv(vm)
    ensures Sane(vm.table, vm.frames)
    ensures Evict(vm).Some? <==> exists m: nat :: VictimAt(vm, m) && CanGo(vm, m)
  {
    InvSane(vm);
    SomeChosen(vm.table, vm.frames, HandIndex(vm), vm.accessed);
    if m: nat :| VictimAt(vm, m) {
      forall k: nat | VictimAt(vm, k) ensures CanGo(vm, k) <==> Evict(vm).Some? { EvictExact(vm, k); }
    } else {
      assert forall f :: f in vm.table ==> !Candidate(vm.frames, f) by {
        if f :| f in vm.table && Candidate(vm.frames, f) {
          var m: nat :| Chosen(vm.table, vm.frames, HandIndex(vm), vm.accessed, m);
          assert VictimAt(vm, m);
        }
      }
      NeverStops(vm.table, vm.frames, HandIndex(vm), vm.accessed, 2 * |vm.table|);
    }
  }
}
