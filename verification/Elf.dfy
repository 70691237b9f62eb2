/** Loading an ELF segment: which page records are made, and what memory they stand for
    (userprog/process.c: validate_segment, load_segment and the sizes computed in load). */
module Elf {
  import opened Arithmetic
  import opened Bits
  import opened Storage

  const PHYS_BASE: nat := 0xC000_0000

  /** Disks of one gigabyte or more are not used (devices/ide.c), so files are smaller. */
  const MAX_FILE: nat := 0x4000_0000

  /** The fields of a program header that matter here, all 32-bit words. */
  datatype Segment = Segment(offset: nat, vaddr: nat, fileSize: nat, memSize: nat)

  ghost predicate Words(p: Segment) {
    p.offset < TWO32 && p.vaddr < TWO32 && p.fileSize < TWO32 && p.memSize < TWO32
  }

  /** The offset of an address in its page, and the address of the page. */
  function PageOffset(a: nat): nat { And(a, 4095) }
  function PageStart(a: nat): nat
    requires a < TWO32
  {
    And(a, Not32(4095))
  }

  function Not32(x: nat): nat
    requires x < TWO32
  {
    TWO32 - 1 - x
  }

  /** ROUND_UP to pages. */
  function RoundUp(x: nat): nat { (x + 4095) / 4096 * 4096 }

  lemma PageParts(a: nat)
    requires a < TWO32
    ensures PageOffset(a) == a % 4096 && PageStart(a) == a - a % 4096
  {
    hide And;
    Pow2Values();
    Pow2Add(8, 4);
    MaskIsMod(a, 12);
    SplitMask(a, 4095, 32);
  }

  lemma AndUnfold(a: nat, m: nat)
    ensures And(a, m) == 2 * And(a / 2, m / 2) + Digit(a % 2 == 1 && m % 2 == 1)
  {
  }

  /** A mask and its complement split a word. */
  lemma {:induction false} SplitMask(a: nat, m: nat, n: nat)
    requires a < Pow2(n) && m < Pow2(n)
    ensures And(a, m) + And(a, Pow2(n) - 1 - m) == a
    decreases n
  {
    hide And;
    if n == 0 {
      AndUnfold(0, 0);
      AndLess(0, 0);
    } else {
      var c := Pow2(n) - 1 - m;
      assert c / 2 == Pow2(n - 1) - 1 - m / 2 && c % 2 == 1 - m % 2;
      SplitMask(a / 2, m / 2, n - 1);
      AndUnfold(a, m);
      AndUnfold(a, c);
    }
  }

  /** validate_segment, in 32-bit arithmetic. */
  predicate Validate(p: Segment, fileLength: nat) {
    && PageOffset(p.offset) == PageOffset(p.vaddr)
    && p.offset <= fileLength
    && p.memSize >= p.fileSize && p.memSize != 0
    && p.vaddr < PHYS_BASE && ToU32(p.vaddr + p.memSize) < PHYS_BASE
    && ToU32(p.vaddr + p.memSize) >= p.vaddr
    && p.vaddr >= 4096
  }

  /** What acceptance means: the segment lies between the first page and the kernel, without
      wrapping around. */
  lemma ValidMeans(p: Segment, fileLength: nat)
    requires Words(p)
    ensures Validate(p, fileLength) <==>
              && p.offset % 4096 == p.vaddr % 4096 && p.offset <= fileLength
              && p.fileSize <= p.memSize && 0 < p.memSize
              && 4096 <= p.vaddr && p.vaddr + p.memSize < PHYS_BASE
  {
    hide PageOffset, PageStart, ToU32, And;
    PageParts(p.offset);
    PageParts(p.vaddr);
    U32Wraps(p.vaddr + p.memSize);
  }

  lemma U32Wraps(x: nat)
    requires x < 2 * TWO32
    ensures ToU32(x) == if x < TWO32 then x else x - TWO32
  {
  }

  /** A page record: the file offset, and how many bytes come from the file; the rest is zero. */
  datatype Record = Record(upage: nat, offset: int, readBytes: nat, fromFile: bool)

  /** The records load_segment makes. File offsets are 32-bit signed. */
  function Records(ofs: int, upage: nat, read: nat, zero: nat): seq<Record>
    requires (read + zero) % 4096 == 0
    decreases read + zero
  {
    if read == 0 && zero == 0 then []
    else
      var n := if read < 4096 then read else 4096;
      [Record(upage, ofs, n, n > 0)] + Records(ToS32(ofs + 4096), upage + 4096, read - n, zero - (4096 - n))
  }

  /** The sizes load computes. */
  function ReadBytes(p: Segment): nat { if p.fileSize > 0 then ToU32(PageOffset(p.vaddr) + p.fileSize) else 0 }
  function ZeroBytes(p: Segment): nat { ToU32(RoundUp(ToU32(PageOffset(p.vaddr) + p.memSize)) - ReadBytes(p)) }

  /** For an accepted segment nothing wraps, and the two sizes make whole pages. */
  lemma SizesExact(p: Segment, fileLength: nat)
    requires Words(p) && Validate(p, fileLength)
    ensures ReadBytes(p) == if p.fileSize > 0 then p.vaddr % 4096 + p.fileSize else 0
    ensures ReadBytes(p) + ZeroBytes(p) == RoundUp(p.vaddr % 4096 + p.memSize)
    ensures (ReadBytes(p) + ZeroBytes(p)) % 4096 == 0
  {
    hide PageOffset, ToU32, RoundUp, Validate;
    ValidMeans(p, fileLength);
    PageParts(p.vaddr);
    var o := p.vaddr % 4096;
    RoundUpFacts(o + p.memSize);
    RoundUpMono(o + p.fileSize, o + p.memSize);
    U32Same(o + p.fileSize);
    U32Same(o + p.memSize);
    U32Same(RoundUp(o + p.memSize) - ReadBytes(p));
  }

  lemma U32Same(x: int)
    requires 0 <= x < TWO32
    ensures ToU32(x) == x
  {
  }

  lemma RoundUpMono(x: nat, y: nat)
    requires x <= y
    ensures x <= RoundUp(y)
  {
  }

  lemma RoundUpFacts(x: nat)
    ensures x <= RoundUp(x) < x + 4096 && RoundUp(x) % 4096 == 0
  {
  }

  // What the records are.

  /** The bytes of page `i` that come from the file. */
  function Share(read: nat, i: nat): nat {
    if read <= 4096 * i then 0 else if read - 4096 * i < 4096 then read - 4096 * i else 4096
  }

  lemma {:induction false} RecordsForm(ofs: int, upage: nat, read: nat, zero: nat)
    requires (read + zero) % 4096 == 0
    ensures |Records(ofs, upage, read, zero)| == (read + zero) / 4096
    decreases read + zero
  {
    if read != 0 || zero != 0 {
      var n := if read < 4096 then read else 4096;
      RecordsForm(ToS32(ofs + 4096), upage + 4096, read - n, zero - (4096 - n));
    }
  }

  /** Record `i`; its file offset is a 32-bit signed number and wraps around. */
  lemma {:induction false} RecordAt(ofs: int, upage: nat, read: nat, zero: nat, i: nat)
    requires (read + zero) % 4096 == 0 && 4096 * i < read + zero
    ensures i < |Records(ofs, upage, read, zero)|
    ensures var r := Records(ofs, upage, read, zero)[i];
            && r.upage == upage + 4096 * i && r.readBytes == Share(read, i) && (r.fromFile <==> r.readBytes > 0)
            && (ToS32(ofs) == ofs ==> r.offset == ToS32(ofs + 4096 * i))
    decreases i
  {
    hide ToS32;
    RecordsForm(ofs, upage, read, zero);
    if i > 0 {
      var n := if read < 4096 then read else 4096;
      RecordAt(ToS32(ofs + 4096), upage + 4096, read - n, zero - (4096 - n), i - 1);
      S32Sum(ofs + 4096, 4096 * (i - 1));
      assert Records(ofs, upage, read, zero)[i] ==
             Records(ToS32(ofs + 4096), upage + 4096, read - n, zero - (4096 - n))[i - 1];
    }
  }

  lemma S32Sum(x: int, y: int)
    ensures ToS32(ToS32(x)) == ToS32(x) && ToS32(ToS32(x) + y) == ToS32(x + y)
  {
  }

  /** Loading the page succeeds: the bytes the record takes from the file are all there. */
  ghost predicate Readable(r: Record, file: seq<Byte>) {
    r.readBytes == 0 || (0 <= r.offset && r.offset + r.readBytes <= |file|)
  }

  /** The byte at address `a` that record `r` stands for. */
  ghost predicate Shows(r: Record, file: seq<Byte>, a: nat, b: Byte)
    requires Readable(r, file)
  {
    && r.upage <= a < r.upage + 4096
    && b == if a - r.upage < r.readBytes then file[r.offset + (a - r.upage)] else 0
  }

  /** Byte `k` of the segment's image: that of the file below the file size, zero above it. */
  ghost predicate IsImageByte(p: Segment, file: seq<Byte>, k: nat, b: Byte) {
    if k < p.fileSize then p.offset + k < |file| && b == file[p.offset + k] else b == 0
  }

  /** The record stands for the bytes of the image at `k`. */
  ghost predicate ShowsImage(r: Record, p: Segment, file: seq<Byte>, k: nat) {
    Readable(r, file) && exists b :: Shows(r, file, p.vaddr + k, b) && IsImageByte(p, file, k, b)
  }

  function SegmentRecords(p: Segment): seq<Record>
    requires Words(p) && (ReadBytes(p) + ZeroBytes(p)) % 4096 == 0
  {
    Records(PageStart(p.offset), PageStart(p.vaddr), ReadBytes(p), ZeroBytes(p))
  }

  /** The records of an accepted segment cover each page of its rounded region exactly once. */
  lemma PagesCovered(p: Segment, fileLength: nat)
    requires Words(p) && Validate(p, fileLength)
    ensures (ReadBytes(p) + ZeroBytes(p)) % 4096 == 0
    ensures var recs, start := SegmentRecords(p), p.vaddr - p.vaddr % 4096;
            && 4096 * |recs| == RoundUp(p.vaddr % 4096 + p.memSize)
            && start + 4096 * |recs| == RoundUp(p.vaddr + p.memSize)
            && forall i :: 0 <= i < |recs| ==> recs[i].upage == start + 4096 * i
  {
    hide Validate, ReadBytes, ZeroBytes, PageStart, Records;
    SizesExact(p, fileLength);
    PageParts(p.vaddr);
    var recs := SegmentRecords(p);
    RecordsForm(PageStart(p.offset), PageStart(p.vaddr), ReadBytes(p), ZeroBytes(p));
    RoundUpShift(p.vaddr, p.memSize);
    forall i | 0 <= i < |recs| ensures recs[i].upage == p.vaddr - p.vaddr % 4096 + 4096 * i {
      RecordAt(PageStart(p.offset), PageStart(p.vaddr), ReadBytes(p), ZeroBytes(p), i);
    }
  }

  lemma RoundUpShift(a: nat, n: nat)
    ensures a - a % 4096 + RoundUp(a % 4096 + n) == RoundUp(a + n)
  {
  }

  /** The image of an accepted segment. Byte `k` lies in page `i`; the page cannot be loaded exactly
      if the file ends inside what the page takes from it, and otherwise shows the image. */
  lemma SegmentImage(p: Segment, file: seq<Byte>, k: nat)
    requires Words(p) && Validate(p, |file|) && |file| < MAX_FILE && k < p.memSize
    ensures (ReadBytes(p) + ZeroBytes(p)) % 4096 == 0
    ensures var recs, i := SegmentRecords(p), (p.vaddr % 4096 + k) / 4096;
            && i < |recs| && recs[i].upage == p.vaddr + k - (p.vaddr + k) % 4096
            && (Readable(recs[i], file) <==> PageInFile(p, |file|, i))
            && (PageInFile(p, |file|, i) ==> ShowsImage(recs[i], p, file, k))
  {
    hide Validate, ReadBytes, ZeroBytes, SegmentRecords, RoundUp, ToS32, Share, Readable, PageInFile, ShowsImage;
    var o := p.vaddr % 4096;
    var i := (o + k) / 4096;
    ValidMeans(p, |file|);
    PageInRegion(o + k, o + p.memSize);
    SegmentRecordAt(p, |file|, i);
    PageOfByte(p.vaddr, k);
    var r := SegmentRecords(p)[i];
    RecordReadable(r, p, |file|, i, file);
    if PageInFile(p, |file|, i) { RecordShows(r, p, file, i, k); }
  }

  /** Record `i` of an accepted segment. */
  lemma SegmentRecordAt(p: Segment, fileLength: nat, i: nat)
    requires Words(p) && Validate(p, fileLength) && fileLength < TWO31 && 4096 * i < RoundUp(p.vaddr % 4096 + p.memSize)
    ensures (ReadBytes(p) + ZeroBytes(p)) % 4096 == 0 && i < |SegmentRecords(p)|
    ensures var r := SegmentRecords(p)[i];
            && r.upage == p.vaddr - p.vaddr % 4096 + 4096 * i
            && r.offset == ToS32(p.offset - p.offset % 4096 + 4096 * i)
            && r.readBytes == Share(if p.fileSize > 0 then p.offset % 4096 + p.fileSize else 0, i)
  {
    hide Validate, ReadBytes, ZeroBytes, PageStart, Records, RoundUp, ToS32, Share;
    SizesExact(p, fileLength);
    ValidMeans(p, fileLength);
    PageParts(p.vaddr);
    PageParts(p.offset);
    S32Words(PageStart(p.offset));
    RecordAt(PageStart(p.offset), PageStart(p.vaddr), ReadBytes(p), ZeroBytes(p), i);
  }

  lemma PageInRegion(x: nat, n: nat)
    requires x < n
    ensures 4096 * (x / 4096) < RoundUp(n)
  {
  }

  lemma PageOfByte(a: nat, k: nat)
    ensures a - a % 4096 + 4096 * ((a % 4096 + k) / 4096) == a + k - (a + k) % 4096
  {
  }

  lemma RecordReadable(r: Record, p: Segment, fileLength: nat, i: nat, file: seq<Byte>)
    requires fileLength == |file| < TWO31 && p.offset + p.fileSize <= TWO32
    requires r.offset == ToS32(p.offset - p.offset % 4096 + 4096 * i)
    requires r.readBytes == Share(if p.fileSize > 0 then p.offset % 4096 + p.fileSize else 0, i)
    ensures Readable(r, file) <==> PageInFile(p, fileLength, i)
    ensures PageInFile(p, fileLength, i) && r.readBytes > 0 ==> r.offset == p.offset - p.offset % 4096 + 4096 * i
  {
    hide ToS32, Share;
    ShareFits(p.offset % 4096, p.fileSize, i);
    S32Words(p.offset - p.offset % 4096 + 4096 * i);
  }

  lemma RecordShows(r: Record, p: Segment, file: seq<Byte>, i: nat, k: nat)
    requires Readable(r, file) && p.offset % 4096 == p.vaddr % 4096 && i == (p.vaddr % 4096 + k) / 4096
    requires r.upage == p.vaddr - p.vaddr % 4096 + 4096 * i
    requires r.readBytes == Share(if p.fileSize > 0 then p.offset % 4096 + p.fileSize else 0, i)
    requires r.readBytes > 0 ==> r.offset == p.offset - p.offset % 4096 + 4096 * i
    ensures ShowsImage(r, p, file, k)
  {
    hide Share;
    ShareAt(p.vaddr % 4096, p.fileSize, k);
    var at := p.vaddr + k - r.upage;
    assert k < p.fileSize <==> at < r.readBytes;
    var b: Byte := if at < r.readBytes then file[r.offset + at] else 0;
    assert Shows(r, file, p.vaddr + k, b);
    assert IsImageByte(p, file, k, b);
  }

  /** The file goes on to the end of page `i` of the segment, or to the end of the segment's part. */
  ghost predicate PageInFile(p: Segment, fileLength: nat, i: nat) {
    var share := Share(if p.fileSize > 0 then p.offset % 4096 + p.fileSize else 0, i);
    share > 0 ==> p.offset - p.offset % 4096 + 4096 * i + share <= fileLength
  }

  /** All pages of the segment can be loaded exactly if the file has all of the segment's part. */
  lemma AllPagesInFile(p: Segment, fileLength: nat)
    ensures (forall i: nat :: PageInFile(p, fileLength, i)) <==> p.fileSize == 0 || p.offset + p.fileSize <= fileLength
  {
    if p.fileSize > 0 {
      var last := (p.offset % 4096 + p.fileSize - 1) / 4096;
      assert PageInFile(p, fileLength, last) <==> p.offset + p.fileSize <= fileLength;
    }
  }

  lemma ShareFits(o: nat, size: nat, i: nat)
    ensures Share(if size > 0 then o + size else 0, i) > 0 ==>
              4096 * i + Share(if size > 0 then o + size else 0, i) <= o + size
  {
  }

  lemma S32Words(x: nat)
    ensures x < TWO31 ==> ToS32(x) == x
    ensures TWO31 <= x < TWO32 ==> ToS32(x) < 0
  {
  }

  /** Byte `o + k` of the region comes from the file exactly if `k` is below the file size. */
  lemma ShareAt(o: nat, size: nat, k: nat)
    requires o < 4096
    ensures var i := (o + k) / 4096;
            o + k - 4096 * i < Share(if size > 0 then o + size else 0, i) <==> k < size
    ensures 4096 * ((o + k) / 4096) <= o + k < 4096 * ((o + k) / 4096) + 4096
  {
  }

  // The loop.

  /** The page table with records inserted. */
  function WithRecords(spt: map<nat, Record>, recs: seq<Record>): map<nat, Record> {
    if recs == [] then spt
    else WithRecords(spt, recs[..|recs| - 1])[recs[|recs| - 1].upage := recs[|recs| - 1]]
  }

  lemma {:induction false} WithKeys(spt: map<nat, Record>, recs: seq<Record>, a: nat)
    ensures a in WithRecords(spt, recs) <==> a in spt || exists j :: 0 <= j < |recs| && recs[j].upage == a
  {
    if recs != [] {
      var n := |recs| - 1;
      WithKeys(spt, recs[..n], a);
      if exists j :: 0 <= j < n && recs[j].upage == a {
        var j :| 0 <= j < n && recs[j].upage == a;
        assert recs[..n][j].upage == a;
      }
      if exists j :: 0 <= j < n && recs[..n][j].upage == a {
        var j :| 0 <= j < n && recs[..n][j].upage == a;
        assert recs[j].upage == a;
      }
    }
  }

  /** What a lookup finds: the record of that page, or what was there before. */
  lemma {:induction false} WithLookup(spt: map<nat, Record>, recs: seq<Record>, i: nat)
    requires i < |recs| && forall j, k :: 0 <= j < k < |recs| ==> recs[j].upage != recs[k].upage
    ensures recs[i].upage in WithRecords(spt, recs) && WithRecords(spt, recs)[recs[i].upage] == recs[i]
  {
    var n := |recs| - 1;
    if i < n { WithLookup(spt, recs[..n], i); }
  }

  lemma {:induction false} WithOthers(spt: map<nat, Record>, recs: seq<Record>, a: nat)
    requires a in spt && forall j :: 0 <= j < |recs| ==> recs[j].upage != a
    ensures a in WithRecords(spt, recs) && WithRecords(spt, recs)[a] == spt[a]
  {
    if recs != [] { WithOthers(spt, recs[..|recs| - 1], a); }
  }

  /** The page table that load_segment leaves is the segment's image: the page of every byte has a
      record, which shows the byte or cannot be loaded because the file ends too soon; and records
      of pages outside the segment's region are as before. */
  lemma LoadedImage(spt: map<nat, Record>, p: Segment, file: seq<Byte>)
    requires Words(p) && Validate(p, |file|) && |file| < MAX_FILE
    ensures (ReadBytes(p) + ZeroBytes(p)) % 4096 == 0
    ensures var r := WithRecords(spt, SegmentRecords(p));
            && (forall k: nat :: k < p.memSize ==> AddressLoaded(r, p, file, k))
            && (forall a :: a in spt && !(p.vaddr - p.vaddr % 4096 <= a < RoundUp(p.vaddr + p.memSize)) ==>
                  a in r && r[a] == spt[a])
  {
    hide WithRecords, Validate, ReadBytes, ZeroBytes, Records, PageInFile, ShowsImage, Readable;
    PagesCovered(p, |file|);
    var recs := SegmentRecords(p);
    forall k: nat | k < p.memSize ensures AddressLoaded(WithRecords(spt, recs), p, file, k) {
      SegmentImage(p, file, k);
      WithLookup(spt, recs, (p.vaddr % 4096 + k) / 4096);
    }
    forall a | a in spt && !(p.vaddr - p.vaddr % 4096 <= a < RoundUp(p.vaddr + p.memSize))
      ensures a in WithRecords(spt, recs) && WithRecords(spt, recs)[a] == spt[a]
    {
      WithOthers(spt, recs, a);
    }
  }

  /** The page of byte `k` has a record; it can be loaded exactly if the file has the page's part,
      and then it shows the image. */
  ghost predicate AddressLoaded(spt: map<nat, Record>, p: Segment, file: seq<Byte>, k: nat) {
    var a := p.vaddr + k - (p.vaddr + k) % 4096;
    var i := (p.vaddr % 4096 + k) / 4096;
    && a in spt && (Readable(spt[a], file) <==> PageInFile(p, |file|, i))
    && (PageInFile(p, |file|, i) ==> ShowsImage(spt[a], p, file, k))
  }

  lemma WithOneMore(spt: map<nat, Record>, recs: seq<Record>, i: nat)
    requires i < |recs|
    ensures WithRecords(spt, recs[..i + 1]) == WithRecords(spt, recs[..i])[recs[i].upage := recs[i]]
  {
    assert recs[..i + 1][..i] == recs[..i];
  }

  /** A page is free for record `i` exactly if it was free at the start. */
  lemma PageFree(spt: map<nat, Record>, ofs: int, upage: nat, read: nat, zero: nat, i: nat)
    requires (read + zero) % 4096 == 0 && i < |Records(ofs, upage, read, zero)|
    ensures var recs := Records(ofs, upage, read, zero);
            recs[i].upage in WithRecords(spt, recs[..i]) <==> recs[i].upage in spt
  {
    hide Records;
    var recs := Records(ofs, upage, read, zero);
    RecordsForm(ofs, upage, read, zero);
    forall j | 0 <= j <= i ensures recs[j].upage == upage + 4096 * j { RecordAt(ofs, upage, read, zero, j); }
    WithKeys(spt, recs[..i], recs[i].upage);
  }

  /** load_segment: the page table grows by the records, or the load fails because some record
      could not be allocated or its page is taken; then the records before it are in. */
  method LoadSegment(spt: map<nat, Record>, ofs: int, upage: nat, read: nat, zero: nat, alloc: seq<bool>)
    returns (ok: bool, r: map<nat, Record>)
    requires (read + zero) % 4096 == 0 && |alloc| == (read + zero) / 4096
    ensures |Records(ofs, upage, read, zero)| == |alloc|
    ensures var recs := Records(ofs, upage, read, zero);
            && (ok <==> forall i :: 0 <= i < |alloc| ==> alloc[i] && recs[i].upage !in spt)
            && (ok ==> r == WithRecords(spt, recs))
            && (!ok ==> exists i :: 0 <= i < |recs| && (!alloc[i] || recs[i].upage in spt)
                               && r == WithRecords(spt, recs[..i]))
  {
    hide WithRecords;
    r := spt;
    var o, readLeft, zeroLeft, page, i := ofs, read, zero, upage, 0;
    ghost var recs := Records(ofs, upage, read, zero);
    RecordsForm(ofs, upage, read, zero);
    WithNone(spt, recs[..0]);
    while readLeft > 0 || zeroLeft > 0
      invariant 0 <= readLeft && 0 <= zeroLeft && 0 <= page && (readLeft + zeroLeft) % 4096 == 0
      invariant 0 <= i <= |recs| && recs[i..] == Records(o, page, readLeft, zeroLeft)
      invariant r == WithRecords(spt, recs[..i])
      invariant forall j :: 0 <= j < i ==> alloc[j] && recs[j].upage !in spt
      decreases readLeft + zeroLeft
    {
      var n := if readLeft < 4096 then readLeft else 4096;
      assert recs[i] == recs[i..][0] == Record(page, o, n, n > 0);
      PageFree(spt, ofs, upage, read, zero, i);
      if !alloc[i] || page in r { return false, r; }
      WithOneMore(spt, recs, i);
      assert recs[i + 1..] == recs[i..][1..];
      r := r[page := Record(page, o, n, n > 0)];
      o, readLeft, zeroLeft, page := ToS32(o + 4096), readLeft - n, zeroLeft - (4096 - n), page + 4096;
      i := i + 1;
    }
    assert recs[..i] == recs;
    ok := true;
  }

  lemma WithNone(spt: map<nat, Record>, recs: seq<Record>)
    requires recs == []
    ensures WithRecords(spt, recs) == spt
  {
  }
}
