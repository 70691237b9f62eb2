/** Byte-level input and output on a file stored in consecutive 512-byte sectors
    (filesys/inode.c: byte_to_sector, inode_read_at, inode_write_at). */
module Storage {
  type Byte = x: int | 0 <= x < 256
  type Sector = seq<Byte>
  type Disk = seq<Sector>

  /** First data sector and length in bytes. */
  datatype Extent = Extent(start: nat, length: nat)

  ghost predicate DiskOk(d: Disk) { forall k :: 0 <= k < |d| ==> |d[k]| == 512 }

  /** bytes_to_sectors. */
  function Sectors(length: nat): nat { (length + 511) / 512 }

  /** As many sectors as the bytes need, and no more. */
  lemma SectorsExact(length: nat)
    ensures 512 * (Sectors(length) - 1) < length <= 512 * Sectors(length)
  {
  }

  /** The data sectors exist. */
  ghost predicate Fits(d: Disk, e: Extent) { e.start + Sectors(e.length) <= |d| }

  /** byte_to_sector. */
  function ByteToSector(e: Extent, pos: nat): int {
    if pos < e.length then e.start + pos / 512 else -1
  }

  /** The file as a flat array of bytes. */
  ghost function Content(d: Disk, e: Extent): (c: seq<Byte>)
    requires DiskOk(d) && Fits(d, e)
    ensures |c| == e.length
  {
    seq(e.length, pos requires 0 <= pos < e.length && DiskOk(d) && Fits(d, e) => d[e.start + pos / 512][pos % 512])
  }

  /** The sector of a byte holds it at its offset; past the end there is none. */
  lemma ByteToSectorExact(d: Disk, e: Extent, pos: nat)
    requires DiskOk(d) && Fits(d, e)
    ensures ByteToSector(e, pos) == -1 <==> pos >= e.length
    ensures pos < e.length ==>
              var k := ByteToSector(e, pos);
              e.start <= k < e.start + Sectors(e.length) <= |d| && Content(d, e)[pos] == d[k][pos % 512]
  {
  }

  /** The bytes an access of `size` bytes at `offset` can reach. */
  function Reach(length: nat, size: nat, offset: nat): nat {
    var left := if offset < length then length - offset else 0;
    if size < left then size else left
  }

  /** How many bytes are transferred: all that can be reached, or, when no bounce buffer can be
      had, only the whole sectors before the first partial one. */
  function Transferred(length: nat, size: nat, offset: nat, bounceOk: bool): nat {
    var n := Reach(length, size, offset);
    if bounceOk then n else if offset % 512 == 0 then n / 512 * 512 else 0
  }

  /** A flat array with `data` written at `offset`. */
  ghost function Patched(c: seq<Byte>, offset: nat, data: seq<Byte>): (r: seq<Byte>)
    requires data == [] || offset + |data| <= |c|
    ensures |r| == |c|
  {
    if data == [] then c else c[..offset] + data + c[offset + |data|..]
  }

  /** One sector with `data` written at `offset` of the file whose byte `base` it starts with. */
  ghost function PatchedSector(s: Sector, base: int, offset: nat, data: seq<Byte>): (r: Sector)
    ensures |r| == |s|
  {
    seq(|s|, j requires 0 <= j < |s| => if offset <= base + j < offset + |data| then data[base + j - offset] else s[j])
  }

  /** The disk with `data` written at `offset` of the file that starts at sector `start`. */
  ghost function PatchedDisk(d: Disk, start: nat, offset: nat, data: seq<Byte>): (r: Disk)
    ensures |r| == |d|
  {
    seq(|d|, k requires 0 <= k < |d| => PatchedSector(d[k], (k - start) * 512, offset, data))
  }

  lemma PatchedOk(d: Disk, start: nat, offset: nat, data: seq<Byte>)
    requires DiskOk(d)
    ensures DiskOk(PatchedDisk(d, start, offset, data))
  {
  }

  lemma NothingPatched(d: Disk, start: nat, offset: nat)
    ensures PatchedDisk(d, start, offset, []) == d
  {
    forall k | 0 <= k < |d| ensures PatchedDisk(d, start, offset, [])[k] == d[k] {
      assert PatchedSector(d[k], (k - start) * 512, offset, []) == d[k];
    }
  }

  /** In the file itself, exactly the bytes written change. */
  lemma PatchedContent(d: Disk, e: Extent, offset: nat, data: seq<Byte>)
    requires DiskOk(d) && Fits(d, e) && (data == [] || offset + |data| <= e.length)
    ensures var r := PatchedDisk(d, e.start, offset, data);
            DiskOk(r) && Content(r, e) == Patched(Content(d, e), offset, data)
  {
    var r := PatchedDisk(d, e.start, offset, data);
    PatchedOk(d, e.start, offset, data);
    var c := Patched(Content(d, e), offset, data);
    forall pos | 0 <= pos < e.length ensures Content(r, e)[pos] == c[pos] {
      var k := e.start + pos / 512;
      assert (k - e.start) * 512 + pos % 512 == pos;
      assert r[k] == PatchedSector(d[k], (k - e.start) * 512, offset, data);
    }
  }

  /** Sectors outside the file keep their contents. */
  lemma PatchedElsewhere(d: Disk, e: Extent, offset: nat, data: seq<Byte>, k: nat)
    requires DiskOk(d) && k < |d| && (data == [] || offset + |data| <= e.length)
    requires k < e.start || e.start + Sectors(e.length) <= k
    ensures PatchedDisk(d, e.start, offset, data)[k] == d[k]
  {
    var base := (k - e.start) * 512;
    assert PatchedSector(d[k], base, offset, data) == d[k];
  }

  ghost predicate Disjoint(e: Extent, f: Extent) {
    e.start + Sectors(e.length) <= f.start || f.start + Sectors(f.length) <= e.start
  }

  /** Every other file keeps its contents. */
  lemma PatchedOthers(d: Disk, e: Extent, f: Extent, offset: nat, data: seq<Byte>)
    requires DiskOk(d) && Fits(d, e) && Fits(d, f) && Disjoint(e, f) && (data == [] || offset + |data| <= e.length)
    ensures var r := PatchedDisk(d, e.start, offset, data);
            DiskOk(r) && Content(r, f) == Content(d, f)
  {
    var r := PatchedDisk(d, e.start, offset, data);
    PatchedOk(d, e.start, offset, data);
    forall pos | 0 <= pos < f.length ensures Content(r, f)[pos] == Content(d, f)[pos] {
      PatchedElsewhere(d, e, offset, data, f.start + pos / 512);
    }
  }

  /** What one round of the copying loop has to work on. */
  function Chunk(length: nat, size: nat, offset: nat): int {
    var inodeLeft, sectorLeft := length - offset, 512 - offset % 512;
    var minLeft := if inodeLeft < sectorLeft then inodeLeft else sectorLeft;
    if size < minLeft then size else minLeft
  }

  /** Writing the next chunk into its sector extends the patch by the chunk. */
  lemma NextChunk(d: Disk, e: Extent, offset: nat, data: seq<Byte>, n: nat, chunk: nat)
    requires DiskOk(d) && Fits(d, e) && n + chunk <= |data| && 0 < chunk
    requires offset + n + chunk <= e.length && (offset + n) % 512 + chunk <= 512
    ensures var k, at := e.start + (offset + n) / 512, (offset + n) % 512;
            var now := PatchedDisk(d, e.start, offset, data[..n]);
            && k < |d| && |now[k]| == 512
            && now[k := now[k][..at] + data[n..n + chunk] + now[k][at + chunk..]]
               == PatchedDisk(d, e.start, offset, data[..n + chunk])
  {
    var k, at := e.start + (offset + n) / 512, (offset + n) % 512;
    var now, next := PatchedDisk(d, e.start, offset, data[..n]), PatchedDisk(d, e.start, offset, data[..n + chunk]);
    PatchedOk(d, e.start, offset, data[..n]);
    PatchedOk(d, e.start, offset, data[..n + chunk]);
    forall j | 0 <= j < |d| && j != k ensures now[j] == next[j] {
      OtherSector(d[j], (j - e.start) * 512, offset, data, n, chunk, j - e.start - (offset + n) / 512);
    }
    ThisSector(d[k], (k - e.start) * 512, offset, data, n, chunk);
  }

  lemma OtherSector(s: Sector, base: int, offset: nat, data: seq<Byte>, n: nat, chunk: nat, gap: int)
    requires |s| == 512 && n + chunk <= |data| && (offset + n) % 512 + chunk <= 512 && gap != 0
    requires base == (offset + n) - (offset + n) % 512 + gap * 512
    ensures PatchedSector(s, base, offset, data[..n]) == PatchedSector(s, base, offset, data[..n + chunk])
  {
  }

  lemma ThisSector(s: Sector, base: int, offset: nat, data: seq<Byte>, n: nat, chunk: nat)
    requires |s| == 512 && n + chunk <= |data| && (offset + n) % 512 + chunk <= 512
    requires base == (offset + n) - (offset + n) % 512
    ensures var at := (offset + n) % 512;
            var now := PatchedSector(s, base, offset, data[..n]);
            now[..at] + data[n..n + chunk] + now[at + chunk..] == PatchedSector(s, base, offset, data[..n + chunk])
  {
  }

  /** A round moves a whole sector, or needs the bounce buffer. */
  ghost predicate Whole(offset: nat, chunk: int) { offset % 512 == 0 && chunk == 512 }

  /** The loop ends with everything moved when the bounce buffer is to be had. */
  lemma LoopDone(length: nat, size: nat, offset: nat, n: nat, bounceOk: bool)
    requires n <= Reach(length, size, offset) <= size
    requires n == size || Chunk(length, size - n, offset + n) <= 0
    requires bounceOk || n == 0 || (offset % 512 == 0 && n % 512 == 0)
    ensures n == Transferred(length, size, offset, bounceOk)
  {
  }

  /** Without it, the loop ends at the first partial sector. */
  lemma LoopStuck(length: nat, size: nat, offset: nat, n: nat)
    requires n <= Reach(length, size, offset) <= size && n < size
    requires Chunk(length, size - n, offset + n) > 0 && !Whole(offset + n, Chunk(length, size - n, offset + n))
    requires n == 0 || (offset % 512 == 0 && n % 512 == 0)
    ensures n == Transferred(length, size, offset, false)
  {
  }

  lemma ChunkFacts(length: nat, size: nat, offset: nat, n: nat)
    requires n <= Reach(length, size, offset) && n < size && Chunk(length, size - n, offset + n) > 0
    ensures var chunk := Chunk(length, size - n, offset + n);
            && n + chunk <= Reach(length, size, offset) <= size && offset + n + chunk <= length
            && (offset + n) % 512 + chunk <= 512 && (offset + n) / 512 < Sectors(length)
  {
  }

  /** `buffer` holds the bytes of the file from `offset` on. */
  ghost predicate IsRead(d: Disk, e: Extent, offset: nat, buffer: seq<Byte>)
    requires DiskOk(d) && Fits(d, e)
  {
    buffer == [] || (offset + |buffer| <= e.length && buffer == Content(d, e)[offset..offset + |buffer|])
  }

  class Device {
    var disk: Disk

    /** inode_read_at. */
    method ReadAt(e: Extent, size: nat, offset: nat, bounceOk: bool) returns (buffer: seq<Byte>)
      requires DiskOk(disk) && Fits(disk, e)
      ensures |buffer| == Transferred(e.length, size, offset, bounceOk)
      ensures IsRead(disk, e, offset, buffer)
    {
      hide DiskOk, Fits, IsRead, Transferred, Reach, Chunk, ByteToSector;
      ReadNothing(disk, e, offset, size);
      buffer := [];
      while |buffer| < size
        invariant |buffer| <= Reach(e.length, size, offset) <= size
        invariant IsRead(disk, e, offset, buffer)
        invariant bounceOk || |buffer| == 0 || (offset % 512 == 0 && |buffer| % 512 == 0)
      {
        var n := |buffer|;
        var chunk := Chunk(e.length, size - n, offset + n);
        if chunk <= 0 { break; }
        ChunkFacts(e.length, size, offset, n);
        ReadChunk(disk, e, offset, buffer, chunk);
        var k, at := ByteToSector(e, offset + n), (offset + n) % 512;
        if at == 0 && chunk == 512 {
          assert disk[k] == disk[k][at..at + chunk];
          buffer := buffer + disk[k];
        } else {
          if !bounceOk { LoopStuck(e.length, size, offset, n); return; }
          buffer := buffer + disk[k][at..at + chunk];
        }
      }
      LoopDone(e.length, size, offset, |buffer|, bounceOk);
    }

    /** inode_write_at. */
    method WriteAt(e: Extent, denyWrite: nat, data: seq<Byte>, offset: nat, bounceOk: bool) returns (n: nat)
      requires DiskOk(disk) && Fits(disk, e)
      modifies this
      ensures n == (if denyWrite > 0 then 0 else Transferred(e.length, |data|, offset, bounceOk)) <= |data|
      ensures disk == PatchedDisk(old(disk), e.start, offset, data[..n]) && DiskOk(disk)
    {
      hide PatchedDisk, DiskOk;
      ghost var d := disk;
      n := 0;
      NothingPatched(d, e.start, offset);
      assert data[..0] == [];
      if denyWrite > 0 { return; }
      var zeros: Sector := seq(512, _ => 0);
      while n < |data|
        invariant n <= Reach(e.length, |data|, offset) <= |data|
        invariant disk == PatchedDisk(d, e.start, offset, data[..n]) && DiskOk(disk)
        invariant bounceOk || n == 0 || (offset % 512 == 0 && n % 512 == 0)
      {
        var chunk := Chunk(e.length, |data| - n, offset + n);
        if chunk <= 0 { break; }
        ChunkFacts(e.length, |data|, offset, n);
        NextChunk(d, e, offset, data, n, chunk);
        PatchedOk(d, e.start, offset, data[..n + chunk]);
        var k, at := ByteToSector(e, offset + n), (offset + n) % 512;
        if at == 0 && chunk == 512 {
          assert disk[k][..at] + data[n..n + chunk] + disk[k][at + chunk..] == data[n..n + chunk];
          disk := disk[k := data[n..n + chunk]];
        } else {
          if !bounceOk { LoopStuck(e.length, |data|, offset, n); return; }
          var bounce := if at > 0 || chunk < 512 - at then disk[k] else zeros;
          bounce := bounce[..at] + data[n..n + chunk] + bounce[at + chunk..];
          disk := disk[k := bounce];
        }
        n := n + chunk;
      }
      LoopDone(e.length, |data|, offset, n, bounceOk);
    }
  }

  lemma ReadNothing(d: Disk, e: Extent, offset: nat, size: nat)
    requires DiskOk(d) && Fits(d, e)
    ensures IsRead(d, e, offset, []) && Reach(e.length, size, offset) <= size
  {
  }

  lemma ReadChunk(d: Disk, e: Extent, offset: nat, buffer: seq<Byte>, chunk: nat)
    requires DiskOk(d) && Fits(d, e) && IsRead(d, e, offset, buffer) && 0 < chunk
    requires offset + |buffer| + chunk <= e.length && (offset + |buffer|) % 512 + chunk <= 512
    ensures var k, at := ByteToSector(e, offset + |buffer|), (offset + |buffer|) % 512;
            0 <= k < |d| && |d[k]| == 512 && IsRead(d, e, offset, buffer + d[k][at..at + chunk])
  {
    var pos := offset + |buffer|;
    var k, at := e.start + pos / 512, pos % 512;
    var a, c := d[k][at..at + chunk], Content(d, e)[pos..pos + chunk];
    forall j | 0 <= j < chunk ensures a[j] == c[j] {
      assert (pos + j) / 512 == pos / 512 && (pos + j) % 512 == at + j;
    }
    assert a == c;
    hide Content;
    assert buffer + a == Content(d, e)[offset..pos + chunk];
  }
}
