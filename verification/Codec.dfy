/** The structures the file system keeps on disk: inodes (filesys/inode.c) and directory
    entries (filesys/directory.c), as bytes. */
module Codec {
  import opened Storage

  const INODE_MAGIC: nat := 0x494e4f44
  const NAME_MAX: nat := 14

  /** A 32-bit number, least significant byte first. */
  function Le32(x: nat): (b: seq<Byte>)
    ensures |b| == 4
  {
    [x % 256, x / 256 % 256, x / 0x1_0000 % 256, x / 0x100_0000 % 256]
  }

  function UnLe32(b: seq<Byte>): nat
    requires |b| == 4
  {
    (b[0] as int) + 256 * (b[1] as int) + 0x1_0000 * (b[2] as int) + 0x100_0000 * (b[3] as int)
  }

  lemma Le32RoundTrip(x: nat)
    requires x < 0x1_0000_0000
    ensures UnLe32(Le32(x)) == x
  {
  }

  /** struct inode_disk, one sector. */
  function EncodeInode(e: Extent): (s: Sector)
    ensures |s| == 512
  {
    Le32(e.start) + Le32(e.length) + Le32(INODE_MAGIC) + seq(500, _ => 0)
  }

  function DecodeInode(s: Sector): Extent
    requires |s| == 512
  {
    Extent(UnLe32(s[..4]), UnLe32(s[4..8]))
  }

  lemma InodeRoundTrip(e: Extent)
    requires e.start < 0x1_0000_0000 && e.length < 0x1_0000_0000
    ensures DecodeInode(EncodeInode(e)) == e
  {
    var s := EncodeInode(e);
    assert s[..4] == Le32(e.start) && s[4..8] == Le32(e.length);
    Le32RoundTrip(e.start);
    Le32RoundTrip(e.length);
  }

  /** Four bytes hold a 32-bit number, least significant byte first. */
  ghost predicate HoldsWord(b: seq<Byte>, at: nat, x: nat) {
    at + 4 <= |b| && x == b[at] as int + 256 * b[at + 1] as int + 65536 * b[at + 2] as int + 16777216 * b[at + 3] as int
  }

  lemma Le32Holds(x: nat)
    requires x < 0x1_0000_0000
    ensures HoldsWord(Le32(x), 0, x)
  {
    Le32RoundTrip(x);
  }

  /** Where the fields of struct inode_disk are. */
  lemma InodeLayout(e: Extent)
    requires e.start < 0x1_0000_0000 && e.length < 0x1_0000_0000
    ensures var s := EncodeInode(e);
            && HoldsWord(s, 0, e.start) && HoldsWord(s, 4, e.length) && HoldsWord(s, 8, 0x494e4f44)
            && forall i :: 12 <= i < 512 ==> s[i] == 0
  {
    hide Le32;
    Le32Holds(e.start);
    Le32Holds(e.length);
    Le32Holds(INODE_MAGIC);
  }

  /** struct dir_entry: the sector of the inode, the bytes of the name field, and the flag. */
  datatype Entry = Entry(sector: nat, field: seq<Byte>, inUse: bool)

  ghost predicate EntryOk(e: Entry) { e.sector < 0x1_0000_0000 && |e.field| == NAME_MAX + 1 }

  function EncodeEntry(e: Entry): (b: seq<Byte>)
    requires |e.field| == NAME_MAX + 1
    ensures |b| == 20
  {
    Le32(e.sector) + e.field + [if e.inUse then 1 else 0]
  }

  function DecodeEntry(b: seq<Byte>): (e: Entry)
    requires |b| == 20
    ensures |e.field| == NAME_MAX + 1 && e.sector < 0x1_0000_0000
  {
    Entry(UnLe32(b[..4]), b[4..19], b[19] != 0)
  }

  lemma EntryRoundTrip(e: Entry)
    requires EntryOk(e)
    ensures DecodeEntry(EncodeEntry(e)) == e
  {
    var b := EncodeEntry(e);
    assert b[..4] == Le32(e.sector) && b[4..19] == e.field;
    Le32RoundTrip(e.sector);
  }

  /** Where the fields of struct dir_entry are. */
  lemma EntryLayout(e: Entry)
    requires EntryOk(e)
    ensures var b := EncodeEntry(e);
            HoldsWord(b, 0, e.sector) && b[4..19] == e.field && b[19] == if e.inUse then 1 else 0
  {
    hide Le32;
    Le32Holds(e.sector);
  }

  /** The string that starts a buffer: everything before the first zero byte. */
  function CString(b: seq<Byte>): (s: seq<Byte>)
    ensures |s| <= |b|
  {
    if b == [] || b[0] == 0 then [] else [b[0]] + CString(b[1..])
  }

  lemma {:induction false} CStringExact(b: seq<Byte>)
    ensures var s := CString(b); s <= b && 0 !in s && (|s| < |b| ==> b[|s|] == 0)
  {
    if b != [] && b[0] != 0 { CStringExact(b[1..]); }
  }

  /** strlcpy of a name that fits: the rest of the buffer keeps its bytes. */
  function NameField(name: seq<Byte>, field: seq<Byte>): (r: seq<Byte>)
    requires |name| < |field|
    ensures |r| == |field|
  {
    name + [0] + field[|name| + 1..]
  }

  lemma {:induction false} NameFieldString(name: seq<Byte>, rest: seq<Byte>)
    requires 0 !in name
    ensures CString(name + [0] + rest) == name
  {
    var b := name + [0] + rest;
    if name != [] {
      assert b[1..] == name[1..] + [0] + rest;
      NameFieldString(name[1..], rest);
    }
  }
}
