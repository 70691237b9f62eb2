/** Archive headers in ustar format (lib/ustar.c): what is made can be parsed again. The format is
    the "ustar Interchange Format" of the pax utility in POSIX.1. */
module Ustar {
  import opened Wrappers
  import opened Storage
  import opened Codec

  type Name = seq<Byte>

  const SLASH: Byte := 47
  const DOT: Byte := 46
  const SPACE: Byte := 32
  const ZERO: Byte := 48        // '0'
  const REGULAR: Byte := 48     // USTAR_REGULAR
  const DIRECTORY: Byte := 53   // USTAR_DIRECTORY

  // File names.

  /** The name starts with "/", "./" or "../". */
  predicate Antisocial(s: Name) {
    [SLASH] <= s || [DOT, SLASH] <= s || [DOT, DOT, SLASH] <= s
  }

  /** What follows the first slash. */
  function AfterSlash(s: Name): (r: Name)
    requires SLASH in s
    ensures |r| < |s|
  {
    if s[0] == SLASH then s[1..] else AfterSlash(s[1..])
  }

  lemma AntisocialSlash(s: Name)
    requires Antisocial(s)
    ensures SLASH in s
  {
    if [SLASH] <= s { assert s[0] == SLASH; }
    else if [DOT, SLASH] <= s { assert s[1] == SLASH; }
    else { assert s[2] == SLASH; }
  }

  /** The loop of strip_antisocial_prefixes. */
  function Dropped(s: Name): (r: Name)
    ensures !Antisocial(r) && |r| <= |s|
    decreases |s|
  {
    if Antisocial(s) then (AntisocialSlash(s); Dropped(AfterSlash(s))) else s
  }

  lemma DotIsSocial()
    ensures !Antisocial([DOT])
  {
    assert [DOT][0] != SLASH;
  }

  /** strip_antisocial_prefixes. */
  function Strip(s: Name): (r: Name)
    ensures r != [] && !Antisocial(r) && r != [DOT, DOT]
  {
    var r := Dropped(s);
    DotIsSocial();
    if r == [] || r == [DOT, DOT] then [DOT] else r
  }

  /** A stripped name has nothing left to strip. */
  lemma StripIdempotent(s: Name)
    ensures Strip(Strip(s)) == Strip(s)
  {
  }

  /** What stripping means. Each leading "/", "./" and "../" goes; what is left when there is none stays
      as it is, except that "" and ".." become ".". */
  lemma StripExact(s: Name)
    ensures Strip([SLASH] + s) == Strip(s) && Strip([DOT, SLASH] + s) == Strip(s)
    ensures Strip([DOT, DOT, SLASH] + s) == Strip(s)
    ensures !Antisocial(s) ==> Strip(s) == if s == [] || s == [DOT, DOT] then [DOT] else s
  {
    var a, b, c := [SLASH] + s, [DOT, SLASH] + s, [DOT, DOT, SLASH] + s;
    assert a[0] == SLASH && a[1..] == s;
    assert b[..2] == [DOT, SLASH] && b[0] == DOT && b[1..] == a;
    assert c[..3] == [DOT, DOT, SLASH] && c[0] == DOT && c[1..] == b;
    AfterPrefix(s);
  }

  lemma AfterPrefix(s: Name)
    ensures var a, b, c := [SLASH] + s, [DOT, SLASH] + s, [DOT, DOT, SLASH] + s;
            && SLASH in a && SLASH in b && SLASH in c
            && AfterSlash(a) == s && AfterSlash(b) == s && AfterSlash(c) == s
            && Antisocial(a) && Antisocial(b) && Antisocial(c)
  {
    var a, b, c := [SLASH] + s, [DOT, SLASH] + s, [DOT, DOT, SLASH] + s;
    assert a[0] == SLASH && a[1..] == s && b[1] == SLASH && c[2] == SLASH;
    assert b[0] == DOT && b[1..] == a && c[0] == DOT && c[1..] == b;
  }

  /** The loop ends, and computes this. */
  method StripPrefixes(name: Name) returns (r: Name)
    ensures r == Strip(name)
  {
    r := name;
    while Antisocial(r)
      invariant Dropped(r) == Dropped(name)
      decreases |r|
    {
      AntisocialSlash(r);
      var i := 0;
      while r[i] != SLASH
        invariant i < |r| && SLASH in r[i..] && AfterSlash(r[i..]) == AfterSlash(r)
        decreases |r| - i
      {
        assert r[i..][1..] == r[i + 1..];
        i := i + 1;
      }
      assert r[i..][1..] == r[i + 1..];
      r := r[i + 1..];
    }
    if r == [] || r == [DOT, DOT] { r := [DOT]; }
  }

  // Octal numbers.

  /** The `n` low octal digits of `v`, as "%0no" prints a number that has no more. */
  function Octal(v: nat, n: nat): (s: seq<Byte>)
    ensures |s| == n
  {
    if n == 0 then [] else Octal(v / 8, n - 1) + [ZERO + v % 8]
  }

  function Pow8(n: nat): nat { if n == 0 then 1 else 8 * Pow8(n - 1) }

  predicate IsDigit(c: Byte) { 48 <= c <= 55 }

  /** parse_octal_field from position `i` on, with the value so far. */
  function ParseFrom(s: seq<Byte>, i: nat, value: nat): Option<nat>
    decreases |s| - i
  {
    if i >= |s| then None
    else if IsDigit(s[i]) then
      if value > 0xFFFF_FFFF / 8 then None else ParseFrom(s, i + 1, value * 8 + (s[i] as int - 48))
    else if s[i] == SPACE || s[i] == 0 then (if i > 0 then Some(value) else None)
    else None
  }

  method ParseOctal(s: seq<Byte>) returns (r: Option<nat>)
    ensures r == ParseFrom(s, 0, 0)
  {
    var value, i := 0, 0;
    while i < |s|
      invariant i <= |s| && 0 <= value && ParseFrom(s, i, value) == ParseFrom(s, 0, 0)
    {
      var c := s[i];
      if IsDigit(c) {
        if value > 0xFFFF_FFFF / 8 { return None; }
        value := c as int - 48 + value * 8;
      } else if c == SPACE || c == 0 {
        return if i > 0 then Some(value) else None;
      } else {
        return None;
      }
      i := i + 1;
    }
    r := None;
  }

  /** Digits already read give the value so far. */
  lemma {:induction false} OctalPrefix(v: nat, n: nat, rest: seq<Byte>, i: nat)
    requires v < Pow8(n) && v < 0x1_0000_0000 && i <= n
    ensures ParseFrom(Octal(v, n) + rest, 0, 0) == ParseFrom(Octal(v, n) + rest, i, Top(v, n - i))
    decreases i
  {
    var s := Octal(v, n) + rest;
    if i == 0 {
      TopAll(v, n);
    } else {
      OctalPrefix(v, n, rest, i - 1);
      DigitAt(v, n, i - 1);
      TopStep(v, n - i);
      TopSmall(v, n - i);
    }
  }

  /** The number without its last `k` octal digits. */
  function Top(v: nat, k: nat): nat
    decreases k
  {
    if k == 0 then v else Top(v / 8, k - 1)
  }

  lemma {:induction false} TopStep(v: nat, k: nat)
    ensures Top(v, k + 1) == Top(v, k) / 8
    decreases k
  {
    if k > 0 { TopStep(v / 8, k - 1); }
  }

  lemma {:induction false} TopSmall(v: nat, k: nat)
    ensures Top(v, k) <= v
    decreases k
  {
    if k > 0 { TopSmall(v / 8, k - 1); }
  }

  lemma {:induction false} TopAll(v: nat, n: nat)
    requires v < Pow8(n)
    ensures Top(v, n) == 0
    decreases n
  {
    if n > 0 { TopAll(v / 8, n - 1); }
  }

  lemma {:induction false} DigitAt(v: nat, n: nat, i: nat)
    requires i < n
    ensures Octal(v, n)[i] == ZERO + Top(v, n - 1 - i) % 8
    decreases n
  {
    if i < n - 1 { DigitAt(v / 8, n - 1, i); }
  }

  /** Parsing a printed number gives it back. */
  lemma OctalRoundTrip(v: nat, n: nat)
    requires 0 < n && v < Pow8(n) && v < 0x1_0000_0000
    ensures ParseFrom(Octal(v, n) + [0], 0, 0) == Some(v)
  {
    OctalPrefix(v, n, [0], n);
  }

  /** The first `k` bytes are octal digits. */
  ghost predicate Digits(s: seq<Byte>, k: nat) { k <= |s| && forall i :: 0 <= i < k ==> IsDigit(s[i]) }

  /** The number that the first `k` digits stand for. */
  ghost function Value(s: seq<Byte>, k: nat): nat
    requires Digits(s, k)
  {
    if k == 0 then 0 else 8 * Value(s, k - 1) + (s[k - 1] as int - 48)
  }

  /** The field holds `k` digits and then a space or a null byte, and their value is a 32-bit number. */
  ghost predicate OctalField(s: seq<Byte>, k: nat) {
    0 < k < |s| && Digits(s, k) && (s[k] == SPACE || s[k] == 0) && Value(s, k) <= 0xFFFF_FFFF
  }

  lemma {:induction false} ValueGrows(s: seq<Byte>, i: nat, k: nat)
    requires i <= k && Digits(s, k)
    ensures Digits(s, i) && Value(s, i) <= Value(s, k)
    decreases k
  {
    if i < k { ValueGrows(s, i, k - 1); }
  }

  /** Where the digits end the field does. */
  lemma FieldEnd(s: seq<Byte>, i: nat, k: nat)
    requires i < |s| && Digits(s, i) && !IsDigit(s[i]) && OctalField(s, k)
    ensures k == i
  {
  }

  lemma {:induction false} ParseFromExact(s: seq<Byte>, i: nat)
    requires i <= |s| && Digits(s, i) && Value(s, i) <= 0xFFFF_FFFF
    ensures var r := ParseFrom(s, i, Value(s, i));
            (r.None? ==> forall k: nat :: !OctalField(s, k))
            && (r.Some? ==> exists k: nat :: OctalField(s, k) && r.value == Value(s, k))
    decreases |s| - i
  {
    forall k: nat | OctalField(s, k) ensures i <= k {
      if k < i { assert false; }
    }
    if i < |s| {
      if IsDigit(s[i]) {
        assert Digits(s, i + 1);
        if Value(s, i) > 0xFFFF_FFFF / 8 {
          forall k: nat ensures !OctalField(s, k) {
            if OctalField(s, k) { ValueGrows(s, i + 1, k); }
          }
        } else {
          ParseFromExact(s, i + 1);
        }
      } else {
        forall k: nat ensures OctalField(s, k) ==> k == i {
          if OctalField(s, k) { FieldEnd(s, i, k); }
        }
        if i > 0 && (s[i] == SPACE || s[i] == 0) { assert OctalField(s, i); }
      }
    }
  }

  /** parse_octal_field accepts a field exactly if it is an octal number, and gives its value. */
  lemma ParseExact(s: seq<Byte>, k: nat)
    ensures ParseFrom(s, 0, 0).None? <==> forall n: nat :: !OctalField(s, n)
    ensures OctalField(s, k) ==> ParseFrom(s, 0, 0) == Some(Value(s, k))
  {
    ParseFromExact(s, 0);
    if OctalField(s, k) {
      var n: nat :| OctalField(s, n) && ParseFrom(s, 0, 0) == Some(Value(s, n));
      assert n == k;
    }
  }

  // Checksums.

  /** The bytes from `i` on, the checksum field counting as spaces. */
  function SumFrom(b: seq<Byte>, i: nat): (r: nat)
    ensures i <= |b| ==> r <= 255 * (|b| - i)
    decreases |b| - i
  {
    if i >= |b| then 0 else (if 148 <= i < 156 then 32 else b[i] as int) + SumFrom(b, i + 1)
  }

  /** calculate_chksum. */
  method Checksum(b: seq<Byte>) returns (sum: nat)
    ensures sum == SumFrom(b, 0)
  {
    sum := 0;
    var i := 0;
    while i < |b|
      invariant i <= |b| && sum + SumFrom(b, i) == SumFrom(b, 0)
    {
      sum := sum + if 148 <= i < 156 then 32 else b[i] as int;
      i := i + 1;
    }
  }

  /** The sum of all bytes. */
  ghost function Total(b: seq<Byte>): nat { if b == [] then 0 else b[0] as int + Total(b[1..]) }

  /** The checksum is the sum of the bytes of the header with spaces for the field. */
  lemma {:induction false} ChecksumExact(b: seq<Byte>, c: seq<Byte>, i: nat)
    requires |b| == |c| && i <= |b| && forall j :: 0 <= j < |b| ==> c[j] == if 148 <= j < 156 then SPACE else b[j]
    ensures SumFrom(b, i) == Total(c[i..])
    decreases |b| - i
  {
    if i < |b| {
      ChecksumExact(b, c, i + 1);
      assert c[i..][1..] == c[i + 1..];
    }
  }

  /** The checksum does not depend on its own field. */
  lemma {:induction false} SumIgnoresField(b: seq<Byte>, c: seq<Byte>, i: nat)
    requires |b| == |c| && forall j :: 0 <= j < |b| && !(148 <= j < 156) ==> b[j] == c[j]
    ensures SumFrom(b, i) == SumFrom(c, i)
    decreases |b| - i
  {
    if i < |b| { SumIgnoresField(b, c, i + 1); }
  }

  // Headers.

  function Zeros(n: nat): (s: seq<Byte>)
    ensures |s| == n && forall i :: 0 <= i < n ==> s[i] == 0
  {
    seq(n, _ => 0)
  }

  function Padded(s: seq<Byte>, n: nat): (r: seq<Byte>)
    requires |s| <= n
    ensures |r| == n && r[..|s|] == s && forall i :: |s| <= i < n ==> r[i] == 0
  {
    s + Zeros(n - |s|)
  }

  function Root(): seq<Byte> { [114, 111, 111, 116] }             // "root"
  function Magic(): seq<Byte> { [117, 115, 116, 97, 114, 0] }     // "ustar" and a null byte

  /** The header up to the checksum field: name, mode, uid, gid, size, mtime. */
  function Front(name: Name, typ: Byte, size: nat): (r: seq<Byte>)
    requires |name| <= 99
    ensures |r| == 148
  {
    Padded(name, 100) + (Octal(if typ == REGULAR then 420 else 493, 7) + [0])
    + (Octal(0, 7) + [0]) + (Octal(0, 7) + [0])
    + (Octal(size, 11) + [0]) + (Octal(1136102400, 11) + [0])
  }

  /** The header after it: typeflag, linkname, magic, version, uname, gname, devmajor, devminor,
      prefix, padding. */
  function Back(typ: Byte): (r: seq<Byte>)
    ensures |r| == 356
  {
    [typ] + Zeros(100) + Magic() + [ZERO, ZERO] + Padded(Root(), 32) + Padded(Root(), 32) + Zeros(183)
  }

  /** ustar_make_header. */
  function MakeHeader(name: Name, typ: Byte, size: nat): (r: Option<seq<Byte>>)
    ensures r.Some? ==> |r.value| == 512
  {
    var n := Strip(name);
    if |n| > 99 then None
    else
      var f, b := Front(n, typ, size), Back(typ);
      Some(f + (Octal(SumFrom(f + Zeros(8) + b, 0), 7) + [0]) + b)
  }

  datatype Parsed = Eof | File(name: Name, typ: Byte, size: nat) | Error(message: Message)
  datatype Message = NotUstar | BadVersion | CorruptChecksum | Mismatch | NameTooLong | BadType | CorruptSize | TooLarge

  /** ustar_parse_header. */
  function ParseHeader(b: seq<Byte>): Parsed
    requires |b| == 512
  {
    if b == Zeros(512) then Eof
    else if b[257..263] != Magic() then Error(NotUstar)
    else if b[263] != ZERO || b[264] != ZERO then Error(BadVersion)
    else
      var chksum := ParseFrom(b[148..156], 0, 0);
      if chksum.None? then Error(CorruptChecksum)
      else if chksum.value != SumFrom(b, 0) then Error(Mismatch)
      else if b[99] != 0 || b[345] != 0 then Error(NameTooLong)
      else if b[156] != REGULAR && b[156] != DIRECTORY then Error(BadType)
      else if b[156] == DIRECTORY then File(Strip(CString(b[..100])), b[156], 0)
      else
        var size := ParseFrom(b[124..136], 0, 0);
        if size.None? then Error(CorruptSize)
        else if size.value > 0x7FFF_FFFF then Error(TooLarge)
        else File(Strip(CString(b[..100])), b[156], size.value)
  }

  /** Where the fields of a made header are. */
  lemma FrontFields(name: Name, typ: Byte, size: nat)
    requires |name| <= 99
    ensures var f := Front(name, typ, size); f[..100] == Padded(name, 100) && f[124..136] == Octal(size, 11) + [0]
  {
    hide Octal, Padded;
  }

  lemma BackFields(typ: Byte)
    ensures var b := Back(typ); b[0] == typ && b[101..107] == Magic() && b[107] == ZERO && b[108] == ZERO && b[189] == 0
  {
    hide Padded;
  }

  lemma HeaderFields(f: seq<Byte>, c: seq<Byte>, b: seq<Byte>)
    requires |f| == 148 && |c| == 8 && |b| == 356
    ensures var h := f + c + b;
            && h[..100] == f[..100] && h[124..136] == f[124..136] && h[148..156] == c && h[156] == b[0]
            && h[257..263] == b[101..107] && h[263] == b[107] && h[264] == b[108] && h[345] == b[189]
  {
  }

  lemma ChecksumParses(f: seq<Byte>, b: seq<Byte>, c: seq<Byte>)
    requires |f| == 148 && |b| == 356 && c == Octal(SumFrom(f + Zeros(8) + b, 0), 7) + [0]
    ensures ParseFrom(c, 0, 0) == Some(SumFrom(f + c + b, 0))
  {
    hide ParseFrom, Octal, SumFrom;
    var z := f + Zeros(8) + b;
    SumIgnoresField(z, f + c + b, 0);
    assert Pow8(7) == 2097152;
    OctalRoundTrip(SumFrom(z, 0), 7);
  }

  lemma {:induction false} PaddedString(name: Name, n: nat)
    requires 0 !in name && |name| < n
    ensures CString(Padded(name, n)) == name && Padded(name, n)[n - 1] == 0
  {
    assert Padded(name, n) == name + [0] + Zeros(n - |name| - 1);
    NameFieldString(name, Zeros(n - |name| - 1));
  }

  lemma {:induction false} StripNoZero(s: Name)
    requires 0 !in s
    ensures 0 !in Strip(s)
  {
    DroppedSuffix(s);
  }

  lemma {:induction false} DroppedSuffix(s: Name)
    ensures forall x :: x in Dropped(s) ==> x in s
    decreases |s|
  {
    if Antisocial(s) {
      AntisocialSlash(s);
      AfterSlashSuffix(s);
      DroppedSuffix(AfterSlash(s));
    }
  }

  lemma {:induction false} AfterSlashSuffix(s: Name)
    requires SLASH in s
    ensures forall x :: x in AfterSlash(s) ==> x in s
  {
    if s[0] != SLASH { AfterSlashSuffix(s[1..]); }
  }

  /** For every name that strips to at most 99 characters, both types and every size, the header
      parses to the stripped name, the type and the size, which is zero for directories. */
  lemma HeaderRoundTrip(name: Name, typ: Byte, size: nat)
    requires 0 !in name && (typ == REGULAR || typ == DIRECTORY) && size <= 0x7FFF_FFFF
    ensures MakeHeader(name, typ, size).Some? <==> |Strip(name)| <= 99
    ensures var h := MakeHeader(name, typ, size);
            h.Some? ==> ParseHeader(h.value) == File(Strip(name), typ, if typ == DIRECTORY then 0 else size)
  {
    hide SumFrom, Octal, ParseFrom, Strip, Front, Back, CString, Magic;
    var n := Strip(name);
    if |n| <= 99 {
      var f, b := Front(n, typ, size), Back(typ);
      var c := Octal(SumFrom(f + Zeros(8) + b, 0), 7) + [0];
      var h := f + c + b;
      HeaderFields(f, c, b);
      FrontFields(n, typ, size);
      BackFields(typ);
      ChecksumParses(f, b, c);
      StripNoZero(name);
      PaddedString(n, 100);
      StripIdempotent(name);
      SizeParses(size);
      assert h[99] == h[..100][99];
      assert h != Zeros(512) by { assert h[263] == ZERO && Zeros(512)[263] == 0; }
    }
  }

  /** The other fields of a made header: mode 0644 or 0755, user and group 0 and "root", the fixed time
      stamp, and nothing in the link name, the device numbers, the prefix and the padding. */
  lemma MadeFields(name: Name, typ: Byte, size: nat)
    requires MakeHeader(name, typ, size).Some?
    ensures var h := MakeHeader(name, typ, size).value;
            && ParseFrom(h[100..108], 0, 0) == Some(if typ == REGULAR then 420 else 493)
            && ParseFrom(h[108..116], 0, 0) == Some(0) && ParseFrom(h[116..124], 0, 0) == Some(0)
            && ParseFrom(h[136..148], 0, 0) == Some(1136102400)
            && h[157..257] == Zeros(100) && h[329..512] == Zeros(183)
            && h[265..297] == Padded(Root(), 32) && h[297..329] == Padded(Root(), 32)
  {
    hide SumFrom, Octal, ParseFrom, Strip;
    var n := Strip(name);
    var f, b := Front(n, typ, size), Back(typ);
    var c := Octal(SumFrom(f + Zeros(8) + b, 0), 7) + [0];
    FrontOthers(n, typ, size);
    BackOthers(typ);
    hide Front, Back, Padded, Zeros, Root;
    var h := f + c + b;
    assert h[..148] == f && h[156..] == b;
    assert h[100..108] == f[100..108] && h[108..116] == f[108..116] && h[116..124] == f[116..124];
    assert h[136..148] == f[136..148] && h[157..257] == b[1..101] && h[329..512] == b[173..356];
    assert h[265..297] == b[109..141] && h[297..329] == b[141..173];
    assert Pow8(7) == 2097152;
    assert Pow8(11) == 8589934592;
    OctalRoundTrip(if typ == REGULAR then 420 else 493, 7);
    OctalRoundTrip(0, 7);
    OctalRoundTrip(1136102400, 11);
  }

  lemma FrontOthers(name: Name, typ: Byte, size: nat)
    requires |name| <= 99
    ensures var f := Front(name, typ, size);
            && f[100..108] == Octal(if typ == REGULAR then 420 else 493, 7) + [0]
            && f[108..116] == Octal(0, 7) + [0] && f[116..124] == Octal(0, 7) + [0]
            && f[136..148] == Octal(1136102400, 11) + [0]
  {
    hide Octal, Padded;
  }

  lemma BackOthers(typ: Byte)
    ensures var b := Back(typ);
            && b[1..101] == Zeros(100) && b[173..356] == Zeros(183)
            && b[109..141] == Padded(Root(), 32) && b[141..173] == Padded(Root(), 32)
  {
    hide Padded;
  }

  /** Changing any one byte of an accepted header outside the checksum field makes it an error. */
  lemma OneByteDetected(b: seq<Byte>, i: nat, x: Byte)
    requires |b| == 512 && i < 512 && !(148 <= i < 156) && x != b[i] && ParseHeader(b).File?
    ensures ParseHeader(b[i := x]).Error?
  {
    hide SumFrom, ParseFrom, Strip, CString;
    var c := b[i := x];
    SumChanges(b, i, x, 0);
    assert c[148..156] == b[148..156];
    assert c != Zeros(512) by {
      assert b[263] == ZERO && b[264] == ZERO && Zeros(512)[263] == 0 && Zeros(512)[264] == 0;
    }
  }

  lemma {:induction false} SumChanges(b: seq<Byte>, i: nat, x: Byte, k: nat)
    requires i < |b| && !(148 <= i < 156)
    ensures SumFrom(b[i := x], k) == SumFrom(b, k) + if k <= i then x as int - b[i] as int else 0
    decreases |b| - k
  {
    if k < |b| { SumChanges(b, i, x, k + 1); }
  }

  /** Every accepted name is relative: it does not start with a slash, and it is stripped already. */
  lemma AcceptedName(b: seq<Byte>)
    requires |b| == 512 && ParseHeader(b).File?
    ensures var f := ParseHeader(b); Strip(f.name) == f.name && !Antisocial(f.name) && f.name != []
  {
    StripIdempotent(CString(b[..100]));
  }

  /** A header is accepted exactly if every field is right. */
  lemma AcceptExact(b: seq<Byte>)
    requires |b| == 512
    ensures ParseHeader(b).Eof? <==> forall i :: 0 <= i < 512 ==> b[i] == 0
    ensures ParseHeader(b).File? <==>
              && b[257..263] == Magic() && b[263] == ZERO && b[264] == ZERO
              && ParseFrom(b[148..156], 0, 0) == Some(SumFrom(b, 0))
              && b[99] == 0 && b[345] == 0
              && (b[156] == DIRECTORY || (b[156] == REGULAR && var n := ParseFrom(b[124..136], 0, 0);
                                                               n.Some? && n.value <= 0x7FFF_FFFF))
  {
    hide SumFrom, ParseFrom, Strip, CString;
    if b == Zeros(512) { assert b[263] == 0; }
  }

  lemma SizeParses(size: nat)
    requires size <= 0x7FFF_FFFF
    ensures ParseFrom(Octal(size, 11) + [0], 0, 0) == Some(size)
  {
    hide ParseFrom, Octal;
    assert Pow8(7) == 2097152;
    assert Pow8(11) == 8589934592;
    OctalRoundTrip(size, 11);
  }

  // The functions as the C source runs them.

  method IsAllZeros(b: seq<Byte>) returns (r: bool)
    ensures r <==> b == Zeros(|b|)
  {
    var i := 0;
    while i < |b|
      invariant i <= |b| && forall j :: 0 <= j < i ==> b[j] == 0
    {
      if b[i] != 0 { return false; }
      i := i + 1;
    }
    r := true;
  }

  /** The header is filled in with an empty checksum field, summed up, and the field filled in. */
  method Make(name: Name, typ: Byte, size: nat) returns (r: Option<seq<Byte>>)
    ensures r == MakeHeader(name, typ, size)
  {
    hide SumFrom, Octal, Front, Back, Strip;
    var n := StripPrefixes(name);
    if |n| > 99 { return None; }
    var h := Front(n, typ, size) + Zeros(8) + Back(typ);
    var sum := Checksum(h);
    assert h[..148] == Front(n, typ, size) && h[156..] == Back(typ);
    h := h[..148] + (Octal(sum, 7) + [0]) + h[156..];
    r := Some(h);
  }

  method Parse(b: seq<Byte>) returns (r: Parsed)
    requires |b| == 512
    ensures r == ParseHeader(b)
  {
    hide SumFrom, ParseFrom, Strip, CString;
    var eof := IsAllZeros(b);
    if eof { return Eof; }
    if b[257..263] != Magic() { return Error(NotUstar); }
    if b[263] != ZERO || b[264] != ZERO { return Error(BadVersion); }
    var chksum := ParseOctal(b[148..156]);
    if chksum.None? { return Error(CorruptChecksum); }
    var sum := Checksum(b);
    if chksum.value != sum { return Error(Mismatch); }
    if b[99] != 0 || b[345] != 0 { return Error(NameTooLong); }
    if b[156] != REGULAR && b[156] != DIRECTORY { return Error(BadType); }
    var size := 0;
    if b[156] == REGULAR {
      var s := ParseOctal(b[124..136]);
      if s.None? { return Error(CorruptSize); }
      if s.value > 0x7FFF_FFFF { return Error(TooLarge); }
      size := s.value;
    }
    var name := StripPrefixes(CString(b[..100]));
    r := File(name, b[156], size);
  }
}
