/** Printing and reading integers (lib/stdio.c: format_integer, vsnprintf; lib/stdlib.c: atoi). */
module Printf {
  import opened Arithmetic
  import Ustar

  /** struct integer_base. `x` is the character after 0 in a prefix, or none. */
  datatype Base = Base(base: nat, digits: string, x: string, group: nat)

  function BaseD(): Base { Base(10, "0123456789", "", 3) }
  function BaseO(): Base { Base(8, "01234567", "", 3) }
  function BaseX(): Base { Base(16, "0123456789abcdef", "x", 4) }
  function BaseUpperX(): Base { Base(16, "0123456789ABCDEF", "X", 4) }

  predicate IsBase(b: Base) { b == BaseD() || b == BaseO() || b == BaseX() || b == BaseUpperX() }

  /** The parts of struct printf_conversion that format_integer looks at. */
  datatype Conversion = Conversion(minus: bool, plus: bool, space: bool, pound: bool, zero: bool, group: bool,
                                   width: int, precision: int)

  // The digits, last first.

  /** The digits of `value` in reverse order, with commas, when `d` digits have been made. */
  function RevDigits(value: nat, b: Base, grouped: bool, d: nat): (s: string)
    requires IsBase(b)
    decreases value
  {
    if value == 0 then ""
    else
      (if grouped && d > 0 && d % b.group == 0 then "," else "")
      + [b.digits[value % b.base]] + RevDigits(value / b.base, b, grouped, d + 1)
  }

  function Repeat(c: char, n: int): (s: string)
    ensures |s| == if n < 0 then 0 else n
    ensures forall i :: 0 <= i < |s| ==> s[i] == c
  {
    if n <= 0 then "" else seq(n, _ => c)
  }

  /** Zeros up to the precision, but never past the last place of the buffer, and the zero that
      the # flag asks for in base 8. */
  function WithZeros(s: string, b: Base, c: Conversion): string {
    var precision := if c.precision < 0 then 1 else c.precision;
    var t := s + Repeat('0', (if precision < 63 then precision else 63) - |s|);
    if c.pound && b.base == 8 && (t == "" || t[|t| - 1] != '0') then t + "0" else t
  }

  function Reversed(s: string): (r: string)
    ensures |r| == |s| && forall i :: 0 <= i < |s| ==> r[i] == s[|s| - 1 - i]
  {
    if s == "" then "" else Reversed(s[1..]) + [s[0]]
  }

  function SignOf(isSigned: bool, negative: bool, c: Conversion): string {
    if !isSigned then ""
    else if negative then "-"
    else if c.plus then "+" else if c.space then " " else ""
  }

  /** What format_integer prints. */
  function Formatted(value: nat, isSigned: bool, negative: bool, b: Base, c: Conversion): string
    requires IsBase(b)
  {
    var sign := SignOf(isSigned, negative, c);
    var x := if c.pound && value > 0 && b.x != "" then "0" + b.x else "";
    var digits := WithZeros(RevDigits(value, b, c.group, 0), b, c);
    var pad := c.width - |digits| - |x| - |sign|;
    (if !c.minus && !c.zero then Repeat(' ', pad) else "") + sign + x
    + (if c.zero then Repeat('0', pad) else "") + Reversed(digits) + (if c.minus then Repeat(' ', pad) else "")
  }

  // What the digits and the padding mean.

  /** The number whose digits, last first, are `s`; commas do not count. */
  function ValueOf(s: string, b: Base): (v: nat) {
    if s == "" then 0
    else if s[0] == ',' then ValueOf(s[1..], b)
    else DigitValue(s[0]) + b.base * ValueOf(s[1..], b)
  }

  function DigitValue(c: char): (v: nat) {
    if '0' <= c <= '9' then c as int - '0' as int
    else if 'a' <= c <= 'f' then c as int - 'a' as int + 10
    else if 'A' <= c <= 'F' then c as int - 'A' as int + 10 else 0
  }

  lemma DigitMeans(b: Base, v: nat)
    requires IsBase(b) && v < b.base
    ensures b.digits[v] != ',' && DigitValue(b.digits[v]) == v
  {
  }

  /** Whatever the base, the flags and the precision, the digits printed are those of the value. */
  lemma DigitsRead(value: nat, b: Base, c: Conversion)
    requires IsBase(b)
    ensures ValueOf(WithZeros(RevDigits(value, b, c.group, 0), b, c), b) == value
  {
    hide IsBase, RevDigits, ValueOf;
    var s := RevDigits(value, b, c.group, 0);
    var precision := if c.precision < 0 then 1 else c.precision;
    var z := Repeat('0', (if precision < 63 then precision else 63) - |s|);
    DigitsThenZeros(value, b, c.group, 0, z);
    DigitsThenZeros(value, b, c.group, 0, z + "0");
    assert s + z + "0" == s + (z + "0");
  }

  lemma {:induction false} DigitsThenZeros(value: nat, b: Base, grouped: bool, d: nat, z: string)
    requires IsBase(b) && forall i :: 0 <= i < |z| ==> z[i] == '0'
    ensures ValueOf(RevDigits(value, b, grouped, d) + z, b) == value
    decreases value
  {
    hide IsBase, ValueOf, DigitValue, RevDigits;
    if value == 0 {
      DigitEnd(b, grouped, d);
      ZerosAreZero(b, z);
      assert "" + z == z;
    } else {
      var q, k := DigitSplit(value, b, grouped, d);
      DigitsThenZeros(q, b, grouped, d + 1, z);
      var r, comma := RevDigits(q, b, grouped, d + 1), if grouped && d > 0 && d % b.group == 0 then "," else "";
      ValueMore(k, r + z, b);
      ValueComma([k] + (r + z), b);
      assert comma + [k] + r + z == comma + ([k] + (r + z));
    }
  }

  /** The last digit of a number, and the rest. */
  lemma DigitSplit(value: nat, b: Base, grouped: bool, d: nat) returns (q: nat, k: char)
    requires IsBase(b) && value > 0
    ensures q < value && k != ',' && value == DigitValue(k) + b.base * q && b.group > 0
    ensures RevDigits(value, b, grouped, d)
            == (if grouped && d > 0 && d % b.group == 0 then "," else "") + [k] + RevDigits(q, b, grouped, d + 1)
  {
    hide RevDigits, DigitValue;
    BaseParts(b, value);
    DigitStep(value, b, grouped, d);
    q, k := value / b.base, b.digits[value % b.base];
    DigitMeans(b, value % b.base);
  }

  lemma BaseParts(b: Base, value: nat)
    requires IsBase(b) && value > 0
    ensures 0 < b.base == |b.digits| && b.group > 0
    ensures value % b.base < b.base && value / b.base < value && value == value % b.base + b.base * (value / b.base)
  {
  }

  lemma ValueMore(k: char, r: string, b: Base)
    requires k != ','
    ensures ValueOf([k] + r, b) == DigitValue(k) + b.base * ValueOf(r, b)
  {
    assert ([k] + r)[1..] == r;
  }

  lemma ValueComma(r: string, b: Base)
    ensures ValueOf("," + r, b) == ValueOf(r, b) && "" + r == r
  {
    assert ("," + r)[1..] == r;
  }

  lemma {:induction false} ZerosAreZero(b: Base, z: string)
    requires forall i :: 0 <= i < |z| ==> z[i] == '0'
    ensures ValueOf(z, b) == 0
  {
    if z != "" { ZerosAreZero(b, z[1..]); }
  }

  /** With the ' flag there is a comma after each three decimal or octal and each four
      hexadecimal digits, counted from the last. */
  lemma CommaPlaces(value: nat, b: Base, i: nat)
    requires IsBase(b) && i < |RevDigits(value, b, true, 0)|
    ensures var g := if b.base == 16 then 4 else 3;
            RevDigits(value, b, true, 0)[i] == ',' <==> i % (g + 1) == g
  {
    CommasFrom(value, b, 0, i);
  }

  /** A comma, a decimal digit or, in base 16, a small letter, or a capital one for `%X`. */
  predicate IsDigitOf(k: char, b: Base) {
    k == ',' || '0' <= k <= '9' || (b.base == 16 && if b.x == "X" then 'A' <= k <= 'F' else 'a' <= k <= 'f')
  }

  lemma {:induction false} DigitCase(value: nat, b: Base, grouped: bool, d: nat, i: nat)
    requires IsBase(b) && i < |RevDigits(value, b, grouped, d)|
    ensures IsDigitOf(RevDigits(value, b, grouped, d)[i], b)
    decreases value
  {
    hide IsBase, IsDigitOf;
    assert value > 0;
    hide RevDigits;
    BaseParts(b, value);
    DigitStep(value, b, grouped, d);
    OneDigit(b, value % b.base);
    var comma := if grouped && d > 0 && d % b.group == 0 then "," else "";
    var r := RevDigits(value / b.base, b, grouped, d + 1);
    PickedUp(comma, b.digits[value % b.base], r, i);
    if i > |comma| { DigitCase(value / b.base, b, grouped, d + 1, i - |comma| - 1); }
  }

  lemma OneDigit(b: Base, m: nat)
    requires IsBase(b) && m < |b.digits|
    ensures IsDigitOf(b.digits[m], b) && IsDigitOf(',', b)
  {
  }

  /** Where in the cycle of a group of digits and a comma the output is after `d` digits. */
  function Phase(d: nat, g: nat): (p: nat)
    requires g > 0
  {
    if d > 0 && d % g == 0 then g else d % g
  }

  lemma {:induction false} CommasFrom(value: nat, b: Base, d: nat, i: nat)
    requires IsBase(b) && b.group > 0 && i < |RevDigits(value, b, true, d)|
    ensures RevDigits(value, b, true, d)[i] == ',' <==> (Phase(d, b.group) + i) % (b.group + 1) == b.group
    decreases value
  {
    hide IsBase, DigitValue, Phase;
    assert value > 0;
    hide RevDigits;
    var q, k := DigitSplit(value, b, true, d);
    var r, sep, g := RevDigits(q, b, true, d + 1), d > 0 && d % b.group == 0, b.group;
    PickedUp(if sep then "," else "", k, r, i);
    GroupOf(b);
    PhaseStep(d, g, i);
    if sep {
      if i >= 2 { CommasFrom(q, b, d + 1, i - 2); }
    } else if i >= 1 {
      CommasFrom(q, b, d + 1, i - 1);
    }
  }

  lemma GroupOf(b: Base)
    requires IsBase(b)
    ensures b.group == 3 || b.group == 4
  {
  }

  lemma PickedUp(comma: string, k: char, r: string, i: nat)
    requires |comma| <= 1 && i < |comma + [k] + r|
    ensures (comma + [k] + r)[i] == if i < |comma| then comma[i] else if i == |comma| then k else r[i - |comma| - 1]
  {
  }

  lemma PhaseStep(d: nat, g: nat, i: nat)
    requires g == 3 || g == 4
    ensures var p, next := Phase(d, g), Phase(d + 1, g);
            if d > 0 && d % g == 0 then
              && ((p + 0) % (g + 1) == g) && ((p + 1) % (g + 1) != g)
              && (i >= 2 ==> (p + i) % (g + 1) == (next + (i - 2)) % (g + 1))
            else
              && (p + 0) % (g + 1) != g && (i >= 1 ==> p + i == next + (i - 1))
  {
    if g == 3 {
      assert (d + 1) % 3 == if d % 3 == 2 then 0 else d % 3 + 1;
      Wraps(i, 4);
    } else {
      assert (d + 1) % 4 == if d % 4 == 3 then 0 else d % 4 + 1;
      Wraps(i, 5);
    }
  }

  lemma Wraps(i: nat, m: nat)
    requires m == 4 || m == 5
    ensures i >= 1 ==> (m + (i - 1)) % m == (i - 1) % m
  {
  }

  /** The field width: the text is filled up with spaces on the left, on the right or with zeros
      after the sign and prefix. It comes out exactly as wide as it should unless both flags are
      given at once. */
  lemma Padding(value: nat, isSigned: bool, negative: bool, b: Base, c: Conversion)
    requires IsBase(b)
    ensures var out, bare := Formatted(value, isSigned, negative, b, c),
                             Formatted(value, isSigned, negative, b, c.(width := 0));
            var n := |SignOf(isSigned, negative, c)| + (if c.pound && value > 0 && b.base == 16 then 2 else 0);
            && n <= |bare|
            && (|out| == (if c.width > |bare| then c.width else |bare|) <==> !(c.minus && c.zero && c.width > |bare|))
            && (!c.minus && !c.zero ==> out == Repeat(' ', c.width - |bare|) + bare)
            && (c.minus && !c.zero ==> out == bare + Repeat(' ', c.width - |bare|))
            && (!c.minus && c.zero ==> out == bare[..n] + Repeat('0', c.width - |bare|) + bare[n..])
  {
    SameDigits(RevDigits(value, b, c.group, 0), b, c);
    PrefixSize(isSigned, negative, b, c, value);
    hide RevDigits, Reversed, WithZeros, SignOf, Repeat, IsBase, Filled, Formatted;
    FormattedIs(value, isSigned, negative, b, c);
    FormattedIs(value, isSigned, negative, b, c.(width := 0));
    FilledFacts(Prefix(value, isSigned, negative, b, c), Reversed(WithZeros(RevDigits(value, b, c.group, 0), b, c)), c);
  }

  /** How the text begins: with a minus sign for a negative signed number; else, if signed, with the
      plus or the space a flag asks for; then with 0x or 0X, exactly for a hexadecimal number other
      than zero with the # flag; the digits follow. */
  lemma SignAndPrefix(value: nat, isSigned: bool, negative: bool, b: Base, c: Conversion)
    requires IsBase(b)
    ensures var bare := Formatted(value, isSigned, negative, b, c.(width := 0));
            var digits := Reversed(WithZeros(RevDigits(value, b, c.group, 0), b, c));
            var x := if b == BaseX() && c.pound && value > 0 then "0x"
                     else if b == BaseUpperX() && c.pound && value > 0 then "0X" else "";
            && (isSigned && negative ==> bare == "-" + x + digits)
            && (isSigned && !negative && c.plus ==> bare == "+" + x + digits)
            && (isSigned && !negative && !c.plus && c.space ==> bare == " " + x + digits)
            && (!isSigned || (!negative && !c.plus && !c.space) ==> bare == x + digits)
  {
    hide RevDigits, Reversed, WithZeros, Formatted, Prefix, Filled, IsBase;
    var digits := Reversed(WithZeros(RevDigits(value, b, c.group, 0), b, c));
    BareIs(value, isSigned, negative, b, c);
    PrefixIs(value, isSigned, negative, b, c);
    assert "" + digits == digits;
  }

  lemma BareIs(value: nat, isSigned: bool, negative: bool, b: Base, c: Conversion)
    requires IsBase(b)
    ensures Formatted(value, isSigned, negative, b, c.(width := 0)) ==
            Prefix(value, isSigned, negative, b, c) + Reversed(WithZeros(RevDigits(value, b, c.group, 0), b, c))
  {
    SameDigits(RevDigits(value, b, c.group, 0), b, c);
    PrefixSize(isSigned, negative, b, c, value);
    hide RevDigits, Reversed, WithZeros, SignOf, Repeat, IsBase, Filled, Formatted;
    FormattedIs(value, isSigned, negative, b, c.(width := 0));
    FilledFacts(Prefix(value, isSigned, negative, b, c), Reversed(WithZeros(RevDigits(value, b, c.group, 0), b, c)), c);
  }

  lemma PrefixIs(value: nat, isSigned: bool, negative: bool, b: Base, c: Conversion)
    requires IsBase(b)
    ensures var p := Prefix(value, isSigned, negative, b, c);
            var x := if b == BaseX() && c.pound && value > 0 then "0x"
                     else if b == BaseUpperX() && c.pound && value > 0 then "0X" else "";
            && (isSigned && negative ==> p == "-" + x)
            && (isSigned && !negative && c.plus ==> p == "+" + x)
            && (isSigned && !negative && !c.plus && c.space ==> p == " " + x)
            && (!isSigned || (!negative && !c.plus && !c.space) ==> p == x)
  {
    var x := if c.pound && value > 0 && b.x != "" then "0" + b.x else "";
    assert "" + x == x;
  }

  /** There are as many zeros before the digits of the number as the precision, cut at 63, and the #
      flag in base 8 ask for, and no more; the number itself does not begin with one. */
  lemma LeadingZeros(value: nat, b: Base, c: Conversion)
    requires IsBase(b)
    ensures var s, t := RevDigits(value, b, c.group, 0), WithZeros(RevDigits(value, b, c.group, 0), b, c);
            var wanted := if c.precision < 0 then 1 else if c.precision < 63 then c.precision else 63;
            var octal := c.pound && b.base == 8;
            && (value == 0 <==> s == "") && (value > 0 ==> s[|s| - 1] != '0')
            && |s| <= |t| && t == s + Repeat('0', |t| - |s|)
            && |t| >= wanted && (octal ==> t != "" && t[|t| - 1] == '0')
            && (|t| > |s| ==> |t| == wanted || (octal && |t| - 1 >= wanted && |t| - 1 == |s|))
  {
    FirstDigit(value, b, c.group, 0);
    hide RevDigits, IsBase;
    var s, t := RevDigits(value, b, c.group, 0), WithZeros(RevDigits(value, b, c.group, 0), b, c);
    var wanted := if c.precision < 0 then 1 else if c.precision < 63 then c.precision else 63;
    var u := s + Repeat('0', wanted - |s|);
    assert |t| == |u| + 1 ==> t == s + (Repeat('0', wanted - |s|) + "0");
    assert t == s + Repeat('0', |t| - |s|);
  }

  lemma {:induction false} FirstDigit(value: nat, b: Base, grouped: bool, d: nat)
    requires IsBase(b)
    ensures var s := RevDigits(value, b, grouped, d); (value == 0 <==> s == "") && (value > 0 ==> s[|s| - 1] != '0')
    decreases value
  {
    if value > 0 {
      var q := value / b.base;
      FirstDigit(q, b, grouped, d + 1);
      if q == 0 {
        assert value % b.base == value && value < b.base;
        DigitMeans(b, value);
      }
    }
  }

  /** What parse_conversion makes of the flags, the width and the precision it has read: the flags
      are cleared first, then a negative width stands for another minus flag, then a precision
      clears the zero flag. */
  function Parsed(c: Conversion): Conversion {
    var flags := c.(zero := c.zero && !c.minus, space := c.space && !c.plus);
    var wide := if c.width < 0 then flags.(width := -c.width, minus := true) else flags;
    if c.precision < 0 then wide.(precision := -1) else wide.(zero := false)
  }

  /** What is left: the sign and the prefix the flags ask for, grouping, the width without its sign, the
      zero flag if it was given without the minus flag and a precision. */
  lemma ParsedExact(value: nat, isSigned: bool, negative: bool, b: Base, c: Conversion)
    ensures var p := Parsed(c);
            && Prefix(value, isSigned, negative, b, p) == Prefix(value, isSigned, negative, b, c)
            && p.group == c.group && p.pound == c.pound && p.width == Abs(c.width)
            && (p.minus <==> c.minus || c.width < 0) && (p.zero <==> c.zero && !c.minus && c.precision < 0)
            && (if c.precision < 0 then p.precision == -1 else p.precision == c.precision)
  {
  }

  /** A conversion that has been parsed meets its width unless it combines the zero flag with a
      negative width, no precision and a text that needs filling. */
  lemma ParsedWidth(value: nat, isSigned: bool, negative: bool, b: Base, c: Conversion)
    requires IsBase(b)
    ensures var width := if c.width < 0 then -c.width else c.width;
            var out := Formatted(value, isSigned, negative, b, Parsed(c));
            var bare := Formatted(value, isSigned, negative, b, Parsed(c).(width := 0));
            |out| == (if width > |bare| then width else |bare|) <==>
              !(c.zero && !c.minus && c.width < 0 && c.precision < 0 && -c.width > |bare|)
  {
    hide Formatted, IsBase, SignOf;
    Padding(value, isSigned, negative, b, Parsed(c));
  }

  /** "%0*d" with a width of -10 prints nine zeros, the number 5, and nine spaces. */
  lemma NegativeWidth()
    ensures var c := Conversion(false, false, false, false, true, false, -10, -1);
            Formatted(5, true, false, BaseD(), Parsed(c)) == Repeat('0', 9) + "5" + Repeat(' ', 9)
            && |Formatted(5, true, false, BaseD(), Parsed(c))| == 19
  {
    var c := Conversion(false, false, false, false, true, false, -10, -1);
    var p := Parsed(c);
    FormattedIs(5, true, false, BaseD(), p);
    FiveIs(p);
    hide Formatted, Reversed, WithZeros, RevDigits, Prefix, Repeat;
    assert Filled("", "5", p) == Repeat('0', 9) + "5" + Repeat(' ', 9);
  }

  lemma FiveIs(p: Conversion)
    requires p == Conversion(true, false, false, false, true, false, 10, -1)
    ensures Prefix(5, true, false, BaseD(), p) == ""
    ensures Reversed(WithZeros(RevDigits(5, BaseD(), false, 0), BaseD(), p)) == "5"
  {
    assert RevDigits(0, BaseD(), false, 1) == "" && RevDigits(5, BaseD(), false, 0) == "5";
    assert WithZeros("5", BaseD(), p) == "5";
    assert Reversed("5") == "5";
  }

  function Prefix(value: nat, isSigned: bool, negative: bool, b: Base, c: Conversion): string {
    SignOf(isSigned, negative, c) + if c.pound && value > 0 && b.x != "" then "0" + b.x else ""
  }

  /** A text made of a prefix and digits, filled up to the width. */
  function Filled(prefix: string, digits: string, c: Conversion): string {
    var pad := c.width - |prefix| - |digits|;
    (if !c.minus && !c.zero then Repeat(' ', pad) else "") + prefix
    + (if c.zero then Repeat('0', pad) else "") + digits + (if c.minus then Repeat(' ', pad) else "")
  }

  lemma FormattedIs(value: nat, isSigned: bool, negative: bool, b: Base, c: Conversion)
    requires IsBase(b)
    ensures Formatted(value, isSigned, negative, b, c)
            == Filled(Prefix(value, isSigned, negative, b, c),
                      Reversed(WithZeros(RevDigits(value, b, c.group, 0), b, c)), c)
  {
    hide RevDigits, Reversed, WithZeros, SignOf, Repeat, IsBase;
  }

  lemma FilledFacts(prefix: string, digits: string, c: Conversion)
    ensures var out, bare := Filled(prefix, digits, c), Filled(prefix, digits, c.(width := 0));
            && bare == prefix + digits && bare[..|prefix|] == prefix && bare[|prefix|..] == digits
            && (|out| == (if c.width > |bare| then c.width else |bare|) <==> !(c.minus && c.zero && c.width > |bare|))
            && (!c.minus && !c.zero ==> out == Repeat(' ', c.width - |bare|) + bare)
            && (c.minus && !c.zero ==> out == bare + Repeat(' ', c.width - |bare|))
            && (!c.minus && c.zero ==> out == prefix + Repeat('0', c.width - |bare|) + digits)
  {
    var e := c.(width := 0);
    assert Repeat(' ', e.width - |prefix| - |digits|) == "" && Repeat('0', e.width - |prefix| - |digits|) == "";
    hide Repeat;
  }

  lemma PrefixSize(isSigned: bool, negative: bool, b: Base, c: Conversion, value: nat)
    requires IsBase(b)
    ensures |Prefix(value, isSigned, negative, b, c)|
            == |SignOf(isSigned, negative, c)| + (if c.pound && value > 0 && b.base == 16 then 2 else 0)
    ensures Prefix(value, isSigned, negative, b, c.(width := 0)) == Prefix(value, isSigned, negative, b, c)
  {
    var e := c.(width := 0);
    assert SignOf(isSigned, negative, e) == SignOf(isSigned, negative, c);
  }

  lemma SameDigits(s: string, b: Base, c: Conversion)
    ensures WithZeros(s, b, c.(width := 0)) == WithZeros(s, b, c)
  {
  }

  // The buffer.

  lemma DigitBound(value: nat, b: Base, k: nat)
    requires IsBase(b) && 0 < value < Ustar.Pow8(k)
    ensures k > 0 && value / b.base < Ustar.Pow8(k - 1)
  {
    assert k == 0 ==> Ustar.Pow8(k) == 1;
  }

  /** format_integer. Every store is inside the 64 characters of the buffer, whatever the value,
      base, flags and precision. */
  method FormatInteger(value: nat, isSigned: bool, negative: bool, b: Base, c: Conversion) returns (out: string)
    requires IsBase(b) && value < TWO64
    ensures out == Formatted(value, isSigned, negative, b, c)
  {
    hide RevDigits, Reversed, IsBase, WithZeros, Repeat, SignOf;
    var buf := new char[64];
    var cp := DigitsInto(buf, value, b, c.group);
    cp := ZerosInto(buf, cp, b, c, RevDigits(value, b, c.group, 0));
    var sign := SignOf(isSigned, negative, c);
    var x := if c.pound && value > 0 && b.x != "" then "0" + b.x else "";
    var pad := c.width - cp - |x| - |sign|;
    out := if !c.minus && !c.zero then Repeat(' ', pad) else "";
    out := out + sign + x + (if c.zero then Repeat('0', pad) else "");
    var digits := OutputDigits(buf, cp);
    out := out + digits + (if c.minus then Repeat(' ', pad) else "");
  }

  /** The last loop of format_integer. */
  method OutputDigits(buf: array<char>, n: nat) returns (out: string)
    requires n <= buf.Length
    ensures out == Reversed(buf[..n])
  {
    hide Reversed;
    out := "";
    var cp := n;
    while cp > 0
      invariant 0 <= cp <= n && out + Reversed(buf[..cp]) == Reversed(buf[..n])
    {
      cp := cp - 1;
      ReversedLast(buf[..n], cp);
      assert buf[..n][..cp + 1] == buf[..cp + 1] && buf[..n][..cp] == buf[..cp];
      assert out + ([buf[cp]] + Reversed(buf[..cp])) == out + [buf[cp]] + Reversed(buf[..cp]);
      out := out + [buf[cp]];
    }
    ReversedEmpty(buf[..0]);
    assert out + "" == out;
  }

  lemma ReversedEmpty(s: string)
    requires s == ""
    ensures Reversed(s) == ""
  {
  }

  lemma ReversedLast(s: string, n: nat)
    requires n < |s|
    ensures Reversed(s[..n + 1]) == [s[n]] + Reversed(s[..n])
  {
    hide Reversed;
  }

  /** The digit loop: at most 22 digits and 7 commas. */
  method DigitsInto(buf: array<char>, value: nat, b: Base, grouped: bool) returns (cp: nat)
    requires IsBase(b) && value < TWO64 && buf.Length == 64
    modifies buf
    ensures cp <= 29 && buf[..cp] == RevDigits(value, b, grouped, 0)
  {
    hide Ustar.Pow8, RevDigits, IsBase, Commas;
    BaseFacts(b);
    cp := 0;
    var v, d := value, 0;
    Start();
    NoCommas(b.group);
    while v > 0
      invariant 0 <= d <= 22 && 0 <= v < Ustar.Pow8(22 - d) && cp <= d + Commas(d, b.group) && cp <= 64
      invariant buf[..cp] + RevDigits(v, b, grouped, d) == RevDigits(value, b, grouped, 0)
      decreases v
    {
      DigitBound(v, b, 22 - d);
      DigitStep(v, b, grouped, d);
      GroupStep(d, b);
      var sep, k := grouped && d > 0 && d % b.group == 0, b.digits[v % b.base];
      ghost var was, rest := buf[..cp], RevDigits(v / b.base, b, grouped, d + 1);
      if sep {
        buf[cp] := ',';
        cp := cp + 1;
        assert buf[..cp] == was + ",";
      }
      buf[cp] := k;
      cp := cp + 1;
      assert buf[..cp] == was + (if sep then "," else "") + [k];
      Appended(was, if sep then "," else "", k, rest);
      v := v / b.base;
      d := d + 1;
      FewCommas(d, b.group);
    }
    DigitEnd(b, grouped, d);
    FewCommas(d, b.group);
    assert buf[..cp] + "" == buf[..cp];
  }

  lemma Appended(was: string, comma: string, k: char, rest: string)
    ensures was + (comma + [k] + rest) == was + comma + [k] + rest
  {
  }

  /** Commas among `d` digits, at most. */
  function Commas(d: nat, g: nat): nat { if d > 0 && g > 0 then (d - 1) / g else 0 }

  lemma NoCommas(g: nat)
    ensures Commas(0, g) == 0
  {
  }

  lemma FewCommas(d: nat, g: nat)
    requires d <= 22 && (g == 3 || g == 4)
    ensures Commas(d, g) <= 7
  {
  }

  lemma BaseFacts(b: Base)
    requires IsBase(b)
    ensures (b.base == 8 || b.base == 10 || b.base == 16) && |b.digits| == b.base && (b.group == 3 || b.group == 4)
  {
  }

  lemma DigitStep(v: nat, b: Base, grouped: bool, d: nat)
    requires IsBase(b) && v > 0
    ensures RevDigits(v, b, grouped, d) ==
              (if grouped && d > 0 && d % b.group == 0 then "," else "") + [b.digits[v % b.base]]
              + RevDigits(v / b.base, b, grouped, d + 1)
  {
  }

  lemma DigitEnd(b: Base, grouped: bool, d: nat)
    requires IsBase(b)
    ensures RevDigits(0, b, grouped, d) == ""
  {
  }

  lemma Start()
    ensures Ustar.Pow8(22) >= TWO64
  {
    assert Ustar.Pow8(4) == 0x1000;
    assert Ustar.Pow8(8) == 0x100_0000;
    assert Ustar.Pow8(12) == 0x10_0000_0000;
    assert Ustar.Pow8(16) == 0x1_0000_0000_0000;
    assert Ustar.Pow8(20) == 0x1000_0000_0000_0000;
    assert Ustar.Pow8(22) == 0x4_0000_0000_0000_0000;
  }

  lemma GroupStep(d: nat, b: Base)
    requires IsBase(b) && d < 22
    ensures d + Commas(d, b.group) + 1 <= d + 1 + Commas(d + 1, b.group) && d + Commas(d, b.group) + 1 < 64
    ensures d > 0 && d % b.group == 0 ==> d + Commas(d, b.group) + 2 <= d + 1 + Commas(d + 1, b.group)
  {
  }

  method ZerosInto(buf: array<char>, start: nat, b: Base, c: Conversion, ghost s: string) returns (cp: nat)
    requires buf.Length == 64 && start <= 29 && buf[..start] == s
    modifies buf
    ensures cp <= 64 && buf[..cp] == WithZeros(s, b, c)
  {
    var precision := if c.precision < 0 then 1 else c.precision;
    ghost var top := (if precision < 63 then precision else 63) - |s|;
    cp := start;
    while cp < precision && cp < 63
      invariant start <= cp <= 63 && buf[..cp] == s + Repeat('0', cp - start)
      invariant cp <= start || cp <= precision
    {
      buf[cp] := '0';
      cp := cp + 1;
      assert buf[..cp] == buf[..cp - 1] + ['0'];
    }
    assert Repeat('0', cp - start) == Repeat('0', top);
    if c.pound && b.base == 8 && (cp == 0 || buf[cp - 1] != '0') {
      buf[cp] := '0';
      cp := cp + 1;
      assert buf[..cp] == buf[..cp - 1] + "0";
    }
  }

  // Reading it back.

  predicate IsSpace(c: char) { c == ' ' || c == '\n' || c == '\t' || c == '\r' || c == '\U{0c}' || c == '\U{0b}' }
  predicate IsDigit(c: char) { '0' <= c <= '9' }

  /** The digit loop of atoi, from the value so far, which is negative; 32-bit arithmetic. */
  function ReadDigits(s: string, value: int): int {
    if s == "" || !IsDigit(s[0]) then value
    else ReadDigits(s[1..], ToS32(value * 10 - (s[0] as int - '0' as int)))
  }

  function SkipSpaces(s: string): string {
    if s != "" && IsSpace(s[0]) then SkipSpaces(s[1..]) else s
  }

  /** atoi. */
  function Atoi(s: string): int {
    var t := SkipSpaces(s);
    if t != "" && t[0] == '-' then ReadDigits(t[1..], 0)
    else ToS32(-ReadDigits(if t != "" && t[0] == '+' then t[1..] else t, 0))
  }

  method AtoiLoop(s: string) returns (r: int)
    ensures r == Atoi(s)
  {
    hide ToS32;
    var i := 0;
    assert s[0..] == s;
    while i < |s| && IsSpace(s[i])
      invariant i <= |s| && SkipSpaces(s[i..]) == SkipSpaces(s)
    {
      assert s[i..][1..] == s[i + 1..];
      i := i + 1;
    }
    assert i < |s| ==> s[i..][1..] == s[i + 1..];
    ghost var t := s[i..];
    var negative := false;
    if i < |s| && s[i] == '+' {
      i := i + 1;
    } else if i < |s| && s[i] == '-' {
      negative := true;
      i := i + 1;
    }
    ghost var u := s[i..];
    var value := 0;
    while i < |s| && IsDigit(s[i])
      invariant i <= |s| && ReadDigits(s[i..], value) == ReadDigits(u, 0)
    {
      assert s[i..][1..] == s[i + 1..];
      value := ToS32(value * 10 - (s[i] as int - '0' as int));
      i := i + 1;
    }
    r := if negative then value else ToS32(-value);
  }

  // When nothing overflows.

  /** The digits read without a limit. */
  function ReadExact(s: string, value: int): int {
    if s == "" || !IsDigit(s[0]) then value
    else ReadExact(s[1..], value * 10 - (s[0] as int - '0' as int))
  }

  lemma {:induction false} ReadFalls(s: string, value: int)
    requires value <= 0
    ensures ReadExact(s, value) <= value
  {
    if s != "" && IsDigit(s[0]) { ReadFalls(s[1..], value * 10 - (s[0] as int - '0' as int)); }
  }

  /** A number that fits is read without overflow at any step, however many digits it has. */
  lemma {:induction false} NoOverflow(s: string, value: int)
    requires value <= 0 && -TWO31 <= ReadExact(s, value)
    ensures ReadDigits(s, value) == ReadExact(s, value) && -TWO31 <= value
    ensures s != "" && IsDigit(s[0]) ==> -TWO31 <= value * 10 - (s[0] as int - '0' as int) <= value * 10
  {
    ReadFalls(s, value);
    if s != "" && IsDigit(s[0]) {
      var next := value * 10 - (s[0] as int - '0' as int);
      ReadFalls(s[1..], next);
      NoOverflow(s[1..], next);
    }
  }

  /** atoi of any text is the number that follows the spaces and the sign, if it is an int. */
  lemma AtoiExact(s: string)
    ensures var t := SkipSpaces(s);
            var negative := t != "" && t[0] == '-';
            var n := ReadExact(if t != "" && (t[0] == '-' || t[0] == '+') then t[1..] else t, 0);
            && (negative && -TWO31 <= n ==> Atoi(s) == n)
            && (!negative && -TWO31 < n ==> Atoi(s) == -n)
  {
    var t := SkipSpaces(s);
    var u := if t != "" && (t[0] == '-' || t[0] == '+') then t[1..] else t;
    ReadFalls(u, 0);
    if -TWO31 <= ReadExact(u, 0) { NoOverflow(u, 0); }
  }

  function Plain(): Conversion { Conversion(false, false, false, false, false, false, 0, -1) }

  /** `v` printed with "%d". */
  function Decimal(v: int): string {
    Formatted(if v < 0 then -v else v, true, v < 0, BaseD(), Plain())
  }

  /** Decimal digits in order. */
  function Digits(n: nat): (s: string) {
    if n < 10 then ["0123456789"[n]] else Digits(n / 10) + ["0123456789"[n % 10]]
  }

  lemma {:induction false} DigitsPrinted(n: nat, d: nat)
    requires n > 0
    ensures Reversed(RevDigits(n, BaseD(), false, d)) == Digits(n)
    decreases n
  {
    var r := RevDigits(n / 10, BaseD(), false, d + 1);
    var c := "0123456789"[n % 10];
    assert RevDigits(n, BaseD(), false, d) == "" + [c] + r == [c] + r;
    assert ([c] + r)[1..] == r;
    if n >= 10 {
      DigitsPrinted(n / 10, d + 1);
    } else {
      DigitEnd(BaseD(), false, d + 1);
    }
  }

  /** What "%d" prints: a minus sign if need be, and the digits. */
  lemma DecimalIs(v: int)
    ensures Decimal(v) == if v < 0 then "-" + Digits(-v) else Digits(v)
  {
    hide RevDigits, Reversed, Digits;
    var n := if v < 0 then -v else v;
    var r := RevDigits(n, BaseD(), false, 0);
    if n > 0 {
      DigitsPrinted(n, 0);
      DigitsSome(n, 0);
      assert Repeat('0', 1 - |r|) == "";
      assert r + "" == r;
      assert WithZeros(r, BaseD(), Plain()) == r;
    } else {
      DigitEnd(BaseD(), false, 0);
      assert "" + Repeat('0', 1) == "0";
      ZeroDigits();
    }
    PlainIs(n, v < 0);
  }

  lemma DigitsSome(n: nat, d: nat)
    requires n > 0
    ensures |RevDigits(n, BaseD(), false, d)| >= 1
  {
  }

  lemma ZeroDigits()
    ensures Digits(0) == "0" && Reversed("0") == "0"
  {
    assert "0"[1..] == "" && Reversed("") == "";
    assert "" + ["0"[0]] == "0";
  }

  /** A plain conversion pads nothing. */
  lemma PlainIs(n: nat, negative: bool)
    ensures Formatted(n, true, negative, BaseD(), Plain()) ==
              (if negative then "-" else "") + Reversed(WithZeros(RevDigits(n, BaseD(), false, 0), BaseD(), Plain()))
  {
    hide RevDigits, Reversed, WithZeros;
  }

  /** Reading the digits of a number gives it, negated, whatever comes after: Horner's rule. */
  lemma {:induction false} ReadMore(n: int, rest: string)
    requires 0 <= n <= 0x8000_0000
    ensures ReadDigits(Digits(n) + rest, 0) == ReadDigits(rest, -n)
    decreases n
  {
    hide Digits, ReadDigits, ToS32;
    var q, k := n / 10, n % 10;
    DigitsSplit(n);
    S32Negative(n);
    if n >= 10 {
      ReadMore(q, [DigitOf(k)] + rest);
      assert Digits(n) + rest == Digits(q) + ([DigitOf(k)] + rest);
    }
    ReadStep(k, rest, -q);
  }

  function DigitOf(k: nat): char
    requires k < 10
  {
    "0123456789"[k]
  }

  lemma DigitsSplit(n: nat)
    ensures Digits(n) == if n < 10 then [DigitOf(n % 10)] else Digits(n / 10) + [DigitOf(n % 10)]
  {
  }

  lemma ReadStep(k: nat, rest: string, value: int)
    requires k < 10
    ensures ReadDigits([DigitOf(k)] + rest, value) == ReadDigits(rest, ToS32(value * 10 - k))
  {
    hide ToS32;
    DigitChar(k);
    assert ([DigitOf(k)] + rest)[1..] == rest;
  }

  lemma DigitChar(k: nat)
    requires k < 10
    ensures IsDigit("0123456789"[k]) && "0123456789"[k] as int - '0' as int == k
  {
  }

  lemma S32Negative(n: int)
    requires 0 <= n <= 0x8000_0000
    ensures ToS32(-n) == -n
  {
  }

  lemma {:induction false} DigitsStart(n: nat)
    ensures Digits(n) != "" && IsDigit(Digits(n)[0])
    decreases n
  {
    DigitChar(n % 10);
    if n >= 10 { DigitsStart(n / 10); }
  }

  /** For every int, reading what "%d" prints gives it back. */
  lemma AtoiPrintf(v: int)
    requires -0x8000_0000 <= v < 0x8000_0000
    ensures Atoi(Decimal(v)) == v
  {
    hide Digits, ReadDigits, Formatted, ToS32;
    DecimalIs(v);
    var n := if v < 0 then -v else v;
    DigitsStart(n);
    ReadMore(n, "");
    NoMoreDigits(-n);
    assert Digits(n) + "" == Digits(n);
    if v < 0 { assert ("-" + Digits(n))[1..] == Digits(n); } else { S32Positive(v); }
  }

  lemma NoMoreDigits(v: int)
    ensures ReadDigits("", v) == v
  {
  }

  lemma S32Positive(v: int)
    requires 0 <= v < 0x8000_0000
    ensures ToS32(v) == v && ToS32(-(-v)) == v
  {
  }

  // vsnprintf.

  function Min(a: nat, b: nat): nat { if a < b then a else b }

  /** max_length, an int: how many characters may be stored. */
  function MaxLength(size: nat): int { if size > 0 then ToS32(size - 1) else 0 }

  function Room(size: nat): nat { if MaxLength(size) < 0 then 0 else MaxLength(size) }

  /** There is room for all but the terminator exactly if the buffer size less one is an int. */
  lemma RoomExact(size: nat)
    requires 0 < size < TWO32
    ensures Room(size) <= size - 1 && (Room(size) == size - 1 <==> size <= TWO31)
  {
  }

  /** struct vsnprintf_aux and its helper, on a buffer of `size` characters. */
  class Sink {
    const buffer: array<char>
    const size: nat
    var p: nat
    var length: nat

    ghost predicate Valid(out: string)
      reads this, buffer
    {
      && size <= buffer.Length && size < TWO32 && length == |out| && p == Min(|out|, Room(size))
      && p <= buffer.Length && buffer[..p] == out[..p]
    }

    constructor (b: array<char>, n: nat)
      requires n <= b.Length && n < TWO32
      ensures buffer == b && size == n && Valid("")
    {
      buffer, size, p, length := b, n, 0, 0;
    }

    /** vsnprintf_helper: the next character of the output. */
    method Put(c: char, ghost out: string)
      requires Valid(out)
      modifies this`p, this`length, buffer
      ensures Valid(out + [c])
      ensures forall i :: 0 <= i < buffer.Length && (i >= size || i < old(p)) ==> buffer[i] == old(buffer[i])
    {
      var maxLength := MaxLength(size);
      RoomFits(size);
      hide ToS32, MaxLength;
      if length < maxLength {
        buffer[p] := c;
        p := p + 1;
      }
      length := length + 1;
      assert (out + [c])[..p] == if length <= maxLength then out + [c] else out[..p];
    }
  }

  lemma RoomFits(size: nat)
    requires size < TWO32
    ensures size > 0 ==> Room(size) < size
    ensures size == 0 ==> Room(size) == 0
  {
    if size > 0 { RoomExact(size); }
  }

  /** vsnprintf of an output `full`: its first characters, as many as there is room for, are stored
      and terminated, nothing past the buffer is touched, and its length is returned. */
  method Vsnprintf(full: string, buffer: array<char>, size: nat) returns (length: nat)
    requires size <= buffer.Length && size < TWO32 && |full| < TWO31
    modifies buffer
    ensures length == |full|
    ensures size > 0 ==> var n := Min(|full|, Room(size)); n < size && buffer[..n] == full[..n] && buffer[n] == '\0'
    ensures buffer[size..] == old(buffer[size..])
  {
    hide Room;
    RoomFits(size);
    var sink := new Sink(buffer, size);
    var i := 0;
    while i < |full|
      invariant i <= |full| && sink.buffer == buffer && sink.size == size && sink.Valid(full[..i])
      invariant buffer[size..] == old(buffer[size..])
      invariant fresh(sink)
    {
      sink.Put(full[i], full[..i]);
      assert full[..i] + [full[i]] == full[..i + 1];
      i := i + 1;
    }
    assert full[..i] == full;
    if size > 0 { buffer[sink.p] := '\0'; }
    length := sink.length;
  }

  // Zero-padded octal numbers, as ustar headers use them.

  /** Digit `i` of `v` from the right, zero beyond those printed. */
  ghost predicate SameDigit(r: string, v: nat, n: nat, i: nat)
    requires i < n
  {
    (if i < |r| then r[i] else '0') as int == Ustar.Octal(v, n)[n - 1 - i] as int
  }

  lemma {:induction false} OctalPrinted(v: nat, n: nat, d: nat)
    requires v < Ustar.Pow8(n)
    ensures var r := RevDigits(v, BaseO(), false, d); |r| <= n && forall i: nat :: i < n ==> SameDigit(r, v, n, i)
    decreases n
  {
    hide Ustar.Octal;
    if v > 0 {
      var r := RevDigits(v / 8, BaseO(), false, d + 1);
      var c := "01234567"[v % 8];
      OctalPrinted(v / 8, n - 1, d + 1);
      assert RevDigits(v, BaseO(), false, d) == "" + [c] + r == [c] + r;
      assert c as int == 48 + v % 8;
      OctalLast(v, n);
      forall i: nat | i < n ensures SameDigit([c] + r, v, n, i) {
        if i > 0 { assert SameDigit(r, v / 8, n - 1, i - 1); }
      }
    } else {
      OctalZeros(n);
    }
  }

  lemma OctalLast(v: nat, n: nat)
    requires n > 0
    ensures Ustar.Octal(v, n)[n - 1] as int == 48 + v % 8 && Ustar.Octal(v, n)[..n - 1] == Ustar.Octal(v / 8, n - 1)
  {
  }

  lemma {:induction false} OctalZeros(n: nat)
    ensures forall i :: 0 <= i < n ==> Ustar.Octal(0, n)[i] == 48
  {
    if n > 0 { OctalZeros(n - 1); }
  }

  function ZeroPadded(n: nat): Conversion { Conversion(false, false, false, false, true, false, n, -1) }

  /** "%0no" of a number with at most `n` octal digits prints exactly its `n` low digits. */
  lemma PrintfOctal(v: nat, n: nat)
    requires 0 < n && v < Ustar.Pow8(n)
    ensures var s := Formatted(v, false, false, BaseO(), ZeroPadded(n));
            |s| == n && forall j :: 0 <= j < n ==> s[j] as int == Ustar.Octal(v, n)[j] as int
  {
    hide RevDigits, Reversed, Ustar.Octal, Ustar.Pow8;
    OctalPrinted(v, n, 0);
    var r := RevDigits(v, BaseO(), false, 0);
    var t := WithZeros(r, BaseO(), ZeroPadded(n));
    assert t == if r == "" then "0" else r by {
      assert r == "" ==> r + Repeat('0', 1) == "0";
      assert r != "" ==> r + "" == r;
    }
    var s := Repeat('0', n - |t|) + Reversed(t);
    assert Formatted(v, false, false, BaseO(), ZeroPadded(n)) == s by { ZeroPaddedIs(v, n); }
    forall j | 0 <= j < n ensures s[j] as int == Ustar.Octal(v, n)[j] as int {
      var i := n - 1 - j;
      assert SameDigit(r, v, n, i) && n - 1 - i == j;
    }
  }

  lemma ZeroPaddedIs(v: nat, n: nat)
    ensures var t := WithZeros(RevDigits(v, BaseO(), false, 0), BaseO(), ZeroPadded(n));
            Formatted(v, false, false, BaseO(), ZeroPadded(n)) == Repeat('0', n - |t|) + Reversed(t)
  {
    hide RevDigits, Reversed, WithZeros, Repeat;
    var t := WithZeros(RevDigits(v, BaseO(), false, 0), BaseO(), ZeroPadded(n));
    var z, r := Repeat('0', n - |t|), Reversed(t);
    assert "" + "" + "" + z + r + "" == z + r;
  }
}
