/** The size line of a chunk: `sscanf("%x")` on the text before the line end, and hexadecimal
    numerals (section 7.1 of RFC 9112) as the independent notion it is compared with. */
module SizeLine {
  import opened Bytes
  import opened Wrappers

  const TWO_32 := 0x1_0000_0000
  const TWO_64 := 0x1_0000_0000_0000_0000

  /** The blanks of the C locale. */
  predicate IsSpace(b: Byte)
    ensures IsSpace(b) <==> b in [9, 10, 11, 12, 13, 32]
  {
    b == 32 || 9 <= b <= 13
  }

  predicate IsHexDigit(b: Byte) {
    48 <= b <= 57 || 65 <= b <= 70 || 97 <= b <= 102
  }

  const LOWER: string := "0123456789abcdef"
  const UPPER: string := "0123456789ABCDEF"

  /** The place of a digit among the digits of its case. */
  function DigitValue(b: Byte): (v: nat)
    requires IsHexDigit(b)
    ensures v < 16 && (LOWER[v] as int == b || UPPER[v] as int == b)
  {
    if b <= 57 then b - 48 else if b <= 70 then b - 55 else b - 87
  }

  /** The value of a numeral, most significant digit first. */
  function HexValue(s: seq<Byte>): nat
    requires forall b :: b in s ==> IsHexDigit(b)
  {
    if s == [] then 0 else HexValue(s[..|s| - 1]) * 16 + DigitValue(s[|s| - 1])
  }

  function SkipSpaces(s: seq<Byte>): seq<Byte> {
    if s != [] && IsSpace(s[0]) then SkipSpaces(s[1..]) else s
  }

  /** The longest run of hexadecimal digits at the front. */
  function DigitRun(s: seq<Byte>): (r: seq<Byte>)
    ensures r <= s && forall b :: b in r ==> IsHexDigit(b)
  {
    if s != [] && IsHexDigit(s[0]) then [s[0]] + DigitRun(s[1..]) else []
  }

  predicate HasPrefix0x(s: seq<Byte>) {
    |s| >= 2 && s[0] == 48 && (s[1] == 120 || s[1] == 88)
  }

  /** The C library's conversion to `unsigned int`: a 64-bit value that saturates, negated if a minus
      sign came first, and cut to 32 bits. */
  function ToUnsigned(v: nat, negative: bool): nat {
    var w := if v >= TWO_64 then TWO_64 - 1 else v;
    if v < TWO_64 && negative then (TWO_64 - w) % TWO_32 else w % TWO_32
  }

  /** An optional 0x, then digits. */
  function ScanDigits(s: seq<Byte>, negative: bool): (r: Option<nat>)
    ensures r.Some? ==> r.value < TWO_32
  {
    var prefixed := HasPrefix0x(s);
    var digits := DigitRun(if prefixed then s[2..] else s);
    if digits == [] && !prefixed then None else Some(ToUnsigned(HexValue(digits), negative))
  }

  /** `sscanf(text, "%x", &n)`: spaces, an optional sign, an optional 0x, then digits. */
  function ScanHex(text: seq<Byte>): (r: Option<nat>)
    ensures r.Some? ==> r.value < TWO_32
  {
    var s := SkipSpaces(text);
    var signed := s != [] && (s[0] == 43 || s[0] == 45);
    ScanDigits(if signed then s[1..] else s, signed && s[0] == 45)
  }

  // ---------------------------------------------------------------- numerals

  predicate IsNumeral(s: seq<Byte>) {
    s != [] && forall b :: b in s ==> IsHexDigit(b)
  }

  lemma SmallUnsigned(v: nat)
    requires v < TWO_32
    ensures ToUnsigned(v, false) == v
  {
  }

  function HexDigit(v: nat, upper: bool): (b: Byte)
    requires v < 16
    ensures IsHexDigit(b) && DigitValue(b) == v && b == (if upper then UPPER else LOWER)[v] as int
  {
    if v < 10 then 48 + v else if upper then 55 + v else 87 + v
  }

  /** The canonical numeral of a number, as a sender would write it in digits of either case. */
  function HexNumeral(n: nat, upper: bool): (s: seq<Byte>)
    ensures IsNumeral(s) && HexValue(s) == n
  {
    if n < 16 then
      var s := [HexDigit(n, upper)];
      assert s[..0] == [] && HexValue(s[..0]) == 0;
      s
    else
      var hi := HexNumeral(n / 16, upper);
      var s := hi + [HexDigit(n % 16, upper)];
      assert s[..|s| - 1] == hi;
      s
  }

  lemma {:induction false} HexNumeralLength(n: nat, upper: bool, k: nat)
    requires n < Pow16(k) && k >= 1
    ensures |HexNumeral(n, upper)| <= k
    decreases n
  {
    if n >= 16 {
      HexNumeralLength(n / 16, upper, k - 1);
    }
  }

  function Pow16(k: nat): nat {
    if k == 0 then 1 else 16 * Pow16(k - 1)
  }

  // ---------------------------------------------------------------- everything sscanf reads

  lemma {:induction false} DigitRunStops(digits: seq<Byte>, rest: seq<Byte>)
    requires forall b :: b in digits ==> IsHexDigit(b)
    requires rest == [] || !IsHexDigit(rest[0])
    ensures DigitRun(digits + rest) == digits
  {
    if digits == [] {
      assert digits + rest == rest;
    } else {
      assert (digits + rest)[0] == digits[0] && digits[0] in digits;
      assert (digits + rest)[1..] == digits[1..] + rest;
      DigitRunStops(digits[1..], rest);
    }
  }

  lemma {:induction false} SpacesSkipped(spaces: seq<Byte>, s: seq<Byte>)
    requires (forall b :: b in spaces ==> IsSpace(b)) && (s == [] || !IsSpace(s[0]))
    ensures SkipSpaces(spaces + s) == s
  {
    if spaces == [] {
      assert spaces + s == s;
    } else {
      assert (spaces + s)[0] == spaces[0] && spaces[0] in spaces;
      assert (spaces + s)[1..] == spaces[1..] + s;
      SpacesSkipped(spaces[1..], s);
    }
  }

  /** The optional parts before the digits: a sign, and 0x or 0X. */
  predicate SignOk(sign: string) {
    sign == "" || sign == "+" || sign == "-"
  }

  predicate PrefixOk(prefix: string) {
    prefix == "" || prefix == "0x" || prefix == "0X"
  }

  /** The 32-bit pattern of a number, and all ones for one that 64 bits do not hold. */
  function In32Bits(v: nat, negative: bool): nat {
    var signed: int := if negative then 0 - v else v;
    if v >= 0x1_0000_0000_0000_0000 then 0xffff_ffff else signed % 0x1_0000_0000
  }

  /** `sscanf` skips spaces, and reads a sign, a prefix and all the digits that follow; it stops at what
      is not a digit. The value is that of the digits, negated after a minus, modulo 2^32; one that does not fit
      64 bits is all ones. */
  lemma ScanHexForms(spaces: seq<Byte>, sign: string, prefix: string, digits: seq<Byte>, rest: seq<Byte>)
    requires (forall b :: b in spaces ==> IsSpace(b)) && SignOk(sign) && PrefixOk(prefix)
    requires IsNumeral(digits) && (rest == [] || !IsHexDigit(rest[0]))
    requires prefix == "" ==> !HasPrefix0x(digits + rest)
    ensures ScanHex(spaces + (Ascii(sign) + (Ascii(prefix) + (digits + rest))))
         == Some(In32Bits(HexValue(digits), sign == "-"))
  {
    hide HexValue, ScanDigits;
    var prefixed := Ascii(prefix) + (digits + rest);
    PrefixScanned(prefix, digits, rest, sign == "-");
    SignScanned(spaces, sign, prefixed);
    hide ScanHex;
  }

  lemma SignScanned(spaces: seq<Byte>, sign: string, s: seq<Byte>)
    requires (forall b :: b in spaces ==> IsSpace(b)) && SignOk(sign)
    requires s == [] || (!IsSpace(s[0]) && (sign == "" ==> s[0] != 43 && s[0] != 45))
    ensures ScanHex(spaces + (Ascii(sign) + s)) == ScanDigits(s, sign == "-")
  {
    hide ScanDigits;
    var signed := Ascii(sign) + s;
    SpacesSkipped(spaces, signed);
    hide SkipSpaces;
    if sign == "" {
      assert signed == s;
    } else {
      assert signed[1..] == s;
    }
  }

  lemma PrefixScanned(prefix: string, digits: seq<Byte>, rest: seq<Byte>, negative: bool)
    requires PrefixOk(prefix) && IsNumeral(digits)
    requires rest == [] || !IsHexDigit(rest[0])
    requires prefix == "" ==> !HasPrefix0x(digits + rest)
    ensures var s := Ascii(prefix) + (digits + rest);
      && ScanDigits(s, negative) == Some(In32Bits(HexValue(digits), negative))
      && s != [] && IsHexDigit(s[0])
  {
    hide HexValue, DigitRun, ToUnsigned, HasPrefix0x;
    var body := digits + rest;
    assert body[0] == digits[0] && digits[0] in digits;
    DigitRunStops(digits, rest);
    PrefixSkipped(prefix, body);
    ToUnsignedMeans(HexValue(digits), negative);
  }

  lemma PrefixSkipped(prefix: string, body: seq<Byte>)
    requires PrefixOk(prefix)
    ensures var s := Ascii(prefix) + body;
      if prefix == "" then s == body else HasPrefix0x(s) && s[2..] == body && IsHexDigit(s[0])
  {
  }

  lemma ToUnsignedMeans(v: nat, negative: bool)
    ensures ToUnsigned(v, negative) == In32Bits(v, negative)
  {
  }

  /** Without a digit or a prefix there is no number. */
  lemma ScanHexRefuses(spaces: seq<Byte>, sign: string, rest: seq<Byte>)
    requires (forall b :: b in spaces ==> IsSpace(b)) && SignOk(sign)
    requires rest == [] || (!IsHexDigit(rest[0]) && !IsSpace(rest[0]))
    requires rest != [] && sign == "" ==> rest[0] != 43 && rest[0] != 45
    ensures ScanHex(spaces + (Ascii(sign) + rest)) == None
  {
    SignScanned(spaces, sign, rest);
  }
}
