/**
  Integer text as the C library prints and reads it: `%d`, `%u`, `%x` and
  `%02x` on the way out, and `strtol`/`strtoul` (which the integer
  conversions of `sscanf` use) on the way in, including their whitespace
  skipping, optional sign, optional `0x` prefix and saturation on overflow.
 */
module Numerals {
  import opened Wrappers
  import opened ByteOrder

  datatype Radix = Decimal | Hexadecimal

  function Base(r: Radix): nat
  {
    if r == Decimal then 10 else 16
  }

  /** A digit of the radix; hexadecimal digits may be in either case. */
  predicate IsDigit(c: char, r: Radix)
  {
    ('0' <= c <= '9') || (r == Hexadecimal && (('a' <= c <= 'f') || ('A' <= c <= 'F')))
  }

  predicate AllDigits(s: string, r: Radix)
  {
    forall i :: 0 <= i < |s| ==> IsDigit(s[i], r)
  }

  function DigitValue(c: char, r: Radix): (d: nat)
    requires IsDigit(c, r)
    ensures d < Base(r)
  {
    if '0' <= c <= '9' then c as int - '0' as int
    else if 'a' <= c <= 'f' then c as int - 'a' as int + 10
    else c as int - 'A' as int + 10
  }

  /** The digit printed for `d`: lower case, as `%x` prints it. */
  function DigitChar(d: nat, r: Radix): (c: char)
    requires d < Base(r)
    ensures IsDigit(c, r) && DigitValue(c, r) == d
  {
    if d < 10 then ('0' as int + d) as char else ('a' as int + d - 10) as char
  }

  /** `%u` (`%lu`) and `%x`: the digits of `n`, most significant first, without leading zeros. */
  function Numeral(n: nat, r: Radix): (s: string)
    ensures |s| > 0 && AllDigits(s, r)
    ensures s[0] == '0' ==> n == 0
    decreases n
  {
    if n < Base(r) then [DigitChar(n, r)]
    else Numeral(n / Base(r), r) + [DigitChar(n % Base(r), r)]
  }

  /** The number a run of digits denotes. */
  function ValueOf(s: string, r: Radix): nat
    requires AllDigits(s, r)
  {
    if |s| == 0 then 0 else ValueOf(s[..|s| - 1], r) * Base(r) + DigitValue(s[|s| - 1], r)
  }

  /** Reading a printed numeral gives back the number. */
  lemma {:induction false} ValueOfNumeral(n: nat, r: Radix)
    ensures ValueOf(Numeral(n, r), r) == n
    decreases n
  {
    var s := Numeral(n, r);
    if n >= Base(r) {
      assert s[..|s| - 1] == Numeral(n / Base(r), r);
      ValueOfNumeral(n / Base(r), r);
    }
  }

  /** The length of the run of digits `s` starts with. */
  function DigitRun(s: string, r: Radix): (k: nat)
    ensures k <= |s| && AllDigits(s[..k], r)
    ensures k < |s| ==> !IsDigit(s[k], r)
  {
    if |s| == 0 || !IsDigit(s[0], r) then 0
    else
      var k := 1 + DigitRun(s[1..], r);
      assert forall i :: 1 <= i < k ==> s[..k][i] == s[1..][..k - 1][i - 1];
      k
  }

  /** Text that ends a numeral of radix `r`: nothing, or a character that cannot continue it. */
  predicate Stops(rest: string, r: Radix)
  {
    |rest| == 0 || !IsDigit(rest[0], r)
  }

  /** A printed numeral followed by a stop is read as a run of exactly its own digits. */
  lemma DigitRunOfNumeral(n: nat, r: Radix, rest: string)
    requires Stops(rest, r)
    ensures DigitRun(Numeral(n, r) + rest, r) == |Numeral(n, r)|
    ensures (Numeral(n, r) + rest)[..|Numeral(n, r)|] == Numeral(n, r)
  {
    var m := Numeral(n, r);
    var s := m + rest;
    assert s[..|m|] == m;
  }

  // ---------------------------------------------------------------------
  // Printing

  const Two31: nat := 0x8000_0000

  /** The `int32_t` a `uint32_t` bit pattern stands for. */
  function Signed(v: U32): (x: int)
    ensures -(Two31 as int) <= x < Two31
  {
    if v as nat >= Two31 then v as int - Two32 else v as int
  }

  /** `%d` of an `int32_t`: a minus sign and the magnitude for negative values. */
  function FormatSigned(v: U32): string
  {
    var x := Signed(v);
    if x < 0 then "-" + Numeral(-x, Decimal) else Numeral(x, Decimal)
  }

  /** `%02x` of a byte: two lower-case hexadecimal digits. */
  function FormatByte(b: Byte): (s: string)
    ensures |s| == 2 && AllDigits(s, Hexadecimal)
  {
    if b < 16 then "0" + Numeral(b as nat, Hexadecimal)
    else
      assert Numeral(b as nat / 16, Hexadecimal) == [DigitChar(b as nat / 16, Hexadecimal)];
      Numeral(b as nat, Hexadecimal)
  }

  // ---------------------------------------------------------------------
  // Reading: the integer syntax of `strtol`, `strtoul` and `sscanf`

  /** `isspace` in the C locale: blank, tab, newline, vertical tab, form feed, carriage return. */
  predicate IsSpace(c: char)
  {
    c == ' ' || 9 <= c as int <= 13
  }

  /** The text after the leading white space. */
  function SkipSpace(s: string): (t: string)
    ensures |t| <= |s| && t == s[|s| - |t|..]
    ensures |t| > 0 ==> !IsSpace(t[0])
    ensures forall i :: 0 <= i < |s| - |t| ==> IsSpace(s[i])
  {
    if |s| > 0 && IsSpace(s[0]) then
      var t := SkipSpace(s[1..]);
      assert forall i :: 1 <= i < |s| - |t| ==> s[i] == s[1..][i - 1];
      t
    else s
  }

  /** The sign and digits an integer conversion reads. */
  datatype Number = Number(negative: bool, magnitude: nat)

  /** Text left after an optional sign. */
  function Unsigned(t: string): string
  {
    if |t| > 0 && (t[0] == '-' || t[0] == '+') then t[1..] else t
  }

  /** A `0x` or `0X` prefix is dropped in base 16 when a hexadecimal digit follows it. */
  function Unprefixed(u: string, r: Radix): string
  {
    if r == Hexadecimal && |u| >= 3 && u[0] == '0' && (u[1] == 'x' || u[1] == 'X') && IsDigit(u[2], Hexadecimal)
    then u[2..] else u
  }

  /**
    The number at the start of `s`: white space, an optional sign, in base 16
    an optional `0x`, then the longest run of digits.  No digits, no number.
   */
  function ParseNumber(s: string, r: Radix): (n: Option<Number>)
    ensures n.Some? ==> n.value.negative == (|SkipSpace(s)| > 0 && SkipSpace(s)[0] == '-')
  {
    var t := SkipSpace(s);
    var v := Unprefixed(Unsigned(t), r);
    var k := DigitRun(v, r);
    if k == 0 then None else Some(Number(|t| > 0 && t[0] == '-', ValueOf(v[..k], r)))
  }

  /** A non-negative numeral printed in radix `r` is read back (base 16 may not continue it with an `x`). */
  lemma ParseNumeral(n: nat, r: Radix, rest: string)
    requires Stops(rest, r)
    requires r == Hexadecimal && n == 0 ==> |rest| == 0 || (rest[0] != 'x' && rest[0] != 'X')
    ensures ParseNumber(Numeral(n, r) + rest, r) == Some(Number(false, n))
  {
    var m := Numeral(n, r);
    var s := m + rest;
    assert s[0] == m[0] && IsDigit(m[0], r);
    NotPrefixed(n, r, rest);
    DigitRunOfNumeral(n, r, rest);
    ParseDigits(s, r);
    ValueOfNumeral(n, r);
  }

  /** Text that starts with a digit and carries no `0x` prefix is read as its leading run of digits. */
  lemma ParseDigits(s: string, r: Radix)
    requires |s| > 0 && IsDigit(s[0], r) && Unprefixed(s, r) == s
    ensures ParseNumber(s, r) == Some(Number(false, ValueOf(s[..DigitRun(s, r)], r)))
  {
    NonBlankStart(s);
    var v := Unprefixed(Unsigned(SkipSpace(s)), r);
    assert v == s;
  }

  /** Two digits are read as a run of two. */
  lemma TwoDigitRun(s: string, r: Radix)
    requires |s| == 2 && IsDigit(s[0], r) && IsDigit(s[1], r)
    ensures DigitRun(s, r) == 2
  {
    assert s[1..][1..] == [];
  }

  /** The value of two digits. */
  lemma TwoDigitValue(s: string, r: Radix)
    requires |s| == 2 && IsDigit(s[0], r) && IsDigit(s[1], r)
    ensures ValueOf(s[..2], r) == DigitValue(s[0], r) * Base(r) + DigitValue(s[1], r)
  {
    assert s[..2] == s;
    assert ValueOf(s[..1], r) == DigitValue(s[0], r) by {
      assert s[..1][..0] == [];
    }
  }

  /** Text that starts with a non-blank character has no leading white space. */
  lemma NonBlankStart(s: string)
    requires |s| > 0 && !IsSpace(s[0])
    ensures SkipSpace(s) == s
  {
  }

  /** Only a zero numeral starts with `0`, so a printed numeral carries no `0x` prefix unless the text after it starts with `x`. */
  lemma NotPrefixed(n: nat, r: Radix, rest: string)
    requires r == Hexadecimal && n == 0 ==> |rest| == 0 || (rest[0] != 'x' && rest[0] != 'X')
    ensures Unprefixed(Numeral(n, r) + rest, r) == Numeral(n, r) + rest
  {
    var m := Numeral(n, r);
    var s := m + rest;
    if r == Hexadecimal && m[0] == '0' {
      assert m == [DigitChar(0, r)];
      if |rest| > 0 {
        assert s[1] == rest[0];
      }
    }
  }

  /** A numeral printed after a minus sign is read back as negative. */
  lemma ParseNegativeNumeral(n: nat, rest: string)
    requires Stops(rest, Decimal)
    ensures ParseNumber("-" + Numeral(n, Decimal) + rest, Decimal) == Some(Number(true, n))
  {
    var m := Numeral(n, Decimal);
    var s := "-" + m + rest;
    assert s[1..] == m + rest && s[1] == m[0];
    ParseNegativeDigits(s);
    DigitRunOfNumeral(n, Decimal, rest);
    ValueOfNumeral(n, Decimal);
  }

  /** A minus sign followed by digits is read as the negated run of digits. */
  lemma ParseNegativeDigits(s: string)
    requires |s| > 1 && s[0] == '-' && IsDigit(s[1], Decimal)
    ensures var u := s[1..];
      ParseNumber(s, Decimal) == Some(Number(true, ValueOf(u[..DigitRun(u, Decimal)], Decimal)))
  {
    NonBlankStart(s);
    var v := Unprefixed(Unsigned(SkipSpace(s)), Decimal);
    assert v == s[1..];
  }

  const Two63: nat := 0x8000_0000_0000_0000

  /** `strtol` on a 64-bit `long`: the signed value, saturated at `LONG_MIN` and `LONG_MAX`. */
  function Long(x: Number): (v: int)
    ensures -(Two63 as int) <= v < Two63
    ensures (if x.negative then -(x.magnitude as int) else x.magnitude as int) == v
      <==> (if x.negative then x.magnitude <= Two63 else x.magnitude < Two63)
  {
    if x.negative then (if x.magnitude > Two63 then -(Two63 as int) else -(x.magnitude as int))
    else (if x.magnitude >= Two63 then Two63 - 1 else x.magnitude)
  }

  /**
    `strtoul` on a 64-bit `unsigned long`: `ULONG_MAX` when the magnitude does
    not fit, otherwise the magnitude, negated modulo 2^64 after a minus sign.
   */
  function ULong(x: Number): (v: nat)
    ensures v < Two64
    ensures x.magnitude < Two64 && !x.negative ==> v == x.magnitude
  {
    if x.magnitude >= Two64 then Two64 - 1
    else if x.negative then (Two64 - x.magnitude) % Two64
    else x.magnitude
  }

  /** `%d` into an `int`: the `long` value cut to its low 32 bits. */
  function Int32Bits(x: Number): U32
  {
    (Long(x) % Two32) as U32
  }

  /** `%u` and `%x` into an `unsigned int`: the `unsigned long` value cut to its low 32 bits. */
  function UInt32Bits(x: Number): U32
  {
    (ULong(x) % Two32) as U32
  }

  /** Printing an `int32_t` with `%d` and reading it with `%d` gives back its bits. */
  lemma SignedRoundTrip(v: U32, rest: string)
    requires Stops(rest, Decimal)
    ensures var n := ParseNumber(FormatSigned(v) + rest, Decimal);
      n.Some? && Int32Bits(n.value) == v
  {
    ParseFormatSigned(v, rest);
    SignedBits(v);
  }

  /** `%d` of an `int32_t` is read back as its sign and magnitude. */
  lemma ParseFormatSigned(v: U32, rest: string)
    requires Stops(rest, Decimal)
    ensures var x := Signed(v);
      ParseNumber(FormatSigned(v) + rest, Decimal) == Some(Number(x < 0, if x < 0 then -x else x))
  {
    var x := Signed(v);
    if x < 0 {
      ParseNegativeNumeral(-x, rest);
    } else {
      ParseNumeral(x, Decimal, rest);
    }
  }

  /** The sign and magnitude of an `int32_t` convert back to its bits. */
  lemma SignedBits(v: U32)
    ensures var x := Signed(v);
      Int32Bits(Number(x < 0, if x < 0 then -x else x)) == v
  {
    var x := Signed(v);
    assert Long(Number(x < 0, if x < 0 then -x else x)) == x;
    assert x % Two32 == v as int;
  }

  /** Printing an unsigned value below 2^64 and reading it with `strtoul` gives it back. */
  lemma UnsignedRoundTrip(v: nat, r: Radix, rest: string)
    requires v < Two64 && Stops(rest, r)
    requires r == Hexadecimal && v == 0 ==> |rest| == 0 || (rest[0] != 'x' && rest[0] != 'X')
    ensures var n := ParseNumber(Numeral(v, r) + rest, r);
      n.Some? && ULong(n.value) == v && UInt32Bits(n.value) as nat == v % Two32
  {
    ParseNumeral(v, r, rest);
  }
}
