/**
  One packed field as a line of text.  `dump_block_<type>` prints each field
  as `<name>:<value>` with a format chosen by the field's kind, and
  `make_node_<type>` reads it back with `read_parameter` and the matching
  `sscanf` conversion, then applies the kind's post-processing: timestamps
  move from the 1970 epoch to the 1904 one, and codes read with `%4s` are
  byte-order corrected.
 */
module FieldText {
  import opened Wrappers
  import opened ByteOrder
  import opened Registry
  import opened LeafFixup
  import opened Encoder
  import opened Numerals
  import opened Scan
  import opened TextStream
  import opened Parameters

  /** Seconds from 1904-01-01 00:00:00 (the file's epoch) to 1970-01-01 00:00:00 (the C library's). */
  const MacEpochOffset: nat := 2082844800

  function Zeros(n: nat): (r: seq<Byte>)
    ensures |r| == n && forall i :: 0 <= i < n ==> r[i] == 0
  {
    seq(n, _ => 0)
  }

  /** The length of the NUL-terminated string a char array holds. */
  function NulLength(b: seq<Byte>): (r: nat)
    ensures r <= |b|
    ensures forall i :: 0 <= i < r ==> b[i] != 0
    ensures r < |b| ==> b[r] == 0
  {
    if |b| == 0 || b[0] == 0 then 0 else 1 + NulLength(b[1..])
  }

  /** Bytes printed as characters. */
  function ByteChars(b: seq<Byte>): (s: string)
    ensures |s| == |b|
    ensures forall i :: 0 <= i < |b| ==> s[i] == ByteChar(b[i])
    ensures CharBytes(s) == b
  {
    seq(|b|, i requires 0 <= i < |b| => ByteChar(b[i]))
  }

  /** `%s` (and `%.*s` with the array's length) of a char array: the characters before the first NUL. */
  function CString(b: seq<Byte>): string
  {
    ByteChars(b[..NulLength(b)])
  }

  /** A 4-byte host number as a `uint32_t`. */
  function HostWord(field: seq<Byte>, little: bool): (r: U32)
    requires |field| == 4
    ensures r as nat == HostValue(field, little)
  {
    FixupWritesHostValue(field, little);
    BEBound(EndianFixup(field, little));
    Pow256Widths();
    HostValue(field, little) as U32
  }

  /** The first `n` characters of `s`, or all of it (`%.<n>s`). */
  function Prefix(s: string, n: nat): (r: string)
    ensures |r| <= n && |r| <= |s| && r == s[..|r|]
  {
    if |s| <= n then s else s[..n]
  }

  /** The conversion `make` reads each kind with. */
  function ConversionOf(k: FieldKind): Conversion
  {
    match k
    case FourccChars => Chars(4)
    case FourccString => Str(4)
    case Signed32 => Signed
    case Unsigned32 => Unsigned
    case Hex32 => Hex
    case Real64(_) => Real
    case Text(n) => Chars(n)
    case Timestamp => Unsigned
    case Float32 => Real
  }

  /**
    The value text `dump` prints after the label of a field held in host
    memory; none for a timestamp of zero, whose line is left out.  Codes go
    through `strkey` (byte-order corrected, cut at a NUL), char arrays are cut
    at their first NUL, timestamps are shown as seconds since 1970 followed
    by the `ctime` text.
   */
  function DumpValue(k: FieldKind, field: seq<Byte>, little: bool, libc: Libc): (r: Option<string>)
    requires |field| == Width(k) && !k.Float32?
    ensures r.None? <==> k.Timestamp? && HostValue(field, little) == 0
  {
    match k
    case FourccChars => Some(CString(EndianFixup(field, little)))
    case FourccString => Some(CString(EndianFixup(field, little)))
    case Signed32 => Some(FormatSigned(HostWord(field, little)))
    case Unsigned32 => Some(Numeral(HostValue(field, little), Decimal))
    case Hex32 => Some(Numeral(HostValue(field, little), Hexadecimal))
    case Real64(p) => Some(libc.formatReal(p, HostValue(field, little)))
    case Text(_) => Some(CString(field))
    case Timestamp =>
      var v := HostValue(field, little);
      if v == 0 then None
      else
        var t: int := v - MacEpochOffset;
        Some(Numeral(t % Two64, Decimal) + " (NB: seconds since 1970) (" + Prefix(libc.ctime(t), 24) + ")")
  }

  /** The field's line, if it has one. */
  function FieldLines(k: FieldKind, name: string, field: seq<Byte>, little: bool, libc: Libc): (r: seq<string>)
    requires |field| == Width(k) && !k.Float32?
    ensures |r| <= 1
    ensures |r| == 1 ==> |name| + 1 <= |r[0]| && r[0][..|name| + 1] == name + ":"
  {
    match DumpValue(k, field, little, libc)
    case None => []
    case Some(v) =>
      assert (name + ":" + v)[..|name| + 1] == name + ":";
      [name + ":" + v]
  }

  /** `sscanf` storing `image` over the start of the field (bytes past the field are not modelled). */
  function Overlay(field: seq<Byte>, image: seq<Byte>): (r: seq<Byte>)
    ensures |r| == |field|
  {
    var m := Min(|image|, |field|);
    image[..m] + field[m..]
  }

  /** The field after `read_parameter` stored `image` (if anything) and `make` post-processed it. */
  function Stored(k: FieldKind, field: seq<Byte>, image: Option<seq<Byte>>, little: bool): (r: seq<Byte>)
    requires |field| == Width(k)
    ensures |r| == |field|
  {
    var w := if image.Some? then Overlay(field, image.value) else field;
    match k
    case Timestamp => HostBytes((HostValue(w, little) + MacEpochOffset) % Two32, 4, little)
    case FourccString => EndianFixup(w, little)
    case _ => w
  }

  // ---------------------------------------------------------------------
  // One field there and back

  /** A char array or code holds a string and then only NULs. */
  predicate NulPadded(b: seq<Byte>)
  {
    forall j :: NulLength(b) <= j < |b| ==> b[j] == 0
  }

  /**
    The wire fields whose text survives being read back: codes and char
    arrays that are a string padded with NULs, with no newline (nor, for
    `%4s`, white space) in it; doubles whose printed form `%lf` reads back to
    the same double; timestamps other than zero, which are not printed.
   */
  predicate Printable(k: FieldKind, wire: seq<Byte>, libc: Libc)
  {
    match k
    case FourccChars => NulPadded(wire) && forall i :: 0 <= i < |wire| ==> wire[i] != 10
    case Text(_) => NulPadded(wire) && forall i :: 0 <= i < |wire| ==> wire[i] != 10
    case FourccString => NulPadded(wire) && forall i :: 0 <= i < |wire| ==> wire[i] == 0 || !IsSpace(ByteChar(wire[i]))
    case Real64(p) =>
      var t := SkipSpace(libc.formatReal(p, BE(wire)));
      |t| > 0 && libc.scanReal(t) == Some(BE(wire))
    case Timestamp => BE(wire) != 0
    case _ => true
  }

  /** What `sscanf` stored, if anything. */
  function Image(s: Scanned): Option<seq<Byte>>
  {
    if s.Converted? then Some(s.image) else None
  }

  /**
    The value text read back with the kind's conversion is not a mismatch,
    and the field it stores, written out again, is `wire`.
   */
  predicate ValueReadsBack(k: FieldKind, value: string, wire: seq<Byte>, little: bool, libc: Libc)
    requires |wire| == Width(k)
  {
    var s := Convert(value, ConversionOf(k), little, libc);
    !s.MatchFailure? &&
    Corrected(k, Stored(k, Zeros(Width(k)), Image(s), little), little, SwappedWhenWritten) == wire
  }

  /** What a field's own line gives the search for it: not passed over, and the value it stores. */
  predicate ReadsBack(k: FieldKind, name: string, value: string, wire: seq<Byte>, little: bool, libc: Libc)
    requires |wire| == Width(k)
  {
    var line := name + ":" + value;
    var tag := name + ":";
    !Skipped(line, tag, ConversionOf(k), little, libc) &&
    Verdict(line, tag, ConversionOf(k), little, libc).Found? &&
    Corrected(k, Stored(k, Zeros(Width(k)), Verdict(line, tag, ConversionOf(k), little, libc).image, little), little, SwappedWhenWritten) == wire
  }

  /** The line is its label and the value text, so the search sees the value's conversion. */
  lemma ReadsBackOfValue(k: FieldKind, name: string, value: string, wire: seq<Byte>, little: bool, libc: Libc)
    requires |wire| == Width(k) && ValueReadsBack(k, value, wire, little, libc)
    ensures ReadsBack(k, name, value, wire, little, libc)
  {
    var line := name + ":" + value;
    var tag := name + ":";
    assert line[..|tag|] == tag && line[|tag|..] == value;
  }

  /**
    A field read from the wire, dumped, read back into zeroed memory and
    written again comes out as it went in.
   */
  lemma FieldRoundTrip(k: FieldKind, name: string, wire: seq<Byte>, little: bool, libc: Libc)
    requires |wire| == Width(k) && !k.Float32? && Printable(k, wire, libc)
    ensures var v := DumpValue(k, Corrected(k, wire, little, SwappedWhenRead), little, libc);
      v.Some? && ReadsBack(k, name, v.value, wire, little, libc)
  {
    var h := Corrected(k, wire, little, SwappedWhenRead);
    ValueRoundTrip(k, wire, little, libc);
    ReadsBackOfValue(k, name, DumpValue(k, h, little, libc).value, wire, little, libc);
  }

  /** The value text of a field, read with the kind's conversion, gives the field back. */
  lemma ValueRoundTrip(k: FieldKind, wire: seq<Byte>, little: bool, libc: Libc)
    requires |wire| == Width(k) && !k.Float32? && Printable(k, wire, libc)
    ensures var v := DumpValue(k, Corrected(k, wire, little, SwappedWhenRead), little, libc);
      v.Some? && ValueReadsBack(k, v.value, wire, little, libc)
  {
    match k
    case Signed32 => SignedFieldRoundTrip(wire, little, libc);
    case Unsigned32 => UnsignedFieldRoundTrip(k, wire, little, libc);
    case Hex32 => UnsignedFieldRoundTrip(k, wire, little, libc);
    case Timestamp => TimestampRoundTrip(wire, little, libc);
    case Real64(_) => RealRoundTrip(k, wire, little, libc);
    case FourccChars => CharsRoundTrip(k, wire, little, libc);
    case Text(_) => CharsRoundTrip(k, wire, little, libc);
    case FourccString => StrRoundTrip(wire, little, libc);
  }

  /** A wire number read into memory with `endian_fixup` reads as its big-endian value. */
  lemma HostOfWire(k: FieldKind, wire: seq<Byte>, little: bool)
    requires |wire| == Width(k) && SwappedWhenRead(k) && Swappable(|wire|)
    ensures HostValue(Corrected(k, wire, little, SwappedWhenRead), little) == BE(wire)
  {
    FixupReadsBigEndian(wire, little);
  }

  /** A wire number stored in host order and written with `endian_fixup` comes out as it was. */
  lemma WireOfHost(k: FieldKind, wire: seq<Byte>, little: bool)
    requires SwappedWhenWritten(k) && Swappable(Width(k)) && |wire| == Width(k)
    ensures BE(wire) < Pow256(Width(k))
    ensures Corrected(k, HostBytes(BE(wire), Width(k), little), little, SwappedWhenWritten) == wire
  {
    BEBound(wire);
    FixupWritesBigEndian(BE(wire), Width(k), little);
    BEBytesOfBE(wire);
  }

  /** A field other than a timestamp or a `%4s` code keeps the bytes stored over its whole width. */
  lemma StoredWhole(k: FieldKind, image: seq<Byte>, little: bool)
    requires |image| == Width(k) && !k.Timestamp? && !k.FourccString?
    ensures Stored(k, Zeros(Width(k)), Some(image), little) == image
  {
    assert Overlay(Zeros(Width(k)), image) == image;
  }

  /** `%d` reads back what `%d` printed. */
  lemma SignedConverts(x: U32, little: bool, libc: Libc)
    ensures Convert(FormatSigned(x), Signed, little, libc) == Converted(HostBytes(x as nat, 4, little))
  {
    var v := FormatSigned(x);
    assert v + "" == v;
    SignedRoundTrip(x, "");
    var y := ParseNumber(v, Decimal).value;
    assert v[0] == '-' || IsDigit(v[0], Decimal);
    IntegerConverts(v, Signed, y, little, libc);
  }

  /** `%u` and `%x` read back a numeral printed in their radix, cut to 32 bits. */
  lemma NumeralConverts(n: nat, conv: Conversion, rest: string, little: bool, libc: Libc)
    requires conv == Unsigned || conv == Hex
    requires n < Two64 && Stops(rest, RadixOf(conv)) && (|rest| == 0 || rest[0] == ' ')
    ensures Convert(Numeral(n, RadixOf(conv)) + rest, conv, little, libc) == Converted(HostBytes(n % Two32, 4, little))
  {
    var r := RadixOf(conv);
    var v := Numeral(n, r) + rest;
    UnsignedRoundTrip(n, r, rest);
    var y := ParseNumber(v, r).value;
    assert v[0] == Numeral(n, r)[0];
    IntegerConverts(v, conv, y, little, libc);
  }

  /** A value text the kind's conversion turns into `image`, when that image stored and written is `wire`. */
  lemma ConvertedReadsBack(k: FieldKind, value: string, image: seq<Byte>, wire: seq<Byte>, little: bool, libc: Libc)
    requires |wire| == Width(k)
    requires Convert(value, ConversionOf(k), little, libc) == Converted(image)
    requires Corrected(k, Stored(k, Zeros(Width(k)), Some(image), little), little, SwappedWhenWritten) == wire
    ensures ValueReadsBack(k, value, wire, little, libc)
  {
  }

  /** A number field held in host order, stored whole and written, is the wire field it was read from. */
  lemma NumberWrittenBack(k: FieldKind, wire: seq<Byte>, little: bool)
    requires (k.Signed32? || k.Unsigned32? || k.Hex32? || k.Real64?) && |wire| == Width(k)
    ensures BE(wire) < Pow256(Width(k))
    ensures Corrected(k, Stored(k, Zeros(Width(k)), Some(HostBytes(BE(wire), Width(k), little)), little), little, SwappedWhenWritten) == wire
  {
    WireOfHost(k, wire, little);
    StoredWhole(k, HostBytes(BE(wire), Width(k), little), little);
  }

  /** `%u` or `%x` reads a whole numeral below 2^32 as its own value. */
  lemma NumeralConvertsWhole(n: nat, conv: Conversion, little: bool, libc: Libc)
    requires conv == Unsigned || conv == Hex
    requires n < Two32
    ensures Convert(Numeral(n, RadixOf(conv)), conv, little, libc) == Converted(HostBytes(n, 4, little))
  {
    var m := n % Two32;
    assert m == n;
    var v := Numeral(n, RadixOf(conv));
    assert v + "" == v;
    Pow256Widths();
    NumeralConverts(n, conv, "", little, libc);
    assert Convert(v, conv, little, libc) == Converted(HostBytes(m, 4, little));
  }

  lemma SignedValueReadsBack(wire: seq<Byte>, h: seq<Byte>, x: U32, little: bool, libc: Libc)
    requires |wire| == 4 && h == Corrected(Signed32, wire, little, SwappedWhenRead)
    requires |h| == 4 && x == HostWord(h, little)
    ensures ValueReadsBack(Signed32, FormatSigned(x), wire, little, libc)
  {
    var n := BE(wire);
    assert x as nat == n by {
      HostOfWire(Signed32, wire, little);
    }
    assert n < Pow256(4) && Corrected(Signed32, Stored(Signed32, Zeros(4), Some(HostBytes(n, 4, little)), little), little, SwappedWhenWritten) == wire by {
      NumberWrittenBack(Signed32, wire, little);
    }
    assert Convert(FormatSigned(x), Signed, little, libc) == Converted(HostBytes(n, 4, little)) by {
      SignedConverts(x, little, libc);
    }
    ConvertedReadsBack(Signed32, FormatSigned(x), HostBytes(n, 4, little), wire, little, libc);
  }

  lemma SignedFieldRoundTrip(wire: seq<Byte>, little: bool, libc: Libc)
    requires |wire| == 4
    ensures var v := DumpValue(Signed32, Corrected(Signed32, wire, little, SwappedWhenRead), little, libc);
      v.Some? && ValueReadsBack(Signed32, v.value, wire, little, libc)
  {
    var h := Corrected(Signed32, wire, little, SwappedWhenRead);
    var x := HostWord(h, little);
    SignedValueReadsBack(wire, h, x, little, libc);
    assert DumpValue(Signed32, h, little, libc) == Some(FormatSigned(x));
  }

  lemma UnsignedFieldRoundTrip(k: FieldKind, wire: seq<Byte>, little: bool, libc: Libc)
    requires k == Unsigned32 || k == Hex32
    requires |wire| == 4
    ensures var v := DumpValue(k, Corrected(k, wire, little, SwappedWhenRead), little, libc);
      v.Some? && ValueReadsBack(k, v.value, wire, little, libc)
  {
    var h := Corrected(k, wire, little, SwappedWhenRead);
    HostOfWire(k, wire, little);
    var n := BE(wire);
    var conv := ConversionOf(k);
    var v := Numeral(n, RadixOf(conv));
    assert DumpValue(k, h, little, libc) == Some(v) by {
      if k == Unsigned32 {
        assert DumpValue(k, h, little, libc) == Some(Numeral(HostValue(h, little), Decimal));
      } else {
        assert DumpValue(k, h, little, libc) == Some(Numeral(HostValue(h, little), Hexadecimal));
      }
    }
    NumberWrittenBack(k, wire, little);
    Pow256Widths();
    NumeralConvertsWhole(n, conv, little, libc);
    ConvertedReadsBack(k, v, HostBytes(n, 4, little), wire, little, libc);
  }

  /** Moving to the 1970 epoch modulo 2^64 and back to the 1904 epoch modulo 2^32 loses nothing. */
  lemma EpochRoundTrip(t: nat)
    requires t < Two32
    ensures ((t - MacEpochOffset) % Two64 % Two32 + MacEpochOffset) % Two32 == t
  {
    var x: int := t - MacEpochOffset;
    if x < 0 {
      assert x % Two64 == x + Two64;
      assert (x + Two64) % Two32 == x + Two32;
    }
  }

  /** The host bytes `%u` stores for the printed 1970 time, moved back to 1904 by `make`, are those of the time. */
  lemma TimestampStored(t: nat, image: seq<Byte>, little: bool)
    requires 0 < t < Two32
    requires image == HostBytes((t - MacEpochOffset) % Two64 % Two32, 4, little)
    ensures Stored(Timestamp, Zeros(4), Some(image), little) == HostBytes(t, 4, little)
  {
    OverlayWhole(Zeros(4), image);
    EpochRoundTrip(t);
    Pow256Widths();
    StoredTimestamp(image, little);
  }

  /** Storing a whole field's worth of bytes replaces the field. */
  lemma OverlayWhole(field: seq<Byte>, image: seq<Byte>)
    requires |image| == |field|
    ensures Overlay(field, image) == image
  {
    assert image[..|image|] == image;
  }

  /** `make` moves a timestamp stored over the whole field from 1970 to 1904. */
  lemma StoredTimestamp(image: seq<Byte>, little: bool)
    requires |image| == 4
    ensures Stored(Timestamp, Zeros(4), Some(image), little) == HostBytes((HostValue(image, little) + MacEpochOffset) % Two32, 4, little)
  {
    OverlayWhole(Zeros(4), image);
  }

  /** The printed text of a nonzero 1904 time: seconds since 1970 and the `ctime` text. */
  function TimestampText(t: nat, libc: Libc): string
  {
    var x: int := t - MacEpochOffset;
    Numeral(x % Two64, Decimal) + " (NB: seconds since 1970) (" + Prefix(libc.ctime(x), 24) + ")"
  }

  /** `%u` reads the seconds since 1970 and stops at the blank after them. */
  lemma TimestampConverts(t: nat, little: bool, libc: Libc)
    ensures Convert(TimestampText(t, libc), Unsigned, little, libc)
      == Converted(HostBytes((t - MacEpochOffset) % Two64 % Two32, 4, little))
  {
    var x: int := t - MacEpochOffset;
    var rest := " (NB: seconds since 1970) (" + Prefix(libc.ctime(x), 24) + ")";
    assert TimestampText(t, libc) == Numeral(x % Two64, Decimal) + rest;
    NumeralConverts(x % Two64, Unsigned, rest, little, libc);
  }

  lemma TimestampRoundTrip(wire: seq<Byte>, little: bool, libc: Libc)
    requires |wire| == 4 && BE(wire) != 0
    ensures var v := DumpValue(Timestamp, Corrected(Timestamp, wire, little, SwappedWhenRead), little, libc);
      v.Some? && ValueReadsBack(Timestamp, v.value, wire, little, libc)
  {
    TimestampDumped(wire, little, libc);
    TimestampReadBack(wire, little, libc);
  }

  /** A nonzero timestamp is printed as the text of its value. */
  lemma TimestampDumped(wire: seq<Byte>, little: bool, libc: Libc)
    requires |wire| == 4 && BE(wire) != 0
    ensures DumpValue(Timestamp, Corrected(Timestamp, wire, little, SwappedWhenRead), little, libc) == Some(TimestampText(BE(wire), libc))
  {
    HostOfWire(Timestamp, wire, little);
  }

  /** The text of a nonzero timestamp, read back with `%u` and moved to 1904, is written as the wire field. */
  lemma TimestampReadBack(wire: seq<Byte>, little: bool, libc: Libc)
    requires |wire| == 4 && BE(wire) != 0
    ensures ValueReadsBack(Timestamp, TimestampText(BE(wire), libc), wire, little, libc)
  {
    WireOfHost(Timestamp, wire, little);
    Pow256Widths();
    var t := BE(wire);
    TimestampConverts(t, little, libc);
    var image := HostBytes((t - MacEpochOffset) % Two64 % Two32, 4, little);
    TimestampStored(t, image, little);
    ConvertedReadsBack(Timestamp, TimestampText(t, libc), image, wire, little, libc);
  }

  /** `%lf` of text that reads back as the double with bits `bits` stores its host bytes. */
  lemma RealConverts(text: string, bits: nat, little: bool, libc: Libc)
    requires bits < Two64
    requires |SkipSpace(text)| > 0 && libc.scanReal(SkipSpace(text)) == Some(bits)
    ensures bits < Pow256(8)
    ensures Convert(text, Real, little, libc) == Converted(HostBytes(bits, 8, little))
  {
    Pow256Widths();
    var b := bits % Two64;
    assert b == bits;
    assert Convert(text, Real, little, libc) == Converted(HostBytes(b, 8, little));
  }

  lemma RealRoundTrip(k: FieldKind, wire: seq<Byte>, little: bool, libc: Libc)
    requires k.Real64? && |wire| == 8 && Printable(k, wire, libc)
    ensures var v := DumpValue(k, Corrected(k, wire, little, SwappedWhenRead), little, libc);
      v.Some? && ValueReadsBack(k, v.value, wire, little, libc)
  {
    var h := Corrected(k, wire, little, SwappedWhenRead);
    HostOfWire(k, wire, little);
    NumberWrittenBack(k, wire, little);
    Pow256Widths();
    var v := libc.formatReal(k.precision, BE(wire));
    assert DumpValue(k, h, little, libc) == Some(v);
    RealConverts(v, BE(wire), little, libc);
    ConvertedReadsBack(k, v, HostBytes(BE(wire), 8, little), wire, little, libc);
  }

  /** A NUL-padded array is its string followed by NULs. */
  lemma NulPaddedSplit(b: seq<Byte>)
    requires NulPadded(b)
    ensures b == b[..NulLength(b)] + Zeros(|b| - NulLength(b))
  {
    PaddingIsZeros(b);
    SplitAt(b, NulLength(b));
  }

  lemma SplitAt(b: seq<Byte>, n: nat)
    requires n <= |b|
    ensures b == b[..n] + b[n..]
  {
  }

  lemma PaddingIsZeros(b: seq<Byte>)
    requires NulPadded(b)
    ensures b[NulLength(b)..] == Zeros(|b| - NulLength(b))
  {
    var n := NulLength(b);
    forall j | 0 <= j < |b| - n
      ensures b[n..][j] == 0
    {
      assert b[n..][j] == b[n + j];
    }
  }

  /** The string of a NUL-padded array, stored over zeroes, restores the array. */
  lemma OverlayString(b: seq<Byte>, extra: seq<Byte>)
    requires NulPadded(b) && |extra| <= 1 && (|extra| == 1 ==> extra[0] == 0)
    ensures Overlay(Zeros(|b|), b[..NulLength(b)] + extra) == b
  {
    var image := b[..NulLength(b)] + extra;
    StringPart(b, extra, image);
    PaddingPart(b, Min(|image|, |b|));
    OverlayParts(Zeros(|b|), image, b);
  }

  /** The string and the terminator after it are the start of the array. */
  lemma StringPart(b: seq<Byte>, extra: seq<Byte>, image: seq<Byte>)
    requires NulPadded(b) && |extra| <= 1 && (|extra| == 1 ==> extra[0] == 0)
    requires image == b[..NulLength(b)] + extra
    ensures NulLength(b) <= Min(|image|, |b|) <= |b|
    ensures image[..Min(|image|, |b|)] == b[..Min(|image|, |b|)]
  {
    var n := NulLength(b);
    var m := Min(|image|, |b|);
    forall j | 0 <= j < m
      ensures image[j] == b[j]
    {
      if j == n {
        assert image[j] == extra[0];
      }
    }
  }

  /** Past the string a padded array is all zeros. */
  lemma PaddingPart(b: seq<Byte>, m: nat)
    requires NulPadded(b) && NulLength(b) <= m <= |b|
    ensures Zeros(|b|)[m..] == b[m..]
  {
    forall j | m <= j < |b|
      ensures b[j] == 0
    {
    }
  }

  /** Storing `image` over `field` gives `b` when the stored part and the untouched rest both agree with it. */
  lemma OverlayParts(field: seq<Byte>, image: seq<Byte>, b: seq<Byte>)
    requires |b| == |field|
    requires image[..Min(|image|, |b|)] == b[..Min(|image|, |b|)]
    requires field[Min(|image|, |b|)..] == b[Min(|image|, |b|)..]
    ensures Overlay(field, image) == b
  {
    var m := Min(|image|, |b|);
    assert b == b[..m] + b[m..];
  }

  lemma CharsRoundTrip(k: FieldKind, wire: seq<Byte>, little: bool, libc: Libc)
    requires (k.FourccChars? || k.Text?) && |wire| == Width(k) && Printable(k, wire, libc)
    ensures var v := DumpValue(k, Corrected(k, wire, little, SwappedWhenRead), little, libc);
      v.Some? && ValueReadsBack(k, v.value, wire, little, libc)
  {
    CharsDumped(k, wire, little, libc);
    CharsReadBack(k, wire, little, libc);
  }

  /** A char array is printed as its string. */
  lemma CharsDumped(k: FieldKind, wire: seq<Byte>, little: bool, libc: Libc)
    requires (k.FourccChars? || k.Text?) && |wire| == Width(k)
    ensures DumpValue(k, Corrected(k, wire, little, SwappedWhenRead), little, libc) == Some(CString(wire))
  {
    if k.FourccChars? {
      EndianFixupInvolution(wire, little);
    }
  }

  /** The string of a char array, read back with `%<n>c` and stored over zeroes, restores the array. */
  lemma CharsReadBack(k: FieldKind, wire: seq<Byte>, little: bool, libc: Libc)
    requires (k.FourccChars? || k.Text?) && |wire| == Width(k) && Printable(k, wire, libc)
    ensures ValueReadsBack(k, CString(wire), wire, little, libc)
  {
    var n := NulLength(wire);
    var v := CString(wire);
    if n > 0 {
      assert Convert(v, ConversionOf(k), little, libc) == Converted(wire[..n]) by {
        assert Min(Width(k), |v|) == n;
        assert v[..n] == v;
      }
      OverlayString(wire, []);
      assert wire[..n] + [] == wire[..n];
      ConvertedReadsBack(k, v, wire[..n], wire, little, libc);
    } else {
      NulPaddedSplit(wire);
    }
  }

  lemma StrRoundTrip(wire: seq<Byte>, little: bool, libc: Libc)
    requires |wire| == 4 && Printable(FourccString, wire, libc)
    ensures var v := DumpValue(FourccString, Corrected(FourccString, wire, little, SwappedWhenRead), little, libc);
      v.Some? && ValueReadsBack(FourccString, v.value, wire, little, libc)
  {
    var h := Corrected(FourccString, wire, little, SwappedWhenRead);
    var v := CString(wire);
    assert DumpValue(FourccString, h, little, libc) == Some(v) by {
      EndianFixupInvolution(wire, little);
    }
    if NulLength(wire) > 0 {
      StrConverts(wire, v, little, libc);
    } else {
      assert wire == Zeros(4) by {
        NulPaddedSplit(wire);
      }
      assert EndianFixup(Zeros(4), little) == Zeros(4);
    }
  }

  /** A nonempty code without blanks is read by `%4s` with its terminator, which lands on the padding. */
  lemma StrConverts(wire: seq<Byte>, v: string, little: bool, libc: Libc)
    requires |wire| == 4 && Printable(FourccString, wire, libc)
    requires v == CString(wire) && NulLength(wire) > 0
    ensures ValueReadsBack(FourccString, v, wire, little, libc)
  {
    var n := NulLength(wire);
    var image := wire[..n] + [0];
    StrImage(wire, v, little, libc);
    assert Stored(FourccString, Zeros(4), Some(image), little) == EndianFixup(wire, little) by {
      OverlayString(wire, [0]);
    }
    EndianFixupInvolution(wire, little);
    ConvertedReadsBack(FourccString, v, image, wire, little, libc);
  }

  /** `%4s` reads the code's characters and adds its terminator. */
  lemma StrImage(wire: seq<Byte>, v: string, little: bool, libc: Libc)
    requires |wire| == 4 && Printable(FourccString, wire, libc)
    requires v == CString(wire) && NulLength(wire) > 0
    ensures Convert(v, Str(4), little, libc) == Converted(wire[..NulLength(wire)] + [0])
  {
    var n := NulLength(wire);
    assert !IsSpace(v[0]);
    NonBlankStart(v);
    assert WordRun(v) == n;
    assert v[..n] == v;
  }
}
