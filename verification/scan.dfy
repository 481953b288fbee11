/**
  The one-conversion `sscanf` formats the text reader uses: a literal label
  such as `userflags:` followed by a single `%<n>c`, `%4s`, `%d`, `%u`, `%x`
  or `%lf`.  The integer conversions are modelled exactly; the conversions of
  floating point text, `ctime` and the sample line formats are parameters
  (the `Libc` record), because the model has no floating point.
 */
module Scan {
  import opened Wrappers
  import opened ByteOrder
  import opened Numerals

  /**
    The C library routines the model leaves abstract.  Doubles and floats are
    given by their IEEE bit patterns.
   */
  datatype Libc = Libc(
    formatReal: (nat, nat) -> string,        // `%.<precision>lf` of the double with the given bit pattern
    scanReal: string -> Option<nat>,         // `%lf` at the start of non-blank text: the double read, or no number there
    ctime: int -> string,                    // `ctime` of a count of seconds since 1970
    formatSample: (nat, nat, nat, nat) -> string, // `%3d % .<precision>lf % .<precision>lf` of a sample index and its I and Q floats
    scanSample: string -> Option<(nat, nat)> // `%d %lf %lf` converting all three, I and Q narrowed to floats
  )

  /** The conversion that follows the label. */
  datatype Conversion =
    | Chars(width: nat)   // %<width>c: up to `width` characters, white space included, no terminator
    | Str(width: nat)     // %<width>s: white space skipped, up to `width` non-blank characters and a NUL
    | Signed              // %d into an int
    | Unsigned            // %u into an unsigned int
    | Hex                 // %x into an unsigned int
    | Real                // %lf into a double

  /**
    What `sscanf` returns: -1 when the input ends before the conversion, 0
    when the text does not match, otherwise 1 and the bytes it stored.
   */
  datatype Scanned = InputFailure | MatchFailure | Converted(image: seq<Byte>)

  datatype Literal = Exhausted | Differs | Matched(rest: string)

  /** Matching the literal part of a format character by character. */
  function MatchLiteral(s: string, lit: string): (r: Literal)
    ensures r.Matched? <==> |lit| <= |s| && s[..|lit|] == lit
    ensures r.Matched? ==> r.rest == s[|lit|..]
  {
    if |lit| == 0 then Matched(s)
    else if |s| == 0 then Exhausted
    else if s[0] != lit[0] then Differs
    else
      var r := MatchLiteral(s[1..], lit[1..]);
      assert |lit| <= |s| && s[..|lit|] == lit ==> s[1..][..|lit| - 1] == lit[1..];
      assert r.Matched? ==> s[..|lit|] == [s[0]] + s[1..][..|lit| - 1];
      r
  }

  /** The length of the run of non-blank characters `s` starts with. */
  function WordRun(s: string): (k: nat)
    ensures k <= |s|
    ensures forall i :: 0 <= i < k ==> !IsSpace(s[i])
    ensures k < |s| ==> IsSpace(s[k])
  {
    if |s| == 0 || IsSpace(s[0]) then 0 else 1 + WordRun(s[1..])
  }

  function Min(a: nat, b: nat): nat
  {
    if a <= b then a else b
  }

  /** The integer conversions with the radix they read in and how they store the result. */
  function IntegerBits(conv: Conversion, x: Number): U32
    requires conv.Signed? || conv.Unsigned? || conv.Hex?
  {
    if conv.Signed? then Int32Bits(x) else UInt32Bits(x)
  }

  function RadixOf(conv: Conversion): Radix
  {
    if conv.Hex? then Hexadecimal else Decimal
  }

  /** `%<w>c`: the next `w` characters, or as many as there are. */
  function ConvertChars(s: string, w: nat): (r: Scanned)
    ensures r.InputFailure? <==> |s| == 0
    ensures !r.MatchFailure?
    ensures r.Converted? ==> |r.image| == Min(w, |s|)
  {
    if |s| == 0 then InputFailure else Converted(CharBytes(s[..Min(w, |s|)]))
  }

  /** `%<w>s`: after white space, up to `w` non-blank characters and a NUL. */
  function ConvertStr(s: string, w: nat): (r: Scanned)
    ensures r.InputFailure? <==> |SkipSpace(s)| == 0
    ensures !r.MatchFailure?
    ensures r.Converted? ==> 1 <= |r.image| <= w + 1 && r.image[|r.image| - 1] == 0
  {
    var t := SkipSpace(s);
    if |t| == 0 then InputFailure
    else Converted(CharBytes(t[..Min(w, WordRun(t))]) + [0])
  }

  /** `%lf`: after white space, the double the C library reads, stored in host order. */
  function ConvertReal(s: string, little: bool, libc: Libc): (r: Scanned)
    ensures r.InputFailure? <==> |SkipSpace(s)| == 0
    ensures r.Converted? ==> |r.image| == 8
  {
    var t := SkipSpace(s);
    if |t| == 0 then InputFailure
    else match libc.scanReal(t)
      case None => MatchFailure
      case Some(bits) => Converted(HostBytes(bits % Two64, 8, little))
  }

  /** `%d`, `%u` and `%x`: after white space, the number read, cut to 32 bits and stored in host order. */
  function ConvertInteger(s: string, conv: Conversion, little: bool): (r: Scanned)
    requires conv.Signed? || conv.Unsigned? || conv.Hex?
    ensures r.InputFailure? <==> |SkipSpace(s)| == 0
    ensures r.Converted? ==> |r.image| == 4
  {
    var t := SkipSpace(s);
    if |t| == 0 then InputFailure
    else match ParseNumber(t, RadixOf(conv))
      case None => MatchFailure
      case Some(x) => Converted(HostBytes(IntegerBits(conv, x) as nat, 4, little))
  }

  /** The conversion applied to the text after the label. */
  function Convert(s: string, conv: Conversion, little: bool, libc: Libc): (r: Scanned)
    ensures r.InputFailure? <==> |if conv.Chars? then s else SkipSpace(s)| == 0
  {
    match conv
    case Chars(w) => ConvertChars(s, w)
    case Str(w) => ConvertStr(s, w)
    case Real => ConvertReal(s, little, libc)
    case _ => ConvertInteger(s, conv, little)
  }

  /** Text that starts with a number is converted to that number's low 32 bits. */
  lemma IntegerConverts(s: string, conv: Conversion, x: Number, little: bool, libc: Libc)
    requires conv.Signed? || conv.Unsigned? || conv.Hex?
    requires |s| > 0 && !IsSpace(s[0]) && ParseNumber(s, RadixOf(conv)) == Some(x)
    ensures Convert(s, conv, little, libc) == Converted(HostBytes(IntegerBits(conv, x) as nat, 4, little))
  {
    NonBlankStart(s);
  }

  /** `sscanf(line, "<label><conversion>", buffer)`. */
  function Sscanf(line: string, tag: string, conv: Conversion, little: bool, libc: Libc): (r: Scanned)
    ensures |tag| <= |line| && line[..|tag|] == tag ==> r == Convert(line[|tag|..], conv, little, libc)
  {
    match MatchLiteral(line, tag)
    case Exhausted => InputFailure
    case Differs => MatchFailure
    case Matched(rest) => Convert(rest, conv, little, libc)
  }

  // ---------------------------------------------------------------------
  // Labels

  /** A field label: a name without colons, then a colon. */
  predicate IsLabel(tag: string)
  {
    |tag| > 0 && tag[|tag| - 1] == ':' && forall i :: 0 <= i < |tag| - 1 ==> tag[i] != ':'
  }

  /**
    A line that starts with one label never matches another: the two labels
    part before either colon, so the literal match fails rather than running
    out of input.
   */
  lemma {:induction false} OtherLabel(line: string, own: string, tag: string)
    requires IsLabel(own) && IsLabel(tag) && own != tag
    requires |own| <= |line| && line[..|own|] == own
    ensures MatchLiteral(line, tag) == Differs
    decreases |tag|
  {
    if |own| == 1 || |tag| == 1 {
      assert line[0] == own[0];
    } else if line[0] == tag[0] {
      var o, l := own[1..], tag[1..];
      assert line[1..][..|o|] == o;
      assert o[|o| - 1] == own[|own| - 1];
      assert l[|l| - 1] == tag[|tag| - 1];
      assert forall i :: 0 <= i < |o| - 1 ==> o[i] == own[i + 1];
      assert forall i :: 0 <= i < |l| - 1 ==> l[i] == tag[i + 1];
      assert own == [own[0]] + o && tag == [tag[0]] + l;
      OtherLabel(line[1..], o, l);
    }
  }

  /** So `sscanf` with another field's label reports a mismatch on this field's line. */
  lemma ScanOtherLabel(line: string, own: string, tag: string, conv: Conversion, little: bool, libc: Libc)
    requires IsLabel(own) && IsLabel(tag) && own != tag
    requires |own| <= |line| && line[..|own|] == own
    ensures Sscanf(line, tag, conv, little, libc) == MatchFailure
  {
    OtherLabel(line, own, tag);
  }
}
