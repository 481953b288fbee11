/**
  The text reader of `rsgen`: one `make_node_<type>` per block type, called
  with the read position just after the line that names the block.  A fixed
  leaf is built from zeroed memory by one `read_parameter` per field, each
  searching the block's lines from the same position; 'hasi' reads its next
  line as hexadecimal bytes; the sample blocks count their lines up to the
  blank one and convert each; containers carry no data.  Every `make`
  appends exactly one node when it succeeds.
 */
module Make {
  import opened Wrappers
  import opened ByteOrder
  import opened Registry
  import opened Blocks
  import opened Numerals
  import opened Scan
  import opened TextStream
  import opened Parameters
  import opened FieldText
  import opened Dump

  datatype MakeError =
    | MissingField(name: string)   // the blank line came before the field's line
    | NoDataLine                   // 'hasi': the file ended where its data line should be
    | NoBytes                      // 'hasi': no byte after the first word of the data line
    | TooManyBytes                 // 'hasi': `MAX_ARGC` bytes or more
    | NoSamples                    // no sample line before the blank line
    | NotTriple(count: nat)        // the number of sample lines is not a multiple of 3
    | UnhandledFormat(format: U32) // samples under an 'fbin' format other than 'cviq'
    | UnhandledType(binType: U32)  // samples under an 'fbin' type other than 'flt4'
    | BadSample(index: nat)        // sample line missing, blank, or not an index and two numbers

  /** The node a `make` appends, the configuration after it and where the driver reads on. */
  datatype Made = Made(block: Block, config: Config, next: Cursor)

  // ---------------------------------------------------------------------
  // Fixed leaves

  /**
    Whether a field whose search reaches the blank line stops `make`.  In the
    source it always does (`read_parameter` returns 1).  With `zeroTime`, the
    corrected reader, a timestamp is the exception: `dump` leaves out the
    line of a zero timestamp, so its absence reads as zero.
   */
  predicate Refused(k: FieldKind, p: Parameter, zeroTime: bool)
  {
    p.Missing? && !(zeroTime && k.Timestamp?)
  }

  /** The bytes one field's search leaves in zeroed memory, or none when the field is refused. */
  function FieldMade(k: FieldKind, p: Parameter, little: bool, zeroTime: bool): (r: Option<seq<Byte>>)
    ensures r.None? <==> Refused(k, p, zeroTime)
    ensures p.Found? ==> r == Some(Stored(k, Zeros(Width(k)), p.image, little))
    ensures r.Some? ==> |r.value| == Width(k)
  {
    if Refused(k, p, zeroTime) then None
    else if p.Missing? then Some(Zeros(Width(k)))
    else Some(Stored(k, Zeros(Width(k)), p.image, little))
  }

  /**
    The fields of a fixed leaf read one after the other into zeroed memory,
    each by its own search from `c`; the first refused field is the error.
   */
  function MakeFields(fields: seq<FieldKind>, names: seq<string>, lines: seq<string>, c: Cursor, little: bool, libc: Libc, zeroTime: bool): (r: Result<seq<Byte>, string>)
    requires |names| == |fields| && Valid(lines, c)
    ensures r.Success? ==> |r.value| == TotalWidth(fields)
    ensures r.Failure? <==> exists i :: 0 <= i < |fields| && Refused(fields[i], ReadParameter(lines, c, names[i] + ":", ConversionOf(fields[i]), little, libc), zeroTime)
  {
    if |fields| == 0 then Success([])
    else
      var k := fields[0];
      var found := ReadParameter(lines, c, names[0] + ":", ConversionOf(k), little, libc);
      var rest := MakeFields(fields[1..], names[1..], lines, c, little, libc, zeroTime);
      assert rest.Failure? ==> exists i :: 0 < i < |fields| && Refused(fields[i], ReadParameter(lines, c, names[i] + ":", ConversionOf(fields[i]), little, libc), zeroTime) by {
        if rest.Failure? {
          var i :| 0 <= i < |fields[1..]| && Refused(fields[1..][i], ReadParameter(lines, c, names[1..][i] + ":", ConversionOf(fields[1..][i]), little, libc), zeroTime);
          assert names[1..][i] == names[i + 1] && fields[1..][i] == fields[i + 1];
        }
      }
      assert (exists i :: 1 <= i < |fields| && Refused(fields[i], ReadParameter(lines, c, names[i] + ":", ConversionOf(fields[i]), little, libc), zeroTime)) ==> rest.Failure? by {
        if exists i :: 1 <= i < |fields| && Refused(fields[i], ReadParameter(lines, c, names[i] + ":", ConversionOf(fields[i]), little, libc), zeroTime) {
          var i :| 1 <= i < |fields| && Refused(fields[i], ReadParameter(lines, c, names[i] + ":", ConversionOf(fields[i]), little, libc), zeroTime);
          assert names[1..][i - 1] == names[i] && fields[1..][i - 1] == fields[i];
        }
      }
      var first := FieldMade(k, found, little, zeroTime);
      if first.None? then Failure(names[0])
      else if rest.Failure? then Failure(rest.error)
      else Success(first.value + rest.value)
  }

  /**
    `make_node_<type>` of a fixed leaf: a node of the struct's size holding
    the fields read; 'fbin' hands its two codes on to the sample blocks.  The
    searches put the read position back, so the driver goes on from `c`.
    `zeroTime` selects the corrected reading of a missing timestamp.
   */
  function MakeFixed(t: BlockType, lines: seq<string>, c: Cursor, config: Config, little: bool, libc: Libc, zeroTime: bool): (r: Result<Made, MakeError>)
    requires FixedLeaf(t) && Valid(lines, c)
    ensures r.Failure? <==> MakeFields(Fields(t), FieldNames(t), lines, c, little, libc, zeroTime).Failure?
    ensures r.Failure? ==> r.error == MissingField(MakeFields(Fields(t), FieldNames(t), lines, c, little, libc, zeroTime).error)
    ensures r.Success? ==> r.value.block.key == KeyOf(t) && r.value.block.size as nat == StructSize(t) == |r.value.block.data|
    ensures r.Success? ==> r.value.block.data == MakeFields(Fields(t), FieldNames(t), lines, c, little, libc, zeroTime).value
    ensures r.Success? ==> r.value.next == c
    ensures r.Success? ==> r.value.config == if t == Fbin then FbinConfig(r.value.block.data, little) else config
  {
    StructTables(t);
    match MakeFields(Fields(t), FieldNames(t), lines, c, little, libc, zeroTime)
    case Failure(name) => Failure(MissingField(name))
    case Success(mem) =>
      var size := StructSize(t);
      Success(Made(Block(KeyOf(t), size as U32, mem), if t == Fbin then FbinConfig(mem, little) else config, c))
  }

  // ---------------------------------------------------------------------
  // 'hasi'

  /** `MAX_ARGC`: the byte count `make_node_hasi` refuses, and the size of its argument table. */
  const MAX_ARGC: nat := 256

  /**
    `MAX_LINE`: the data line buffer as the source sizes it, three characters
    per byte and a terminator; `fgets` is given one less than its size.  It
    leaves no room for the `data:` label or the newline (see the findings).
   */
  const MAX_LINE: nat := MAX_ARGC * 3 + 1

  /**
    A data line buffer that holds the longest line `make_node_hasi` accepts
    and then some: the label, `MAX_ARGC` three-character bytes, the newline
    and the terminator.  The model's `make` reads with this buffer.
   */
  const HASI_LINE: nat := 5 + MAX_ARGC * 3 + 2

  /** The text after the leading blanks (the separator of `strtok` is the blank alone). */
  function SkipBlanks(s: string): (t: string)
    ensures |t| <= |s| && t == s[|s| - |t|..]
    ensures |t| > 0 ==> t[0] != ' '
  {
    if |s| > 0 && s[0] == ' ' then SkipBlanks(s[1..]) else s
  }

  /** The length of the run of non-blank characters `s` starts with. */
  function BlankFree(s: string): (k: nat)
    ensures k <= |s|
    ensures forall i :: 0 <= i < k ==> s[i] != ' '
    ensures k < |s| ==> s[k] == ' '
  {
    if |s| == 0 || s[0] == ' ' then 0 else 1 + BlankFree(s[1..])
  }

  /** A word `strtok` returns: not empty, and no blank in it. */
  predicate IsWord(w: string)
  {
    |w| > 0 && ' ' !in w
  }

  /** The words `strtok(line, " ")` returns one after the other. */
  function Tokens(s: string): (r: seq<string>)
    ensures |r| <= |s|
    decreases |s|
  {
    var t := SkipBlanks(s);
    if |t| == 0 then []
    else
      var k := BlankFree(t);
      FirstWord(t);
      [t[..k]] + Tokens(t[k..])
  }

  /** Every token is a word: not empty, and no blank in it. */
  lemma {:induction false} TokensAreWords(s: string)
    ensures forall i :: 0 <= i < |Tokens(s)| ==> IsWord(Tokens(s)[i])
    decreases |s|
  {
    var t := SkipBlanks(s);
    if |t| > 0 {
      var k := BlankFree(t);
      FirstWord(t);
      TokensAreWords(t[k..]);
      TokensStep(s);
      WordThenWords(t[..k], Tokens(t[k..]));
    }
  }

  /** One step of `strtok`: the first word, then the words of what follows it. */
  lemma TokensStep(s: string)
    requires |SkipBlanks(s)| > 0
    ensures Tokens(s) == [SkipBlanks(s)[..BlankFree(SkipBlanks(s))]] + Tokens(SkipBlanks(s)[BlankFree(SkipBlanks(s))..])
  {
  }

  lemma WordThenWords(w: string, rest: seq<string>)
    requires IsWord(w) && forall i :: 0 <= i < |rest| ==> IsWord(rest[i])
    ensures forall i :: 0 <= i < |[w] + rest| ==> IsWord(([w] + rest)[i])
  {
    forall i | 0 < i < |[w] + rest|
      ensures IsWord(([w] + rest)[i])
    {
      assert ([w] + rest)[i] == rest[i - 1];
    }
  }

  /** Text that starts with a non-blank starts with a word. */
  lemma FirstWord(t: string)
    requires |t| > 0 && t[0] != ' '
    ensures 0 < BlankFree(t) && IsWord(t[..BlankFree(t)])
  {
    var k := BlankFree(t);
    assert ' ' !in t[..k] by {
      forall j | 0 <= j < k
        ensures t[..k][j] != ' '
      {
        assert t[..k][j] == t[j];
      }
    }
  }

  /** `(unsigned char)strtoul(word, NULL, 16)`: the low byte of the number, 0 when there is none. */
  function HexByte(word: string): Byte
  {
    match ParseNumber(word, Hexadecimal)
    case None => 0
    case Some(x) => (ULong(x) % 256) as Byte
  }

  /** The byte of each word. */
  function HexBytesOf(words: seq<string>): (r: seq<Byte>)
    ensures |r| == |words| && forall i :: 0 <= i < |words| ==> r[i] == HexByte(words[i])
  {
    seq(|words|, i requires 0 <= i < |words| => HexByte(words[i]))
  }

  /** How many bytes the argument loop takes from the words after the first: all of them, up to `MAX_ARGC`. */
  function ArgCount(words: seq<string>): (n: nat)
    ensures n <= MAX_ARGC
    ensures |words| > 0 && n < MAX_ARGC ==> n == |words| - 1
    ensures n == MAX_ARGC <==> |words| > MAX_ARGC
  {
    if |words| == 0 then 0 else Min(|words| - 1, MAX_ARGC)
  }

  /** The data line `make_node_hasi` reads into a buffer of `buffer` characters, given to `fgets` as one less. */
  function DataLine(lines: seq<string>, c: Cursor, buffer: nat): (r: Option<(string, Cursor)>)
    requires Valid(lines, c) && buffer >= 3
    ensures r.None? <==> c.line == |lines|
    ensures r.Some? ==> Valid(lines, r.value.1) && Advances(lines, c, r.value.1)
  {
    ReadLine(lines, c, buffer - 1)
  }

  /**
    `make_node_hasi`: the data line split at blanks; the first word is passed
    over and each later one is a byte in hexadecimal.  No line, no byte, or
    `MAX_ARGC` bytes or more, is an error.  The line buffer holds `buffer`
    characters: `MAX_LINE` in the source, `HASI_LINE` in the model's `make`.
   */
  function MakeHasi(lines: seq<string>, c: Cursor, config: Config, buffer: nat): (r: Result<Made, MakeError>)
    requires Valid(lines, c) && buffer >= 3
    ensures c.line == |lines| ==> r == Failure(NoDataLine)
    ensures c.line < |lines| ==>
      var (text, next) := DataLine(lines, c, buffer).value;
      var words := Tokens(text);
      (r.Failure? <==> |words| <= 1 || |words| > MAX_ARGC) &&
      (r.Success? ==>
        r.value == Made(Block(KEY_hasi, (|words| - 1) as U32, HexBytesOf(words[1..])), config, next))
  {
    match DataLine(lines, c, buffer)
    case None => Failure(NoDataLine)
    case Some((text, next)) => HasiBytes(Tokens(text), config, next)
  }

  /** The bytes of the data line's words, the first passed over. */
  function HasiBytes(words: seq<string>, config: Config, next: Cursor): (r: Result<Made, MakeError>)
    ensures r.Failure? <==> |words| <= 1 || |words| > MAX_ARGC
    ensures r.Success? ==> r.value == Made(Block(KEY_hasi, (|words| - 1) as U32, HexBytesOf(words[1..])), config, next)
  {
    var n := ArgCount(words);
    if n == 0 then Failure(NoBytes)
    else if n == MAX_ARGC then Failure(TooManyBytes)
    else Success(Made(Block(KEY_hasi, n as U32, HexBytesOf(words[1..])), config, next))
  }

  // ---------------------------------------------------------------------
  // Sample blocks

  /** `count_iqdata_lines`: the lines from `c` before the first empty one or the end of the file. */
  function CountSampleLines(lines: seq<string>, c: Cursor): (n: nat)
    requires Valid(lines, c)
    decreases |lines| - c.line, ColsLeft(lines, c)
  {
    match ReadLine(lines, c, SIZE_LINE)
    case None => 0
    case Some((text, next)) => if |text| < 1 then 0 else 1 + CountSampleLines(lines, next)
  }

  /** The count is the length of the run of non-empty lines the file continues with. */
  lemma {:induction false} CountSampleLinesRun(lines: seq<string>, c: Cursor)
    requires Valid(lines, c)
    ensures var n, ts := CountSampleLines(lines, c), Texts(lines, c);
      n <= |ts| && (forall j :: 0 <= j < n ==> |ts[j]| > 0) && (n < |ts| ==> |ts[n]| == 0)
    decreases |lines| - c.line, ColsLeft(lines, c)
  {
    if c.line < |lines| {
      var next := ReadLine(lines, c, SIZE_LINE).value.1;
      CountSampleLinesRun(lines, next);
    }
  }

  /** The four bytes a float with bit pattern `bits` occupies in host memory. */
  function FloatBytes(bits: nat, little: bool): (r: seq<Byte>)
    ensures |r| == 4 && HostValue(r, little) == bits % Two32
  {
    Pow256Widths();
    HostBytes(bits % Two32, 4, little)
  }

  /**
    The loop of `read_iqdata_samples` from sample `index` on: each of the
    `count` lines must be there, be non-empty and hold an index and two
    numbers, whose float values are stored I first.  The lines are consumed.
   */
  function ReadSamples(lines: seq<string>, c: Cursor, count: nat, index: nat, little: bool, libc: Libc): (r: Result<(seq<Byte>, Cursor), nat>)
    requires Valid(lines, c)
    ensures r.Success? ==> |r.value.0| == SampleSize * count && Valid(lines, r.value.1) && NotBefore(lines, c, r.value.1)
    ensures r.Failure? ==> index <= r.error < index + count
    decreases count
  {
    if count == 0 then Success(([], c))
    else match ReadLine(lines, c, SIZE_LINE)
      case None => Failure(index)
      case Some((text, next)) =>
        if |text| == 0 then Failure(index)
        else match libc.scanSample(text)
          case None => Failure(index)
          case Some((i, q)) =>
            match ReadSamples(lines, next, count - 1, index + 1, little, libc)
            case Failure(e) => Failure(e)
            case Success((rest, after)) => Success((FloatBytes(i, little) + FloatBytes(q, little) + rest, after))
  }

  /**
    `make_node_afft` and `make_node_ifft`: count the sample lines (at least
    one, and a multiple of 3), then check the configuration, then read the
    lines.  The node's size is the byte count cut to 32 bits.
   */
  function MakeSamples(t: BlockType, lines: seq<string>, c: Cursor, config: Config, little: bool, libc: Libc): (r: Result<Made, MakeError>)
    requires SampleLeaf(t) && Valid(lines, c)
    ensures var n := CountSampleLines(lines, c);
      r.Success? <==> n > 0 && n % 3 == 0 && HandlesSamples(config) && ReadSamples(lines, c, n, 0, little, libc).Success?
    ensures r.Failure? && CountSampleLines(lines, c) == 0 ==> r.error == NoSamples
    ensures r.Failure? && CountSampleLines(lines, c) > 0 && CountSampleLines(lines, c) % 3 != 0 ==> r.error == NotTriple(CountSampleLines(lines, c))
    ensures r.Success? ==>
      var n := CountSampleLines(lines, c);
      var read := ReadSamples(lines, c, n, 0, little, libc).value;
      r.value == Made(Block(KeyOf(t), ((SampleSize * n) % Two32) as U32, read.0), config, read.1)
  {
    var n := CountSampleLines(lines, c);
    if n <= 0 then Failure(NoSamples)
    else if n % 3 != 0 then Failure(NotTriple(n))
    else if config.binFormat != BINFORMAT_CVIQ then Failure(UnhandledFormat(config.binFormat))
    else if config.binType != BINTYPE_FLT4 then Failure(UnhandledType(config.binType))
    else match ReadSamples(lines, c, n, 0, little, libc)
      case Failure(i) => Failure(BadSample(i))
      case Success((data, next)) => Success(Made(Block(KeyOf(t), ((SampleSize * n) % Two32) as U32, data), config, next))
  }

  // ---------------------------------------------------------------------
  // Any block

  /** `make_node_<type>` for the block type named on the line before `c`. */
  function MakeNode(t: BlockType, lines: seq<string>, c: Cursor, config: Config, little: bool, libc: Libc): (r: Result<Made, MakeError>)
    requires Valid(lines, c)
    ensures r.Success? ==> r.value.block.key == KeyOf(t) && Valid(lines, r.value.next) && NotBefore(lines, c, r.value.next)
    ensures r.Success? && IsContainer(t) ==> r.value == Made(Block(KeyOf(t), 0, []), config, c)
    ensures r.Success? && t != Fbin ==> r.value.config == config
    ensures IsContainer(t) ==> r.Success?
  {
    if IsContainer(t) then Success(Made(Block(KeyOf(t), 0, []), config, c))
    else MakeLeaf(t, lines, c, config, little, libc)
  }

  /** `make_node_<type>` of a leaf: 'hasi', a sample block, or a fixed struct. */
  function MakeLeaf(t: BlockType, lines: seq<string>, c: Cursor, config: Config, little: bool, libc: Libc): (r: Result<Made, MakeError>)
    requires Valid(lines, c) && !IsContainer(t)
    ensures r.Success? ==> r.value.block.key == KeyOf(t) && Valid(lines, r.value.next) && NotBefore(lines, c, r.value.next)
    ensures r.Success? && t != Fbin ==> r.value.config == config
  {
    if t == Hasi then MakeHasi(lines, c, config, HASI_LINE)
    else if SampleLeaf(t) then MakeSamples(t, lines, c, config, little, libc)
    else
      OtherLeafFixed(t);
      var m := MakeFixed(t, lines, c, config, little, libc, true);
      assert m.Success? ==> m.value.block.key == KeyOf(t) && m.value.next == c && (t != Fbin ==> m.value.config == config);
      m
  }

  /** What making a fixed leaf relies on: the struct's fields fill its `sizeof`, and 'fbin' holds its two codes. */
  lemma StructTables(t: BlockType)
    requires FixedLeaf(t)
    ensures |FieldNames(t)| == |Fields(t)| && TotalWidth(Fields(t)) == StructSize(t) < Two32
    ensures t == Fbin ==> StructSize(t) == 8
  {
    MinSizeIsStructSize(t);
  }

  /** A fixed leaf is made from its field lines. */
  lemma MakeNodeFixed(t: BlockType, lines: seq<string>, c: Cursor, config: Config, little: bool, libc: Libc)
    requires FixedLeaf(t) && Valid(lines, c)
    ensures MakeNode(t, lines, c, config, little, libc) == MakeFixed(t, lines, c, config, little, libc, true)
  {
    FixedLeafKind(t);
  }

  /** 'hasi' is made from its data line, read with the model's buffer. */
  lemma MakeNodeHasi(lines: seq<string>, c: Cursor, config: Config, little: bool, libc: Libc)
    requires Valid(lines, c)
    ensures MakeNode(Hasi, lines, c, config, little, libc) == MakeHasi(lines, c, config, HASI_LINE)
  {
  }

  /** A sample leaf is made from its record of sample lines. */
  lemma MakeNodeSamples(t: BlockType, lines: seq<string>, c: Cursor, config: Config, little: bool, libc: Libc)
    requires SampleLeaf(t) && Valid(lines, c)
    ensures MakeNode(t, lines, c, config, little, libc) == MakeSamples(t, lines, c, config, little, libc)
  {
  }
}
