/**
  The text writer of `rsdump`: `dump_list` walks the node list and calls
  each key's `dump_block_<type>`, which prints the block's name on a line of
  its own, then its fields as `<label>:<value>` lines (the raw bytes as one
  `data:` line for 'hasi', one line per sample pair for the sample blocks),
  then a blank line.  The 'fbin' block's format and type are remembered for
  the sample blocks after it; a header-only dump stops at 'BODY'.
 */
module Dump {
  import opened Wrappers
  import opened ByteOrder
  import opened Registry
  import opened Blocks
  import opened Numerals
  import opened Scan
  import opened FieldText
  import opened Decoder
  import opened LeafFixup

  /**
    What the dump carries from block to block: the sample format and the
    sample type of the last 'fbin' block, zero before any.
   */
  datatype Config = Config(binFormat: U32, binType: U32)

  const Unset: Config := Config(0, 0)

  /** The only sample layout the converter handles: complex I/Q pairs of 4-byte floats. */
  predicate HandlesSamples(config: Config)
  {
    config.binFormat == BINFORMAT_CVIQ && config.binType == BINTYPE_FLT4
  }

  datatype DumpError =
    | CannotDump(key: U32)      // key not in the dictionary
    | TooShort(key: U32)        // payload shorter than the block's struct
    | BadFormat(format: U32)    // sample block under an 'fbin' format other than 'cviq'
    | BadType(binType: U32)     // sample block under an 'fbin' type other than 'flt4'

  /** The lines one block prints and the configuration after it. */
  datatype Dumped = Dumped(lines: seq<string>, config: Config)

  // ---------------------------------------------------------------------
  // Fields, bytes and samples as text

  /** No field of the table is half of a sample pair: the fixed structs hold none. */
  predicate NoSampleFields(fields: seq<FieldKind>)
  {
    forall i :: 0 <= i < |fields| ==> !fields[i].Float32?
  }

  lemma FixedFieldsHoldNoSamples(t: BlockType)
    ensures NoSampleFields(Fields(t))
  {
  }

  /** `<name>:` starts the line. */
  predicate Labelled(line: string, name: string)
  {
    |name| + 1 <= |line| && line[..|name| + 1] == name + ":"
  }

  /**
    The field lines of a packed struct held in host memory, in struct order;
    a field whose value is not shown (a zero timestamp) has no line.
   */
  function DumpFields(fields: seq<FieldKind>, names: seq<string>, mem: seq<Byte>, little: bool, libc: Libc): (r: seq<string>)
    requires |names| == |fields| && TotalWidth(fields) <= |mem| && NoSampleFields(fields)
    ensures |r| <= |fields|
    ensures forall j :: 0 <= j < |r| ==> ':' in r[j]
    decreases |fields|
  {
    if |fields| == 0 then []
    else
      var w := Width(fields[0]);
      var first := FieldLines(fields[0], names[0], mem[..w], little, libc);
      assert forall j :: 0 <= j < |first| ==> first[j][|names[0]|] == ':' by {
        if |first| == 1 {
          assert first[0][..|names[0]| + 1][|names[0]|] == ':';
        }
      }
      first + DumpFields(fields[1..], names[1..], mem[w..], little, libc)
  }

  /** Every field of the struct is shown: no timestamp in it is zero. */
  predicate AllShown(fields: seq<FieldKind>, mem: seq<Byte>, little: bool, libc: Libc)
    requires TotalWidth(fields) <= |mem| && NoSampleFields(fields)
    decreases |fields|
  {
    |fields| == 0 ||
    (DumpValue(fields[0], mem[..Width(fields[0])], little, libc).Some? &&
     AllShown(fields[1..], mem[Width(fields[0])..], little, libc))
  }

  /** A shown field gives one line: its label, a colon and its value text. */
  lemma FieldLinesShown(k: FieldKind, name: string, field: seq<Byte>, little: bool, libc: Libc)
    requires |field| == Width(k) && !k.Float32? && DumpValue(k, field, little, libc).Some?
    ensures FieldLines(k, name, field, little, libc) == [name + ":" + DumpValue(k, field, little, libc).value]
  {
  }

  /** The first field of a fully shown struct gives the first line, and the rest is still fully shown. */
  lemma DumpFieldsFirst(fields: seq<FieldKind>, names: seq<string>, mem: seq<Byte>, little: bool, libc: Libc)
    requires |names| == |fields| && TotalWidth(fields) <= |mem| && NoSampleFields(fields)
    requires AllShown(fields, mem, little, libc) && 0 < |fields|
    ensures NoSampleFields(fields[1..]) && AllShown(fields[1..], mem[Width(fields[0])..], little, libc)
    ensures var w0 := Width(fields[0]);
      DumpValue(fields[0], mem[..w0], little, libc).Some? &&
      DumpFields(fields, names, mem, little, libc)
        == [names[0] + ":" + DumpValue(fields[0], mem[..w0], little, libc).value] + DumpFields(fields[1..], names[1..], mem[w0..], little, libc)
  {
    var w0 := Width(fields[0]);
    assert NoSampleFields(fields[1..]) by {
      forall j | 0 <= j < |fields[1..]| ensures !fields[1..][j].Float32? {
        assert fields[1..][j] == fields[j + 1];
      }
    }
    FieldLinesShown(fields[0], names[0], mem[..w0], little, libc);
  }

  /** `hexdump`'s bytes: a blank and two lower-case hexadecimal digits per byte. */
  function HexBytes(data: seq<Byte>): (s: string)
    ensures |s| == 3 * |data|
  {
    if |data| == 0 then "" else " " + FormatByte(data[0]) + HexBytes(data[1..])
  }

  /** `hexdump`: the raw payload as one `data:` line. */
  function HexDump(data: seq<Byte>): (s: string)
    ensures |s| == 5 + 3 * |data| && s[..5] == "data:"
  {
    "data:" + HexBytes(data)
  }

  /** The digits after the point with which each sample block prints its floats. */
  function Precision(t: BlockType): nat
  {
    if t == Ifft then 16 else 20
  }

  /**
    One line per {I, Q} pair: its index and the two floats, given to the C
    library by their bit patterns in host memory.
   */
  function SampleLines(precision: nat, data: seq<Byte>, count: nat, little: bool, libc: Libc): (r: seq<string>)
    requires SampleSize * count <= |data|
    ensures |r| == count
    ensures forall i :: 0 <= i < count ==>
      r[i] == libc.formatSample(precision, i, HostValue(data[8 * i..8 * i + 4], little), HostValue(data[8 * i + 4..8 * i + 8], little))
  {
    seq(count, i requires 0 <= i < count =>
      libc.formatSample(precision, i, HostValue(data[8 * i..8 * i + 4], little), HostValue(data[8 * i + 4..8 * i + 8], little)))
  }

  /** The configuration an 'fbin' payload in host memory sets: its two codes as numbers. */
  function FbinConfig(data: seq<Byte>, little: bool): (c: Config)
    requires |data| >= 8
    ensures c.binFormat as nat == HostValue(data[..4], little) && c.binType as nat == HostValue(data[4..8], little)
  {
    Config(HostWord(data[..4], little), HostWord(data[4..8], little))
  }

  // ---------------------------------------------------------------------
  // One block

  /**
    `dump_block_<type>` of a fixed leaf long enough for its struct: the name,
    one line per shown field, a blank line; 'fbin' also sets the
    configuration from its two codes.
   */
  function DumpFixed(t: BlockType, data: seq<Byte>, config: Config, little: bool, libc: Libc): (r: Dumped)
    requires FixedLeaf(t) && |data| >= MinSize(t)
    ensures |r.lines| >= 2 && r.lines[0] == Name(t) && r.lines[|r.lines| - 1] == ""
    ensures forall j :: 0 < j < |r.lines| - 1 ==> ':' in r.lines[j]
    ensures r.config == if t == Fbin then FbinConfig(data, little) else config
  {
    FixedTables(t, data);
    var fields := DumpFields(Fields(t), FieldNames(t), data, little, libc);
    Dumped(Framed(Name(t), fields), if t == Fbin then FbinConfig(data, little) else config)
  }

  /** What dumping a fixed leaf long enough for its struct relies on. */
  lemma FixedTables(t: BlockType, data: seq<Byte>)
    requires FixedLeaf(t) && |data| >= MinSize(t)
    ensures |FieldNames(t)| == |Fields(t)| && TotalWidth(Fields(t)) <= |data| && NoSampleFields(Fields(t))
    ensures t == Fbin ==> |data| >= 8
  {
    FixedFieldsHoldNoSamples(t);
    FbinKey(t);
  }

  /** A block's lines: its name, then the given lines, then a blank line. */
  function Framed(name: string, body: seq<string>): (r: seq<string>)
    ensures |r| == |body| + 2 && r[0] == name && r[|r| - 1] == ""
    ensures forall j :: 0 < j < |r| - 1 ==> r[j] == body[j - 1]
  {
    [name] + body + [""]
  }

  /** `dump_block_<type>` of a sample block: the name, one line per whole sample pair, a blank line. */
  function DumpSamples(t: BlockType, data: seq<Byte>, config: Config, little: bool, libc: Libc): (r: Dumped)
    ensures |r.lines| == |data| / SampleSize + 2 && r.lines[0] == Name(t) && r.lines[|r.lines| - 1] == ""
    ensures r.config == config
  {
    Dumped([Name(t)] + SampleLines(Precision(t), data, |data| / SampleSize, little, libc) + [""], config)
  }

  /** `dump_block_hasi`: the name, the payload bytes as one `data:` line, a blank line. */
  function DumpHasi(data: seq<Byte>, config: Config): (r: Dumped)
    ensures r.lines == [Name(Hasi), HexDump(data), ""] && ':' in r.lines[1]
    ensures r.config == config
  {
    var line := HexDump(data);
    assert line[4] == ':';
    Dumped([Name(Hasi), line, ""], config)
  }

  /**
    `dump_block_<type>` of a node whose payload is `data` (as long as the
    node's size): containers print their name and a blank line ('END ' its
    name alone); a leaf shorter than its struct is refused before anything
    is printed; a sample block is refused unless the configuration is
    complex I/Q floats.
   */
  function DumpNode(t: BlockType, data: seq<Byte>, config: Config, little: bool, libc: Libc): (r: Result<Dumped, DumpError>)
    ensures r.Failure? <==> |data| < MinSize(t) || (SampleLeaf(t) && !HandlesSamples(config))
    ensures r.Failure? && |data| < MinSize(t) ==> r.error == TooShort(KeyOf(t))
    ensures r.Failure? && |data| >= MinSize(t) ==>
      r.error == if config.binFormat != BINFORMAT_CVIQ then BadFormat(config.binFormat) else BadType(config.binType)
  {
    OtherLeafFixed(t);
    if IsContainer(t) then
      Success(Dumped(if t == End then [Name(t)] else [Name(t), ""], config))
    else if |data| < MinSize(t) then Failure(TooShort(KeyOf(t)))
    else if t == Hasi then Success(DumpHasi(data, config))
    else if SampleLeaf(t) then
      if config.binFormat != BINFORMAT_CVIQ then Failure(BadFormat(config.binFormat))
      else if config.binType != BINTYPE_FLT4 then Failure(BadType(config.binType))
      else Success(DumpSamples(t, data, config, little, libc))
    else
      Success(DumpFixed(t, data, config, little, libc))
  }

  /**
    A dumped node starts with its type's name and, unless it is 'END ', ends
    with a blank line; 'END ' is its name alone.
   */
  lemma DumpNodeLines(t: BlockType, data: seq<Byte>, config: Config, little: bool, libc: Libc)
    requires DumpNode(t, data, config, little, libc).Success?
    ensures var lines := DumpNode(t, data, config, little, libc).value.lines;
      |lines| >= 1 && lines[0] == Name(t) && (|lines| == 1 <==> t == End) &&
      (t != End ==> lines[|lines| - 1] == "")
  {
    OtherLeafFixed(t);
    if IsContainer(t) {
      assert DumpNode(t, data, config, little, libc).value.lines == if t == End then [Name(t)] else [Name(t), ""];
    } else if t == Hasi {
      assert DumpNode(t, data, config, little, libc).value == DumpHasi(data, config);
    } else if SampleLeaf(t) {
      assert DumpNode(t, data, config, little, libc).value == DumpSamples(t, data, config, little, libc);
    } else {
      FixedLeafKind(t);
      DumpNodeFixed(t, data, config, little, libc);
    }
  }

  /** A fixed leaf long enough for its struct is dumped field by field. */
  lemma DumpNodeFixed(t: BlockType, data: seq<Byte>, config: Config, little: bool, libc: Libc)
    requires FixedLeaf(t) && |data| >= MinSize(t)
    ensures DumpNode(t, data, config, little, libc) == Success(DumpFixed(t, data, config, little, libc))
  {
    FixedLeafKind(t);
  }


  /** A 'hasi' payload of at least 4 bytes is dumped as its data line. */
  lemma DumpNodeHasi(data: seq<Byte>, config: Config, little: bool, libc: Libc)
    requires |data| >= 4
    ensures DumpNode(Hasi, data, config, little, libc) == Success(DumpHasi(data, config))
  {
    assert MinSize(Hasi) == 4;
  }

  /** Only 'fbin' changes the configuration: to the two codes of its payload. */
  lemma DumpNodeConfig(t: BlockType, data: seq<Byte>, config: Config, little: bool, libc: Libc)
    requires DumpNode(t, data, config, little, libc).Success?
    ensures DumpNode(t, data, config, little, libc).value.config == if t == Fbin then FbinConfig(data, little) else config
  {
    OtherLeafFixed(t);
    if !IsContainer(t) && t != Hasi && !SampleLeaf(t) {
      FixedLeafKind(t);
      DumpNodeFixed(t, data, config, little, libc);
    }
  }

  /** A key outside the dictionary cannot be dumped; any other goes to its type's dump. */
  function DumpBlock(b: Block, config: Config, little: bool, libc: Libc): (r: Result<Dumped, DumpError>)
    ensures FindBlockFunctions(b.key).None? ==> r == Failure(CannotDump(b.key))
    ensures FindBlockFunctions(b.key).Some? ==> r == DumpNode(FindBlockFunctions(b.key).value, b.data, config, little, libc)
  {
    match FindBlockFunctions(b.key)
    case None => Failure(CannotDump(b.key))
    case Some(t) => DumpNode(t, b.data, config, little, libc)
  }

  /** A block is dumped by the dump of the type its key names. */
  lemma DumpBlockOfType(t: BlockType, b: Block, config: Config, little: bool, libc: Libc)
    requires b.key == KeyOf(t)
    ensures DumpBlock(b, config, little, libc) == DumpNode(t, b.data, config, little, libc)
  {
    FindKeyOf(t);
  }

  // ---------------------------------------------------------------------
  // The list

  /**
    What `dump_list` has printed when it returns, the error that stopped it
    if any, and the configuration it had reached.
   */
  datatype DumpOutcome = DumpOutcome(lines: seq<string>, error: Option<DumpError>, config: Config)

  /** How one node is dumped under a configuration. */
  type Step = (Block, Config) -> Result<Dumped, DumpError>

  /**
    The walk of `dump_list` from configuration `config`, each node dumped by
    `step`: a header-only dump stops cleanly at 'BODY', and the first node
    that cannot be dumped stops the walk with everything before it printed.
   */
  function Walk(bs: seq<Block>, config: Config, justHeader: bool, step: Step): (r: DumpOutcome)
    ensures |bs| == 0 ==> r == DumpOutcome([], None, config)
    decreases |bs|
  {
    if |bs| == 0 then DumpOutcome([], None, config)
    else
      var b := bs[0];
      if justHeader && b.key == KEY_BODY then DumpOutcome([], None, config)
      else match step(b, config)
        case Failure(e) => DumpOutcome([], Some(e), config)
        case Success(d) =>
          var rest := Walk(bs[1..], d.config, justHeader, step);
          DumpOutcome(d.lines + rest.lines, rest.error, rest.config)
  }

  /** The dump of one node in `rs.c`: look its key up, then dump its type. */
  function DumpStep(little: bool, libc: Libc): Step
  {
    (b, config) => DumpBlock(b, config, little, libc)
  }

  /**
    `dump_list`: the walk from the zeroed configuration.  The key is looked up
    before the header-only check, but 'BODY' is always in the dictionary, so
    the order does not matter.
   */
  function DumpList(bs: seq<Block>, justHeader: bool, little: bool, libc: Libc): (r: DumpOutcome)
    ensures r == Walk(bs, Unset, justHeader, DumpStep(little, libc))
  {
    FindKeyOf(Body);
    Walk(bs, Unset, justHeader, DumpStep(little, libc))
  }

  /** The first 'BODY' node, or the length of the list when there is none. */
  function FirstBody(bs: seq<Block>): (k: nat)
    ensures k <= |bs|
    ensures forall i :: 0 <= i < k ==> bs[i].key != KEY_BODY
    ensures k < |bs| ==> bs[k].key == KEY_BODY
  {
    if |bs| == 0 || bs[0].key == KEY_BODY then 0 else 1 + FirstBody(bs[1..])
  }

  /**
    A header-only dump is exactly the full dump of the nodes before the
    first 'BODY': the same lines, the same error if one comes first.
   */
  lemma {:induction false} HeaderOnlyIsPrefixDump(bs: seq<Block>, config: Config, step: Step)
    ensures Walk(bs, config, true, step) == Walk(bs[..FirstBody(bs)], config, false, step)
    decreases |bs|
  {
    var k := FirstBody(bs);
    if |bs| > 0 && k > 0 {
      assert bs[..k][0] == bs[0];
      assert bs[..k][1..] == bs[1..][..FirstBody(bs[1..])];
      match step(bs[0], config)
      case Failure(_) =>
      case Success(d) =>
        HeaderOnlyIsPrefixDump(bs[1..], d.config, step);
    }
  }

  /**
    Dumping two lists one after the other: when the first is dumped whole
    (no error, and no 'BODY' in it if only the header is wanted), the lines
    of the second follow, dumped from the configuration the first left.
   */
  lemma {:induction false} WalkAppend(a: seq<Block>, b: seq<Block>, config: Config, justHeader: bool, step: Step)
    requires Walk(a, config, justHeader, step).error.None?
    requires justHeader ==> forall i :: 0 <= i < |a| ==> a[i].key != KEY_BODY
    ensures var ra := Walk(a, config, justHeader, step);
      var rb := Walk(b, ra.config, justHeader, step);
      Walk(a + b, config, justHeader, step) == DumpOutcome(ra.lines + rb.lines, rb.error, rb.config)
    decreases |a|
  {
    if |a| == 0 {
      assert a + b == b;
    } else {
      assert (a + b)[0] == a[0] && (a + b)[1..] == a[1..] + b;
      var d := step(a[0], config).value;
      WalkAppend(a[1..], b, d.config, justHeader, step);
    }
  }

  /** An error in the first list stops the walk before the second is reached. */
  lemma {:induction false} WalkErrorStops(a: seq<Block>, b: seq<Block>, config: Config, justHeader: bool, step: Step)
    requires Walk(a, config, justHeader, step).error.Some?
    ensures Walk(a + b, config, justHeader, step) == Walk(a, config, justHeader, step)
    decreases |a|
  {
    assert (a + b)[0] == a[0] && (a + b)[1..] == a[1..] + b;
    if step(a[0], config).Success? {
      WalkErrorStops(a[1..], b, step(a[0], config).value.config, justHeader, step);
    }
  }

  /** The configuration the 'fbin' blocks of a list leave: that of the last one long enough to be read. */
  function LastFbin(bs: seq<Block>, config: Config, little: bool): Config
    decreases |bs|
  {
    if |bs| == 0 then config
    else
      var b := bs[|bs| - 1];
      if b.key == KEY_fbin && |b.data| >= 8 then FbinConfig(b.data, little)
      else LastFbin(bs[..|bs| - 1], config, little)
  }

  /** A node dumped without error leaves the configuration an 'fbin' node sets, or the one it was given. */
  lemma DumpBlockConfig(b: Block, config: Config, little: bool, libc: Libc)
    requires DumpBlock(b, config, little, libc).Success?
    ensures DumpBlock(b, config, little, libc).value.config == LastFbin([b], config, little)
  {
    var t := FindBlockFunctions(b.key).value;
    DumpNodeConfig(t, b.data, config, little, libc);
    LastFbinOne(b, config, little);
    FbinKey(t);
  }

  lemma LastFbinOne(b: Block, config: Config, little: bool)
    ensures LastFbin([b], config, little) == if b.key == KEY_fbin && |b.data| >= 8 then FbinConfig(b.data, little) else config
  {
    assert [b][..0] == [];
  }

  /** Only 'fbin' has the 'fbin' key, and its struct is 8 bytes. */
  lemma FbinKey(t: BlockType)
    ensures t == Fbin <==> KeyOf(t) == KEY_fbin
    ensures MinSize(Fbin) == 8
  {
    FindKeyOf(Fbin);
  }

  /**
    A list dumped without error leaves the configuration of its last 'fbin'
    block, or the one it started from when it has none.
   */
  lemma {:induction false} DumpKeepsLastFbin(bs: seq<Block>, config: Config, justHeader: bool, little: bool, libc: Libc)
    requires Walk(bs, config, justHeader, DumpStep(little, libc)).error.None?
    requires justHeader ==> forall i :: 0 <= i < |bs| ==> bs[i].key != KEY_BODY
    ensures Walk(bs, config, justHeader, DumpStep(little, libc)).config == LastFbin(bs, config, little)
    decreases |bs|
  {
    if |bs| > 0 {
      var step := DumpStep(little, libc);
      var a, last := bs[..|bs| - 1], bs[|bs| - 1];
      WalkSplitLast(bs, config, justHeader, step);
      var ra := Walk(a, config, justHeader, step);
      DumpKeepsLastFbin(a, config, justHeader, little, libc);
      DumpBlockConfig(last, ra.config, little, libc);
      LastFbinSnoc(bs, config, little);
    }
  }

  /** A clean walk of a non-empty list is a clean walk of all but its last node, then a successful step on the last. */
  lemma WalkSplitLast(bs: seq<Block>, config: Config, justHeader: bool, step: Step)
    requires |bs| > 0 && Walk(bs, config, justHeader, step).error.None?
    requires justHeader ==> forall i :: 0 <= i < |bs| ==> bs[i].key != KEY_BODY
    ensures var a, last := bs[..|bs| - 1], bs[|bs| - 1];
      var ra := Walk(a, config, justHeader, step);
      ra.error.None? && step(last, ra.config).Success? &&
      Walk(bs, config, justHeader, step).config == step(last, ra.config).value.config
  {
    var a, last := bs[..|bs| - 1], bs[|bs| - 1];
    assert bs == a + [last];
    var ra := Walk(a, config, justHeader, step);
    assert ra.error.None? by {
      if ra.error.Some? {
        WalkErrorStops(a, [last], config, justHeader, step);
      }
    }
    WalkAppend(a, [last], config, justHeader, step);
    assert [last][1..] == [];
    assert !(justHeader && last.key == KEY_BODY);
  }

  /** The last node of a list settles the configuration when it is a readable 'fbin', else the rest does. */
  lemma LastFbinSnoc(bs: seq<Block>, config: Config, little: bool)
    requires |bs| > 0
    ensures var a, last := bs[..|bs| - 1], bs[|bs| - 1];
      LastFbin(bs, config, little) == LastFbin([last], LastFbin(a, config, little), little)
  {
    LastFbinOne(bs[|bs| - 1], LastFbin(bs[..|bs| - 1], config, little), little);
  }

  // ---------------------------------------------------------------------
  // rsdump

  /** What `rsdump` prints and the exit status it returns. */
  datatype Report = Report(lines: seq<string>, status: nat)

  /**
    `rsdump` as written: a file that cannot be decoded (a bad header key, a
    header cut short) prints nothing and still exits with status 0; a dump
    error exits with status 1 after the lines printed before it.
   */
  function RsdumpAsWritten(buffer: seq<Byte>, justHeader: bool, little: bool, libc: Libc): (r: Report)
  {
    match ParseFile(buffer, little)
    case Failure(_) => Report([], 0)
    case Success(bs) =>
      var d := DumpList(bs, justHeader, little, libc);
      Report(d.lines, if d.error.Some? then 1 else 0)
  }

  /** A file that does not start with 'AQFT' is refused, yet `rsdump` reports success. */
  lemma BadHeaderExitsZero(buffer: seq<Byte>, little: bool, libc: Libc)
    requires |buffer| > HeaderSize && Word(buffer[..4]) != KEY_AQFT
    ensures RsdumpAsWritten(buffer, false, little, libc) == Report([], 0)
  {
  }

  /** The same file through `rsdump` with every failure reported as status 1. */
  function Rsdump(buffer: seq<Byte>, justHeader: bool, little: bool, libc: Libc): (r: Report)
    ensures r.status == 0 <==>
      ParseFile(buffer, little).Success? && DumpList(ParseFile(buffer, little).value, justHeader, little, libc).error.None?
    ensures ParseFile(buffer, little).Failure? ==> r == Report([], 1)
    ensures r.status <= 1
  {
    match ParseFile(buffer, little)
    case Failure(_) => Report([], 1)
    case Success(bs) =>
      var d := DumpList(bs, justHeader, little, libc);
      Report(d.lines, if d.error.Some? then 1 else 0)
  }

  /** The two agree on every file that decodes; they differ only on the status of one that does not. */
  lemma RsdumpAgrees(buffer: seq<Byte>, justHeader: bool, little: bool, libc: Libc)
    ensures ParseFile(buffer, little).Success? ==>
      Rsdump(buffer, justHeader, little, libc) == RsdumpAsWritten(buffer, justHeader, little, libc)
    ensures ParseFile(buffer, little).Failure? ==>
      RsdumpAsWritten(buffer, justHeader, little, libc).status == 0 && Rsdump(buffer, justHeader, little, libc).status == 1
  {
  }
}
