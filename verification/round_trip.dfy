/**
  `rsdump` then `rsgen`: the text one block is dumped to, read back by the
  block's `make_node_<type>`, gives a node that `gen_block_<type>` writes
  as the block's original wire bytes, provided each field's text survives
  the trip (the field conditions of `FieldText.Printable`).
 */
module RoundTrip {
  import opened Wrappers
  import opened ByteOrder
  import opened Registry
  import opened Blocks
  import opened LeafFixup
  import opened Decoder
  import opened Encoder
  import opened Scan
  import opened TextStream
  import opened Parameters
  import opened FieldText
  import opened Dump
  import opened Make
  import opened Numerals
  import opened RsGen

  // ---------------------------------------------------------------------
  // Field tables

  /** Every field of the table survives the text trip, and none is half of a sample pair. */
  predicate AllPrintable(fields: seq<FieldKind>, wire: seq<Byte>, libc: Libc)
    requires TotalWidth(fields) <= |wire|
    decreases |fields|
  {
    |fields| == 0 ||
    (var w := Width(fields[0]);
     !fields[0].Float32? && Printable(fields[0], wire[..w], libc) &&
     AllPrintable(fields[1..], wire[w..], libc))
  }

  /**
    The lines `shown` are, one per field, the field's label and a value text
    that the search for that label reads back as the field's wire bytes.
   */
  predicate ReadableLines(fields: seq<FieldKind>, names: seq<string>, shown: seq<string>, wire: seq<Byte>, little: bool, libc: Libc)
    requires |names| == |fields| && TotalWidth(fields) <= |wire|
    decreases |fields|
  {
    |shown| == |fields| &&
    (|fields| == 0 ||
     (var w := Width(fields[0]);
      Labelled(shown[0], names[0]) &&
      ReadsBack(fields[0], names[0], shown[0][|names[0]| + 1..], wire[..w], little, libc) &&
      ReadableLines(fields[1..], names[1..], shown[1..], wire[w..], little, libc)))
  }

  /** A name that can be a label: no colon in it. */
  predicate NoColon(name: string)
  {
    forall i :: 0 <= i < |name| ==> name[i] != ':'
  }

  /** Field names that are labels and tell the fields apart. */
  predicate DistinctNames(names: seq<string>)
  {
    NoColons(names) && Differ(names)
  }

  predicate NoColons(names: seq<string>)
  {
    forall i :: 0 <= i < |names| ==> NoColon(names[i])
  }

  predicate Differ(names: seq<string>)
  {
    forall i, j :: 0 <= i < j < |names| ==> names[i] != names[j]
  }

  lemma LabelOfName(name: string)
    requires NoColon(name)
    ensures IsLabel(name + ":")
  {
    var tag := name + ":";
    assert forall i :: 0 <= i < |tag| - 1 ==> tag[i] == name[i];
  }

  /** Two different names give two different labels. */
  lemma LabelsDiffer(a: string, b: string)
    requires a != b
    ensures a + ":" != b + ":"
  {
    assert (a + ":")[..|a|] == a;
    assert (b + ":")[..|b|] == b;
  }

  /** The labels of every struct are distinct colon-free names. */
  lemma FieldNamesDistinct(t: BlockType)
    ensures DistinctNames(FieldNames(t))
  {
    match t
    case Sign => SignNamesDistinct();
    case Cnst => CnstNamesDistinct();
    case Swep => SwepNamesDistinct();
    case Gps1 => Gps1NamesDistinct();
    case Fbin => PairDistinct("format", "type");
    case Scal => PairDistinct("scalar_one", "scalar_two");
    case _ =>
  }

  lemma SignNamesDistinct()
    ensures DistinctNames(FieldNames(Sign))
  {
    SignNoColons();
    SignDiffer();
  }

  lemma SignNoColons()
    ensures NoColons(FieldNames(Sign))
  {
  }

  lemma SignDiffer()
    ensures Differ(FieldNames(Sign))
  {
  }

  lemma CnstNamesDistinct()
    ensures DistinctNames(FieldNames(Cnst))
  {
  }

  lemma SwepNamesDistinct()
    ensures DistinctNames(FieldNames(Swep))
  {
    SwepNoColons();
    SwepDiffer();
  }

  lemma SwepNoColons()
    ensures NoColons(FieldNames(Swep))
  {
  }

  lemma SwepDiffer()
    ensures Differ(FieldNames(Swep))
  {
  }

  lemma Gps1NamesDistinct()
    ensures DistinctNames(FieldNames(Gps1))
  {
  }

  lemma PairDistinct(a: string, b: string)
    requires NoColon(a) && NoColon(b) && a != b
    ensures DistinctNames([a, b])
  {
  }

  // ---------------------------------------------------------------------
  // The field lines

  /**
    The fields of a struct read from the wire all show, and each line the
    dump prints reads back as its field's wire bytes.
   */
  lemma {:induction false} DumpedFieldsReadBack(fields: seq<FieldKind>, names: seq<string>, wire: seq<Byte>, little: bool, libc: Libc)
    requires |names| == |fields| && TotalWidth(fields) <= |wire| && AllPrintable(fields, wire, libc)
    ensures NoSampleFields(fields)
    ensures var mem := ApplyFields(fields, wire, little, SwappedWhenRead);
      AllShown(fields, mem, little, libc) &&
      ReadableLines(fields, names, DumpFields(fields, names, mem, little, libc), wire, little, libc)
    decreases |fields|
  {
    if |fields| > 0 {
      var k0, w := fields[0], Width(fields[0]);
      var mem := ApplyFields(fields, wire, little, SwappedWhenRead);
      ApplyFieldsSplit(fields, wire, little, SwappedWhenRead);
      var memRest := ApplyFields(fields[1..], wire[w..], little, SwappedWhenRead);
      assert mem[..w] == Corrected(k0, wire[..w], little, SwappedWhenRead) && mem[w..] == memRest;
      PrintableParts(fields, wire, libc);
      DumpedFieldsReadBack(fields[1..], names[1..], wire[w..], little, libc);
      NoSampleCons(fields);
      FieldRoundTrip(k0, names[0], wire[..w], little, libc);
      DumpFieldsFirst(fields, names, mem, little, libc);
      var v := DumpValue(k0, mem[..w], little, libc).value;
      var shown := DumpFields(fields, names, mem, little, libc);
      assert shown[0] == names[0] + ":" + v;
      assert shown[0][|names[0]| + 1..] == v;
    }
  }

  /** The first field of a printable table prints, and so do the rest. */
  lemma PrintableParts(fields: seq<FieldKind>, wire: seq<Byte>, libc: Libc)
    requires 0 < |fields| && TotalWidth(fields) <= |wire| && AllPrintable(fields, wire, libc)
    ensures var w := Width(fields[0]);
      w <= |wire| && !fields[0].Float32? && Printable(fields[0], wire[..w], libc) &&
      TotalWidth(fields[1..]) <= |wire[w..]| && AllPrintable(fields[1..], wire[w..], libc)
  {
  }

  lemma NoSampleCons(fields: seq<FieldKind>)
    requires 0 < |fields| && !fields[0].Float32? && NoSampleFields(fields[1..])
    ensures NoSampleFields(fields)
  {
    forall i | 0 < i < |fields| ensures !fields[i].Float32? {
      assert fields[1..][i - 1] == fields[i];
    }
  }

  /**
    `make` reads the field lines back: when the lines from `c` are first
    lines labelled with the names `before`, then `shown`, and all the names
    are distinct labels, every field is found and the memory `make` fills
    in is written out as `wire`.
   */
  lemma {:induction false} MakeFieldsReadBack(fields: seq<FieldKind>, names: seq<string>, shown: seq<string>, wire: seq<Byte>,
                                             lines: seq<string>, c: Cursor, before: seq<string>, little: bool, libc: Libc, zeroTime: bool)
    requires |names| == |fields| && TotalWidth(fields) == |wire| && Valid(lines, c)
    requires ReadableLines(fields, names, shown, wire, little, libc)
    requires |before| + |shown| <= |Texts(lines, c)| && Texts(lines, c)[|before|..|before| + |shown|] == shown
    requires forall j :: 0 <= j < |before| ==> Labelled(Texts(lines, c)[j], before[j])
    requires DistinctNames(before + names)
    ensures MakeFields(fields, names, lines, c, little, libc, zeroTime).Success?
    ensures ApplyFields(fields, MakeFields(fields, names, lines, c, little, libc, zeroTime).value, little, SwappedWhenWritten) == wire
    decreases |fields|
  {
    if |fields| > 0 {
      var n0, k0, w := names[0], fields[0], Width(fields[0]);
      var conv := ConversionOf(k0);
      ReadableParts(fields, names, shown, wire, little, libc);
      NextLabel(Texts(lines, c), before, names, shown);
      OwnLineFound(lines, c, before, n0, conv, shown[0], little, libc);
      MakeFieldsReadBack(fields[1..], names[1..], shown[1..], wire[w..], lines, c, before + [n0], little, libc, zeroTime);
      FirstFieldMade(fields, names, wire, lines, c, little, libc, zeroTime);
    }
  }

  /** When the first field's line reads back and the rest are made, the whole struct is made. */
  lemma FirstFieldMade(fields: seq<FieldKind>, names: seq<string>, wire: seq<Byte>, lines: seq<string>, c: Cursor, little: bool, libc: Libc, zeroTime: bool)
    requires 0 < |names| == |fields| && TotalWidth(fields) == |wire| && Valid(lines, c)
    requires var k0 := fields[0];
      var found := ReadParameter(lines, c, names[0] + ":", ConversionOf(k0), little, libc);
      found.Found? && Corrected(k0, Stored(k0, Zeros(Width(k0)), found.image, little), little, SwappedWhenWritten) == wire[..Width(k0)]
    requires var rest := MakeFields(fields[1..], names[1..], lines, c, little, libc, zeroTime);
      rest.Success? && ApplyFields(fields[1..], rest.value, little, SwappedWhenWritten) == wire[Width(fields[0])..]
    ensures MakeFields(fields, names, lines, c, little, libc, zeroTime).Success?
    ensures ApplyFields(fields, MakeFields(fields, names, lines, c, little, libc, zeroTime).value, little, SwappedWhenWritten) == wire
  {
    var k0, w := fields[0], Width(fields[0]);
    MakeFieldsFirst(fields, names, lines, c, little, libc, zeroTime);
    var found := ReadParameter(lines, c, names[0] + ":", ConversionOf(k0), little, libc);
    WrittenBack(fields, Stored(k0, Zeros(w), found.image, little), MakeFields(fields[1..], names[1..], lines, c, little, libc, zeroTime).value, wire, little);
  }

  /** The first line of readable lines reads back as the first field, and the rest as the rest. */
  lemma ReadableParts(fields: seq<FieldKind>, names: seq<string>, shown: seq<string>, wire: seq<Byte>, little: bool, libc: Libc)
    requires 0 < |names| == |fields| && TotalWidth(fields) == |wire|
    requires ReadableLines(fields, names, shown, wire, little, libc)
    ensures var w := Width(fields[0]);
      w <= |wire| && |shown| == |fields| && TotalWidth(fields[1..]) == |wire[w..]| &&
      Labelled(shown[0], names[0]) &&
      ReadsBack(fields[0], names[0], shown[0][|names[0]| + 1..], wire[..w], little, libc) &&
      ReadableLines(fields[1..], names[1..], shown[1..], wire[w..], little, libc)
  {
  }

  /** After the line of the first name, the search for the next starts with one more label passed over. */
  lemma NextLabel(ts: seq<string>, before: seq<string>, names: seq<string>, shown: seq<string>)
    requires 0 < |names| == |shown| && |before| + |shown| <= |ts| && ts[|before|..|before| + |shown|] == shown
    requires Labelled(shown[0], names[0])
    requires forall j :: 0 <= j < |before| ==> Labelled(ts[j], before[j])
    requires DistinctNames(before + names)
    ensures ts[|before|] == shown[0] == names[0] + ":" + shown[0][|names[0]| + 1..]
    ensures NoColon(names[0]) && forall j :: 0 <= j < |before| ==> NoColon(before[j]) && before[j] != names[0]
    ensures var before' := before + [names[0]];
      DistinctNames(before' + names[1..]) &&
      |before'| + |shown[1..]| <= |ts| && ts[|before'|..|before'| + |shown[1..]|] == shown[1..] &&
      forall j :: 0 <= j < |before'| ==> Labelled(ts[j], before'[j])
  {
    var k, n0, all := |before|, names[0], before + names;
    assert ts[k] == ts[k..k + |shown|][0];
    assert all[k] == n0;
    forall j | 0 <= j < k ensures NoColon(before[j]) && before[j] != n0 {
      assert all[j] == before[j];
    }
    ShiftName(before, names);
    LabelledOneMore(ts, before, n0);
    var before' := before + [n0];
    assert ts[|before'|..|before'| + |shown[1..]|] == ts[k..k + |shown|][1..];
  }

  /** `make` stores the value found for the first field, then the fields after it. */
  lemma MakeFieldsFirst(fields: seq<FieldKind>, names: seq<string>, lines: seq<string>, c: Cursor, little: bool, libc: Libc, zeroTime: bool)
    requires 0 < |names| == |fields| && Valid(lines, c)
    requires ReadParameter(lines, c, names[0] + ":", ConversionOf(fields[0]), little, libc).Found?
    requires MakeFields(fields[1..], names[1..], lines, c, little, libc, zeroTime).Success?
    ensures MakeFields(fields, names, lines, c, little, libc, zeroTime)
      == Success(Stored(fields[0], Zeros(Width(fields[0])), ReadParameter(lines, c, names[0] + ":", ConversionOf(fields[0]), little, libc).image, little)
                 + MakeFields(fields[1..], names[1..], lines, c, little, libc, zeroTime).value)
  {
  }

  /**
    The search for the label `name:` passes over the lines labelled with the
    other names `before` and settles on the line `own` that follows them.
   */
  lemma OwnLineFound(lines: seq<string>, c: Cursor, before: seq<string>, name: string, conv: Conversion, own: string, little: bool, libc: Libc)
    requires Valid(lines, c) && |before| < |Texts(lines, c)| && Texts(lines, c)[|before|] == own
    requires forall j :: 0 <= j < |before| ==> Labelled(Texts(lines, c)[j], before[j])
    requires NoColon(name) && forall j :: 0 <= j < |before| ==> NoColon(before[j]) && before[j] != name
    requires Labelled(own, name) && !Skipped(own, name + ":", conv, little, libc)
    ensures ReadParameter(lines, c, name + ":", conv, little, libc) == Verdict(own, name + ":", conv, little, libc)
  {
    var ts, tag := Texts(lines, c), name + ":";
    LabelOfName(name);
    forall j | 0 <= j < |before| ensures Skipped(ts[j], tag, conv, little, libc) {
      LabelOfName(before[j]);
      LabelsDiffer(before[j], name);
      ScanOtherLabel(ts[j], before[j] + ":", tag, conv, little, libc);
    }
    ReadParameterStops(lines, c, tag, conv, little, libc, |before|);
  }

  lemma LabelledOneMore(ts: seq<string>, before: seq<string>, name: string)
    requires |before| < |ts| && Labelled(ts[|before|], name)
    requires forall j :: 0 <= j < |before| ==> Labelled(ts[j], before[j])
    ensures forall j :: 0 <= j < |before| + 1 ==> Labelled(ts[j], (before + [name])[j])
  {
  }

  lemma ShiftName(before: seq<string>, names: seq<string>)
    requires |names| > 0
    ensures (before + [names[0]]) + names[1..] == before + names
  {
    assert names == [names[0]] + names[1..];
  }

  /** The first field written back and the rest written back make the whole struct written back. */
  lemma WrittenBack(fields: seq<FieldKind>, first: seq<Byte>, rest: seq<Byte>, wire: seq<Byte>, little: bool)
    requires 0 < |fields| && |first| == Width(fields[0]) && TotalWidth(fields) == |wire| == |first| + |rest|
    requires Corrected(fields[0], first, little, SwappedWhenWritten) == wire[..|first|]
    requires ApplyFields(fields[1..], rest, little, SwappedWhenWritten) == wire[|first|..]
    ensures ApplyFields(fields, first + rest, little, SwappedWhenWritten) == wire
  {
    var w := |first|;
    ApplyFieldsSplit(fields, first + rest, little, SwappedWhenWritten);
    assert (first + rest)[..w] == first && (first + rest)[w..] == rest;
    assert wire == wire[..w] + wire[w..];
  }

  // ---------------------------------------------------------------------
  // Fixed leaves

  /** Lines `fgets` with the driver's buffer delivers whole. */
  predicate ShortPlainLines(lines: seq<string>)
  {
    forall i :: 0 <= i < |lines| ==> Plain(lines[i]) && |lines[i]| <= SIZE_LINE - 2
  }

  /** The node `rsdump` builds for a fixed leaf holds the struct corrected to host order. */
  lemma FixedLeafNode(t: BlockType, wire: seq<Byte>, little: bool)
    requires FixedLeaf(t) && |wire| == MinSize(t) == StructSize(t)
    ensures LeafNode(KeyOf(t), |wire| as U32, wire, little).data == ApplyFields(Fields(t), wire, little, SwappedWhenRead)
  {
    FindKeyOf(t);
    FixupDataOfFixedLeaf(t, wire, little);
  }

  /**
    `rsdump` of a fixed leaf whose fields survive the text trip: the name,
    one readable line per field, a blank line.
   */
  lemma FixedLeafDump(t: BlockType, wire: seq<Byte>, config: Config, little: bool, libc: Libc)
    requires FixedLeaf(t) && |wire| == MinSize(t) == StructSize(t) && AllPrintable(Fields(t), wire, libc)
    ensures NoSampleFields(Fields(t))
    ensures var b := LeafNode(KeyOf(t), |wire| as U32, wire, little);
      var shown := DumpFields(Fields(t), FieldNames(t), b.data, little, libc);
      DumpBlock(b, config, little, libc).Success? &&
      DumpBlock(b, config, little, libc).value.lines == [Name(t)] + shown + [""] &&
      ReadableLines(Fields(t), FieldNames(t), shown, wire, little, libc)
  {
    FixedLeafDumpLines(t, wire, config, little, libc);
    FixedLeafNode(t, wire, little);
    DumpedFieldsReadBack(Fields(t), FieldNames(t), wire, little, libc);
  }

  /** The lines of a fixed leaf: its name, its field lines, a blank line. */
  lemma FixedLeafDumpLines(t: BlockType, wire: seq<Byte>, config: Config, little: bool, libc: Libc)
    requires FixedLeaf(t) && |wire| == MinSize(t) == StructSize(t)
    ensures |FieldNames(t)| == |Fields(t)| && TotalWidth(Fields(t)) <= |wire| && NoSampleFields(Fields(t))
    ensures var b := LeafNode(KeyOf(t), |wire| as U32, wire, little);
      |b.data| == |wire| &&
      DumpBlock(b, config, little, libc).Success? &&
      DumpBlock(b, config, little, libc).value.lines == [Name(t)] + DumpFields(Fields(t), FieldNames(t), b.data, little, libc) + [""]
  {
    var b := LeafNode(KeyOf(t), |wire| as U32, wire, little);
    FixedTables(t, wire);
    FixedLeafNode(t, wire, little);
    DumpBlockOfType(t, b, config, little, libc);
    DumpNodeFixed(t, b.data, config, little, libc);
  }

  /**
    `make_node_<type>` of a fixed leaf reading field lines that read back as
    `wire`: the node it builds holds the memory image of `wire`, so it is
    the node `rsgen` writes as `wire`, and the driver goes on from where it
    was.
   */
  lemma FixedLeafMake(t: BlockType, shown: seq<string>, wire: seq<Byte>, lines: seq<string>, c: Cursor, config: Config, little: bool, libc: Libc)
    requires FixedLeaf(t) && |wire| == MinSize(t) == StructSize(t) && Valid(lines, c)
    requires ReadableLines(Fields(t), FieldNames(t), shown, wire, little, libc)
    requires |shown| <= |Texts(lines, c)| && Texts(lines, c)[..|shown|] == shown
    ensures var m := MakeNode(t, lines, c, config, little, libc);
      m.Success? && m.value.next == c &&
      m.value.block == Block(KeyOf(t), |wire| as U32, MakeLayout(t, wire, little))
  {
    FieldNamesDistinct(t);
    StructRead(Fields(t), FieldNames(t), shown, wire, lines, c, little, libc, true);
    MakeNodeFixed(t, lines, c, config, little, libc);
    MakeLayoutFixed(t, wire, little);
  }

  /**
    The field lines of a struct with distinct labels, read back from the
    first lines at `c`, fill in the memory image of `wire`.
   */
  lemma StructRead(fields: seq<FieldKind>, names: seq<string>, shown: seq<string>, wire: seq<Byte>, lines: seq<string>, c: Cursor, little: bool, libc: Libc, zeroTime: bool)
    requires |names| == |fields| && TotalWidth(fields) == |wire| && Valid(lines, c)
    requires DistinctNames(names) && ReadableLines(fields, names, shown, wire, little, libc)
    requires |shown| <= |Texts(lines, c)| && Texts(lines, c)[..|shown|] == shown
    ensures MakeFields(fields, names, lines, c, little, libc, zeroTime) == Success(ApplyFields(fields, wire, little, SwappedWhenWritten))
  {
    var m := MakeFields(fields, names, lines, c, little, libc, zeroTime);
    assert m.Success? && ApplyFields(fields, m.value, little, SwappedWhenWritten) == wire by {
      assert [] + names == names;
      assert Texts(lines, c)[0..0 + |shown|] == shown;
      MakeFieldsReadBack(fields, names, shown, wire, lines, c, [], little, libc, zeroTime);
    }
    ApplyFieldsInvolution(fields, m.value, little, SwappedWhenWritten);
  }

  /**
    A fixed leaf written out by `rsdump` and read back by its
    `make_node_<type>` (the driver having read the name line) is written by
    `rsgen` exactly as it was.
   */
  lemma FixedLeafRoundTrip(t: BlockType, wire: seq<Byte>, config: Config, little: bool, libc: Libc)
    requires FixedLeaf(t) && |wire| == MinSize(t) == StructSize(t) && AllPrintable(Fields(t), wire, libc)
    requires var d := DumpBlock(LeafNode(KeyOf(t), |wire| as U32, wire, little), config, little, libc);
      d.Success? ==> ShortPlainLines(d.value.lines)
    ensures var d := DumpBlock(LeafNode(KeyOf(t), |wire| as U32, wire, little), config, little, libc);
      d.Success? && |d.value.lines| >= 1 &&
      var m := MakeNode(t, d.value.lines, Cursor(1, 0), config, little, libc);
      m.Success? && m.value.block == Block(KeyOf(t), |wire| as U32, MakeLayout(t, wire, little))
  {
    FixedLeafDump(t, wire, config, little, libc);
    var b := LeafNode(KeyOf(t), |wire| as U32, wire, little);
    var lines := DumpBlock(b, config, little, libc).value.lines;
    var shown := DumpFields(Fields(t), FieldNames(t), b.data, little, libc);
    TextsAfterName(lines, Name(t), shown);
    FixedLeafMake(t, shown, wire, lines, Cursor(1, 0), config, little, libc);
  }

  // ---------------------------------------------------------------------
  // A zero timestamp

  /** Zero bytes are the same in either byte order. */
  lemma {:induction false} ZerosFixed(fields: seq<FieldKind>, n: nat, little: bool, swap: FieldKind -> bool)
    requires TotalWidth(fields) <= n
    ensures ApplyFields(fields, Zeros(n), little, swap) == Zeros(n)
    decreases |fields|
  {
    if |fields| > 0 {
      var w := Width(fields[0]);
      assert Zeros(n)[..w] == Zeros(w) && Zeros(n)[w..] == Zeros(n - w);
      ZerosFixed(fields[1..], n - w, little, swap);
      var c := Corrected(fields[0], Zeros(w), little, swap);
      assert c == Zeros(w);
      assert c + Zeros(n - w) == Zeros(n);
    }
  }

  /** Zero bytes hold the value zero in either byte order. */
  lemma {:induction false} ZerosValue(n: nat)
    ensures BE(Zeros(n)) == 0 && LE(Zeros(n)) == 0
  {
    if n > 0 {
      assert Zeros(n)[..n - 1] == Zeros(n - 1) && Zeros(n)[1..] == Zeros(n - 1);
      ZerosValue(n - 1);
    }
  }

  /** The node `rsdump` builds for an 'mcda' of zero bytes holds zero bytes. */
  lemma ZeroMcdaNode(little: bool)
    ensures LeafNode(KEY_mcda, 4, Zeros(4), little) == Block(KEY_mcda, 4, Zeros(4))
  {
    assert KeyOf(Mcda) == KEY_mcda && |Zeros(4)| as U32 == 4;
    FixedLeafNode(Mcda, Zeros(4), little);
    ZerosFixed(Fields(Mcda), 4, little, SwappedWhenRead);
  }

  /** A zero timestamp has no field line. */
  lemma ZeroTimestampFields(little: bool, libc: Libc)
    ensures NoSampleFields(Fields(Mcda)) && DumpFields(Fields(Mcda), FieldNames(Mcda), Zeros(4), little, libc) == []
  {
    FixedTables(Mcda, Zeros(4));
    ZerosValue(4);
    assert Zeros(4)[..4] == Zeros(4) && Zeros(4)[4..] == [];
    assert DumpValue(Timestamp, Zeros(4), little, libc).None?;
    assert FieldLines(Timestamp, "filetimestamp", Zeros(4), little, libc) == [];
  }

  /** The record of a zero timestamp: the name and the blank line. */
  lemma ZeroTimestampFixed(config: Config, little: bool, libc: Libc)
    ensures FixedLeaf(Mcda) && MinSize(Mcda) == 4
    ensures DumpFixed(Mcda, Zeros(4), config, little, libc) == Dumped([Name(Mcda), ""], config)
  {
    assert FixedLeaf(Mcda) && MinSize(Mcda) == 4;
    ZeroTimestampFields(little, libc);
    assert Framed(Name(Mcda), []) == [Name(Mcda), ""];
  }

  /** 'mcda' with a zero timestamp dumps as its name and the blank line, with no timestamp line. */
  lemma ZeroTimestampDump(config: Config, little: bool, libc: Libc)
    ensures DumpBlock(LeafNode(KEY_mcda, 4, Zeros(4), little), config, little, libc) == Success(Dumped([Name(Mcda), ""], config))
  {
    ZeroMcdaNode(little);
    ZeroTimestampFixed(config, little, libc);
    var b := Block(KEY_mcda, 4, Zeros(4));
    DumpBlockOfType(Mcda, b, config, little, libc);
    DumpNodeFixed(Mcda, b.data, config, little, libc);
  }

  /**
    As written, `make_node_mcda` refuses the record `rsdump` prints for a
    zero timestamp: the search for "filetimestamp:" meets the blank line,
    so `rsgen` stops with status 1 on a file it dumped itself.
   */
  lemma ZeroTimestampRefused(config: Config, little: bool, libc: Libc)
    ensures var d := DumpBlock(LeafNode(KEY_mcda, 4, Zeros(4), little), config, little, libc);
      d.Success? && Valid(d.value.lines, Cursor(1, 0)) &&
      MakeFixed(Mcda, d.value.lines, Cursor(1, 0), config, little, libc, false) == Failure(MissingField("filetimestamp"))
  {
    ZeroTimestampDump(config, little, libc);
    ZeroTimestampMissing(little, libc);
    assert FieldNames(Mcda)[0] == "filetimestamp" && Fields(Mcda)[0] == Timestamp;
  }

  /** The search for the timestamp in the record of a zero timestamp meets the blank line. */
  lemma ZeroTimestampMissing(little: bool, libc: Libc)
    ensures Valid([Name(Mcda), ""], Cursor(1, 0))
    ensures ReadParameter([Name(Mcda), ""], Cursor(1, 0), FieldNames(Mcda)[0] + ":", ConversionOf(Fields(Mcda)[0]), little, libc) == Missing
  {
    var lines := [Name(Mcda), ""];
    assert Valid(lines, Cursor(1, 0));
    assert FieldNames(Mcda)[0] + ":" == "filetimestamp:" && ConversionOf(Fields(Mcda)[0]) == Unsigned;
    assert ReadParameter(lines, Cursor(1, 0), "filetimestamp:", Unsigned, little, libc) == Missing;
  }

  /** The corrected reader stores zero for the missing timestamp. */
  lemma ZeroTimestampFieldsMade(little: bool, libc: Libc)
    ensures Valid([Name(Mcda), ""], Cursor(1, 0)) && |FieldNames(Mcda)| == |Fields(Mcda)|
    ensures MakeFields(Fields(Mcda), FieldNames(Mcda), [Name(Mcda), ""], Cursor(1, 0), little, libc, true) == Success(Zeros(4))
  {
    ZeroTimestampMissing(little, libc);
    assert Fields(Mcda) == [Timestamp] && |FieldNames(Mcda)| == 1;
    var lines, fields, names := [Name(Mcda), ""], Fields(Mcda), FieldNames(Mcda);
    assert fields[1..] == [] && names[1..] == [];
    assert MakeFields(fields[1..], names[1..], lines, Cursor(1, 0), little, libc, true) == Success([]);
    assert Width(fields[0]) == 4 && Zeros(4) + [] == Zeros(4);
  }

  /**
    The corrected `make` reads the missing timestamp line as zero, so the
    zero-timestamp 'mcda' comes back as the node `rsgen` writes as its wire
    bytes.
   */
  lemma ZeroTimestampRoundTrip(config: Config, little: bool, libc: Libc)
    ensures var d := DumpBlock(LeafNode(KEY_mcda, 4, Zeros(4), little), config, little, libc);
      d.Success? && Valid(d.value.lines, Cursor(1, 0)) &&
      MakeNode(Mcda, d.value.lines, Cursor(1, 0), config, little, libc)
        == Success(Made(Block(KEY_mcda, 4, MakeLayout(Mcda, Zeros(4), little)), config, Cursor(1, 0)))
  {
    ZeroTimestampDump(config, little, libc);
    ZeroTimestampFieldsMade(little, libc);
    var lines := [Name(Mcda), ""];
    MakeNodeFixed(Mcda, lines, Cursor(1, 0), config, little, libc);
    ZeroMcdaLayout(little);
    assert KeyOf(Mcda) == KEY_mcda && StructSize(Mcda) == 4;
  }

  /** The memory image of an 'mcda' of zero bytes is zero bytes. */
  lemma ZeroMcdaLayout(little: bool)
    ensures MakeLayout(Mcda, Zeros(4), little) == Zeros(4)
  {
    assert FixedLeaf(Mcda) && TotalWidth(Fields(Mcda)) == 4;
    MakeLayoutFixed(Mcda, Zeros(4), little);
    ZerosFixed(Fields(Mcda), 4, little, SwappedWhenWritten);
  }

  /** After the name line of a dumped block, `read_parameter` sees the block's lines as they were printed. */
  lemma TextsAfterName(lines: seq<string>, name: string, shown: seq<string>)
    requires lines == [name] + shown + [""] && ShortPlainLines(lines)
    ensures Valid(lines, Cursor(1, 0))
    ensures |shown| <= |Texts(lines, Cursor(1, 0))| && Texts(lines, Cursor(1, 0))[..|shown|] == shown
  {
    TextsOfShortLines(lines, 1);
    assert lines[1..][..|shown|] == shown;
  }

  // ---------------------------------------------------------------------
  // 'hasi'

  /** `%02x` of each byte. */
  function FormatBytes(d: seq<Byte>): (r: seq<string>)
    ensures |r| == |d| && forall i :: 0 <= i < |d| ==> r[i] == FormatByte(d[i])
  {
    seq(|d|, i requires 0 <= i < |d| => FormatByte(d[i]))
  }

  lemma FormatBytesFirst(d: seq<Byte>)
    requires |d| > 0
    ensures FormatBytes(d) == [FormatByte(d[0])] + FormatBytes(d[1..])
  {
  }

  /** `strtoul(..., 16)` reads a byte printed with `%02x` back as the byte. */
  lemma HexByteOfFormat(b: Byte)
    ensures HexByte(FormatByte(b)) == b
  {
    ParseFormatByte(b);
    HexByteOfValue(FormatByte(b), b);
  }

  /** A word read in base 16 as a byte's value gives the byte. */
  lemma HexByteOfValue(word: string, b: Byte)
    requires ParseNumber(word, Hexadecimal) == Some(Number(false, b as nat))
    ensures HexByte(word) == b
  {
  }

  /** `%02x` of a byte is read in base 16 as the byte's value. */
  lemma ParseFormatByte(b: Byte)
    ensures ParseNumber(FormatByte(b), Hexadecimal) == Some(Number(false, b as nat))
  {
    var f := FormatByte(b);
    if b < 16 {
      var c := DigitChar(b as nat, Hexadecimal);
      assert Numeral(b as nat, Hexadecimal) == [c];
      assert f == ['0', c];
      ParseZeroPadded(c);
    } else {
      ParseNumeral(b as nat, Hexadecimal, "");
      assert f + "" == f;
    }
  }

  /** A digit after a leading zero reads as the digit. */
  lemma ParseZeroPadded(c: char)
    requires IsDigit(c, Hexadecimal)
    ensures ParseNumber(['0', c], Hexadecimal) == Some(Number(false, DigitValue(c, Hexadecimal)))
  {
    var s := ['0', c];
    ParseDigits(s, Hexadecimal);
    TwoDigitRun(s, Hexadecimal);
    TwoDigitValue(s, Hexadecimal);
  }

  /** Each byte's word reads back as the byte. */
  lemma HexBytesOfFormat(d: seq<Byte>)
    ensures HexBytesOf(FormatBytes(d)) == d
  {
    forall i | 0 <= i < |d| ensures HexBytesOf(FormatBytes(d))[i] == d[i] {
      HexByteOfFormat(d[i]);
    }
  }

  /** The characters `hexdump` prints for the bytes: blanks and hexadecimal digits. */
  lemma {:induction false} HexBytesChars(d: seq<Byte>)
    ensures forall i :: 0 <= i < |HexBytes(d)| ==> HexBytes(d)[i] == ' ' || IsDigit(HexBytes(d)[i], Hexadecimal)
    decreases |d|
  {
    if |d| > 0 {
      HexBytesChars(d[1..]);
      var f, rest := FormatByte(d[0]), HexBytes(d[1..]);
      assert HexBytes(d) == " " + f + rest;
      forall i | 0 <= i < |HexBytes(d)| ensures HexBytes(d)[i] == ' ' || IsDigit(HexBytes(d)[i], Hexadecimal) {
        if 3 <= i {
          assert HexBytes(d)[i] == rest[i - 3];
        }
      }
    }
  }

  /** The `data:` line is plain text: no terminator or newline in it. */
  lemma HexDumpPlain(d: seq<Byte>)
    ensures Plain(HexDump(d)) && ':' !in HexDump(d)[5..]
  {
    HexBytesChars(d);
    assert HexDump(d)[5..] == HexBytes(d);
    forall i | 5 <= i < |HexDump(d)| ensures HexDump(d)[i] == HexBytes(d)[i - 5] { }
  }

  /** The bytes of a dump split where the bytes split. */
  lemma {:induction false} HexBytesAppend(a: seq<Byte>, b: seq<Byte>)
    ensures HexBytes(a + b) == HexBytes(a) + HexBytes(b)
    decreases |a|
  {
    if |a| > 0 {
      assert (a + b)[1..] == a[1..] + b;
      HexBytesAppend(a[1..], b);
    } else {
      assert a + b == b;
    }
  }

  /** The words after the first byte are those of the bytes after it. */
  lemma TokensOfByte(f: string, rest: string)
    requires |f| == 2 && AllDigits(f, Hexadecimal)
    requires |rest| == 0 || rest[0] == ' '
    ensures Tokens(" " + f + rest) == [f] + Tokens(rest)
  {
    var s, t := " " + f + rest, f + rest;
    assert s[0] == ' ' && s[1..] == t;
    assert IsDigit(t[0], Hexadecimal) && IsDigit(t[1], Hexadecimal);
    assert SkipBlanks(t) == t;
    assert SkipBlanks(s) == t;
    assert t[1..][1..] == rest;
    assert BlankFree(rest) == 0;
    assert BlankFree(t[1..]) == 1;
    assert BlankFree(t) == 2;
    assert t[..2] == f && t[2..] == rest;
  }

  /** `strtok` splits the bytes `hexdump` prints into one word per byte. */
  lemma {:induction false} TokensOfHexBytes(d: seq<Byte>)
    ensures Tokens(HexBytes(d)) == FormatBytes(d)
    decreases |d|
  {
    if |d| > 0 {
      var f, rest := FormatByte(d[0]), HexBytes(d[1..]);
      assert HexBytes(d) == " " + f + rest;
      assert |d[1..]| > 0 ==> rest == " " + FormatByte(d[1..][0]) + HexBytes(d[1..][1..]);
      TokensOfByte(f, rest);
      TokensOfHexBytes(d[1..]);
      FormatBytesFirst(d);
    } else {
      assert SkipBlanks("") == "";
    }
  }

  /** The `data:` line splits into the label and one word per byte. */
  lemma TokensOfHexDump(d: seq<Byte>)
    ensures Tokens(HexDump(d)) == ["data:"] + FormatBytes(d)
  {
    var s := HexDump(d);
    var rest := HexBytes(d);
    assert s == "data:" + rest;
    assert SkipBlanks(s) == s;
    assert |d| > 0 ==> rest == " " + FormatByte(d[0]) + HexBytes(d[1..]);
    var k := BlankFree(s);
    assert k == 5 by {
      assert s[0] == 'd' && s[1] == 'a' && s[2] == 't' && s[3] == 'a' && s[4] == ':';
      if |rest| > 0 {
        assert s[5] == ' ';
      }
    }
    assert s[..5] == "data:" && s[5..] == rest;
    TokensOfHexBytes(d);
  }

  /** The node `rsdump` builds for 'hasi' holds the payload untouched. */
  lemma HasiNode(d: seq<Byte>, little: bool)
    requires 4 <= |d| < Two32
    ensures LeafNode(KEY_hasi, |d| as U32, d, little).data == d
  {
    FindKeyOf(Hasi);
  }

  /**
    `rsdump` of a 'hasi' block: its name, its bytes as one `data:` line, a
    blank line.
   */
  lemma HasiDump(d: seq<Byte>, config: Config, little: bool, libc: Libc)
    requires 4 <= |d| < Two32
    ensures DumpBlock(LeafNode(KEY_hasi, |d| as U32, d, little), config, little, libc)
      == Success(Dumped([Name(Hasi), HexDump(d), ""], config))
  {
    var b := LeafNode(KEY_hasi, |d| as U32, d, little);
    HasiNode(d, little);
    DumpBlockOfType(Hasi, b, config, little, libc);
    DumpNodeHasi(b.data, config, little, libc);
  }

  /**
    `make_node_hasi` reading the dump of a 'hasi' block of fewer than
    `MAX_ARGC` bytes (with a buffer long enough for its data line) builds the
    node `rsgen` writes as the block, and leaves the driver on the blank line.
   */
  lemma HasiMake(d: seq<Byte>, config: Config, little: bool, libc: Libc)
    requires 0 < |d| < MAX_ARGC
    ensures MakeNode(Hasi, [Name(Hasi), HexDump(d), ""], Cursor(1, 0), config, little, libc)
      == Success(Made(Block(KEY_hasi, |d| as U32, MakeLayout(Hasi, d, little)), config, Cursor(2, 0)))
  {
    var lines := [Name(Hasi), HexDump(d), ""];
    MakeNodeHasi(lines, Cursor(1, 0), config, little, libc);
    HasiDataLine(d, lines);
    HasiWords(d);
  }

  /** The model's buffer holds the whole data line of fewer than `MAX_ARGC` bytes. */
  lemma HasiDataLine(d: seq<Byte>, lines: seq<string>)
    requires 0 < |d| < MAX_ARGC && lines == [Name(Hasi), HexDump(d), ""]
    ensures Valid(lines, Cursor(1, 0))
    ensures DataLine(lines, Cursor(1, 0), HASI_LINE) == Some((HexDump(d), Cursor(2, 0)))
  {
    HexDumpPlain(d);
    ReadWholeLine(lines, 1, HASI_LINE - 1);
  }

  /** The words of the data line after its label are read back as the bytes. */
  lemma HasiWords(d: seq<Byte>)
    ensures |Tokens(HexDump(d))| == |d| + 1
    ensures HexBytesOf(Tokens(HexDump(d))[1..]) == d
  {
    TokensOfHexDump(d);
    var words := ["data:"] + FormatBytes(d);
    assert words[1..] == FormatBytes(d);
    HexBytesOfFormat(d);
  }

  /**
    A 'hasi' block of 4 to `MAX_ARGC - 1` bytes dumped by `rsdump` and read
    back by `make_node_hasi` is written by `rsgen` exactly as it was.
   */
  lemma HasiRoundTrip(d: seq<Byte>, config: Config, little: bool, libc: Libc)
    requires 4 <= |d| < MAX_ARGC
    ensures DumpBlock(LeafNode(KEY_hasi, |d| as U32, d, little), config, little, libc).Success?
    ensures var lines := DumpBlock(LeafNode(KEY_hasi, |d| as U32, d, little), config, little, libc).value.lines;
      |lines| == 3 &&
      MakeNode(Hasi, lines, Cursor(1, 0), config, little, libc)
        == Success(Made(Block(KEY_hasi, |d| as U32, MakeLayout(Hasi, d, little)), config, Cursor(2, 0)))
  {
    HasiDump(d, config, little, libc);
    HasiMake(d, config, little, libc);
  }

  /**
    As written, the data line buffer is too short for the dump of a 'hasi'
    block of `MAX_ARGC - 1` bytes, which `make_node_hasi` otherwise accepts:
    `fgets` stops three characters early, so the node gets one byte less,
    and the driver then reads the last byte's ` xx` as a line naming no
    block and gives up.
   */
  lemma HasiAsWrittenLosesLastByte(d: seq<Byte>, config: Config, count: nat, little: bool, libc: Libc)
    requires |d| == MAX_ARGC - 1
    ensures var lines := [Name(Hasi), HexDump(d), ""];
      MakeHasi(lines, Cursor(1, 0), config, MAX_LINE)
        == Success(Made(Block(KEY_hasi, (|d| - 1) as U32, d[..|d| - 1]), config, Cursor(1, MAX_LINE - 2))) &&
      Gather(lines, Cursor(1, MAX_LINE - 2), config, count, little, libc) == Gathered([], count + 1, Some(CannotGen(count + 1)))
  {
    var n := |d| - 1;
    var head, tail := HexDump(d[..n]), " " + FormatByte(d[n]);
    HexDumpSplitsLast(d);
    HasiAsWrittenMake(d, head, config);
    HasiLeftoverStops(d, tail, config, count, little, libc);
  }

  /** The `data:` line of all the bytes but the last, then the last byte's ` xx`. */
  lemma HexDumpSplitsLast(d: seq<Byte>)
    requires |d| > 0
    ensures var head := HexDump(d[..|d| - 1]);
      |HexDump(d)| > |head| && HexDump(d)[..|head|] == head && HexDump(d)[|head|..] == " " + FormatByte(d[|d| - 1])
  {
    var n := |d| - 1;
    var head, tail := HexDump(d[..n]), " " + FormatByte(d[n]);
    assert HexBytes(d) == HexBytes(d[..n]) + tail by {
      assert d == d[..n] + [d[n]];
      HexBytesAppend(d[..n], [d[n]]);
      assert [d[n]][1..] == [];
    }
    assert HexDump(d) == head + tail;
  }

  /** As written, `fgets` stops before the last byte's ` xx` and `make_node_hasi` takes the bytes before it. */
  lemma HasiAsWrittenMake(d: seq<Byte>, head: string, config: Config)
    requires |d| == MAX_ARGC - 1 && head == HexDump(d[..|d| - 1])
    requires |HexDump(d)| > |head| && HexDump(d)[..|head|] == head
    ensures MakeHasi([Name(Hasi), HexDump(d), ""], Cursor(1, 0), config, MAX_LINE)
      == Success(Made(Block(KEY_hasi, (|d| - 1) as U32, d[..|d| - 1]), config, Cursor(1, MAX_LINE - 2)))
  {
    var lines := [Name(Hasi), HexDump(d), ""];
    var n := |d| - 1;
    assert |head| == MAX_LINE - 2;
    assert Chomp(head) == head by {
      HexDumpPlain(d[..n]);
      ChompWhole(head);
    }
    assert DataLine(lines, Cursor(1, 0), MAX_LINE) == Some((head, Cursor(1, MAX_LINE - 2)));
    TokensOfHexDump(d[..n]);
    assert (["data:"] + FormatBytes(d[..n]))[1..] == FormatBytes(d[..n]);
    HexBytesOfFormat(d[..n]);
  }

  /** The leftover ` xx` is neither passed over nor a block name, so the driver stops there. */
  lemma HasiLeftoverStops(d: seq<Byte>, tail: string, config: Config, count: nat, little: bool, libc: Libc)
    requires |d| == MAX_ARGC - 1 && tail == " " + FormatByte(d[|d| - 1])
    requires HexDump(d)[MAX_LINE - 2..] == tail
    ensures Gather([Name(Hasi), HexDump(d), ""], Cursor(1, MAX_LINE - 2), config, count, little, libc)
      == Gathered([], count + 1, Some(CannotGen(count + 1)))
  {
    var lines := [Name(Hasi), HexDump(d), ""];
    var line := HexDump(d);
    HexDumpPlain(d);
    assert forall i :: 0 <= i < |tail| ==> tail[i] == line[MAX_LINE - 2 + i];
    ChompPlain(tail, "\n");
    assert ReadLine(lines, Cursor(1, MAX_LINE - 2), SIZE_LINE) == Some((tail, Cursor(2, 0)));
    assert !PassedOver(tail) && LineType(tail).None?;
  }
}
