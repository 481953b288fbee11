/**
  `rsdump` then `rsgen` for the sample blocks 'afft' and 'ifft': one line
  per {I, Q} pair, read back by `make_node_afft` / `make_node_ifft`.  The
  decimal text of the floats is the C library's business, so the trip is
  stated for a library that reads each printed pair back as the same two
  floats; the rest (the blank line that ends the record, the count of
  lines, the bytes stored) is proved.  As written, the record must hold a
  multiple of three lines, so only blocks whose pair count is a multiple
  of three come back.
 */
module SampleTrip {
  import opened Wrappers
  import opened ByteOrder
  import opened Registry
  import opened Blocks
  import opened LeafFixup
  import opened Decoder
  import opened Encoder
  import opened Scan
  import opened TextStream
  import opened Parameters
  import opened Dump
  import opened Make

  /** The bit patterns of the I and Q floats of pair `i`, as they lie in host memory. */
  function Pair(mem: seq<Byte>, i: nat, little: bool): (p: (nat, nat))
    requires SampleSize * i + SampleSize <= |mem|
    ensures p.0 < Two32 && p.1 < Two32
  {
    HostBytesOfValue(mem[8 * i..8 * i + 4], little);
    HostBytesOfValue(mem[8 * i + 4..8 * i + 8], little);
    Pow256Widths();
    (HostValue(mem[8 * i..8 * i + 4], little), HostValue(mem[8 * i + 4..8 * i + 8], little))
  }

  /** The pairs of a run of samples in host memory, in order. */
  function Pairs(mem: seq<Byte>, little: bool): (ps: seq<(nat, nat)>)
    ensures |ps| == |mem| / SampleSize
    ensures forall i :: 0 <= i < |ps| ==> ps[i] == Pair(mem, i, little)
  {
    seq(|mem| / SampleSize, i requires 0 <= i < |mem| / SampleSize => Pair(mem, i, little))
  }

  /** The floats `make` stores for the pairs it reads, I first. */
  function PairBytes(pairs: seq<(nat, nat)>, little: bool): (r: seq<Byte>)
    ensures |r| == SampleSize * |pairs|
  {
    if |pairs| == 0 then [] else FloatBytes(pairs[0].0, little) + FloatBytes(pairs[0].1, little) + PairBytes(pairs[1..], little)
  }

  /**
    The library reads a line back as a pair: the line is a whole, non-empty
    line `fgets` delivers, and `%d %lf %lf` converts it to the two floats.
   */
  predicate ReadsBackAs(text: string, pair: (nat, nat), libc: Libc)
  {
    Plain(text) && 0 < |text| <= SIZE_LINE - 2 && libc.scanSample(text) == Some(pair)
  }

  /** Every line reads back as the pair at the same place. */
  predicate LinesReadBack(texts: seq<string>, pairs: seq<(nat, nat)>, libc: Libc)
  {
    |texts| == |pairs| && forall i :: 0 <= i < |texts| ==> ReadsBackAs(texts[i], pairs[i], libc)
  }

  /** A float stored from the bit pattern of four host bytes is those bytes. */
  lemma FloatBytesOfHost(mem: seq<Byte>, little: bool)
    requires |mem| == 4
    ensures FloatBytes(HostValue(mem, little), little) == mem
  {
    HostBytesOfValue(mem, little);
    Pow256Widths();
  }

  /** Pair `j`'s two floats, then the pairs after it. */
  lemma PairBytesAt(mem: seq<Byte>, j: nat, little: bool)
    requires SampleSize * j + SampleSize <= |mem|
    ensures FloatBytes(Pair(mem, j, little).0, little) + FloatBytes(Pair(mem, j, little).1, little) + mem[8 * j + 8..] == mem[8 * j..]
  {
    FloatBytesOfHost(mem[8 * j..8 * j + 4], little);
    FloatBytesOfHost(mem[8 * j + 4..8 * j + 8], little);
    assert mem[8 * j..] == mem[8 * j..8 * j + 4] + mem[8 * j + 4..8 * j + 8] + mem[8 * j + 8..];
  }

  /** Storing the pairs read from memory gives the memory back. */
  lemma {:induction false} PairBytesOfPairs(mem: seq<Byte>, j: nat, little: bool)
    requires |mem| % SampleSize == 0 && j <= |mem| / SampleSize
    ensures PairBytes(Pairs(mem, little)[j..], little) == mem[8 * j..]
    decreases |mem| / SampleSize - j
  {
    var ps := Pairs(mem, little);
    if j < |ps| {
      PairBytesOfPairs(mem, j + 1, little);
      assert ps[j..][1..] == ps[j + 1..];
      assert mem[8 * (j + 1)..] == mem[8 * j + 8..];
      PairBytesAt(mem, j, little);
    } else {
      assert mem[8 * j..] == [];
    }
  }

  /** The lines from line `i` on read back as `pairs`, one line per pair. */
  predicate RecordReads(lines: seq<string>, i: nat, pairs: seq<(nat, nat)>, libc: Libc)
    decreases |pairs|
  {
    |pairs| == 0 || (i < |lines| && ReadsBackAs(lines[i], pairs[0], libc) && RecordReads(lines, i + 1, pairs[1..], libc))
  }

  /** A run of lines that read back as `pairs` lies in the file from line `i` on. */
  lemma {:induction false} RecordReadsOf(lines: seq<string>, i: nat, texts: seq<string>, pairs: seq<(nat, nat)>, libc: Libc)
    requires i + |texts| <= |lines| && lines[i..i + |texts|] == texts && LinesReadBack(texts, pairs, libc)
    ensures RecordReads(lines, i, pairs, libc)
    decreases |texts|
  {
    if |texts| > 0 {
      assert ReadsBackAs(texts[0], pairs[0], libc);
      assert lines[i] == texts[0];
      assert lines[i + 1..i + 1 + |texts[1..]|] == texts[1..];
      assert LinesReadBack(texts[1..], pairs[1..], libc) by {
        forall m | 0 <= m < |texts[1..]| ensures ReadsBackAs(texts[1..][m], pairs[1..][m], libc) {
          assert ReadsBackAs(texts[m + 1], pairs[m + 1], libc);
        }
      }
      RecordReadsOf(lines, i + 1, texts[1..], pairs[1..], libc);
    }
  }

  /**
    `read_iqdata_samples` over lines that read back as `pairs` stores the
    floats of the pairs and stops after the last of those lines.
   */
  lemma {:induction false} ReadSamplesFrom(lines: seq<string>, i: nat, pairs: seq<(nat, nat)>, index: nat, little: bool, libc: Libc)
    requires i <= |lines| && RecordReads(lines, i, pairs, libc)
    ensures Valid(lines, Cursor(i, 0))
    ensures ReadSamples(lines, Cursor(i, 0), |pairs|, index, little, libc) == Success((PairBytes(pairs, little), Cursor(i + |pairs|, 0)))
    decreases |pairs|
  {
    if |pairs| > 0 {
      var tail := pairs[1..];
      ReadSamplesFrom(lines, i + 1, tail, index + 1, little, libc);
      ReadPairLine(lines, i, i + 1, |pairs|, |tail|, index, pairs[0], PairBytes(tail, little), Cursor(i + 1 + |tail|, 0), little, libc);
    } else {
      ReadNoSamples(lines, Cursor(i, 0), index, little, libc);
    }
  }

  /** A line that reads back as `pair`, in front of lines that store `rest`. */
  lemma ReadPairLine(lines: seq<string>, i: nat, next: nat, count: nat, left: nat, index: nat, pair: (nat, nat), rest: seq<Byte>, after: Cursor, little: bool, libc: Libc)
    requires i < |lines| && next == i + 1 && count == left + 1 && ReadsBackAs(lines[i], pair, libc)
    requires Valid(lines, Cursor(next, 0))
    requires ReadSamples(lines, Cursor(next, 0), left, index + 1, little, libc) == Success((rest, after))
    ensures Valid(lines, Cursor(i, 0))
    ensures ReadSamples(lines, Cursor(i, 0), count, index, little, libc) == Success((FloatBytes(pair.0, little) + FloatBytes(pair.1, little) + rest, after))
  {
    ReadWholeLine(lines, i, SIZE_LINE);
    ReadSamplesStep(lines, Cursor(i, 0), count, index, lines[i], Cursor(i + 1, 0), pair, rest, after, little, libc);
  }

  /** One pass of the loop: the line's pair is stored, then the pairs of the lines after it. */
  lemma ReadSamplesStep(lines: seq<string>, c: Cursor, count: nat, index: nat, text: string, next: Cursor, pair: (nat, nat),
                        rest: seq<Byte>, after: Cursor, little: bool, libc: Libc)
    requires Valid(lines, c) && count > 0
    requires ReadLine(lines, c, SIZE_LINE) == Some((text, next)) && |text| > 0 && libc.scanSample(text) == Some(pair)
    requires ReadSamples(lines, next, count - 1, index + 1, little, libc) == Success((rest, after))
    ensures ReadSamples(lines, c, count, index, little, libc) == Success((FloatBytes(pair.0, little) + FloatBytes(pair.1, little) + rest, after))
  {
  }

  /** With no pairs left to read, nothing is stored and no line is read. */
  lemma ReadNoSamples(lines: seq<string>, c: Cursor, index: nat, little: bool, libc: Libc)
    requires Valid(lines, c)
    ensures ReadSamples(lines, c, 0, index, little, libc) == Success(([], c))
  {
  }

  /** `count_iqdata_lines` counts the run of non-empty lines up to the blank line. */
  lemma CountToBlank(lines: seq<string>, c: Cursor, texts: seq<string>)
    requires Valid(lines, c) && |texts| < |Texts(lines, c)| && Texts(lines, c)[..|texts|] == texts
    requires forall j :: 0 <= j < |texts| ==> |texts[j]| > 0
    requires Texts(lines, c)[|texts|] == ""
    ensures CountSampleLines(lines, c) == |texts|
  {
    var ts, n, m := Texts(lines, c), CountSampleLines(lines, c), |texts|;
    CountSampleLinesRun(lines, c);
    assert forall j :: 0 <= j < m ==> ts[j] == texts[j];
    assert n >= m;
    assert n <= m;
  }

  /** The record after a block's name line, as `fgets` delivers it: the lines, then the blank one. */
  lemma RecordTexts(lines: seq<string>, name: string, texts: seq<string>)
    requires lines == [name] + texts + [""]
    requires forall j :: 0 <= j < |texts| ==> Plain(texts[j]) && 0 < |texts[j]| <= SIZE_LINE - 2
    ensures Valid(lines, Cursor(1, 0)) && lines[1..1 + |texts|] == texts
    ensures Texts(lines, Cursor(1, 0)) == texts + [""] && (texts + [""])[..|texts|] == texts
  {
    var n := |texts|;
    forall j | 1 <= j < |lines| ensures Plain(lines[j]) && |lines[j]| <= SIZE_LINE - 2 {
      if j <= n {
        assert lines[j] == texts[j - 1];
      }
    }
    TextsOfShortLines(lines, 1);
    assert lines[1..] == texts + [""];
  }

  /**
    A record of lines that read back as the pairs of `mem`, then a blank
    line: `count_iqdata_lines` counts its lines and `read_iqdata_samples`
    stores `mem`, ending after the last of them.
   */
  lemma SampleRecordRead(lines: seq<string>, name: string, texts: seq<string>, mem: seq<Byte>, little: bool, libc: Libc)
    requires lines == [name] + texts + [""]
    requires SampleSize * |texts| == |mem| && LinesReadBack(texts, Pairs(mem, little), libc)
    ensures Valid(lines, Cursor(1, 0)) && CountSampleLines(lines, Cursor(1, 0)) == |texts|
    ensures ReadSamples(lines, Cursor(1, 0), |texts|, 0, little, libc) == Success((mem, Cursor(1 + |texts|, 0)))
  {
    var pairs := Pairs(mem, little);
    assert forall j :: 0 <= j < |texts| ==> Plain(texts[j]) && 0 < |texts[j]| <= SIZE_LINE - 2 by {
      forall j | 0 <= j < |texts| ensures Plain(texts[j]) && 0 < |texts[j]| <= SIZE_LINE - 2 {
        assert ReadsBackAs(texts[j], pairs[j], libc);
      }
    }
    RecordTexts(lines, name, texts);
    RecordReadsOf(lines, 1, texts, pairs, libc);
    ReadSamplesFrom(lines, 1, pairs, 0, little, libc);
    assert PairBytes(pairs, little) == mem by {
      PairBytesOfPairs(mem, 0, little);
      assert pairs[0..] == pairs;
      assert mem[8 * 0..] == mem;
    }
    CountToBlank(lines, Cursor(1, 0), texts);
  }

  /** `make` accepts a sample record of a positive multiple of three lines that read back. */
  lemma MakeSamplesBack(t: BlockType, lines: seq<string>, texts: seq<string>, mem: seq<Byte>, config: Config, little: bool, libc: Libc)
    requires SampleLeaf(t) && HandlesSamples(config)
    requires lines == [Name(t)] + texts + [""] && 0 < |texts| && |texts| % 3 == 0
    requires SampleSize * |texts| == |mem| < Two32 && LinesReadBack(texts, Pairs(mem, little), libc)
    ensures Valid(lines, Cursor(1, 0))
    ensures MakeNode(t, lines, Cursor(1, 0), config, little, libc)
      == Success(Made(Block(KeyOf(t), |mem| as U32, mem), config, Cursor(1 + |texts|, 0)))
  {
    SampleRecordRead(lines, Name(t), texts, mem, little, libc);
    assert (SampleSize * |texts|) % Two32 == |mem|;
    MakeNodeSamples(t, lines, Cursor(1, 0), config, little, libc);
  }

  // ---------------------------------------------------------------------
  // The dump side

  /** Every field of a run of sample pairs is a float. */
  lemma {:induction false} SampleFieldsFloats(count: nat)
    ensures forall i :: 0 <= i < |SampleFields(count)| ==> SampleFields(count)[i] == Float32
  {
    if count > 0 {
      SampleFieldsFloats(count - 1);
      var f := SampleFields(count);
      assert f == [Float32, Float32] + SampleFields(count - 1);
      forall i | 2 <= i < |f| ensures f[i] == Float32 {
        assert f[i] == SampleFields(count - 1)[i - 2];
      }
    }
  }

  /** Two swap choices that agree on every field of the table fix the data up alike. */
  lemma {:induction false} SameSwaps(fields: seq<FieldKind>, data: seq<Byte>, little: bool, s1: FieldKind -> bool, s2: FieldKind -> bool)
    requires TotalWidth(fields) <= |data|
    requires forall i :: 0 <= i < |fields| ==> s1(fields[i]) == s2(fields[i])
    ensures ApplyFields(fields, data, little, s1) == ApplyFields(fields, data, little, s2)
    decreases |fields|
  {
    if |fields| > 0 {
      var w := Width(fields[0]);
      forall i | 0 <= i < |fields[1..]| ensures s1(fields[1..][i]) == s2(fields[1..][i]) {
        assert fields[1..][i] == fields[i + 1];
      }
      SameSwaps(fields[1..], data[w..], little, s1, s2);
    }
  }

  /**
    The node `rsdump` builds for a sample block holds the floats in host
    order, which is also the image `make` builds for the same wire bytes.
   */
  lemma SampleNode(t: BlockType, wire: seq<Byte>, little: bool)
    requires SampleLeaf(t) && SampleSize <= |wire| < Two32 && |wire| % SampleSize == 0
    ensures LeafNode(KeyOf(t), |wire| as U32, wire, little).data == MakeLayout(t, wire, little)
  {
    FindKeyOf(t);
    var count := |wire| / SampleSize;
    SampleFieldsFloats(count);
    SampleFieldsWidth(count);
    SameSwaps(SampleFields(count), wire, little, SwappedWhenRead, SwappedWhenWritten);
  }

  /** A sample block under a complex I/Q float configuration is dumped one line per pair. */
  lemma SampleDump(t: BlockType, mem: seq<Byte>, config: Config, little: bool, libc: Libc)
    requires SampleLeaf(t) && HandlesSamples(config) && SampleSize <= |mem| < Two32
    ensures DumpBlock(Block(KeyOf(t), |mem| as U32, mem), config, little, libc)
      == Success(Dumped([Name(t)] + SampleLines(Precision(t), mem, |mem| / SampleSize, little, libc) + [""], config))
  {
    DumpBlockOfType(t, Block(KeyOf(t), |mem| as U32, mem), config, little, libc);
  }

  /**
    The round trip of a sample block whose pair count is a positive
    multiple of three: `rsdump` prints it, and `make_node_afft` /
    `make_node_ifft` reads the printed record back as a node of the same
    size holding the same host-order floats, which is the image the writer
    turns back into the block's wire bytes.
   */
  lemma SampleRoundTrip(t: BlockType, wire: seq<Byte>, config: Config, little: bool, libc: Libc)
    requires SampleLeaf(t) && HandlesSamples(config) && 0 < |wire| < Two32
    requires |wire| % SampleSize == 0 && (|wire| / SampleSize) % 3 == 0
    requires var mem := LeafNode(KeyOf(t), |wire| as U32, wire, little).data;
      LinesReadBack(SampleLines(Precision(t), mem, |wire| / SampleSize, little, libc), Pairs(mem, little), libc)
    ensures var d := DumpBlock(LeafNode(KeyOf(t), |wire| as U32, wire, little), config, little, libc);
      d.Success? && |d.value.lines| == |wire| / SampleSize + 2 &&
      MakeNode(t, d.value.lines, Cursor(1, 0), config, little, libc)
        == Success(Made(Block(KeyOf(t), |wire| as U32, MakeLayout(t, wire, little)), config, Cursor(|wire| / SampleSize + 1, 0)))
  {
    var node := LeafNode(KeyOf(t), |wire| as U32, wire, little);
    SampleNode(t, wire, little);
    SampleNodeRoundTrip(t, node, config, little, libc);
  }

  /** The same trip for any node of a sample type, whatever its bytes. */
  lemma SampleNodeRoundTrip(t: BlockType, node: Block, config: Config, little: bool, libc: Libc)
    requires SampleLeaf(t) && HandlesSamples(config) && node.key == KeyOf(t) && |node.data| == node.size as nat
    requires 0 < |node.data| && |node.data| % SampleSize == 0 && (|node.data| / SampleSize) % 3 == 0
    requires LinesReadBack(SampleLines(Precision(t), node.data, |node.data| / SampleSize, little, libc), Pairs(node.data, little), libc)
    ensures var d := DumpBlock(node, config, little, libc);
      d.Success? && |d.value.lines| == |node.data| / SampleSize + 2 &&
      MakeNode(t, d.value.lines, Cursor(1, 0), config, little, libc) == Success(Made(node, config, Cursor(|node.data| / SampleSize + 1, 0)))
  {
    var mem, n := node.data, |node.data| / SampleSize;
    assert SampleSize * n == |mem|;
    assert node == Block(KeyOf(t), |mem| as U32, mem);
    var texts := SampleLines(Precision(t), mem, n, little, libc);
    SampleDump(t, mem, config, little, libc);
    MakeSamplesBack(t, [Name(t)] + texts + [""], texts, mem, config, little, libc);
  }

  /**
    A record of a number of pairs that is not a multiple of three is
    refused by `make`, however well its lines read back: the dump of such
    a block does not come back.
   */
  lemma SampleCountNotTriple(t: BlockType, lines: seq<string>, texts: seq<string>, config: Config, little: bool, libc: Libc)
    requires SampleLeaf(t) && lines == [Name(t)] + texts + [""] && |texts| % 3 != 0
    requires forall j :: 0 <= j < |texts| ==> Plain(texts[j]) && 0 < |texts[j]| <= SIZE_LINE - 2
    ensures Valid(lines, Cursor(1, 0))
    ensures MakeNode(t, lines, Cursor(1, 0), config, little, libc) == Failure(NotTriple(|texts|))
  {
    RecordTexts(lines, Name(t), texts);
    CountToBlank(lines, Cursor(1, 0), texts);
    MakeNodeSamples(t, lines, Cursor(1, 0), config, little, libc);
  }

  /** The pairs of a run of samples ignore the bytes after its last whole pair. */
  lemma PairsOfWhole(mem: seq<Byte>, little: bool)
    ensures var n := |mem| / SampleSize;
      SampleSize * n <= |mem| && Pairs(mem[..SampleSize * n], little) == Pairs(mem, little)
  {
    var n := |mem| / SampleSize;
    var m := mem[..SampleSize * n];
    assert |m| / SampleSize == n;
    forall i | 0 <= i < n ensures Pair(m, i, little) == Pair(mem, i, little) {
      assert m[8 * i..8 * i + 4] == mem[8 * i..8 * i + 4];
      assert m[8 * i + 4..8 * i + 8] == mem[8 * i + 4..8 * i + 8];
    }
  }

  /**
    A sample block whose size is not a multiple of 8 loses its last 1 to 7
    bytes on the trip: `rsdump` prints only the whole pairs, and `make`
    builds a node of 8 bytes a pair, smaller than the block.
   */
  lemma SampleTailDropped(t: BlockType, node: Block, config: Config, little: bool, libc: Libc)
    requires SampleLeaf(t) && HandlesSamples(config) && node.key == KeyOf(t) && |node.data| == node.size as nat
    requires |node.data| % SampleSize != 0 && 0 < |node.data| / SampleSize && (|node.data| / SampleSize) % 3 == 0
    requires LinesReadBack(SampleLines(Precision(t), node.data, |node.data| / SampleSize, little, libc), Pairs(node.data, little), libc)
    ensures var d, n := DumpBlock(node, config, little, libc), |node.data| / SampleSize;
      d.Success? && |d.value.lines| == n + 2 && SampleSize * n < |node.data| &&
      MakeNode(t, d.value.lines, Cursor(1, 0), config, little, libc)
        == Success(Made(Block(KeyOf(t), (SampleSize * n) as U32, node.data[..SampleSize * n]), config, Cursor(n + 1, 0)))
  {
    var mem, n := node.data, |node.data| / SampleSize;
    var m := mem[..SampleSize * n];
    assert node == Block(KeyOf(t), |mem| as U32, mem);
    var texts := SampleLines(Precision(t), mem, n, little, libc);
    SampleDump(t, mem, config, little, libc);
    PairsOfWhole(mem, little);
    MakeSamplesBack(t, [Name(t)] + texts + [""], texts, m, config, little, libc);
  }
}
