/**
  The binary writer of `rsgen`: `rs_write` walks the node list in order and
  calls each key's `gen_block_<type>`, which writes the header words and the
  payload fields, each numeric field passed through `endian_fixup` first so
  that the file is big-endian on either host.  Containers write their header
  only: their children follow as the next nodes of the list.
 */
module Encoder {
  import opened Wrappers
  import opened ByteOrder
  import opened Registry
  import opened Blocks
  import opened LeafFixup
  import opened Decoder

  datatype WriteError =
    | CannotWrite(key: U32)   // key not in the dictionary
    | ShortData(key: U32)     // payload shorter than the fields the writer walks

  /**
    The fields a writer swaps: the numbers `make` left in host order.  The
    fixed char arrays and the 'sign' codes read with `%4c`, which `make`
    stores in text order, already are in wire order.
   */
  predicate SwappedWhenWritten(k: FieldKind)
  {
    !k.Text? && !k.FourccChars?
  }

  /**
    A header word as `gen_block_<type>` writes it: the host number is passed
    through `endian_fixup` in place and its memory image written.
   */
  function HeaderWord(w: U32, little: bool): (r: seq<Byte>)
    ensures r == WordBytes(w)
    ensures Word(r) == w
  {
    FixupWritesBigEndian(w as nat, 4, little);
    EndianFixup(HostBytes(w as nat, 4, little), little)
  }

  /**
    The payload `gen_block_<type>` writes: nothing for a container, the first
    `size` raw bytes for 'hasi', `size / 8` swapped sample pairs for a sample
    leaf, and the swapped struct fields (`sizeof` the struct, whatever the
    size) for a fixed leaf.
   */
  function GenPayload(t: BlockType, size: U32, data: seq<Byte>, little: bool): (r: Result<seq<Byte>, WriteError>)
    ensures r.Success? && IsContainer(t) ==> r.value == []
    ensures r.Success? && t == Hasi ==> size as nat <= |data| && r.value == data[..size]
    ensures r.Success? && !IsContainer(t) && t != Hasi ==>
      |r.value| == TotalWidth(LeafFields(t, size as nat)) <= |data|
    ensures r.Failure? <==>
      (!IsContainer(t) && |data| < (if t == Hasi then size as nat else TotalWidth(LeafFields(t, size as nat))))
  {
    if IsContainer(t) then Success([])
    else if t == Hasi then
      if |data| < size as nat then Failure(ShortData(KeyOf(t))) else Success(data[..size])
    else
      var fields := LeafFields(t, size as nat);
      var n := TotalWidth(fields);
      if |data| < n then Failure(ShortData(KeyOf(t)))
      else Success(ApplyFields(fields, data[..n], little, SwappedWhenWritten))
  }

  /**
    `gen_block_<type>` for the node's key: the key word, the size word and
    the payload; a key outside the dictionary cannot be written.
   */
  function GenBlock(b: Block, little: bool): (r: Result<seq<Byte>, WriteError>)
    ensures FindBlockFunctions(b.key).None? ==> r == Failure(CannotWrite(b.key))
    ensures r.Success? ==> |r.value| >= HeaderSize && Word(r.value[..4]) == b.key && Word(r.value[4..8]) == b.size
  {
    match FindBlockFunctions(b.key)
    case None => Failure(CannotWrite(b.key))
    case Some(t) =>
      var payload :- GenPayload(t, b.size, b.data, little);
      HeaderSplit(b.key, b.size, payload);
      Success(HeaderWord(b.key, little) + HeaderWord(b.size, little) + payload)
  }

  /** What `rs_write` leaves in the file, and the error that stopped it, if any. */
  datatype WriteOutcome = WriteOutcome(bytes: seq<Byte>, error: Option<WriteError>)

  /**
    The walk of `rs_write` with the per-node writer as a parameter: blocks
    are written in list order and the first node that cannot be written
    stops the walk, with the earlier blocks already out.
   */
  function WriteAll(bs: seq<Block>, gen: Block -> Result<seq<Byte>, WriteError>): (r: WriteOutcome)
    ensures |bs| == 0 ==> r == WriteOutcome([], None)
    ensures |bs| > 0 && gen(bs[0]).Failure? ==> r == WriteOutcome([], Some(gen(bs[0]).error))
  {
    if |bs| == 0 then WriteOutcome([], None)
    else
      var g := gen(bs[0]);
      if g.Failure? then WriteOutcome([], Some(g.error))
      else
        var rest := WriteAll(bs[1..], gen);
        WriteOutcome(g.value + rest.bytes, rest.error)
  }

  /** `rs_write`: every node through its key's `gen_block_<type>`. */
  function RsWrite(bs: seq<Block>, little: bool): (r: WriteOutcome)
  {
    WriteAll(bs, b => GenBlock(b, little))
  }

  /** The walk finishes without error exactly when every node can be written. */
  lemma {:induction false} WriteAllSucceeds(bs: seq<Block>, gen: Block -> Result<seq<Byte>, WriteError>)
    ensures WriteAll(bs, gen).error.None? <==> forall i :: 0 <= i < |bs| ==> gen(bs[i]).Success?
    decreases |bs|
  {
    if |bs| > 0 && gen(bs[0]).Success? {
      WriteAllSucceeds(bs[1..], gen);
      assert forall i :: 1 <= i < |bs| ==> bs[i] == bs[1..][i - 1];
    }
  }

  /** `rs_write` finishes without error exactly when every node's key is known and its payload long enough. */
  lemma RsWriteSucceeds(bs: seq<Block>, little: bool)
    ensures RsWrite(bs, little).error.None? <==> forall i :: 0 <= i < |bs| ==> GenBlock(bs[i], little).Success?
  {
    WriteAllSucceeds(bs, b => GenBlock(b, little));
  }

  /** Two runs of blocks written one after the other. */
  lemma {:induction false} WriteAllAppend(a: seq<Block>, b: seq<Block>, gen: Block -> Result<seq<Byte>, WriteError>)
    requires WriteAll(a, gen).error.None?
    ensures WriteAll(a + b, gen) == WriteOutcome(WriteAll(a, gen).bytes + WriteAll(b, gen).bytes, WriteAll(b, gen).error)
    decreases |a|
  {
    if |a| > 0 {
      var ab := a + b;
      assert ab[0] == a[0];
      assert ab[1..] == a[1..] + b;
      WriteAllAppend(a[1..], b, gen);
      var g := gen(a[0]).value;
      var ra, rb := WriteAll(a[1..], gen), WriteAll(b, gen);
      assert g + (ra.bytes + rb.bytes) == (g + ra.bytes) + rb.bytes;
    } else {
      assert a + b == b;
    }
  }

  // ---------------------------------------------------------------------
  // What `make` leaves in memory, and the writer as its inverse

  /**
    The memory image `make` produces for a leaf whose wire payload is
    `wire`: the numeric fields in host order, the char arrays and `%4c`
    codes as they stand, 'hasi' bytes untouched.
   */
  function MakeLayout(t: BlockType, wire: seq<Byte>, little: bool): (r: seq<Byte>)
    requires TotalWidth(LeafFields(t, |wire|)) <= |wire|
    ensures |r| == |wire|
  {
    if t == Hasi then wire
    else ApplyFields(LeafFields(t, |wire|), wire, little, SwappedWhenWritten)
  }

  /** The memory image of a fixed leaf: its struct fields in host order. */
  lemma MakeLayoutFixed(t: BlockType, wire: seq<Byte>, little: bool)
    requires FixedLeaf(t) && TotalWidth(Fields(t)) <= |wire|
    ensures MakeLayout(t, wire, little) == ApplyFields(Fields(t), wire, little, SwappedWhenWritten)
  {
    FixedLeafKind(t);
  }

  /**
    A leaf payload the writer reproduces exactly: a fixed leaf holds exactly
    its struct, a sample leaf whole sample pairs, 'hasi' anything.
   */
  predicate WritablePayload(t: BlockType, n: nat)
  {
    !IsContainer(t) &&
    (FixedLeaf(t) ==> n == MinSize(t)) &&
    (SampleLeaf(t) ==> n % SampleSize == 0) &&
    n < Two32
  }

  /** The fields the writer walks cover a writable payload exactly. */
  lemma WritableFieldsCover(t: BlockType, n: nat)
    requires WritablePayload(t, n) && t != Hasi
    ensures TotalWidth(LeafFields(t, n)) == n
  {
  }

  /**
    Writing the memory image of a writable leaf gives back its wire payload:
    the writer inverts `make`'s layout.
   */
  lemma GenPayloadOfMakeLayout(t: BlockType, wire: seq<Byte>, little: bool)
    requires WritablePayload(t, |wire|)
    ensures TotalWidth(LeafFields(t, |wire|)) <= |wire|
    ensures GenPayload(t, |wire| as U32, MakeLayout(t, wire, little), little) == Success(wire)
  {
    if t != Hasi {
      WritableFieldsCover(t, |wire|);
      FieldsOfMakeLayout(LeafFields(t, |wire|), wire, little);
    } else {
      assert wire[..|wire|] == wire;
    }
  }

  /** The field walk of the writer undoes the one that built the layout. */
  lemma FieldsOfMakeLayout(fields: seq<FieldKind>, wire: seq<Byte>, little: bool)
    requires TotalWidth(fields) == |wire|
    ensures var mem := ApplyFields(fields, wire, little, SwappedWhenWritten);
      ApplyFields(fields, mem[..TotalWidth(fields)], little, SwappedWhenWritten) == wire
  {
    var mem := ApplyFields(fields, wire, little, SwappedWhenWritten);
    assert mem[..|wire|] == mem;
    ApplyFieldsInvolution(fields, wire, little, SwappedWhenWritten);
  }

  // ---------------------------------------------------------------------
  // Writing a whole list built by `make`

  /**
    A tree `rsgen` can write back exactly: leaves with known non-container
    keys and writable payloads, containers with superblock keys, every size
    within 32 bits.
   */
  ghost predicate Writable(ts: seq<Tree>)
    decreases ts, 0
  {
    forall i :: 0 <= i < |ts| ==> WritableTree(ts[i])
  }

  ghost predicate WritableTree(t: Tree)
    decreases t, 1
  {
    match t
    case Leaf(k, d) => FindBlockFunctions(k).Some? && WritablePayload(FindBlockFunctions(k).value, |d|)
    case Container(k, cs) => Superblock(k) && |Serialize(cs)| < Two32 && Writable(cs)
  }

  /** The node list `make` builds for a tree, with the container sizes `fixup_sizes` fills in. */
  function MadeList(ts: seq<Tree>, little: bool): (r: seq<Block>)
    requires Writable(ts)
    decreases ts, 0
  {
    if |ts| == 0 then []
    else
      assert WritableTree(ts[0]);
      assert Writable(ts[1..]) by {
        forall i | 0 <= i < |ts[1..]| ensures WritableTree(ts[1..][i]) {
          assert ts[1..][i] == ts[i + 1];
        }
      }
      MadeTree(ts[0], little) + MadeList(ts[1..], little)
  }

  function MadeTree(t: Tree, little: bool): (r: seq<Block>)
    requires WritableTree(t)
    decreases t, 1
  {
    match t
    case Leaf(k, d) =>
      var tp := FindBlockFunctions(k).value;
      assert TotalWidth(LeafFields(tp, |d|)) <= |d| by {
        if tp != Hasi { WritableFieldsCover(tp, |d|); }
      }
      [Block(k, |d| as U32, MakeLayout(tp, d, little))]
    case Container(k, cs) =>
      [Block(k, Truncate32(|Serialize(cs)|), [])] + MadeList(cs, little)
  }

  /**
    `rs_write` of the list `make` builds for a tree writes exactly the wire
    image of the tree.
   */
  lemma {:induction false} RsWriteMadeList(ts: seq<Tree>, little: bool)
    requires Writable(ts)
    ensures RsWrite(MadeList(ts, little), little) == WriteOutcome(Serialize(ts), None)
    decreases ts, 0
  {
    if |ts| > 0 {
      assert Writable(ts[1..]) by {
        forall i | 0 <= i < |ts[1..]| ensures WritableTree(ts[1..][i]) {
          assert ts[1..][i] == ts[i + 1];
        }
      }
      RsWriteMadeTree(ts[0], little);
      RsWriteMadeList(ts[1..], little);
      WriteAllAppend(MadeTree(ts[0], little), MadeList(ts[1..], little), b => GenBlock(b, little));
    }
  }

  /** A container node is written as its header alone. */
  lemma GenHeaderOnly(b: Block, little: bool)
    requires FindBlockFunctions(b.key).Some? && IsContainer(FindBlockFunctions(b.key).value)
    ensures GenBlock(b, little) == Success(WordBytes(b.key) + WordBytes(b.size))
  {
    var t := FindBlockFunctions(b.key).value;
    assert GenPayload(t, b.size, b.data, little) == Success([]);
    assert WordBytes(b.key) + WordBytes(b.size) + [] == WordBytes(b.key) + WordBytes(b.size);
  }

  lemma {:induction false} RsWriteMadeTree(t: Tree, little: bool)
    requires WritableTree(t)
    ensures RsWrite(MadeTree(t, little), little) == WriteOutcome(SerializeTree(t), None)
    decreases t, 1
  {
    match t
    case Leaf(k, d) =>
      RsWriteMadeLeaf(k, d, little);
    case Container(k, cs) =>
      var head := Block(k, Truncate32(|Serialize(cs)|), []);
      assert MadeTree(t, little) == [head] + MadeList(cs, little);
      SuperblockIsContainer(k);
      GenHeaderOnly(head, little);
      assert RsWrite([head], little).bytes == GenBlock(head, little).value by {
        assert [head][1..] == [];
      }
      RsWriteMadeList(cs, little);
      WriteAllAppend([head], MadeList(cs, little), b => GenBlock(b, little));
  }

  /** A writable leaf built by `make` is written as its wire image. */
  lemma RsWriteMadeLeaf(k: U32, d: seq<Byte>, little: bool)
    requires WritableTree(Leaf(k, d))
    ensures RsWrite(MadeTree(Leaf(k, d), little), little) == WriteOutcome(SerializeTree(Leaf(k, d)), None)
  {
    var tp := FindBlockFunctions(k).value;
    var b := MadeTree(Leaf(k, d), little)[0];
    GenPayloadOfMakeLayout(tp, d, little);
    assert Truncate32(|d|) == |d| as U32;
    assert GenBlock(b, little) == Success(SerializeTree(Leaf(k, d)));
    assert MadeTree(Leaf(k, d), little)[1..] == [];
  }

  // ---------------------------------------------------------------------
  // Numbers reach the wire big-endian (and the 'sign' user flags, see the findings)

  /**
    A numeric field the writer swaps lands on the wire as the big-endian
    encoding of its host value.
   */
  lemma FieldWrittenBigEndian(fields: seq<FieldKind>, mem: seq<Byte>, little: bool, i: nat)
    requires TotalWidth(fields) <= |mem| && i < |fields|
    requires SwappedWhenWritten(fields[i]) && Swappable(Width(fields[i]))
    ensures var o, w := Offset(fields, i), Width(fields[i]);
      o + w <= |mem| &&
      BE(ApplyFields(fields, mem, little, SwappedWhenWritten)[o..o + w]) == HostValue(mem[o..o + w], little)
  {
    ApplyFieldsAt(fields, mem, little, SwappedWhenWritten, i);
    var o, w := Offset(fields, i), Width(fields[i]);
    FixupWritesHostValue(mem[o..o + w], little);
  }

  /** 'userflags' is the fourth 'sign' field, twelve bytes in. */
  lemma SignUserflagsAt()
    ensures |Fields(Sign)| == 7 && Fields(Sign)[3] == Hex32 && Offset(Fields(Sign), 3) == 12
  {
    var f := Fields(Sign);
    assert Offset(f[3..], 0) == 0;
    assert f[2..][1..] == f[3..];
    assert Offset(f[2..], 1) == 4;
    assert f[1..][1..] == f[2..];
    assert Offset(f[1..], 2) == 8;
  }

  /**
    The writer puts the 'sign' user flags on the wire as the big-endian
    encoding of the host number `make` stored, as `fixup_data_sign`
    expects when the file is read back.
   */
  lemma SignUserflagsWritten(size: U32, mem: seq<Byte>, little: bool)
    requires |mem| >= StructSize(Sign)
    ensures GenBlock(Block(KEY_sign, size, mem), little).Success?
    ensures var w := GenBlock(Block(KEY_sign, size, mem), little).value;
      |w| == HeaderSize + StructSize(Sign) && BE(w[20..24]) == HostValue(mem[12..16], little)
  {
    GenSignLayout(size, mem, little);
    SignFlagsInLayout(HeaderWord(KEY_sign, little), HeaderWord(size, little), mem, little);
  }

  /** Past the two header words, the swapped 'sign' fields carry the user flags big-endian. */
  lemma SignFlagsInLayout(key: seq<Byte>, size: seq<Byte>, mem: seq<Byte>, little: bool)
    requires |key| == 4 && |size| == 4 && |mem| >= 208
    ensures TotalWidth(Fields(Sign)) == 208
    ensures var w := key + size + ApplyFields(Fields(Sign), mem[..208], little, SwappedWhenWritten);
      |w| == 216 && BE(w[20..24]) == HostValue(mem[12..16], little)
  {
    SignSize();
    SignUserflagsAt();
    WordInLayout(Fields(Sign), key, size, mem, 208, little, 3);
  }

  /** A swapped 4-byte field at offset `o` of a struct lands at `o` past the two header words. */
  lemma WordInLayout(fields: seq<FieldKind>, key: seq<Byte>, size: seq<Byte>, mem: seq<Byte>, n: nat, little: bool, i: nat)
    requires |key| == 4 && |size| == 4 && TotalWidth(fields) == n <= |mem|
    requires i < |fields| && SwappedWhenWritten(fields[i]) && Width(fields[i]) == 4
    ensures var o, w := Offset(fields, i), key + size + ApplyFields(fields, mem[..n], little, SwappedWhenWritten);
      o + 4 <= n && |w| == n + 8 && BE(w[o + 8..o + 12]) == HostValue(mem[o..o + 4], little)
  {
    WordOfPrefix(fields, mem, n, little, i);
    PayloadWord(key, size, ApplyFields(fields, mem[..n], little, SwappedWhenWritten), Offset(fields, i));
  }

  /** The same for the struct cut to its fields' total width. */
  lemma WordOfPrefix(fields: seq<FieldKind>, mem: seq<Byte>, n: nat, little: bool, i: nat)
    requires TotalWidth(fields) == n <= |mem|
    requires i < |fields| && SwappedWhenWritten(fields[i]) && Width(fields[i]) == 4
    ensures var o, payload := Offset(fields, i), ApplyFields(fields, mem[..n], little, SwappedWhenWritten);
      o + 4 <= n == |payload| && BE(payload[o..o + 4]) == HostValue(mem[o..o + 4], little)
  {
    FieldWrittenBigEndian(fields, mem[..n], little, i);
    SliceOfPrefix(mem, n, Offset(fields, i), Offset(fields, i) + 4);
  }

  /** What `gen_block_sign` writes, once the fields are swapped as they should be. */
  lemma GenSignLayout(size: U32, mem: seq<Byte>, little: bool)
    requires |mem| >= StructSize(Sign)
    ensures TotalWidth(Fields(Sign)) == 208
    ensures GenBlock(Block(KEY_sign, size, mem), little)
      == Success(HeaderWord(KEY_sign, little) + HeaderWord(size, little) + ApplyFields(Fields(Sign), mem[..208], little, SwappedWhenWritten))
  {
    FindKeyOf(Sign);
    SignSize();
    GenPayloadFixed(Sign, size, mem, little);
    GenBlockKnown(Block(KEY_sign, size, mem), Sign, little);
  }

  /** A fixed leaf's payload is its swapped struct fields, whatever the size word says. */
  lemma GenPayloadFixed(t: BlockType, size: U32, data: seq<Byte>, little: bool)
    requires FixedLeaf(t) && TotalWidth(Fields(t)) <= |data|
    ensures GenPayload(t, size, data, little)
      == Success(ApplyFields(Fields(t), data[..TotalWidth(Fields(t))], little, SwappedWhenWritten))
  {
  }

  /** A known key: the two header words, then the payload. */
  lemma GenBlockKnown(b: Block, t: BlockType, little: bool)
    requires FindBlockFunctions(b.key) == Some(t) && GenPayload(t, b.size, b.data, little).Success?
    ensures GenBlock(b, little)
      == Success(HeaderWord(b.key, little) + HeaderWord(b.size, little) + GenPayload(t, b.size, b.data, little).value)
  {
  }

  /** A word of the payload, found past the two header words. */
  lemma PayloadWord(key: seq<Byte>, size: seq<Byte>, payload: seq<Byte>, o: nat)
    requires |key| == 4 && |size| == 4 && o + 4 <= |payload|
    ensures |key + size + payload| == |payload| + HeaderSize
    ensures (key + size + payload)[HeaderSize + o..HeaderSize + o + 4] == payload[o..o + 4]
  {
  }

  /**
    `gen_block_sign` as written: after the header the struct's memory image
    goes out unchanged, the user flags included.
   */
  function GenSignAsWritten(b: Block, little: bool): (r: Result<seq<Byte>, WriteError>)
    ensures r.Failure? <==> |b.data| < StructSize(Sign)
    ensures r.Success? ==> |r.value| == HeaderSize + StructSize(Sign) && r.value[HeaderSize..] == b.data[..StructSize(Sign)]
  {
    if |b.data| < StructSize(Sign) then Failure(ShortData(KEY_sign))
    else Success(HeaderWord(b.key, little) + HeaderWord(b.size, little) + b.data[..StructSize(Sign)])
  }

  /**
    On a little-endian host, user flags of 1 as `make` stores them are
    written as the bytes 01 00 00 00, which the reader takes for 0x01000000.
   */
  lemma SignUserflagsAsWritten(mem: seq<Byte>)
    requires |mem| == StructSize(Sign) && mem[12..16] == [1, 0, 0, 0]
    ensures HostValue(mem[12..16], true) == 1
    ensures var w := GenSignAsWritten(Block(KEY_sign, StructSize(Sign) as U32, mem), true).value;
      BE(w[20..24]) == 0x0100_0000
  {
    var w := GenSignAsWritten(Block(KEY_sign, StructSize(Sign) as U32, mem), true).value;
    PayloadWord(w[..4], w[4..8], w[HeaderSize..], 12);
    assert w == w[..4] + w[4..8] + w[HeaderSize..];
    SliceOfPrefix(mem, 208, 12, 16);
    FlagsOneBytes();
  }

  /** The bytes 01 00 00 00: 1 read little-endian, 0x01000000 read big-endian. */
  lemma FlagsOneBytes()
    ensures LE([1, 0, 0, 0]) == 1
    ensures BE([1, 0, 0, 0]) == 0x0100_0000
  {
    var m: seq<Byte> := [1, 0, 0, 0];
    assert m[1..][1..][1..][1..] == [];
    assert LE(m[1..][1..][1..]) == 0;
    BE4(m);
  }
}
