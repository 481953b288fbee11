/**
  The binary reader of `rsdump`: `check_header`, `parse_file` and the
  recursive `parse_block`, which turns the RIFF-style byte buffer into the
  flat, preorder list of nodes.  A superblock's children are parsed out of
  its payload and spliced into the list right after it; a leaf gets its
  payload byte-order corrected, and a leaf whose correction fails is kept
  unchanged.
 */
module Decoder {
  import opened Wrappers
  import opened ByteOrder
  import opened Registry
  import opened Blocks
  import opened LeafFixup

  datatype DecodeError =
    | ShortHeader(remaining: nat)   // fewer bytes left than a block header needs
    | BadHeaderKey(key: U32)        // the file does not start with an 'AQFT' header

  /**
    The size recorded for a block: the declared size, cut down to the bytes
    that are actually left when the declaration overruns the buffer.
   */
  function Clamp(declared: U32, remaining: nat): (r: U32)
    ensures r as nat <= remaining && r <= declared
    ensures declared as nat <= remaining ==> r == declared
    ensures declared as nat > remaining ==> r as nat == remaining
  {
    if declared as nat > remaining then remaining as U32 else declared
  }

  /**
    The node a leaf block becomes: its payload after `fixup_block`, or the
    raw payload when the fixup refuses (the source goes on regardless).
   */
  function LeafNode(key: U32, size: U32, payload: seq<Byte>, little: bool): (r: Block)
    requires |payload| == size as nat
    ensures r.key == key && r.size == size && |r.data| == |payload|
    ensures FixupBlock(Block(key, size, payload), little).Failure? ==> r.data == payload
  {
    match FixupBlock(Block(key, size, payload), little)
    case Success(b) => b
    case Failure(_) => Block(key, size, payload)
  }

  /** Every node's payload is exactly as long as its recorded size. */
  ghost predicate SizesMatch(bs: seq<Block>)
  {
    forall i :: 0 <= i < |bs| ==> |bs[i].data| == bs[i].size as nat
  }

  /**
    `parse_block` over a whole buffer: blocks are read one after the other
    until the buffer is used up.  A header that does not fit in what is left
    is refused (see the findings: the source reads past the buffer there).
   */
  function ParseBlock(buffer: seq<Byte>, little: bool): (r: Result<seq<Block>, DecodeError>)
    ensures r.Success? ==> SizesMatch(r.value)
    ensures r.Success? ==> forall i :: 0 <= i < |r.value| ==> r.value[i].size as nat + HeaderSize <= |buffer|
    ensures r.Success? && |buffer| > 0 ==> |r.value| > 0
    ensures r.Failure? ==> r.error.ShortHeader? && 0 < r.error.remaining < HeaderSize
    decreases |buffer|, 1
  {
    if |buffer| == 0 then Success([])
    else if |buffer| < HeaderSize then Failure(ShortHeader(|buffer|))
    else
      var key := Word(buffer[..4]);
      var size := Clamp(Word(buffer[4..8]), |buffer| - HeaderSize);
      var payload := buffer[HeaderSize..HeaderSize + size as nat];
      Then(ParseNode(key, size, payload, little), ParseBlock(buffer[HeaderSize + size as nat..], little))
  }

  /** A block, then its siblings; the first failure is the one reported. */
  function Then(first: Result<seq<Block>, DecodeError>, rest: Result<seq<Block>, DecodeError>): (r: Result<seq<Block>, DecodeError>)
    ensures r.Success? <==> first.Success? && rest.Success?
    ensures r.Success? ==> r.value == first.value + rest.value
    ensures first.Failure? ==> r == first
  {
    if first.Failure? then first
    else if rest.Failure? then rest
    else Success(first.value + rest.value)
  }

  /** One block: a superblock followed by its parsed children, or a single leaf. */
  function ParseNode(key: U32, size: U32, payload: seq<Byte>, little: bool): (r: Result<seq<Block>, DecodeError>)
    requires |payload| == size as nat
    ensures r.Success? ==> SizesMatch(r.value) && |r.value| > 0
    ensures r.Success? ==> r.value[0].key == key && r.value[0].size == size
    ensures r.Success? ==> forall i :: 0 <= i < |r.value| ==> r.value[i].size as nat <= |payload|
    ensures r.Failure? ==> r.error.ShortHeader? && 0 < r.error.remaining < HeaderSize
    ensures !Superblock(key) ==> r == Success([LeafNode(key, size, payload, little)])
    decreases |payload|, 2
  {
    if Superblock(key) then
      var children :- ParseBlock(payload, little);
      Success([Block(key, size, payload)] + children)
    else
      Success([LeafNode(key, size, payload, little)])
  }

  /** `check_header`: the first word of the file must be the 'AQFT' key. */
  function CheckHeader(buffer: seq<Byte>): (r: Result<(), DecodeError>)
    requires |buffer| >= HeaderSize
    ensures r.Success? <==> Word(buffer[..4]) == KEY_AQFT
    ensures r.Failure? ==> r.error == BadHeaderKey(Word(buffer[..4]))
  {
    var key := Word(buffer[..4]);
    if key != KEY_AQFT then Failure(BadHeaderKey(key)) else Success(())
  }

  /**
    `read_binary_file` followed by `parse_file`: the header key is checked
    only when the file is longer than one block header; an empty file gives
    an empty list.
   */
  function ParseFile(buffer: seq<Byte>, little: bool): (r: Result<seq<Block>, DecodeError>)
    ensures |buffer| > HeaderSize && Word(buffer[..4]) != KEY_AQFT ==> r == Failure(BadHeaderKey(Word(buffer[..4])))
    ensures (|buffer| <= HeaderSize || Word(buffer[..4]) == KEY_AQFT) ==> r == ParseBlock(buffer, little)
  {
    if |buffer| > HeaderSize then
      var _ :- CheckHeader(buffer);
      ParseBlock(buffer, little)
    else
      ParseBlock(buffer, little)
  }

  // ---------------------------------------------------------------------
  // The containment tree that the flat list encodes

  /**
    A block as it nests in the file.  A leaf carries its payload as it lies
    on the wire.
   */
  datatype Tree =
    | Leaf(key: U32, wire: seq<Byte>)
    | Container(key: U32, children: seq<Tree>)

  /** The wire bytes of one block: header, then payload. */
  function SerializeTree(t: Tree): seq<Byte>
    decreases t, 1
  {
    match t
    case Leaf(k, d) => WordBytes(k) + WordBytes(Truncate32(|d|)) + d
    case Container(k, cs) =>
      var p := Serialize(cs);
      WordBytes(k) + WordBytes(Truncate32(|p|)) + p
  }

  /** The wire bytes of a run of sibling blocks. */
  function Serialize(ts: seq<Tree>): seq<Byte>
    decreases ts, 0
  {
    if |ts| == 0 then [] else SerializeTree(ts[0]) + Serialize(ts[1..])
  }

  /** A length as a `uint32_t` (only the low 32 bits fit in a header). */
  function Truncate32(n: nat): U32
  {
    (n % Two32) as U32
  }

  /**
    A tree the parser can read back: leaf keys are not superblock keys,
    container keys are, and every payload fits a 32-bit size.
   */
  ghost predicate WellFormed(ts: seq<Tree>)
    decreases ts, 0
  {
    forall i :: 0 <= i < |ts| ==> WellFormedTree(ts[i])
  }

  ghost predicate WellFormedTree(t: Tree)
    decreases t, 1
  {
    match t
    case Leaf(k, d) => !Superblock(k) && |d| < Two32
    case Container(k, cs) => Superblock(k) && |Serialize(cs)| < Two32 && WellFormed(cs)
  }

  /** The preorder list the parser is expected to build from a tree. */
  function Flatten(ts: seq<Tree>, little: bool): seq<Block>
    requires WellFormed(ts)
    decreases ts, 0
  {
    if |ts| == 0 then [] else FlattenTree(ts[0], little) + Flatten(ts[1..], little)
  }

  function FlattenTree(t: Tree, little: bool): seq<Block>
    requires WellFormedTree(t)
    decreases t, 1
  {
    match t
    case Leaf(k, d) => [LeafNode(k, Truncate32(|d|), d, little)]
    case Container(k, cs) =>
      var p := Serialize(cs);
      [Block(k, Truncate32(|p|), p)] + Flatten(cs, little)
  }

  /** A header followed by the rest of the buffer splits back into its two words and the rest. */
  lemma HeaderSplit(k: U32, n: U32, rest: seq<Byte>)
    ensures var b := WordBytes(k) + WordBytes(n) + rest;
      |b| >= HeaderSize && Word(b[..4]) == k && Word(b[4..8]) == n && b[HeaderSize..] == rest
  {
    var b := WordBytes(k) + WordBytes(n) + rest;
    assert b[..4] == WordBytes(k);
    assert b[4..8] == WordBytes(n);
  }

  /**
    Parsing is the inverse of serialising: the wire image of a well-formed
    tree parses into the preorder flattening of that tree.
   */
  lemma {:induction false} ParseSerialize(ts: seq<Tree>, little: bool)
    requires WellFormed(ts)
    ensures ParseBlock(Serialize(ts), little) == Success(Flatten(ts, little))
    decreases ts, 0
  {
    if |ts| > 0 {
      var t := ts[0];
      var b := Serialize(ts);
      var first := SerializeTree(t);
      var more := Serialize(ts[1..]);
      assert b == first + more;
      assert WellFormed(ts[1..]) by {
        forall i | 0 <= i < |ts[1..]| ensures WellFormedTree(ts[1..][i]) {
          assert ts[1..][i] == ts[i + 1];
        }
      }
      assert WellFormedTree(t);
      ParseSerializeTree(t, more, little);
      ParseSerialize(ts[1..], little);
    }
  }

  /** Taking `m` bytes from offset `h` of `b` is taking them from the tail of `b` at `h`. */
  lemma TailSlices(b: seq<Byte>, h: nat, m: nat)
    requires h + m <= |b|
    ensures b[h..h + m] == b[h..][..m] && b[h + m..] == b[h..][m..]
  {
  }

  /** The slices `ParseBlock` takes of a header stating its true length, followed by the payload and more bytes. */
  lemma FrontSlices(k: U32, n: U32, p: seq<Byte>, more: seq<Byte>)
    requires n as nat == |p|
    ensures var b := WordBytes(k) + WordBytes(n) + (p + more);
      |b| >= HeaderSize && Word(b[..4]) == k && Clamp(Word(b[4..8]), |b| - HeaderSize) == n &&
      b[HeaderSize..HeaderSize + |p|] == p && b[HeaderSize + |p|..] == more
  {
    var b := WordBytes(k) + WordBytes(n) + (p + more);
    HeaderSplit(k, n, p + more);
    TailSlices(b, HeaderSize, |p|);
    assert (p + more)[..|p|] == p;
    assert (p + more)[|p|..] == more;
  }

  /** A header stating the length `n` of the payload `p` that follows it is read as that block, then the rest. */
  lemma ParseStated(k: U32, n: U32, p: seq<Byte>, more: seq<Byte>, little: bool)
    requires n as nat == |p|
    ensures ParseBlock(WordBytes(k) + WordBytes(n) + (p + more), little) ==
      Then(ParseNode(k, n, p, little), ParseBlock(more, little))
  {
    FrontSlices(k, n, p, more);
  }

  /** A block whose header states its true length is read as that block, then the rest. */
  lemma ParseFront(k: U32, p: seq<Byte>, more: seq<Byte>, little: bool)
    requires |p| < Two32
    ensures ParseBlock(WordBytes(k) + WordBytes(Truncate32(|p|)) + (p + more), little) ==
      Then(ParseNode(k, Truncate32(|p|), p, little), ParseBlock(more, little))
  {
    ParseStated(k, Truncate32(|p|), p, more, little);
  }

  /**
    A header that declares more bytes than remain is cut to what remains: the
    block takes the rest of the buffer and is the last block at its level.
   */
  lemma ParseClamped(k: U32, n: U32, rest: seq<Byte>, little: bool)
    requires |rest| < n as nat
    ensures ParseBlock(WordBytes(k) + WordBytes(n) + rest, little) ==
      ParseNode(k, |rest| as U32, rest, little)
  {
    var b := WordBytes(k) + WordBytes(n) + rest;
    HeaderSplit(k, n, rest);
    var size := Clamp(Word(b[4..8]), |b| - HeaderSize);
    assert size as nat == |rest|;
    assert b[HeaderSize..HeaderSize + size as nat] == rest;
    assert b[HeaderSize + size as nat..] == [];
    var first := ParseNode(k, size, rest, little);
    assert first.Success? ==> first.value + [] == first.value;
  }

  /** One well-formed block in front of further bytes is read as that block, then the rest. */
  lemma {:induction false} ParseSerializeTree(t: Tree, more: seq<Byte>, little: bool)
    requires WellFormedTree(t)
    ensures ParseBlock(SerializeTree(t) + more, little) ==
      match ParseBlock(more, little)
      case Success(rest) => Success(FlattenTree(t, little) + rest)
      case Failure(e) => Failure(e)
    decreases t, 1
  {
    match t
    case Leaf(k, d) =>
      assert SerializeTree(t) + more == WordBytes(k) + WordBytes(Truncate32(|d|)) + (d + more);
      ParseFront(k, d, more, little);
    case Container(k, cs) =>
      var p := Serialize(cs);
      assert SerializeTree(t) + more == WordBytes(k) + WordBytes(Truncate32(|p|)) + (p + more);
      ParseFront(k, p, more, little);
      ParseSerialize(cs, little);
  }

  // ---------------------------------------------------------------------
  // The header that runs past the end (see the findings)

  /**
    As written, `parse_block` subtracts the header size from an unsigned
    64-bit remaining length without checking it first.
   */
  function RemainingAfterHeaderAsWritten(remaining: nat): (r: nat)
    requires remaining < Two64
    ensures r < Two64
    ensures remaining >= HeaderSize ==> r == remaining - HeaderSize
  {
    (remaining - HeaderSize) % Two64
  }

  /**
    With one to seven bytes left the subtraction wraps to a count above every
    32-bit size, so the truncation check never fires and the payload
    is taken from past the end of the buffer.
   */
  lemma ShortHeaderWraps(remaining: nat, declared: U32)
    requires 0 < remaining < HeaderSize
    ensures RemainingAfterHeaderAsWritten(remaining) > declared as nat
    ensures RemainingAfterHeaderAsWritten(remaining) > remaining
  {
  }

  /** The corrected reader refuses the same inputs instead. */
  lemma ShortHeaderRefused(buffer: seq<Byte>, little: bool)
    requires 0 < |buffer| < HeaderSize
    ensures ParseBlock(buffer, little) == Failure(ShortHeader(|buffer|))
  {
  }
}
