/**
  `rsgen`: the driver loop that turns the text form back into a node list,
  then `fixup_sizes` and `rs_write`.  Each line the loop reads is counted;
  empty and one-character lines and lines with a colon are passed over; any
  other line names a block by its first four characters, whose `make`
  builds the node from the lines after it.
 */
module RsGen {
  import opened Wrappers
  import opened ByteOrder
  import opened Registry
  import opened Blocks
  import opened Scan
  import opened TextStream
  import opened Dump
  import opened Make
  import opened Sizes
  import opened Encoder

  datatype GenError =
    | CannotGen(line: nat)             // the line names no known block
    | MakeFailed(key: U32, line: nat)  // the block named on the line could not be made

  /** A line the loop passes over: at most one character, or a parameter line. */
  predicate PassedOver(text: string)
  {
    |text| <= 1 || ':' in text
  }

  /**
    The block type a line names.  The key is the line's first four bytes,
    read big-endian; a line of two or three characters puts its terminating
    NUL among them, and no key has a zero byte, so it names nothing.
   */
  function LineType(text: string): (r: Option<BlockType>)
    ensures r.Some? ==> |text| >= 4 && KeyOf(r.value) == Word(CharBytes(text[..4]))
  {
    if |text| < 4 then None else FindBlockFunctions(Word(CharBytes(text[..4])))
  }

  /** What the loop has gathered when it stops: the nodes, the lines it counted, the error if any. */
  datatype Gathered = Gathered(blocks: seq<Block>, count: nat, error: Option<GenError>)

  /**
    The loop of `rsgen` from `c`, with `count` lines read so far: at the end
    of the file it stops cleanly; a line naming no block, or a block whose
    `make` fails, stops it with the line's number.
   */
  function Gather(lines: seq<string>, c: Cursor, config: Config, count: nat, little: bool, libc: Libc): (r: Gathered)
    requires Valid(lines, c)
    ensures r.count > count || (c.line == |lines| && r == Gathered([], count, None))
    ensures r.error.Some? ==> r.error.value.line <= r.count
    decreases |lines| - c.line, ColsLeft(lines, c)
  {
    match ReadLine(lines, c, SIZE_LINE)
    case None => Gathered([], count, None)
    case Some((text, next)) =>
      var n := count + 1;
      if PassedOver(text) then Gather(lines, next, config, n, little, libc)
      else match LineType(text)
        case None => Gathered([], n, Some(CannotGen(n)))
        case Some(t) =>
          match MakeNode(t, lines, next, config, little, libc)
          case Failure(_) => Gathered([], n, Some(MakeFailed(KeyOf(t), n)))
          case Success(m) =>
            var rest := Gather(lines, m.next, m.config, n, little, libc);
            Gathered([m.block] + rest.blocks, rest.count, rest.error)
  }

  /** What `rsgen` writes and the status it returns. */
  datatype GenReport = GenReport(bytes: seq<Byte>, status: nat)

  /**
    `rsgen`: a loop error ends the run with status 1 and nothing written;
    otherwise the sizes are fixed up (whether or not that succeeds) and the
    list is written, with status 1 if a node cannot be.
   */
  function Rsgen(lines: seq<string>, little: bool, libc: Libc): (r: GenReport)
    ensures r.status <= 1
    ensures Gather(lines, Cursor(0, 0), Unset, 0, little, libc).error.Some? ==> r == GenReport([], 1)
  {
    var g := Gather(lines, Cursor(0, 0), Unset, 0, little, libc);
    if g.error.Some? then GenReport([], 1)
    else
      var w := RsWrite(FixupSizes(g.blocks).list, little);
      GenReport(w.bytes, if w.error.Some? then 1 else 0)
  }

  /**
    `rsgen` exits with status 0 exactly when the loop reads the whole file
    without error and every node, after its sizes are fixed up, can be
    written; it then writes the nodes in the order they were gathered.
   */
  lemma RsgenSucceeds(lines: seq<string>, little: bool, libc: Libc)
    ensures var g := Gather(lines, Cursor(0, 0), Unset, 0, little, libc);
      var list := FixupSizes(g.blocks).list;
      (Rsgen(lines, little, libc).status == 0 <==>
        g.error.None? && forall i :: 0 <= i < |list| ==> GenBlock(list[i], little).Success?) &&
      (Rsgen(lines, little, libc).status == 0 ==> Rsgen(lines, little, libc).bytes == RsWrite(list, little).bytes)
  {
    var g := Gather(lines, Cursor(0, 0), Unset, 0, little, libc);
    RsWriteSucceeds(FixupSizes(g.blocks).list, little);
  }
}
