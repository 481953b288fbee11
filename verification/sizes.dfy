/**
  The size bookkeeping of `rsgen`: the text form carries no container sizes,
  so after the list is built `fixup_sizes` walks it to total the blocks that
  follow 'HEAD' (up to 'BODY' or 'END') and those that follow 'BODY' (up to
  'END'), and writes the totals, and their sum plus two headers for 'AQFT',
  into the first node of each key.  Totals are `uint32_t` and wrap.
 */
module Sizes {
  import opened Wrappers
  import opened ByteOrder
  import opened Registry
  import opened Blocks

  // ---------------------------------------------------------------------
  // Regions: the reference reading of "the blocks inside HEAD / BODY"

  /**
    Before index `i` a region is open: some earlier node carries the opening
    key and no node after it, up to `i`, carries a closing key.
   */
  ghost predicate Opened(bs: seq<Block>, i: nat, open: U32, closes: set<U32>)
    requires i <= |bs|
  {
    exists j :: 0 <= j < i && bs[j].key == open && forall m :: j < m < i ==> bs[m].key !in closes
  }

  /** Node `i` lies inside the region: it is open before `i` and node `i` does not close it. */
  ghost predicate Counted(bs: seq<Block>, i: nat, open: U32, closes: set<U32>)
    requires i < |bs|
  {
    Opened(bs, i, open, closes) && bs[i].key !in closes
  }

  /** What node `i` adds to its region's total: its payload and its header. */
  ghost function Weight(bs: seq<Block>, i: nat, open: U32, closes: set<U32>): nat
    requires i < |bs|
  {
    if Counted(bs, i, open, closes) then bs[i].size as nat + HeaderSize else 0
  }

  /** The exact (unwrapped) total of the region over the nodes from `i` on. */
  ghost function RegionSumFrom(bs: seq<Block>, i: nat, open: U32, closes: set<U32>): nat
    requires i <= |bs|
    decreases |bs| - i
  {
    if i == |bs| then 0 else Weight(bs, i, open, closes) + RegionSumFrom(bs, i + 1, open, closes)
  }

  ghost function RegionSum(bs: seq<Block>, open: U32, closes: set<U32>): nat
  {
    RegionSumFrom(bs, 0, open, closes)
  }

  /** How one node moves the region flag: an opening key opens, a closing key closes. */
  lemma OpenedStep(bs: seq<Block>, i: nat, open: U32, closes: set<U32>)
    requires i < |bs| && open !in closes
    ensures Opened(bs, i + 1, open, closes) ==
      if bs[i].key == open then true
      else if bs[i].key in closes then false
      else Opened(bs, i, open, closes)
  {
    if bs[i].key == open {
    } else if bs[i].key in closes {
      forall j | 0 <= j < i + 1 && bs[j].key == open
        ensures exists m :: j < m < i + 1 && bs[m].key in closes
      {
        assert j < i;
        assert bs[i].key in closes;
      }
    } else {
      if Opened(bs, i, open, closes) {
        var j :| 0 <= j < i && bs[j].key == open && forall m :: j < m < i ==> bs[m].key !in closes;
        assert forall m :: j < m < i + 1 ==> bs[m].key !in closes;
      }
      if Opened(bs, i + 1, open, closes) {
        var j :| 0 <= j < i + 1 && bs[j].key == open && forall m :: j < m < i + 1 ==> bs[m].key !in closes;
        assert j < i;
        assert forall m :: j < m < i ==> bs[m].key !in closes;
      }
    }
  }

  // ---------------------------------------------------------------------
  // The scan as the source writes it

  /**
    The loop of `calculate_head_size` / `calculate_body_size` from node `i`
    on, with the flag and the running `uint32_t` total: a closing key clears
    the flag, a flagged node is added with its header, an opening key sets
    the flag, in that order.
   */
  function Scan(bs: seq<Block>, i: nat, open: U32, closes: set<U32>, inside: bool, total: U32): (r: U32)
    requires i <= |bs|
    decreases |bs| - i
  {
    if i == |bs| then total
    else
      var k := bs[i].key;
      var flag := if k in closes then false else inside;
      var total' := if flag then ((total as nat + bs[i].size as nat + HeaderSize) % Two32) as U32 else total;
      Scan(bs, i + 1, open, closes, if k == open then true else flag, total')
  }

  /** The scan computes the region total modulo 2^32. */
  lemma {:induction false} ScanIsRegionSum(bs: seq<Block>, i: nat, open: U32, closes: set<U32>, inside: bool, total: U32)
    requires i <= |bs| && open !in closes
    requires inside == Opened(bs, i, open, closes)
    ensures Scan(bs, i, open, closes, inside, total) as nat == (total as nat + RegionSumFrom(bs, i, open, closes)) % Two32
    decreases |bs| - i
  {
    if i < |bs| {
      var k := bs[i].key;
      var flag := if k in closes then false else inside;
      assert flag == Counted(bs, i, open, closes);
      var total' := if flag then ((total as nat + bs[i].size as nat + HeaderSize) % Two32) as U32 else total;
      OpenedStep(bs, i, open, closes);
      ScanIsRegionSum(bs, i + 1, open, closes, if k == open then true else flag, total');
      ModAddLeft(total as nat + Weight(bs, i, open, closes), RegionSumFrom(bs, i + 1, open, closes));
    }
  }

  /** Reducing the left operand first does not change a sum modulo 2^32. */
  lemma ModAddLeft(a: nat, b: nat)
    ensures (a % Two32 + b) % Two32 == (a + b) % Two32
  {
  }

  const HeadCloses: set<U32> := {KEY_BODY, KEY_END}
  const BodyCloses: set<U32> := {KEY_END}

  /**
    `calculate_head_size`: the blocks after a 'HEAD' node up to the next
    'BODY' or 'END', each with its header, modulo 2^32.
   */
  function CalculateHeadSize(bs: seq<Block>): (r: U32)
    ensures r as nat == RegionSum(bs, KEY_HEAD, HeadCloses) % Two32
  {
    ScanIsRegionSum(bs, 0, KEY_HEAD, HeadCloses, false, 0);
    Scan(bs, 0, KEY_HEAD, HeadCloses, false, 0)
  }

  /**
    `calculate_body_size`: the blocks after a 'BODY' node up to the next
    'END', each with its header, modulo 2^32.
   */
  function CalculateBodySize(bs: seq<Block>): (r: U32)
    ensures r as nat == RegionSum(bs, KEY_BODY, BodyCloses) % Two32
  {
    ScanIsRegionSum(bs, 0, KEY_BODY, BodyCloses, false, 0);
    Scan(bs, 0, KEY_BODY, BodyCloses, false, 0)
  }

  // ---------------------------------------------------------------------
  // Writing the totals back

  /** The index of the first node with `key`, if any. */
  function FirstWithKey(bs: seq<Block>, key: U32): (r: Option<nat>)
    ensures r.Some? ==> (r.value < |bs| && bs[r.value].key == key &&
      forall j :: 0 <= j < r.value ==> bs[j].key != key)
    ensures r.None? <==> forall j :: 0 <= j < |bs| ==> bs[j].key != key
  {
    if |bs| == 0 then None
    else if bs[0].key == key then Some(0)
    else match FirstWithKey(bs[1..], key)
      case None => None
      case Some(i) => Some(i + 1)
  }

  /** Node `j` is the first node with `key`. */
  ghost predicate IsFirst(bs: seq<Block>, j: nat, key: U32)
    requires j < |bs|
  {
    bs[j].key == key && forall m :: 0 <= m < j ==> bs[m].key != key
  }

  /**
    `set_block_size`: the first node with `key` gets the new size; with no
    such node the list is left alone and the call fails.
   */
  function SetBlockSize(bs: seq<Block>, key: U32, size: U32): (r: Option<seq<Block>>)
    ensures r.None? <==> forall j :: 0 <= j < |bs| ==> bs[j].key != key
    ensures r.Some? ==> |r.value| == |bs|
    ensures r.Some? ==> forall j :: 0 <= j < |bs| ==>
      r.value[j] == if IsFirst(bs, j, key) then bs[j].(size := size) else bs[j]
  {
    match FirstWithKey(bs, key)
    case None => None
    case Some(i) => Some(bs[i := bs[i].(size := size)])
  }

  /** What `fixup_sizes` leaves behind: the list as far as it got, and whether it succeeded. */
  datatype SizesOutcome = SizesOutcome(list: seq<Block>, ok: bool)

  ghost predicate HasKey(bs: seq<Block>, key: U32)
  {
    exists j :: 0 <= j < |bs| && bs[j].key == key
  }

  /**
    One `set_block_size` step of `fixup_sizes`: once a step has failed the
    later ones are skipped; a missing key fails the step and leaves the list
    as it was.
   */
  function SetStep(prev: SizesOutcome, key: U32, size: U32): (r: SizesOutcome)
    ensures |r.list| == |prev.list|
    ensures forall j :: 0 <= j < |prev.list| ==> r.list[j].key == prev.list[j].key && r.list[j].data == prev.list[j].data
    ensures r.ok <==> prev.ok && HasKey(prev.list, key)
    ensures !r.ok ==> r.list == prev.list
    ensures r.ok ==> forall j :: 0 <= j < |prev.list| ==>
      r.list[j].size == if IsFirst(prev.list, j, key) then size else prev.list[j].size
  {
    if !prev.ok then prev
    else
      match SetBlockSize(prev.list, key, size)
      case None => SizesOutcome(prev.list, false)
      case Some(b) => SizesOutcome(b, true)
  }

  /**
    `fixup_sizes`: fails if either region is empty, and otherwise sets the
    'AQFT', 'HEAD' and 'BODY' sizes in that order, stopping at the first key
    that is missing (the sizes already set stay set).
   */
  function FixupSizes(bs: seq<Block>): (r: SizesOutcome)
    ensures |r.list| == |bs|
    ensures forall j :: 0 <= j < |bs| ==> r.list[j].key == bs[j].key && r.list[j].data == bs[j].data
  {
    var head := CalculateHeadSize(bs);
    if head == 0 then SizesOutcome(bs, false)
    else
      var body := CalculateBodySize(bs);
      if body == 0 then SizesOutcome(bs, false)
      else
        SetStep(SetStep(SetStep(SizesOutcome(bs, true), KEY_AQFT, AqftSize(head, body)), KEY_HEAD, head), KEY_BODY, body)
  }

  /**
    `fixup_sizes` succeeds exactly when both regions have a non-zero total
    and the three container keys are all present.
   */
  lemma FixupSizesSucceeds(bs: seq<Block>)
    ensures FixupSizes(bs).ok <==>
      CalculateHeadSize(bs) != 0 && CalculateBodySize(bs) != 0 &&
      HasKey(bs, KEY_AQFT) && HasKey(bs, KEY_HEAD) && HasKey(bs, KEY_BODY)
  {
    var head := CalculateHeadSize(bs);
    var body := CalculateBodySize(bs);
    if head != 0 && body != 0 {
      var s1 := SetStep(SizesOutcome(bs, true), KEY_AQFT, AqftSize(head, body));
      var s2 := SetStep(s1, KEY_HEAD, head);
      var s3 := SetStep(s2, KEY_BODY, body);
      assert FixupSizes(bs) == s3;
      KeysKept(bs, s1.list);
      KeysKept(s1.list, s2.list);
    }
  }

  /** Two lists with the same keys in the same places have the same key set. */
  lemma KeysKept(a: seq<Block>, b: seq<Block>)
    requires |a| == |b| && forall j :: 0 <= j < |a| ==> a[j].key == b[j].key
    ensures forall key :: HasKey(a, key) <==> HasKey(b, key)
  {
    forall key ensures HasKey(a, key) <==> HasKey(b, key) {
      if HasKey(a, key) {
        var j :| 0 <= j < |a| && a[j].key == key;
        assert b[j].key == key;
      }
      if HasKey(b, key) {
        var j :| 0 <= j < |b| && b[j].key == key;
        assert a[j].key == key;
      }
    }
  }

  /** The size `fixup_sizes` gives the 'AQFT' node: both regions plus their two headers, modulo 2^32. */
  function AqftSize(head: U32, body: U32): (r: U32)
    ensures r as nat == (head as nat + HeaderSize + body as nat + HeaderSize) % Two32
  {
    ((head as nat + HeaderSize + body as nat + HeaderSize) % Two32) as U32
  }

  /** The size node `j` should carry once `fixup_sizes` has succeeded. */
  ghost function ExpectedSize(bs: seq<Block>, j: nat): U32
    requires j < |bs|
  {
    if IsFirst(bs, j, KEY_AQFT) then AqftSize(CalculateHeadSize(bs), CalculateBodySize(bs))
    else if IsFirst(bs, j, KEY_HEAD) then CalculateHeadSize(bs)
    else if IsFirst(bs, j, KEY_BODY) then CalculateBodySize(bs)
    else bs[j].size
  }

  /**
    After a successful `fixup_sizes` the first 'HEAD' and 'BODY' nodes carry
    their region totals, the first 'AQFT' node carries both plus two
    headers, and every other node keeps its size.
   */
  lemma FixupSizesSets(bs: seq<Block>)
    requires FixupSizes(bs).ok
    ensures forall j :: 0 <= j < |bs| ==> FixupSizes(bs).list[j].size == ExpectedSize(bs, j)
  {
    var head := CalculateHeadSize(bs);
    var body := CalculateBodySize(bs);
    var s1 := SetStep(SizesOutcome(bs, true), KEY_AQFT, AqftSize(head, body));
    var s2 := SetStep(s1, KEY_HEAD, head);
    var s3 := SetStep(s2, KEY_BODY, body);
    assert FixupSizes(bs) == s3;
    forall j | 0 <= j < |bs|
      ensures s3.list[j].size == ExpectedSize(bs, j)
    {
      FirstKeptAt(bs, s1.list, j, KEY_HEAD);
      FirstKeptAt(bs, s2.list, j, KEY_BODY);
      DistinctFirsts(bs, j);
    }
  }

  /** A node is the first of at most one key. */
  lemma DistinctFirsts(bs: seq<Block>, j: nat)
    requires j < |bs|
    ensures IsFirst(bs, j, KEY_AQFT) ==> !IsFirst(bs, j, KEY_HEAD) && !IsFirst(bs, j, KEY_BODY)
    ensures IsFirst(bs, j, KEY_HEAD) ==> !IsFirst(bs, j, KEY_BODY)
  {
  }

  /** "First with a key" depends on the keys only. */
  lemma FirstKeptAt(a: seq<Block>, b: seq<Block>, j: nat, key: U32)
    requires |a| == |b| && forall m :: 0 <= m < |a| ==> a[m].key == b[m].key
    requires j < |a|
    ensures IsFirst(a, j, key) <==> IsFirst(b, j, key)
  {
  }

  /** When a step fails nothing further is written: the list keeps every size it had so far. */
  lemma FixupSizesFailsEarly(bs: seq<Block>)
    requires CalculateHeadSize(bs) == 0 || CalculateBodySize(bs) == 0 || !HasKey(bs, KEY_AQFT)
    ensures FixupSizes(bs) == SizesOutcome(bs, false)
  {
    if CalculateHeadSize(bs) != 0 && CalculateBodySize(bs) != 0 {
      var head := CalculateHeadSize(bs);
      var body := CalculateBodySize(bs);
      assert SetBlockSize(bs, KEY_AQFT, AqftSize(head, body)).None?;
    }
  }
}
