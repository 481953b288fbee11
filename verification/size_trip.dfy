/**
  The container sizes `rsgen` recomputes.  The text form carries no sizes:
  `make` builds every superblock node with size 0 and `fixup_sizes` fills
  in 'AQFT', 'HEAD' and 'BODY' afterwards.  For an acquisition file laid out
  as 'AQFT' holding a 'HEAD' and a 'BODY' of leaves, followed by 'END ', the
  sizes it computes are exactly those of the wire image, so `rs_write` then
  reproduces the file.  When 'END ' is instead the last child of 'AQFT', the
  'AQFT' total falls 8 bytes short, because `fixup_sizes` never counts the
  'END ' header.
 */
module SizeTrip {
  import opened Wrappers
  import opened ByteOrder
  import opened Registry
  import opened Blocks
  import opened Decoder
  import opened Encoder
  import opened Sizes

  // ---------------------------------------------------------------------
  // The node lists involved

  /** The list as `make` leaves it: every superblock node has size 0, every leaf is as made. */
  function Unsized(bs: seq<Block>): (r: seq<Block>)
    ensures |r| == |bs|
    ensures forall i :: 0 <= i < |bs| ==>
      r[i].key == bs[i].key && r[i].data == bs[i].data && r[i].size == if Superblock(bs[i].key) then 0 else bs[i].size
    decreases |bs|
  {
    if |bs| == 0 then []
    else [if Superblock(bs[0].key) then bs[0].(size := 0) else bs[0]] + Unsized(bs[1..])
  }

  /** The bytes a run of nodes takes on the wire: each payload with its header. */
  function Weights(bs: seq<Block>): nat
    decreases |bs|
  {
    if |bs| == 0 then 0 else bs[0].size as nat + HeaderSize + Weights(bs[1..])
  }

  predicate NoSuperblocks(bs: seq<Block>)
  {
    forall i :: 0 <= i < |bs| ==> !Superblock(bs[i].key)
  }

  /**
    The preorder list of an acquisition file with the given container sizes:
    'AQFT', 'HEAD', the header leaves `mh`, 'BODY', the body leaves `mb`, 'END '.
   */
  function Layout(a: U32, h: U32, mh: seq<Block>, b: U32, mb: seq<Block>, e: U32): seq<Block>
  {
    [Block(KEY_AQFT, a, [])] + ([Block(KEY_HEAD, h, [])] + (mh + ([Block(KEY_BODY, b, [])] + (mb + [Block(KEY_END, e, [])]))))
  }

  /** Node `j` of a layout, read off its parts. */
  function Slot(a: U32, h: U32, mh: seq<Block>, b: U32, mb: seq<Block>, e: U32, j: nat): Block
    requires j < |mh| + |mb| + 4
  {
    if j == 0 then Block(KEY_AQFT, a, [])
    else if j == 1 then Block(KEY_HEAD, h, [])
    else if j < |mh| + 2 then mh[j - 2]
    else if j == |mh| + 2 then Block(KEY_BODY, b, [])
    else if j < |mh| + |mb| + 3 then mb[j - |mh| - 3]
    else Block(KEY_END, e, [])
  }

  /** Where each part of a layout sits. */
  lemma {:induction false} LayoutIndex(a: U32, h: U32, mh: seq<Block>, b: U32, mb: seq<Block>, e: U32, j: nat)
    requires j < |mh| + |mb| + 4
    ensures |Layout(a, h, mh, b, mb, e)| == |mh| + |mb| + 4
    ensures Layout(a, h, mh, b, mb, e)[j] == Slot(a, h, mh, b, mb, e, j)
  {
    var tb := mb + [Block(KEY_END, e, [])];
    var t2 := [Block(KEY_BODY, b, [])] + tb;
    var t1 := mh + t2;
    var t0 := [Block(KEY_HEAD, h, [])] + t1;
    assert Layout(a, h, mh, b, mb, e) == [Block(KEY_AQFT, a, [])] + t0;
    if j >= |mh| + 3 {
      assert tb[j - |mh| - 3] == Slot(a, h, mh, b, mb, e, j);
    }
  }

  // ---------------------------------------------------------------------
  // The size scans over a layout

  /** One step of the scan, taken on the head of a list. */
  lemma {:induction false} ScanCons(x: Block, rest: seq<Block>, open: U32, closes: set<U32>, inside: bool, total: U32)
    ensures var flag := if x.key in closes then false else inside;
      Scan([x] + rest, 0, open, closes, inside, total) ==
      Scan(rest, 0, open, closes, if x.key == open then true else flag,
        if flag then ((total as nat + x.size as nat + HeaderSize) % Two32) as U32 else total)
  {
    var flag := if x.key in closes then false else inside;
    var total' := if flag then ((total as nat + x.size as nat + HeaderSize) % Two32) as U32 else total;
    ScanShift([x], rest, 0, open, closes, if x.key == open then true else flag, total');
  }

  /** The scan from position `|p| + i` of `p + q` is the scan from position `i` of `q`. */
  lemma {:induction false} ScanShift(p: seq<Block>, q: seq<Block>, i: nat, open: U32, closes: set<U32>, inside: bool, total: U32)
    requires i <= |q|
    ensures Scan(p + q, |p| + i, open, closes, inside, total) == Scan(q, i, open, closes, inside, total)
    decreases |q| - i
  {
    if i < |q| {
      assert (p + q)[|p| + i] == q[i];
      var k := q[i].key;
      var flag := if k in closes then false else inside;
      var total' := if flag then ((total as nat + q[i].size as nat + HeaderSize) % Two32) as U32 else total;
      ScanShift(p, q, i + 1, open, closes, if k == open then true else flag, total');
    }
  }

  /** Inside the region, a run of nodes that neither opens nor closes it adds its weight. */
  lemma {:induction false} ScanRun(run: seq<Block>, rest: seq<Block>, open: U32, closes: set<U32>, total: U32)
    requires forall i :: 0 <= i < |run| ==> run[i].key !in closes && run[i].key != open
    ensures Scan(run + rest, 0, open, closes, true, total) ==
      Scan(rest, 0, open, closes, true, ((total as nat + Weights(run)) % Two32) as U32)
    decreases |run|
  {
    if |run| == 0 {
      assert run + rest == rest;
    } else {
      var x := run[0];
      assert run + rest == [x] + (run[1..] + rest);
      var total' := ((total as nat + x.size as nat + HeaderSize) % Two32) as U32;
      ScanCons(x, run[1..] + rest, open, closes, true, total);
      ScanRun(run[1..], rest, open, closes, total');
      ModAddLeft(total as nat + x.size as nat + HeaderSize, Weights(run[1..]));
    }
  }

  /** Outside the region, a run of nodes that does not open it adds nothing. */
  lemma {:induction false} ScanPass(run: seq<Block>, rest: seq<Block>, open: U32, closes: set<U32>, total: U32)
    requires forall i :: 0 <= i < |run| ==> run[i].key != open
    ensures Scan(run + rest, 0, open, closes, false, total) == Scan(rest, 0, open, closes, false, total)
    decreases |run|
  {
    if |run| == 0 {
      assert run + rest == rest;
    } else {
      assert run + rest == [run[0]] + (run[1..] + rest);
      ScanCons(run[0], run[1..] + rest, open, closes, false, total);
      ScanPass(run[1..], rest, open, closes, total);
    }
  }

  /** In a layout, `calculate_head_size` totals exactly the header leaves. */
  lemma {:induction false} LayoutHeadSize(a: U32, h: U32, mh: seq<Block>, b: U32, mb: seq<Block>, e: U32)
    requires NoSuperblocks(mh) && NoSuperblocks(mb)
    ensures CalculateHeadSize(Layout(a, h, mh, b, mb, e)) as nat == Weights(mh) % Two32
  {
    var x0, x1, x2, x3 := Block(KEY_AQFT, a, []), Block(KEY_HEAD, h, []), Block(KEY_BODY, b, []), Block(KEY_END, e, []);
    var tail := mb + [x3];
    var w := (Weights(mh) % Two32) as U32;
    ScanCons(x0, [x1] + (mh + ([x2] + tail)), KEY_HEAD, HeadCloses, false, 0);
    ScanCons(x1, mh + ([x2] + tail), KEY_HEAD, HeadCloses, false, 0);
    ScanRun(mh, [x2] + tail, KEY_HEAD, HeadCloses, 0);
    ScanCons(x2, tail, KEY_HEAD, HeadCloses, true, w);
    ScanPass(tail, [], KEY_HEAD, HeadCloses, w);
    assert tail + [] == tail;
  }

  /** In a layout, `calculate_body_size` totals exactly the body leaves. */
  lemma {:induction false} LayoutBodySize(a: U32, h: U32, mh: seq<Block>, b: U32, mb: seq<Block>, e: U32)
    requires NoSuperblocks(mh) && NoSuperblocks(mb)
    ensures CalculateBodySize(Layout(a, h, mh, b, mb, e)) as nat == Weights(mb) % Two32
  {
    var x0, x1, x2, x3 := Block(KEY_AQFT, a, []), Block(KEY_HEAD, h, []), Block(KEY_BODY, b, []), Block(KEY_END, e, []);
    var w := (Weights(mb) % Two32) as U32;
    ScanCons(x0, [x1] + (mh + ([x2] + (mb + [x3]))), KEY_BODY, BodyCloses, false, 0);
    ScanCons(x1, mh + ([x2] + (mb + [x3])), KEY_BODY, BodyCloses, false, 0);
    ScanPass(mh, [x2] + (mb + [x3]), KEY_BODY, BodyCloses, 0);
    ScanCons(x2, mb + [x3], KEY_BODY, BodyCloses, false, 0);
    ScanRun(mb, [x3], KEY_BODY, BodyCloses, 0);
    ScanCons(x3, [], KEY_BODY, BodyCloses, true, w);
  }

  // ---------------------------------------------------------------------
  // What `fixup_sizes` does to a layout

  /** A non-empty run of nodes weighs at least one header. */
  lemma WeightsPositive(bs: seq<Block>)
    requires |bs| > 0
    ensures Weights(bs) >= HeaderSize
  {
  }

  /**
    When 'AQFT' and 'HEAD' are the first two nodes, 'BODY' occurs once at
    `iB`, and both totals are non-zero, `fixup_sizes` succeeds and changes
    exactly those three sizes.
   */
  lemma {:induction false} FixupSingleContainers(l: seq<Block>, iB: nat)
    requires 1 < iB < |l|
    requires l[0].key == KEY_AQFT && l[1].key == KEY_HEAD && l[iB].key == KEY_BODY
    requires forall j :: 1 < j < |l| && j != iB ==> l[j].key != KEY_AQFT && l[j].key != KEY_HEAD && l[j].key != KEY_BODY
    requires CalculateHeadSize(l) != 0 && CalculateBodySize(l) != 0
    ensures var head, body := CalculateHeadSize(l), CalculateBodySize(l);
      FixupSizes(l) ==
      SizesOutcome(l[0 := l[0].(size := AqftSize(head, body))][1 := l[1].(size := head)][iB := l[iB].(size := body)], true)
  {
    var head, body := CalculateHeadSize(l), CalculateBodySize(l);
    var target := l[0 := l[0].(size := AqftSize(head, body))][1 := l[1].(size := head)][iB := l[iB].(size := body)];
    assert HasKey(l, KEY_AQFT) && HasKey(l, KEY_HEAD) && HasKey(l, KEY_BODY);
    FixupSizesSucceeds(l);
    FixupSizesSets(l);
    var r := FixupSizes(l).list;
    forall j | 0 <= j < |l| ensures r[j] == target[j] {
      SingleExpected(l, iB, j);
    }
    assert r == target;
    assert FixupSizes(l) == SizesOutcome(r, true);
  }

  /** Which size `fixup_sizes` gives node `j` when each container key occurs once, at 0, 1 and `iB`. */
  lemma {:induction false} SingleExpected(l: seq<Block>, iB: nat, j: nat)
    requires 1 < iB < |l| && j < |l|
    requires l[0].key == KEY_AQFT && l[1].key == KEY_HEAD && l[iB].key == KEY_BODY
    requires forall j :: 1 < j < |l| && j != iB ==> l[j].key != KEY_AQFT && l[j].key != KEY_HEAD && l[j].key != KEY_BODY
    ensures ExpectedSize(l, j) ==
      if j == 0 then AqftSize(CalculateHeadSize(l), CalculateBodySize(l))
      else if j == 1 then CalculateHeadSize(l)
      else if j == iB then CalculateBodySize(l)
      else l[j].size
  {
    assert IsFirst(l, j, KEY_AQFT) <==> j == 0;
    assert IsFirst(l, j, KEY_HEAD) <==> j == 1;
    assert IsFirst(l, j, KEY_BODY) <==> j == iB by {
      if j == iB {
        forall m | 0 <= m < j ensures l[m].key != KEY_BODY {
        }
      }
    }
  }

  /**
    Whatever sizes the containers of a layout carry, `fixup_sizes` succeeds
    when both regions hold a leaf and weigh less than 2^32 bytes, and sets
    'HEAD' and 'BODY' to the bytes of their leaves and 'AQFT' to the size
    computed from those two; 'END ' and the leaves keep their sizes.
   */
  lemma {:induction false} LayoutFixup(a: U32, h: U32, mh: seq<Block>, b: U32, mb: seq<Block>, e: U32)
    requires NoSuperblocks(mh) && NoSuperblocks(mb) && 0 < |mh| && 0 < |mb|
    requires Weights(mh) < Two32 && Weights(mb) < Two32
    ensures FixupSizes(Layout(a, h, mh, b, mb, e)) ==
      SizesOutcome(Layout(AqftSize(Weights(mh) as U32, Weights(mb) as U32), Weights(mh) as U32, mh, Weights(mb) as U32, mb, e), true)
  {
    var l := Layout(a, h, mh, b, mb, e);
    var iB := |mh| + 2;
    LayoutHeadSize(a, h, mh, b, mb, e);
    LayoutBodySize(a, h, mh, b, mb, e);
    WeightsPositive(mh);
    WeightsPositive(mb);
    LayoutIndex(a, h, mh, b, mb, e, 0);
    LayoutIndex(a, h, mh, b, mb, e, 1);
    LayoutIndex(a, h, mh, b, mb, e, iB);
    forall j | 1 < j < |l| && j != iB
      ensures l[j].key != KEY_AQFT && l[j].key != KEY_HEAD && l[j].key != KEY_BODY
    {
      LayoutIndex(a, h, mh, b, mb, e, j);
    }
    var head, body := CalculateHeadSize(l), CalculateBodySize(l);
    assert head == Weights(mh) as U32 && body == Weights(mb) as U32;
    FixupSingleContainers(l, iB);
    LayoutResizeAll(a, h, mh, b, mb, e, AqftSize(head, body), head, body);
  }

  /** The list `make` leaves for a layout is the same layout with the three container sizes 0. */
  lemma {:induction false} UnsizedLayout(a: U32, h: U32, mh: seq<Block>, b: U32, mb: seq<Block>, e: U32)
    requires NoSuperblocks(mh) && NoSuperblocks(mb)
    ensures Unsized(Layout(a, h, mh, b, mb, e)) == Layout(0, 0, mh, 0, mb, 0)
  {
    var u, z := Unsized(Layout(a, h, mh, b, mb, e)), Layout(0, 0, mh, 0, mb, 0);
    LayoutIndex(0, 0, mh, 0, mb, 0, 0);
    forall j | 0 <= j < |u| ensures u[j] == z[j] {
      LayoutIndex(a, h, mh, b, mb, e, j);
      LayoutIndex(0, 0, mh, 0, mb, 0, j);
    }
  }

  // ---------------------------------------------------------------------
  // Acquisition files as trees

  predicate Leaves(ts: seq<Tree>)
  {
    forall i :: 0 <= i < |ts| ==> ts[i].Leaf?
  }

  /** 'AQFT' holding a 'HEAD' of the leaves `hs` and a 'BODY' of the leaves `bs`, then 'END ' after it. */
  function Acquisition(hs: seq<Tree>, bs: seq<Tree>): seq<Tree>
  {
    [Container(KEY_AQFT, [Container(KEY_HEAD, hs), Container(KEY_BODY, bs)]), Container(KEY_END, [])]
  }

  /** The same, with 'END ' as the last child of 'AQFT'. */
  function EndInside(hs: seq<Tree>, bs: seq<Tree>): seq<Tree>
  {
    [Container(KEY_AQFT, [Container(KEY_HEAD, hs), Container(KEY_BODY, bs), Container(KEY_END, [])])]
  }

  /** The nodes `make` builds for writable leaves are leaves that weigh what the leaves serialise to. */
  lemma {:induction false} MadeLeaves(ts: seq<Tree>, little: bool)
    requires Writable(ts) && Leaves(ts)
    ensures NoSuperblocks(MadeList(ts, little))
    ensures Weights(MadeList(ts, little)) == |Serialize(ts)|
    decreases |ts|
  {
    if |ts| > 0 {
      assert Writable(ts[1..]) && Leaves(ts[1..]) by {
        forall i | 0 <= i < |ts[1..]| ensures WritableTree(ts[1..][i]) && ts[1..][i].Leaf? {
          assert ts[1..][i] == ts[i + 1];
        }
      }
      MadeLeaves(ts[1..], little);
      assert WritableTree(ts[0]) && ts[0].Leaf?;
      var k, d := ts[0].key, ts[0].wire;
      SuperblockIsContainer(k);
      var made := MadeList(ts, little);
      var x := MadeTree(ts[0], little)[0];
      assert made == [x] + MadeList(ts[1..], little);
      assert made[1..] == MadeList(ts[1..], little);
      assert x.key == k && x.size as nat == |d|;
      assert |SerializeTree(ts[0])| == HeaderSize + |d|;
    }
  }

  /** The wire length of a container: its header and its children. */
  lemma {:induction false} ContainerLength(k: U32, cs: seq<Tree>)
    ensures |SerializeTree(Container(k, cs))| == HeaderSize + |Serialize(cs)|
  {
  }

  /**
    The 'AQFT' size in the wire image of a file whose 'END ' sits inside
    'AQFT': both regions and the three headers of 'HEAD', 'BODY' and 'END '.
   */
  function EndInsideAqftSize(head: U32, body: U32): (r: U32)
    requires head as nat + HeaderSize + body as nat + HeaderSize + HeaderSize < Two32
    ensures r as nat == AqftSize(head, body) as nat + HeaderSize
  {
    (head as nat + HeaderSize + body as nat + HeaderSize + HeaderSize) as U32
  }

  /** The list `make` builds for an acquisition file, with the sizes the wire image states. */
  lemma {:induction false} MadeAcquisition(hs: seq<Tree>, bs: seq<Tree>, little: bool)
    requires Writable(Acquisition(hs, bs)) && Leaves(hs) && Leaves(bs)
    ensures Writable(hs) && Writable(bs)
    ensures |Serialize(hs)| + HeaderSize + |Serialize(bs)| + HeaderSize < Two32
    ensures MadeList(Acquisition(hs, bs), little) ==
      Layout(AqftSize(|Serialize(hs)| as U32, |Serialize(bs)| as U32), |Serialize(hs)| as U32, MadeList(hs, little),
             |Serialize(bs)| as U32, MadeList(bs, little), 0)
  {
    var th, tb := Container(KEY_HEAD, hs), Container(KEY_BODY, bs);
    var aq := Container(KEY_AQFT, [th, tb]);
    AcquisitionParts(hs, bs);
    MadeAcquisitionTop(hs, bs, little);
    MadeAqftPair(hs, bs, little);
    MadeContainer(KEY_HEAD, hs, little);
    MadeContainer(KEY_BODY, bs, little);
    Assemble(MadeList(Acquisition(hs, bs), little), MadeTree(aq, little), false,
             AqftSize(|Serialize(hs)| as U32, |Serialize(bs)| as U32),
             MadeTree(th, little), |Serialize(hs)| as U32, MadeList(hs, little),
             MadeTree(tb, little), |Serialize(bs)| as U32, MadeList(bs, little));
  }

  /** The list `make` builds for the 'END ' inside layout, with the sizes the wire image states. */
  lemma {:induction false} MadeEndInside(hs: seq<Tree>, bs: seq<Tree>, little: bool)
    requires Writable(EndInside(hs, bs)) && Leaves(hs) && Leaves(bs)
    ensures Writable(hs) && Writable(bs)
    ensures |Serialize(hs)| + HeaderSize + |Serialize(bs)| + HeaderSize + HeaderSize < Two32
    ensures MadeList(EndInside(hs, bs), little) ==
      Layout(EndInsideAqftSize(|Serialize(hs)| as U32, |Serialize(bs)| as U32), |Serialize(hs)| as U32, MadeList(hs, little),
             |Serialize(bs)| as U32, MadeList(bs, little), 0)
  {
    var th, tb := Container(KEY_HEAD, hs), Container(KEY_BODY, bs);
    var aq := Container(KEY_AQFT, [th, tb, Container(KEY_END, [])]);
    EndInsideParts(hs, bs);
    MadeEndInsideTop(hs, bs, little);
    MadeAqftTriple(hs, bs, little);
    MadeContainer(KEY_HEAD, hs, little);
    MadeContainer(KEY_BODY, bs, little);
    Assemble(MadeList(EndInside(hs, bs), little), MadeTree(aq, little), true,
             EndInsideAqftSize(|Serialize(hs)| as U32, |Serialize(bs)| as U32),
             MadeTree(th, little), |Serialize(hs)| as U32, MadeList(hs, little),
             MadeTree(tb, little), |Serialize(bs)| as U32, MadeList(bs, little));
  }

  /**
    The made list of an acquisition file is the made 'AQFT' subtree followed by
    the 'END ' block, which `make` writes with size 0.
   */
  lemma {:induction false} MadeAcquisitionTop(hs: seq<Tree>, bs: seq<Tree>, little: bool)
    requires Writable(Acquisition(hs, bs))
    ensures WritableTree(Container(KEY_AQFT, [Container(KEY_HEAD, hs), Container(KEY_BODY, bs)]))
    ensures var aq := Container(KEY_AQFT, [Container(KEY_HEAD, hs), Container(KEY_BODY, bs)]);
      MadeList(Acquisition(hs, bs), little) == MadeTree(aq, little) + [Block(KEY_END, 0, [])]
  {
    var th, tb := Container(KEY_HEAD, hs), Container(KEY_BODY, bs);
    var aq, en := Container(KEY_AQFT, [th, tb]), Container(KEY_END, []);
    AcquisitionParts(hs, bs);
    MadeContainer(KEY_END, [], little);
    assert MadeList([], little) == [];
    MadePair(aq, en, little);
    assert Acquisition(hs, bs) == [aq, en];
  }

  /** With 'END ' inside, the made list is the made 'AQFT' subtree alone. */
  lemma {:induction false} MadeEndInsideTop(hs: seq<Tree>, bs: seq<Tree>, little: bool)
    requires Writable(EndInside(hs, bs))
    ensures WritableTree(Container(KEY_AQFT, [Container(KEY_HEAD, hs), Container(KEY_BODY, bs), Container(KEY_END, [])]))
    ensures var aq := Container(KEY_AQFT, [Container(KEY_HEAD, hs), Container(KEY_BODY, bs), Container(KEY_END, [])]);
      MadeList(EndInside(hs, bs), little) == MadeTree(aq, little)
  {
    var th, tb, en := Container(KEY_HEAD, hs), Container(KEY_BODY, bs), Container(KEY_END, []);
    var aq := Container(KEY_AQFT, [th, tb, en]);
    EndInsideParts(hs, bs);
    MadeSingle(aq, little);
    assert EndInside(hs, bs) == [aq];
  }

  /** The made 'AQFT' subtree of an acquisition file, its size the two children's images. */
  lemma {:induction false} MadeAqftPair(hs: seq<Tree>, bs: seq<Tree>, little: bool)
    requires Writable(Acquisition(hs, bs))
    ensures |Serialize(hs)| + HeaderSize + |Serialize(bs)| + HeaderSize < Two32
    ensures var th, tb := Container(KEY_HEAD, hs), Container(KEY_BODY, bs);
      WritableTree(Container(KEY_AQFT, [th, tb])) && WritableTree(th) && WritableTree(tb)
    ensures var th, tb := Container(KEY_HEAD, hs), Container(KEY_BODY, bs);
      MadeTree(Container(KEY_AQFT, [th, tb]), little) ==
        [Block(KEY_AQFT, AqftSize(|Serialize(hs)| as U32, |Serialize(bs)| as U32), [])] + (MadeTree(th, little) + MadeTree(tb, little))
  {
    var th, tb := Container(KEY_HEAD, hs), Container(KEY_BODY, bs);
    AcquisitionParts(hs, bs);
    var n := |Serialize([th, tb])|;
    MadeContainer(KEY_AQFT, [th, tb], little);
    AqftSizeSmall(|Serialize(hs)| as U32, |Serialize(bs)| as U32);
    assert Block(KEY_AQFT, n as U32, []) == Block(KEY_AQFT, AqftSize(|Serialize(hs)| as U32, |Serialize(bs)| as U32), []);
    MadePair(th, tb, little);
  }

  /** The made 'AQFT' subtree with 'END ' inside, its size the three children's images. */
  lemma {:induction false} MadeAqftTriple(hs: seq<Tree>, bs: seq<Tree>, little: bool)
    requires Writable(EndInside(hs, bs))
    ensures |Serialize(hs)| + HeaderSize + |Serialize(bs)| + HeaderSize + HeaderSize < Two32
    ensures var th, tb, en := Container(KEY_HEAD, hs), Container(KEY_BODY, bs), Container(KEY_END, []);
      WritableTree(Container(KEY_AQFT, [th, tb, en])) && WritableTree(th) && WritableTree(tb)
    ensures var th, tb, en := Container(KEY_HEAD, hs), Container(KEY_BODY, bs), Container(KEY_END, []);
      MadeTree(Container(KEY_AQFT, [th, tb, en]), little) ==
        [Block(KEY_AQFT, EndInsideAqftSize(|Serialize(hs)| as U32, |Serialize(bs)| as U32), [])] +
        (MadeTree(th, little) + MadeTree(tb, little) + [Block(KEY_END, 0, [])])
  {
    var th, tb, en := Container(KEY_HEAD, hs), Container(KEY_BODY, bs), Container(KEY_END, []);
    EndInsideParts(hs, bs);
    var n := |Serialize([th, tb, en])|;
    MadeContainer(KEY_AQFT, [th, tb, en], little);
    assert Block(KEY_AQFT, n as U32, []) == Block(KEY_AQFT, EndInsideAqftSize(|Serialize(hs)| as U32, |Serialize(bs)| as U32), []);
    MadeEnd(little);
    MadeTriple(th, tb, en, little);
    assert MadeList([th, tb, en], little) == MadeTree(th, little) + MadeTree(tb, little) + [Block(KEY_END, 0, [])];
  }

  /** An empty 'END ' container is made as one node of size 0. */
  lemma MadeEnd(little: bool)
    ensures WritableTree(Container(KEY_END, []))
    ensures MadeTree(Container(KEY_END, []), little) == [Block(KEY_END, 0, [])]
  {
    assert Serialize([]) == [];
    assert MadeList([], little) == [];
    assert [Block(KEY_END, 0, [])] + [] == [Block(KEY_END, 0, [])];
  }

  /**
    Assembling the made pieces: 'END ' either follows the 'AQFT' subtree or
    closes it (`inside`); either way the list is the layout.
   */
  lemma {:induction false} Assemble(l: seq<Block>, ta: seq<Block>, inside: bool, a: U32,
                 th: seq<Block>, h: U32, mh: seq<Block>, tb: seq<Block>, b: U32, mb: seq<Block>)
    requires th == [Block(KEY_HEAD, h, [])] + mh && tb == [Block(KEY_BODY, b, [])] + mb
    requires !inside ==> l == ta + [Block(KEY_END, 0, [])] && ta == [Block(KEY_AQFT, a, [])] + (th + tb)
    requires inside ==> l == ta && ta == [Block(KEY_AQFT, a, [])] + (th + tb + [Block(KEY_END, 0, [])])
    ensures l == Layout(a, h, mh, b, mb, 0)
  {
    LayoutParts(l, a, h, mh, b, mb, 0);
  }

  /** When both regions and their headers fit in 32 bits, the 'AQFT' size is exact. */
  lemma AqftSizeSmall(head: U32, body: U32)
    requires head as nat + HeaderSize + body as nat + HeaderSize < Two32
    ensures AqftSize(head, body) as nat == head as nat + HeaderSize + body as nat + HeaderSize
  {
  }

  /** A length that fits in 32 bits is its own truncation. */
  lemma TruncateSmall(n: nat)
    requires n < Two32
    ensures Truncate32(n) == n as U32
  {
  }

  lemma {:induction false} WritableAt(ts: seq<Tree>, i: nat)
    requires Writable(ts) && i < |ts|
    ensures WritableTree(ts[i])
  {
  }

  lemma {:induction false} WritableContainer(k: U32, cs: seq<Tree>)
    requires WritableTree(Container(k, cs))
    ensures Superblock(k) && |Serialize(cs)| < Two32 && Writable(cs)
  {
  }

  /** What a writable acquisition file says of its parts. */
  lemma {:induction false} AcquisitionParts(hs: seq<Tree>, bs: seq<Tree>)
    requires Writable(Acquisition(hs, bs))
    ensures var th, tb := Container(KEY_HEAD, hs), Container(KEY_BODY, bs);
      WritableTree(Container(KEY_AQFT, [th, tb])) && WritableTree(Container(KEY_END, [])) &&
      WritableTree(th) && WritableTree(tb) && Writable(hs) && Writable(bs) &&
      |Serialize([th, tb])| == |Serialize(hs)| + HeaderSize + |Serialize(bs)| + HeaderSize < Two32
  {
    var th, tb := Container(KEY_HEAD, hs), Container(KEY_BODY, bs);
    WritableAt(Acquisition(hs, bs), 0);
    WritableAt(Acquisition(hs, bs), 1);
    WritableContainer(KEY_AQFT, [th, tb]);
    WritableAt([th, tb], 0);
    WritableAt([th, tb], 1);
    WritableContainer(KEY_HEAD, hs);
    WritableContainer(KEY_BODY, bs);
    SerializePair(th, tb);
    ContainerLength(KEY_HEAD, hs);
    ContainerLength(KEY_BODY, bs);
  }

  /** What a writable file with 'END ' inside 'AQFT' says of its parts. */
  lemma {:induction false} EndInsideParts(hs: seq<Tree>, bs: seq<Tree>)
    requires Writable(EndInside(hs, bs))
    ensures var th, tb, en := Container(KEY_HEAD, hs), Container(KEY_BODY, bs), Container(KEY_END, []);
      WritableTree(Container(KEY_AQFT, [th, tb, en])) && WritableTree(en) &&
      WritableTree(th) && WritableTree(tb) && Writable(hs) && Writable(bs) &&
      |Serialize([th, tb, en])| == |Serialize(hs)| + HeaderSize + |Serialize(bs)| + HeaderSize + HeaderSize < Two32
  {
    var th, tb, en := Container(KEY_HEAD, hs), Container(KEY_BODY, bs), Container(KEY_END, []);
    WritableAt(EndInside(hs, bs), 0);
    WritableContainer(KEY_AQFT, [th, tb, en]);
    WritableAt([th, tb, en], 0);
    WritableAt([th, tb, en], 1);
    WritableAt([th, tb, en], 2);
    WritableContainer(KEY_HEAD, hs);
    WritableContainer(KEY_BODY, bs);
    SerializeTriple(th, tb, en);
    ContainerLength(KEY_HEAD, hs);
    ContainerLength(KEY_BODY, bs);
    ContainerLength(KEY_END, []);
    assert Serialize([]) == [];
  }

  /** The node `make` builds for a container, then its children. */
  lemma {:induction false} MadeContainer(k: U32, cs: seq<Tree>, little: bool)
    requires WritableTree(Container(k, cs))
    ensures Writable(cs) && |Serialize(cs)| < Two32
    ensures MadeTree(Container(k, cs), little) == [Block(k, |Serialize(cs)| as U32, [])] + MadeList(cs, little)
  {
    TruncateSmall(|Serialize(cs)|);
  }

  /** The two groupings in which the made lists come out are the layout. */
  lemma {:induction false} LayoutParts(l: seq<Block>, a: U32, h: U32, mh: seq<Block>, b: U32, mb: seq<Block>, e: U32)
    requires
      var x0, x1, x2, x3 := Block(KEY_AQFT, a, []), Block(KEY_HEAD, h, []), Block(KEY_BODY, b, []), Block(KEY_END, e, []);
      l == ([x0] + (([x1] + mh) + ([x2] + mb))) + [x3] || l == [x0] + (([x1] + mh) + ([x2] + mb) + [x3])
    ensures l == Layout(a, h, mh, b, mb, e)
  {
    var x1, x2, x3 := Block(KEY_HEAD, h, []), Block(KEY_BODY, b, []), Block(KEY_END, e, []);
    assert (([x1] + mh) + ([x2] + mb)) + [x3] == [x1] + (mh + ([x2] + (mb + [x3])));
  }

  lemma {:induction false} SerializePair(x: Tree, y: Tree)
    ensures Serialize([x, y]) == SerializeTree(x) + SerializeTree(y)
  {
    assert [x, y][1..] == [y];
    assert [y][1..] == [];
    assert Serialize([y]) == SerializeTree(y) + Serialize([]);
    assert SerializeTree(y) + [] == SerializeTree(y);
  }

  lemma {:induction false} SerializeTriple(x: Tree, y: Tree, z: Tree)
    ensures |Serialize([x, y, z])| == |SerializeTree(x)| + |SerializeTree(y)| + |SerializeTree(z)|
  {
    assert [x, y, z][1..] == [y, z];
    SerializePair(y, z);
  }

  lemma {:induction false} MadeSingle(x: Tree, little: bool)
    requires WritableTree(x)
    ensures Writable([x]) && MadeList([x], little) == MadeTree(x, little)
  {
    assert [x][1..] == [];
  }

  lemma {:induction false} MadePair(x: Tree, y: Tree, little: bool)
    requires WritableTree(x) && WritableTree(y)
    ensures Writable([x, y]) && MadeList([x, y], little) == MadeTree(x, little) + MadeTree(y, little)
  {
    assert [x, y][1..] == [y];
    MadeSingle(y, little);
  }

  lemma {:induction false} MadeTriple(x: Tree, y: Tree, z: Tree, little: bool)
    requires WritableTree(x) && WritableTree(y) && WritableTree(z)
    ensures Writable([x, y, z]) && MadeList([x, y, z], little) == MadeTree(x, little) + MadeTree(y, little) + MadeTree(z, little)
  {
    var s := [x, y, z];
    assert s[0] == x && s[1..] == [y, z];
    MadePair(y, z, little);
    assert Writable(s) by {
      forall i | 0 <= i < |s| ensures WritableTree(s[i]) {
        assert s[i] == x || s[i] == y || s[i] == z;
      }
    }
    var mx, my, mz := MadeTree(x, little), MadeTree(y, little), MadeTree(z, little);
    assert MadeList(s, little) == mx + MadeList(s[1..], little);
    assert mx + (my + mz) == mx + my + mz;
  }

  // ---------------------------------------------------------------------
  // The theorems

  /**
    `fixup_sizes` restores the container sizes of an acquisition file: from
    the list `make` builds, with every container at size 0, it computes the
    sizes of the wire image, so `rs_write` then writes the file back exactly.
   */
  lemma {:induction false} FixupRestoresSizes(hs: seq<Tree>, bs: seq<Tree>, little: bool)
    requires Writable(Acquisition(hs, bs)) && Leaves(hs) && Leaves(bs) && 0 < |hs| && 0 < |bs|
    ensures FixupSizes(Unsized(MadeList(Acquisition(hs, bs), little))) ==
      SizesOutcome(MadeList(Acquisition(hs, bs), little), true)
    ensures RsWrite(FixupSizes(Unsized(MadeList(Acquisition(hs, bs), little))).list, little) ==
      WriteOutcome(Serialize(Acquisition(hs, bs)), None)
  {
    MadeAcquisition(hs, bs, little);
    var mh, mb := MadeList(hs, little), MadeList(bs, little);
    MadeLeavesNonEmpty(hs, little);
    MadeLeavesNonEmpty(bs, little);
    var h, b := |Serialize(hs)| as U32, |Serialize(bs)| as U32;
    UnsizedLayout(AqftSize(h, b), h, mh, b, mb, 0);
    LayoutFixup(0, 0, mh, 0, mb, 0);
    RsWriteMadeList(Acquisition(hs, bs), little);
  }

  /**
    With 'END ' as the last child of 'AQFT', `fixup_sizes` still succeeds, but
    gives 'AQFT' 8 bytes less than its wire size: the 'END ' header is never
    counted.  Every other node gets the size of the wire image.
   */
  lemma {:induction false} EndInsideUndercounts(hs: seq<Tree>, bs: seq<Tree>, little: bool)
    requires Writable(EndInside(hs, bs)) && Leaves(hs) && Leaves(bs) && 0 < |hs| && 0 < |bs|
    ensures var made := MadeList(EndInside(hs, bs), little);
      var r := FixupSizes(Unsized(made));
      r.ok && |made| > 0 && made[0].size as nat >= HeaderSize &&
      r.list == made[0 := made[0].(size := made[0].size - HeaderSize as U32)]
  {
    MadeEndInside(hs, bs, little);
    MadeLeavesNonEmpty(hs, little);
    MadeLeavesNonEmpty(bs, little);
    var h, b := |Serialize(hs)| as U32, |Serialize(bs)| as U32;
    var mh, mb := MadeList(hs, little), MadeList(bs, little);
    LayoutUndercount(h, mh, b, mb);
    var made, l := MadeList(EndInside(hs, bs), little), Layout(EndInsideAqftSize(h, b), h, mh, b, mb, 0);
    assert made == l;
    assert FixupSizes(Unsized(made)) == FixupSizes(Unsized(l));
    assert made[0 := made[0].(size := made[0].size - HeaderSize as U32)] == l[0 := l[0].(size := l[0].size - HeaderSize as U32)];
  }

  /** `fixup_sizes` on an unsized layout with 'END ' inside 'AQFT' gives 'AQFT' 8 bytes less. */
  lemma {:induction false} LayoutUndercount(h: U32, mh: seq<Block>, b: U32, mb: seq<Block>)
    requires NoSuperblocks(mh) && NoSuperblocks(mb) && 0 < |mh| && 0 < |mb|
    requires Weights(mh) == h as nat && Weights(mb) == b as nat
    requires h as nat + HeaderSize + b as nat + HeaderSize + HeaderSize < Two32
    ensures var l := Layout(EndInsideAqftSize(h, b), h, mh, b, mb, 0);
      var r := FixupSizes(Unsized(l));
      r.ok && |l| > 0 && l[0].size as nat >= HeaderSize &&
      r.list == l[0 := l[0].(size := l[0].size - HeaderSize as U32)]
  {
    var a := EndInsideAqftSize(h, b);
    UnsizedLayout(a, h, mh, b, mb, 0);
    LayoutFixup(0, 0, mh, 0, mb, 0);
    LayoutIndex(a, h, mh, b, mb, 0, 0);
    assert a - HeaderSize as U32 == AqftSize(h, b);
    LayoutResize(a, AqftSize(h, b), h, mh, b, mb, 0);
  }

  /** Changing the sizes of the three containers of a layout gives the layout with those sizes. */
  lemma {:induction false} LayoutResizeAll(a: U32, h: U32, mh: seq<Block>, b: U32, mb: seq<Block>, e: U32, a': U32, h': U32, b': U32)
    ensures var l, iB := Layout(a, h, mh, b, mb, e), |mh| + 2;
      iB < |l| && l[0 := l[0].(size := a')][1 := l[1].(size := h')][iB := l[iB].(size := b')] == Layout(a', h', mh, b', mb, e)
  {
    var l, l', iB := Layout(a, h, mh, b, mb, e), Layout(a', h', mh, b', mb, e), |mh| + 2;
    LayoutIndex(a, h, mh, b, mb, e, 0);
    LayoutIndex(a', h', mh, b', mb, e, 0);
    LayoutIndex(a, h, mh, b, mb, e, 1);
    LayoutIndex(a, h, mh, b, mb, e, iB);
    var r := l[0 := l[0].(size := a')][1 := l[1].(size := h')][iB := l[iB].(size := b')];
    forall j | 0 <= j < |l| ensures r[j] == l'[j] {
      LayoutIndex(a, h, mh, b, mb, e, j);
      LayoutIndex(a', h', mh, b', mb, e, j);
    }
  }

  /** Changing the size of the 'AQFT' node of a layout gives the layout with that size. */
  lemma {:induction false} LayoutResize(a: U32, a': U32, h: U32, mh: seq<Block>, b: U32, mb: seq<Block>, e: U32)
    ensures var l := Layout(a, h, mh, b, mb, e);
      |l| > 0 && l[0 := l[0].(size := a')] == Layout(a', h, mh, b, mb, e)
  {
    var l, l' := Layout(a, h, mh, b, mb, e), Layout(a', h, mh, b, mb, e);
    LayoutIndex(a, h, mh, b, mb, e, 0);
    LayoutIndex(a', h, mh, b, mb, e, 0);
    forall j | 0 <= j < |l| ensures l[0 := l[0].(size := a')][j] == l'[j] {
      LayoutIndex(a, h, mh, b, mb, e, j);
      LayoutIndex(a', h, mh, b, mb, e, j);
    }
  }

  /** The nodes `make` builds for a non-empty run of writable leaves: a non-empty run of leaf nodes weighing what the run serialises to. */
  lemma {:induction false} MadeLeavesNonEmpty(ts: seq<Tree>, little: bool)
    requires Writable(ts) && Leaves(ts) && 0 < |ts|
    ensures NoSuperblocks(MadeList(ts, little)) && 0 < |MadeList(ts, little)|
    ensures Weights(MadeList(ts, little)) == |Serialize(ts)|
  {
    MadeLeaves(ts, little);
  }
}
