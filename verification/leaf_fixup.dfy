/**
  The `fixup_data_*` family: after a leaf is read from the wire every
  numeric field of its packed struct is byte-order corrected in place; char
  arrays and the opaque 'hasi' payload are left as they are.  The same walk
  over the field table, with a different choice of swapped fields, is what the
  binary writer does on the way out.
 */
module LeafFixup {
  import opened Wrappers
  import opened ByteOrder
  import opened Registry
  import opened Blocks

  datatype FixupError =
    | Truncated(t: BlockType)   // payload shorter than the struct
    | NoHandler(key: U32)       // key not in the dictionary

  /** Decode corrects every field except the fixed char arrays. */
  predicate SwappedWhenRead(k: FieldKind)
  {
    !k.Text?
  }

  /** Offset of field `i` within the packed struct. */
  function Offset(fields: seq<FieldKind>, i: nat): nat
    requires i <= |fields|
  {
    if i == 0 then 0 else Width(fields[0]) + Offset(fields[1..], i - 1)
  }

  /**
    Walk the packed fields of `data`, applying `endian_fixup` to every field
    whose kind `swap` selects; bytes past the last field are left alone.
   */
  function ApplyFields(fields: seq<FieldKind>, data: seq<Byte>, little: bool, swap: FieldKind -> bool): (r: seq<Byte>)
    requires TotalWidth(fields) <= |data|
    ensures |r| == |data|
    decreases |fields|
  {
    if |fields| == 0 then data
    else
      var w := Width(fields[0]);
      Corrected(fields[0], data[..w], little, swap) + ApplyFields(fields[1..], data[w..], little, swap)
  }

  /** Bytes past the last field are left alone. */
  lemma {:induction false} ApplyFieldsKeepsTail(fields: seq<FieldKind>, data: seq<Byte>, little: bool, swap: FieldKind -> bool)
    requires TotalWidth(fields) <= |data|
    ensures ApplyFields(fields, data, little, swap)[TotalWidth(fields)..] == data[TotalWidth(fields)..]
    decreases |fields|
  {
    if |fields| > 0 {
      var w := Width(fields[0]);
      ApplyFieldsSplit(fields, data, little, swap);
      ApplyFieldsKeepsTail(fields[1..], data[w..], little, swap);
      assert data[w..][TotalWidth(fields[1..])..] == data[TotalWidth(fields)..];
    }
  }

  /** On a big-endian host the walk changes nothing. */
  lemma {:induction false} ApplyFieldsBigEndianHost(fields: seq<FieldKind>, data: seq<Byte>, swap: FieldKind -> bool)
    requires TotalWidth(fields) <= |data|
    ensures ApplyFields(fields, data, false, swap) == data
    decreases |fields|
  {
    if |fields| > 0 {
      var w := Width(fields[0]);
      ApplyFieldsSplit(fields, data, false, swap);
      ApplyFieldsBigEndianHost(fields[1..], data[w..], swap);
      assert data == data[..w] + data[w..];
    }
  }

  /** Walking the same fields twice restores the payload. */
  lemma {:induction false} ApplyFieldsInvolution(fields: seq<FieldKind>, data: seq<Byte>, little: bool, swap: FieldKind -> bool)
    requires TotalWidth(fields) <= |data|
    ensures ApplyFields(fields, ApplyFields(fields, data, little, swap), little, swap) == data
    decreases |fields|
  {
    if |fields| > 0 {
      var w := Width(fields[0]);
      var once := ApplyFields(fields, data, little, swap);
      var head := Corrected(fields[0], data[..w], little, swap);
      var tail := ApplyFields(fields[1..], data[w..], little, swap);
      ApplyFieldsSplit(fields, data, little, swap);
      ApplyFieldsSplit(fields, once, little, swap);
      AppendParts(once, head, tail);
      CorrectedInvolution(fields[0], data[..w], little, swap);
      ApplyFieldsInvolution(fields[1..], data[w..], little, swap);
      AppendParts(data, data[..w], data[w..]);
    }
  }

  /** Field `i` lies inside the packed struct. */
  lemma {:induction false} OffsetBound(fields: seq<FieldKind>, i: nat)
    requires i < |fields|
    ensures Offset(fields, i) + Width(fields[i]) <= TotalWidth(fields)
    decreases i
  {
    if i > 0 {
      OffsetBound(fields[1..], i - 1);
      assert fields[1..][i - 1] == fields[i];
    }
  }

  /** Field `i` of the result is field `i` of the input, corrected if `swap` selects its kind. */
  lemma ApplyFieldsAt(fields: seq<FieldKind>, data: seq<Byte>, little: bool, swap: FieldKind -> bool, i: nat)
    requires TotalWidth(fields) <= |data|
    requires i < |fields|
    ensures Offset(fields, i) + Width(fields[i]) <= TotalWidth(fields)
    ensures ApplyFields(fields, data, little, swap)[Offset(fields, i)..Offset(fields, i) + Width(fields[i])]
      == Corrected(fields[i], data[Offset(fields, i)..Offset(fields, i) + Width(fields[i])], little, swap)
  {
    OffsetBound(fields, i);
    FieldAt(fields, data, little, swap, i, ApplyFields(fields, data, little, swap), Offset(fields, i), Width(fields[i]));
  }

  /** `ApplyFieldsAt` with the walk's result, the offset and the width named. */
  lemma {:induction false} FieldAt(fields: seq<FieldKind>, data: seq<Byte>, little: bool, swap: FieldKind -> bool, i: nat, r: seq<Byte>, o: nat, w: nat)
    requires TotalWidth(fields) <= |data| && i < |fields|
    requires r == ApplyFields(fields, data, little, swap) && o == Offset(fields, i) && w == Width(fields[i])
    ensures o + w <= |r| && r[o..o + w] == Corrected(fields[i], data[o..o + w], little, swap)
    decreases i
  {
    OffsetBound(fields, i);
    var w0 := Width(fields[0]);
    var head := Corrected(fields[0], data[..w0], little, swap);
    var rest := fields[1..];
    var tail := ApplyFields(rest, data[w0..], little, swap);
    ApplyFieldsSplit(fields, data, little, swap);
    if i == 0 {
      PrefixOfAppend(head, tail);
    } else {
      var o' := Offset(rest, i - 1);
      assert rest[i - 1] == fields[i];
      FieldAt(rest, data[w0..], little, swap, i - 1, tail, o', w);
      ShiftSlice(r, head, tail, data, w0, o', o, w);
    }
  }

  /** One step of the walk: the first field corrected, then the walk over the rest. */
  lemma ApplyFieldsSplit(fields: seq<FieldKind>, data: seq<Byte>, little: bool, swap: FieldKind -> bool)
    requires TotalWidth(fields) <= |data| && 0 < |fields|
    ensures Width(fields[0]) <= |data|
    ensures ApplyFields(fields, data, little, swap)
      == Corrected(fields[0], data[..Width(fields[0])], little, swap)
       + ApplyFields(fields[1..], data[Width(fields[0])..], little, swap)
  {
  }

  /** A slice of the tail seen from the whole, and the matching slice of `data`. */
  lemma ShiftSlice(r: seq<Byte>, head: seq<Byte>, tail: seq<Byte>, data: seq<Byte>, w0: nat, o': nat, o: nat, w: nat)
    requires r == head + tail && |head| == w0 && w0 <= |data| && o == w0 + o'
    requires o' + w <= |tail| && o + w <= |data|
    ensures o + w <= |r| && r[o..o + w] == tail[o'..o' + w] && data[o..o + w] == data[w0..][o'..o' + w]
  {
    SliceOfAppend(head, tail, o', o' + w);
    SliceOfSuffix(data, w0, o', o' + w);
  }

  /** A sequence is its first part followed by its second. */
  lemma AppendParts(s: seq<Byte>, a: seq<Byte>, b: seq<Byte>)
    requires |a| <= |s|
    ensures s == a + b <==> s[..|a|] == a && s[|a|..] == b
  {
    if s[..|a|] == a && s[|a|..] == b {
      assert s == s[..|a|] + s[|a|..];
    }
  }

  /** The first part of a concatenation. */
  lemma PrefixOfAppend(a: seq<Byte>, b: seq<Byte>)
    ensures (a + b)[..|a|] == a
  {
  }

  /** A slice lying in the second part of a concatenation. */
  lemma SliceOfAppend(a: seq<Byte>, b: seq<Byte>, x: nat, y: nat)
    requires x <= y <= |b|
    ensures (a + b)[|a| + x..|a| + y] == b[x..y]
  {
  }

  /** A slice of a prefix is a slice of the whole. */
  lemma SliceOfPrefix(s: seq<Byte>, n: nat, x: nat, y: nat)
    requires x <= y <= n <= |s|
    ensures s[..n][x..y] == s[x..y]
  {
  }

  /** A slice of a suffix is a slice of the whole. */
  lemma SliceOfSuffix(s: seq<Byte>, k: nat, x: nat, y: nat)
    requires k + y <= |s| && x <= y
    ensures s[k..][x..y] == s[k + x..k + y]
  {
  }

  /** What the walk makes of one field. */
  function Corrected(k: FieldKind, field: seq<Byte>, little: bool, swap: FieldKind -> bool): (r: seq<Byte>)
    ensures |r| == |field|
  {
    if swap(k) then EndianFixup(field, little) else field
  }

  /** Correcting a field twice restores it. */
  lemma CorrectedInvolution(k: FieldKind, field: seq<Byte>, little: bool, swap: FieldKind -> bool)
    ensures Corrected(k, Corrected(k, field, little, swap), little, swap) == field
  {
    if swap(k) {
      EndianFixupInvolution(field, little);
    }
  }

  /**
    `fixup_data_<type>`: a payload shorter than the type's struct is refused
    as truncated; otherwise every numeric field (each sample of a sample leaf)
    is byte-order corrected.
   */
  function FixupData(t: BlockType, data: seq<Byte>, little: bool): (r: Result<seq<Byte>, FixupError>)
    ensures r.Failure? <==> |data| < MinSize(t)
    ensures r.Success? ==> |r.value| == |data|
  {
    if |data| < MinSize(t) then Failure(Truncated(t))
    else Success(ApplyFields(LeafFields(t, |data|), data, little, SwappedWhenRead))
  }

  /**
    `fixup_block`: look the key up and run its fixup; the key, the size and
    the payload length are never changed.
   */
  function FixupBlock(b: Block, little: bool): (r: Result<Block, FixupError>)
    ensures r.Success? ==> r.value.key == b.key && r.value.size == b.size && |r.value.data| == |b.data|
    ensures r.Failure? <==>
      FindBlockFunctions(b.key).None? || |b.data| < MinSize(FindBlockFunctions(b.key).value)
  {
    match FindBlockFunctions(b.key)
    case None => Failure(NoHandler(b.key))
    case Some(t) =>
      var d :- FixupData(t, b.data, little);
      Success(b.(data := d))
  }

  /** Fixing a leaf up twice gives back the original payload: the correction is its own inverse. */
  lemma FixupDataInvolution(t: BlockType, data: seq<Byte>, little: bool)
    requires FixupData(t, data, little).Success?
    ensures FixupData(t, FixupData(t, data, little).value, little) == Success(data)
  {
    ApplyFieldsInvolution(LeafFields(t, |data|), data, little, SwappedWhenRead);
  }

  /**
    After the walk, a swapped numeric field reads, in host order, as the
    big-endian number stored on the wire.
   */
  lemma FieldReadsWireValue(fields: seq<FieldKind>, wire: seq<Byte>, little: bool, i: nat)
    requires TotalWidth(fields) <= |wire| && i < |fields|
    requires SwappedWhenRead(fields[i]) && Swappable(Width(fields[i]))
    ensures var o, w := Offset(fields, i), Width(fields[i]);
      o + w <= |wire| &&
      HostValue(ApplyFields(fields, wire, little, SwappedWhenRead)[o..o + w], little) == BE(wire[o..o + w])
  {
    ApplyFieldsAt(fields, wire, little, SwappedWhenRead, i);
    var o, w := Offset(fields, i), Width(fields[i]);
    FixupReadsBigEndian(wire[o..o + w], little);
  }

  /** A fixed leaf's fixup walks the fields of its struct. */
  lemma FixupDataOfFixedLeaf(t: BlockType, wire: seq<Byte>, little: bool)
    requires FixupData(t, wire, little).Success? && FixedLeaf(t)
    ensures TotalWidth(Fields(t)) <= |wire|
    ensures FixupData(t, wire, little).value == ApplyFields(Fields(t), wire, little, SwappedWhenRead)
  {
  }
}
