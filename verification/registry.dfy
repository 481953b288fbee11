/**
  The block-type registry: the seventeen RIFF keys the program knows, which of
  them are containers ("superblocks"), and the packed field layout of every
  fixed-size leaf.  `Global_function_dictionary` becomes a closed datatype.
 */
module Registry {
  import opened Wrappers
  import opened ByteOrder

  const KEY_AQFT: U32 := 0x41514654
  const KEY_HEAD: U32 := 0x48454144
  const KEY_sign: U32 := 0x7369676e
  const KEY_mcda: U32 := 0x6d636461
  const KEY_dbrf: U32 := 0x64627266
  const KEY_cnst: U32 := 0x636e7374
  const KEY_hasi: U32 := 0x68617369
  const KEY_swep: U32 := 0x73776570
  const KEY_fbin: U32 := 0x6662696e
  const KEY_BODY: U32 := 0x424f4459
  const KEY_rtag: U32 := 0x72746167
  const KEY_gps1: U32 := 0x67707331
  const KEY_indx: U32 := 0x696e6478
  const KEY_scal: U32 := 0x7363616c
  const KEY_afft: U32 := 0x61666674
  const KEY_ifft: U32 := 0x69666674
  const KEY_END: U32 := 0x454e4420

  /** The only sample layout the program handles: format 'cviq', type 'flt4'. */
  const BINFORMAT_CVIQ: U32 := 0x63766971
  const BINTYPE_FLT4: U32 := 0x666c7434

  /** Every block header is a 4-byte key followed by a 4-byte size. */
  const HeaderSize: nat := 8

  /** One entry per row of the function dictionary. */
  datatype BlockType =
    | Aqft | Head | Sign | Mcda | Dbrf | Cnst | Hasi | Swep | Fbin
    | Body | Rtag | Gps1 | Indx | Scal | Afft | Ifft | End

  /** The dictionary rows in the order the lookup scans them. */
  const Dictionary: seq<BlockType> :=
    [Aqft, Head, Sign, Mcda, Dbrf, Cnst, Hasi, Swep, Fbin, Body, Rtag, Gps1, Indx, Scal, Afft, Ifft, End]

  function KeyOf(t: BlockType): U32
  {
    match t
    case Aqft => KEY_AQFT
    case Head => KEY_HEAD
    case Sign => KEY_sign
    case Mcda => KEY_mcda
    case Dbrf => KEY_dbrf
    case Cnst => KEY_cnst
    case Hasi => KEY_hasi
    case Swep => KEY_swep
    case Fbin => KEY_fbin
    case Body => KEY_BODY
    case Rtag => KEY_rtag
    case Gps1 => KEY_gps1
    case Indx => KEY_indx
    case Scal => KEY_scal
    case Afft => KEY_afft
    case Ifft => KEY_ifft
    case End => KEY_END
  }

  /** The key as it is written in the text form (what `strkey` prints). */
  function Name(t: BlockType): string
  {
    match t
    case Aqft => "AQFT"
    case Head => "HEAD"
    case Sign => "sign"
    case Mcda => "mcda"
    case Dbrf => "dbrf"
    case Cnst => "cnst"
    case Hasi => "hasi"
    case Swep => "swep"
    case Fbin => "fbin"
    case Body => "BODY"
    case Rtag => "rtag"
    case Gps1 => "gps1"
    case Indx => "indx"
    case Scal => "scal"
    case Afft => "afft"
    case Ifft => "ifft"
    case End => "END "
  }

  /** The key constants are the big-endian readings of the four-character names. */
  lemma KeyIsName(t: BlockType)
    ensures |Name(t)| == 4
    ensures Word(CharBytes(Name(t))) == KeyOf(t)
  {
    if t in [Aqft, Head, Body, End] {
      KeyIsNameContainers(t);
    } else if t in [Sign, Mcda, Dbrf, Cnst] {
      KeyIsNameHeader(t);
    } else if t in [Hasi, Swep, Fbin] {
      KeyIsNameSite(t);
    } else if t in [Rtag, Gps1, Indx] {
      KeyIsNameBody(t);
    } else {
      KeyIsNameSamples(t);
    }
  }

  lemma KeyIsNameContainers(t: BlockType)
    requires t in [Aqft, Head, Body, End]
    ensures |Name(t)| == 4
    ensures Word(CharBytes(Name(t))) == KeyOf(t)
  {
    NameWord(Name(t));
  }

  lemma KeyIsNameHeader(t: BlockType)
    requires t in [Sign, Mcda, Dbrf, Cnst]
    ensures |Name(t)| == 4
    ensures Word(CharBytes(Name(t))) == KeyOf(t)
  {
    NameWord(Name(t));
  }

  lemma KeyIsNameSite(t: BlockType)
    requires t in [Hasi, Swep, Fbin]
    ensures |Name(t)| == 4
    ensures Word(CharBytes(Name(t))) == KeyOf(t)
  {
    NameWord(Name(t));
  }

  lemma KeyIsNameBody(t: BlockType)
    requires t in [Rtag, Gps1, Indx]
    ensures |Name(t)| == 4
    ensures Word(CharBytes(Name(t))) == KeyOf(t)
  {
    NameWord(Name(t));
  }

  lemma KeyIsNameSamples(t: BlockType)
    requires t in [Scal, Afft, Ifft]
    ensures |Name(t)| == 4
    ensures Word(CharBytes(Name(t))) == KeyOf(t)
  {
    NameWord(Name(t));
  }

  /** The big-endian word of four characters that each fit in a byte. */
  lemma NameWord(s: string)
    requires |s| == 4
    ensures Word(CharBytes(s)) as nat
      == CharByte(s[0]) as nat * 0x100_0000 + CharByte(s[1]) as nat * 0x1_0000 + CharByte(s[2]) as nat * 0x100 + CharByte(s[3]) as nat
    ensures (forall i :: 0 <= i < 4 ==> s[i] as int < 256) ==>
      Word(CharBytes(s)) as int == s[0] as int * 0x100_0000 + s[1] as int * 0x1_0000 + s[2] as int * 0x100 + s[3] as int
  {
    BE4(CharBytes(s));
    if forall i :: 0 <= i < 4 ==> s[i] as int < 256 {
      SmallCharByte(s[0]);
      SmallCharByte(s[1]);
      SmallCharByte(s[2]);
      SmallCharByte(s[3]);
    }
  }

  lemma SmallCharByte(c: char)
    requires c as int < 256
    ensures CharByte(c) as int == c as int
  {
  }

  /** Every block type has a row in the dictionary. */
  lemma InDictionary(t: BlockType)
    ensures t in Dictionary
  {
  }

  /** The dictionary scan from row `i` on: the first row whose key matches. */
  function ScanRows(i: nat, key: U32): (r: Option<BlockType>)
    requires i <= |Dictionary|
    ensures r.Some? ==> KeyOf(r.value) == key
    ensures r.None? ==> forall j :: i <= j < |Dictionary| ==> KeyOf(Dictionary[j]) != key
    decreases |Dictionary| - i
  {
    if i == |Dictionary| then None
    else if KeyOf(Dictionary[i]) == key then Some(Dictionary[i])
    else ScanRows(i + 1, key)
  }

  /**
    `find_block_functions`: key 0 is refused outright; otherwise the
    dictionary is scanned up to its zero-key terminator row.
   */
  function FindBlockFunctions(key: U32): (r: Option<BlockType>)
    ensures r.Some? <==> exists t :: KeyOf(t) == key
    ensures r.Some? ==> KeyOf(r.value) == key
  {
    if key == 0 then None
    else
      var r := ScanRows(0, key);
      assert r.None? ==> forall t :: KeyOf(t) != key by {
        if r.None? {
          forall t ensures KeyOf(t) != key {
            InDictionary(t);
          }
        }
      }
      r
  }

  /** Distinct block types have distinct keys, so a lookup of a type's key returns that type. */
  lemma FindKeyOf(t: BlockType)
    ensures FindBlockFunctions(KeyOf(t)) == Some(t)
  {
  }

  /** `superblock`: the keys whose payload is itself a sequence of blocks. */
  predicate Superblock(key: U32)
  {
    key == KEY_AQFT || key == KEY_HEAD || key == KEY_BODY || key == KEY_END
  }

  predicate IsContainer(t: BlockType)
  {
    t == Aqft || t == Head || t == Body || t == End
  }

  /** The big-endian value of four bytes. */
  lemma BE4(s: seq<Byte>)
    requires |s| == 4
    ensures BE(s) == s[0] as nat * 0x100_0000 + s[1] as nat * 0x1_0000 + s[2] as nat * 0x100 + s[3] as nat
  {
    assert s[..1][..0] == [];
    assert BE(s[..1]) == s[0] as nat;
    assert s[..2][..1] == s[..1];
    assert BE(s[..2]) == s[0] as nat * 256 + s[1] as nat;
    assert s[..3][..2] == s[..2];
    assert BE(s[..3]) == BE(s[..2]) * 256 + s[2] as nat;
  }

  /** A key is a superblock key exactly when it names one of the four container types. */
  lemma SuperblockIsContainer(key: U32)
    ensures Superblock(key) <==> (FindBlockFunctions(key).Some? && IsContainer(FindBlockFunctions(key).value))
  {
    if key == KEY_AQFT { FindKeyOf(Aqft); }
    if key == KEY_HEAD { FindKeyOf(Head); }
    if key == KEY_BODY { FindKeyOf(Body); }
    if key == KEY_END { FindKeyOf(End); }
  }

  // ---------------------------------------------------------------------
  // Leaf layouts

  /** How a packed field is read from and written to the text form. */
  datatype FieldKind =
    | FourccChars           // a key-like code read with %4c, kept in text order by make
    | FourccString          // a key-like code read with %4s and then byte-order corrected
    | Signed32              // int32_t, %d
    | Unsigned32            // uint32_t, %u
    | Hex32                 // uint32_t flags, %x
    | Real64(precision: nat) // double, printed with %.<precision>lf, read with %lf
    | Text(length: nat)     // fixed char array, printed with %.*s, read with %<length>c
    | Timestamp             // uint32_t seconds since 1904, printed and read as seconds since 1970
    | Float32               // one half of an {I, Q} sample pair

  /** The number of bytes a field occupies in the packed struct. */
  function Width(k: FieldKind): nat
  {
    match k
    case Real64(_) => 8
    case Text(n) => n
    case _ => 4
  }

  /** The size in bytes of a run of packed fields. */
  function TotalWidth(fields: seq<FieldKind>): nat
  {
    if |fields| == 0 then 0 else Width(fields[0]) + TotalWidth(fields[1..])
  }

  const SIZE_DESCRIPTION: nat := 64
  const SIZE_OWNERNAME: nat := 64
  const SIZE_COMMENT: nat := 64

  /** The field kinds of each fixed-size leaf, in struct order (empty for the other types). */
  function Fields(t: BlockType): seq<FieldKind>
  {
    match t
    case Sign => [FourccChars, FourccChars, FourccChars, Hex32,
                  Text(SIZE_DESCRIPTION), Text(SIZE_OWNERNAME), Text(SIZE_COMMENT)]
    case Mcda => [Timestamp]
    case Dbrf => [Real64(4)]
    case Cnst => [Signed32, Signed32, Signed32, Signed32]
    case Swep => [Signed32, Real64(20), Real64(20), Real64(20), Signed32]
    case Fbin => [FourccString, FourccString]
    case Rtag => [Unsigned32]
    case Gps1 => [Real64(6), Real64(6), Real64(6), Timestamp]
    case Indx => [Unsigned32]
    case Scal => [Real64(20), Real64(20)]
    case _ => []
  }

  /** The text label of each field, in the same order. */
  function FieldNames(t: BlockType): (r: seq<string>)
    ensures |r| == |Fields(t)|
  {
    match t
    case Sign => ["version", "filetype", "sitecode", "userflags", "description", "ownername", "comment"]
    case Mcda => ["filetimestamp"]
    case Dbrf => ["rxloss"]
    case Cnst => ["nchannels", "nranges", "nsweeps", "iqindicator"]
    case Swep => ["samplespersweep", "sweepstart", "sweepbandwidth", "sweeprate", "rangeoffset"]
    case Fbin => ["format", "type"]
    case Rtag => ["rtag"]
    case Gps1 => ["lat", "lon", "alt", "gpstimestamp"]
    case Indx => ["index"]
    case Scal => ["scalar_one", "scalar_two"]
    case _ => []
  }

  /** Leaves whose payload is a fixed packed struct. */
  predicate FixedLeaf(t: BlockType)
  {
    |Fields(t)| > 0
  }

  /** A fixed leaf is neither a container, nor 'hasi', nor a sample leaf. */
  lemma FixedLeafKind(t: BlockType)
    requires FixedLeaf(t)
    ensures !IsContainer(t) && t != Hasi && !SampleLeaf(t)
  {
  }

  /** A leaf that is neither 'hasi' nor a sample leaf is a fixed leaf; containers have no minimum size. */
  lemma OtherLeafFixed(t: BlockType)
    ensures !IsContainer(t) && t != Hasi && !SampleLeaf(t) ==> FixedLeaf(t)
    ensures IsContainer(t) ==> MinSize(t) == 0
  {
  }

  /** Leaves whose payload is an array of {float I, float Q} pairs. */
  predicate SampleLeaf(t: BlockType)
  {
    t == Afft || t == Ifft
  }

  /** Bytes in one {float I, float Q} sample pair. */
  const SampleSize: nat := 8

  /** The field layout of `count` {float I, float Q} sample pairs. */
  function SampleFields(count: nat): (r: seq<FieldKind>)
    ensures |r| == 2 * count
  {
    if count == 0 then []
    else [Float32, Float32] + SampleFields(count - 1)
  }

  /** Packed widths add up over concatenation. */
  lemma {:induction false} TotalWidthAppend(a: seq<FieldKind>, b: seq<FieldKind>)
    ensures TotalWidth(a + b) == TotalWidth(a) + TotalWidth(b)
  {
    if |a| == 0 {
      assert a + b == b;
    } else {
      assert (a + b)[0] == a[0];
      assert (a + b)[1..] == a[1..] + b;
      TotalWidthAppend(a[1..], b);
    }
  }

  /** `count` sample pairs occupy eight bytes each. */
  lemma {:induction false} SampleFieldsWidth(count: nat)
    ensures TotalWidth(SampleFields(count)) == SampleSize * count
  {
    if count > 0 {
      var pair := [Float32, Float32];
      assert TotalWidth(pair) == 8 by {
        assert pair[1..][1..] == [];
      }
      TotalWidthAppend(pair, SampleFields(count - 1));
      SampleFieldsWidth(count - 1);
    }
  }

  /**
    The fields a leaf's fixup and binary writer walk for a payload of `size`
    bytes: the struct fields of a fixed leaf, `size / 8` sample pairs of a
    sample leaf, none for the opaque 'hasi' leaf and the containers.
   */
  function LeafFields(t: BlockType, size: nat): (r: seq<FieldKind>)
    ensures SampleLeaf(t) ==> TotalWidth(r) == SampleSize * (size / SampleSize)
  {
    if FixedLeaf(t) then Fields(t)
    else if SampleLeaf(t) then
      SampleFieldsWidth(size / SampleSize);
      SampleFields(size / SampleSize)
    else []
  }

  /**
    The smallest payload a leaf's fixup and dump accept (`sizeof` of its
    struct); a shorter payload is reported as truncated.
   */
  function MinSize(t: BlockType): (r: nat)
    ensures FixedLeaf(t) ==> r == TotalWidth(Fields(t))
  {
    if FixedLeaf(t) then TotalWidth(Fields(t))
    else if t == Hasi then 4
    else if SampleLeaf(t) then SampleSize
    else 0
  }

  /** The `sizeof` of each packed struct of the source. */
  function StructSize(t: BlockType): (r: nat)
    ensures r <= 208
  {
    match t
    case Sign => 208
    case Mcda => 4
    case Dbrf => 8
    case Cnst => 16
    case Hasi => 4
    case Swep => 32
    case Fbin => 8
    case Rtag => 4
    case Gps1 => 28
    case Indx => 4
    case Scal => 16
    case Afft => 8
    case Ifft => 8
    case _ => 0
  }

  /** The field tables reproduce the packed struct sizes of the source. */
  lemma MinSizeIsStructSize(t: BlockType)
    ensures MinSize(t) == StructSize(t)
  {
    match t
    case Sign => SignSize();
    case Swep => SwepSize();
    case Gps1 => Gps1Size();
    case Cnst => CnstSize();
    case Fbin => PairSize(Fields(Fbin));
    case Scal => PairSize(Fields(Scal));
    case _ =>
  }

  lemma PairSize(f: seq<FieldKind>)
    requires |f| == 2
    ensures TotalWidth(f) == Width(f[0]) + Width(f[1])
  {
    assert f[1..][0] == f[1];
    assert f[1..][1..] == [];
    assert TotalWidth(f[1..]) == Width(f[1]) + TotalWidth(f[1..][1..]);
    assert TotalWidth(f) == Width(f[0]) + TotalWidth(f[1..]);
  }

  lemma SignSize()
    ensures TotalWidth(Fields(Sign)) == 208
  {
    var f := Fields(Sign);
    assert TotalWidth(f[6..]) == 64 by { assert f[6..][1..] == []; }
    assert TotalWidth(f[5..]) == 128 by { assert f[5..][1..] == f[6..]; }
    assert TotalWidth(f[4..]) == 192 by { assert f[4..][1..] == f[5..]; }
    assert TotalWidth(f[3..]) == 196 by { assert f[3..][1..] == f[4..]; }
    assert TotalWidth(f[2..]) == 200 by { assert f[2..][1..] == f[3..]; }
    assert TotalWidth(f[1..]) == 204 by { assert f[1..][1..] == f[2..]; }
  }

  lemma SwepSize()
    ensures TotalWidth(Fields(Swep)) == 32
  {
    var f := Fields(Swep);
    assert TotalWidth(f[4..]) == 4 by { assert f[4..][1..] == []; }
    assert TotalWidth(f[3..]) == 12 by { assert f[3..][1..] == f[4..]; }
    assert TotalWidth(f[2..]) == 20 by { assert f[2..][1..] == f[3..]; }
    assert TotalWidth(f[1..]) == 28 by { assert f[1..][1..] == f[2..]; }
  }

  lemma Gps1Size()
    ensures TotalWidth(Fields(Gps1)) == 28
  {
    var f := Fields(Gps1);
    assert TotalWidth(f[3..]) == 4 by { assert f[3..][1..] == []; }
    assert TotalWidth(f[2..]) == 12 by { assert f[2..][1..] == f[3..]; }
    assert TotalWidth(f[1..]) == 20 by { assert f[1..][1..] == f[2..]; }
  }

  lemma CnstSize()
    ensures TotalWidth(Fields(Cnst)) == 16
  {
    var f := Fields(Cnst);
    assert TotalWidth(f[3..]) == 4 by { assert f[3..][1..] == []; }
    assert TotalWidth(f[2..]) == 8 by { assert f[2..][1..] == f[3..]; }
    assert TotalWidth(f[1..]) == 12 by { assert f[1..][1..] == f[2..]; }
  }
}
