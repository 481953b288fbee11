/**
  The byte-order layer: the wire format is big-endian, the host may be either.
  `endian_fixup` reverses a 2-, 4- or 8-byte object in place when the host is
  little-endian and leaves every other object alone.  The host byte order is a
  parameter `little` here instead of a process-wide flag.
 */
module ByteOrder {

  /** An octet of memory or of the wire. */
  newtype Byte = b: int | 0 <= b < 256

  /** A C `uint32_t`: block keys, block sizes and 32-bit fields. */
  newtype U32 = w: int | 0 <= w < 0x1_0000_0000

  const Two32: nat := 0x1_0000_0000
  const Two64: nat := 0x1_0000_0000_0000_0000

  /** 256 to the power `k`: the number of values a `k`-byte object can hold. */
  function Pow256(k: nat): (r: nat)
    ensures r >= 1
  {
    if k == 0 then 1 else 256 * Pow256(k - 1)
  }

  /** The ranges of the 4- and 8-byte objects. */
  lemma Pow256Widths()
    ensures Pow256(4) == Two32 && Pow256(8) == Two64
  {
    assert Pow256(2) == 0x1_0000;
    assert Pow256(4) == 0x1_0000 * Pow256(2);
    assert Pow256(8) == Two32 * Pow256(4);
  }

  /** The bytes of `s` in the opposite order. */
  function Reverse(s: seq<Byte>): (r: seq<Byte>)
    ensures |r| == |s|
    ensures forall i :: 0 <= i < |s| ==> r[i] == s[|s| - 1 - i]
  {
    if |s| == 0 then [] else Reverse(s[1..]) + [s[0]]
  }

  /** The object sizes `swapcopy` knows how to reverse. */
  predicate Swappable(n: nat) {
    n == 2 || n == 4 || n == 8
  }

  /**
    `swapcopy(dest, source, size)`: for a size of 2, 4 or 8 the destination
    receives the source bytes in reverse order; for any other size the switch
    has no case and the destination is left as it was.
   */
  function SwapCopy(dest: seq<Byte>, source: seq<Byte>): (r: seq<Byte>)
    requires |dest| == |source|
    ensures |r| == |dest|
    ensures Swappable(|source|) ==> forall i :: 0 <= i < |r| ==> r[i] == source[|source| - 1 - i]
    ensures !Swappable(|source|) ==> r == dest
  {
    if Swappable(|source|) then Reverse(source) else dest
  }

  /**
    `endian_fixup(original, size)`: on a little-endian host the object is
    copied aside and swap-copied back over itself; on a big-endian host nothing
    happens.
   */
  function EndianFixup(v: seq<Byte>, little: bool): (r: seq<Byte>)
    ensures |r| == |v|
    ensures little && Swappable(|v|) ==> forall i :: 0 <= i < |v| ==> r[i] == v[|v| - 1 - i]
    ensures !(little && Swappable(|v|)) ==> r == v
  {
    if little then SwapCopy(v, v) else v
  }

  /** Applying `endian_fixup` twice restores the object, whatever its size and the host. */
  lemma EndianFixupInvolution(v: seq<Byte>, little: bool)
    ensures EndianFixup(EndianFixup(v, little), little) == v
  {
    var once := EndianFixup(v, little);
    var twice := EndianFixup(once, little);
    if little && Swappable(|v|) {
      forall i | 0 <= i < |v|
        ensures twice[i] == v[i]
      {
        assert twice[i] == once[|v| - 1 - i];
      }
    }
  }

  /** The unsigned number whose big-endian encoding is `s` (the wire order). */
  function BE(s: seq<Byte>): nat
  {
    if |s| == 0 then 0 else BE(s[..|s| - 1]) * 256 + s[|s| - 1] as nat
  }

  /** The unsigned number whose little-endian encoding is `s`. */
  function LE(s: seq<Byte>): nat
  {
    if |s| == 0 then 0 else s[0] as nat + 256 * LE(s[1..])
  }

  /** How the host reads an object lying in memory as `mem`. */
  function HostValue(mem: seq<Byte>, little: bool): nat
  {
    if little then LE(mem) else BE(mem)
  }

  /** A `k`-byte big-endian number is below 256^k. */
  lemma {:induction false} BEBound(s: seq<Byte>)
    ensures BE(s) < Pow256(|s|)
  {
    if |s| > 0 {
      BEBound(s[..|s| - 1]);
    }
  }

  /** Reading reversed bytes little-endian gives the big-endian reading of the original. */
  lemma {:induction false} LEReverse(s: seq<Byte>)
    ensures LE(Reverse(s)) == BE(s)
  {
    if |s| > 0 {
      var r := Reverse(s);
      var init := s[..|s| - 1];
      assert r[1..] == Reverse(init) by {
        assert |r[1..]| == |Reverse(init)|;
        forall i | 0 <= i < |init|
          ensures r[1..][i] == Reverse(init)[i]
        {
        }
      }
      LEReverse(init);
    }
  }

  /** The `width`-byte big-endian encoding of `n`. */
  function BEBytes(n: nat, width: nat): (r: seq<Byte>)
    requires n < Pow256(width)
    ensures |r| == width
    ensures BE(r) == n
  {
    if width == 0 then []
    else BEBytes(n / 256, width - 1) + [(n % 256) as Byte]
  }

  /** A big-endian encoding is determined by its value: encoding the value again gives the same bytes. */
  lemma {:induction false} BEBytesOfBE(s: seq<Byte>)
    ensures BE(s) < Pow256(|s|)
    ensures BEBytes(BE(s), |s|) == s
  {
    BEBound(s);
    if |s| > 0 {
      var init := s[..|s| - 1];
      BEBytesOfBE(init);
      assert BE(s) / 256 == BE(init);
      assert (BE(s) % 256) as Byte == s[|s| - 1];
      assert s == init + [s[|s| - 1]];
    }
  }

  /** How a `width`-byte number `n` lies in host memory. */
  function HostBytes(n: nat, width: nat, little: bool): (r: seq<Byte>)
    requires n < Pow256(width)
    ensures |r| == width
    ensures HostValue(r, little) == n
  {
    LEReverse(BEBytes(n, width));
    if little then Reverse(BEBytes(n, width)) else BEBytes(n, width)
  }

  /** Host bytes are determined by the number they hold: storing that number again gives the same bytes. */
  lemma HostBytesOfValue(mem: seq<Byte>, little: bool)
    ensures HostValue(mem, little) < Pow256(|mem|)
    ensures HostBytes(HostValue(mem, little), |mem|, little) == mem
  {
    BEBytesOfBE(mem);
    if little {
      var r := Reverse(mem);
      LEReverse(r);
      ReverseReverse(mem);
      BEBytesOfBE(r);
    }
  }

  /**
    Reading a 2-, 4- or 8-byte wire object into memory and applying
    `endian_fixup` yields the big-endian value, on either host: the wire is
    big-endian by definition.
   */
  lemma FixupReadsBigEndian(wire: seq<Byte>, little: bool)
    requires Swappable(|wire|)
    ensures HostValue(EndianFixup(wire, little), little) == BE(wire)
  {
    if little {
      assert EndianFixup(wire, little) == Reverse(wire);
      LEReverse(wire);
    }
  }

  /**
    Writing a host number after `endian_fixup` puts its big-endian encoding on
    the wire, on either host.
   */
  lemma FixupWritesBigEndian(n: nat, width: nat, little: bool)
    requires Swappable(width) && n < Pow256(width)
    ensures EndianFixup(HostBytes(n, width, little), little) == BEBytes(n, width)
  {
    var be := BEBytes(n, width);
    if little {
      var mem := Reverse(be);
      assert EndianFixup(mem, little) == Reverse(mem);
      assert Reverse(mem) == be;
    }
  }

  /** Reversing twice restores the bytes. */
  lemma ReverseReverse(s: seq<Byte>)
    ensures Reverse(Reverse(s)) == s
  {
  }

  /**
    Passing a 2-, 4- or 8-byte host object through `endian_fixup` and
    writing its memory image puts the object's host value on the wire,
    big-endian.
   */
  lemma FixupWritesHostValue(mem: seq<Byte>, little: bool)
    requires Swappable(|mem|)
    ensures BE(EndianFixup(mem, little)) == HostValue(mem, little)
  {
    if little {
      assert EndianFixup(mem, little) == Reverse(mem);
      LEReverse(Reverse(mem));
      ReverseReverse(mem);
    }
  }

  /** A 32-bit word read from four wire bytes. */
  function Word(wire: seq<Byte>): (r: U32)
    requires |wire| == 4
    ensures r as nat == BE(wire)
  {
    BEBound(wire);
    BE(wire) as U32
  }

  /** The four wire bytes of a 32-bit word. */
  function WordBytes(w: U32): (r: seq<Byte>)
    ensures |r| == 4
    ensures Word(r) == w
  {
    BEBytes(w as nat, 4)
  }

  /** Wire bytes and words correspond one to one. */
  lemma WordBytesOfWord(wire: seq<Byte>)
    requires |wire| == 4
    ensures WordBytes(Word(wire)) == wire
  {
    BEBytesOfBE(wire);
  }

  /** The byte a C `char` occupies (text files are byte streams). */
  function CharByte(c: char): Byte
  {
    (c as int % 256) as Byte
  }

  /** The `char` a byte is printed as. */
  function ByteChar(b: Byte): (c: char)
    ensures CharByte(c) == b
  {
    b as int as char
  }

  /** The bytes of a run of characters. */
  function CharBytes(s: string): (r: seq<Byte>)
    ensures |r| == |s|
    ensures forall i :: 0 <= i < |s| ==> r[i] == CharByte(s[i])
  {
    if |s| == 0 then [] else [CharByte(s[0])] + CharBytes(s[1..])
  }
}
