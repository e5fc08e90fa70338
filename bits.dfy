// The bit operations of the inode bitmap, on one byte. A bitmap byte holds
// eight inodes, the first in its most significant bit.
//
// The C code computes on the byte promoted to `int`; the masks and the
// byte fit in eight bits, so `bv8` arithmetic gives the same values.
module Bits {
  import opened Codec

  /** `0x80 >> bit`: the mask of bit `bit`, counted from the most significant. */
  function Mask(bit: nat): bv8
    requires bit < 8
  {
    0x80 >> bit
  }

  predicate BitSet(x: byte, bit: nat)
    requires bit < 8
  {
    (x as bv8) & Mask(bit) != 0
  }

  function ClearBV(y: bv8, m: bv8): bv8 {
    y & (y ^ m)
  }

  function SetBV(y: bv8, m: bv8): bv8 {
    y | m
  }

  /** `x & (x ^ (0x80 >> bit))`, the update `inode_free` makes. */
  function ClearBit(x: byte, bit: nat): byte
    requires bit < 8
  {
    ClearBV(x as bv8, Mask(bit)) as byte
  }

  /** `x | (0x80 >> bit)`, the update `inode_create` makes. */
  function SetBit(x: byte, bit: nat): byte
    requires bit < 8
  {
    SetBV(x as bv8, Mask(bit)) as byte
  }

  /** The test `((x << bit) & 0x80) == 0` of `inode_create`; the shift is
      made in sixteen bits, as on the promoted byte, so no bit is lost. */
  predicate ClearAt(x: byte, bit: nat)
    requires bit < 8
  {
    ((x as bv16) << bit) & 0x80 == 0
  }

  lemma MaskIs(bit: nat)
    requires bit < 8
    ensures Mask(bit) == [0x80, 0x40, 0x20, 0x10, 0x08, 0x04, 0x02, 0x01][bit]
  {
  }

  /** The masks of two different bits share no bit. */
  lemma MaskDistinct(bit: nat, j: nat)
    requires bit < 8 && j < 8
    ensures (Mask(bit) & Mask(j) == 0) == (bit != j) && Mask(j) != 0
  {
    MaskIs(bit);
    MaskIs(j);
  }

  lemma BitsOfByte(y: bv8)
    ensures (y as byte) as bv8 == y
  {
  }

  lemma ByteOfBits(x: byte)
    ensures (x as bv8) as byte == x
  {
    assert x % 256 == x;
  }

  lemma ClearKeeps(y: bv8, m: bv8, m': bv8)
    requires m & m' == 0
    ensures ClearBV(y, m) & m' == y & m'
  {
  }

  lemma ClearDrops(y: bv8, m: bv8)
    ensures ClearBV(y, m) & m == 0
  {
  }

  lemma SetKeeps(y: bv8, m: bv8, m': bv8)
    requires m & m' == 0
    ensures SetBV(y, m) & m' == y & m'
  {
  }

  lemma SetHits(y: bv8, m: bv8)
    requires m != 0
    ensures SetBV(y, m) & m != 0
  {
  }

  /** The shift test looks at the same bit as the mask. */
  lemma ClearAtBit(x: byte, bit: nat)
    requires bit < 8
    ensures ClearAt(x, bit) == !BitSet(x, bit)
  {
    MaskIs(bit);
    if bit == 0 {
    } else if bit == 1 {
    } else if bit == 2 {
    } else if bit == 3 {
    } else if bit == 4 {
    } else if bit == 5 {
    } else if bit == 6 {
    } else {
    }
  }

  /** Clearing a bit turns off exactly that bit. */
  lemma ClearBitBits(x: byte, bit: nat, j: nat)
    requires bit < 8 && j < 8
    ensures BitSet(ClearBit(x, bit), j) == (j != bit && BitSet(x, j))
  {
    var y := x as bv8;
    BitsOfByte(ClearBV(y, Mask(bit)));
    MaskDistinct(bit, j);
    if j == bit {
      ClearDrops(y, Mask(bit));
    } else {
      ClearKeeps(y, Mask(bit), Mask(j));
    }
  }

  /** Setting a bit turns on exactly that bit. */
  lemma SetBitBits(x: byte, bit: nat, j: nat)
    requires bit < 8 && j < 8
    ensures BitSet(SetBit(x, bit), j) == (j == bit || BitSet(x, j))
  {
    var y := x as bv8;
    BitsOfByte(SetBV(y, Mask(bit)));
    MaskDistinct(bit, j);
    if j == bit {
      SetHits(y, Mask(bit));
    } else {
      SetKeeps(y, Mask(bit), Mask(j));
    }
  }

  /** Clearing a bit that was clear before it was set gives the byte back. */
  lemma ClearAfterSet(x: byte, bit: nat)
    requires bit < 8 && !BitSet(x, bit)
    ensures ClearBit(SetBit(x, bit), bit) == x
  {
    var y := x as bv8;
    BitsOfByte(SetBV(y, Mask(bit)));
    assert ClearBV(SetBV(y, Mask(bit)), Mask(bit)) == y;
    ByteOfBits(x);
  }

  /** Clearing a bit twice is clearing it once. */
  lemma ClearBitTwice(x: byte, bit: nat)
    requires bit < 8
    ensures ClearBit(ClearBit(x, bit), bit) == ClearBit(x, bit)
  {
    var y := x as bv8;
    BitsOfByte(ClearBV(y, Mask(bit)));
    assert ClearBV(ClearBV(y, Mask(bit)), Mask(bit)) == ClearBV(y, Mask(bit));
  }

  /** A byte equal to 0xff has every bit set. */
  lemma FullByte(bit: nat)
    requires bit < 8
    ensures BitSet(0xff, bit)
  {
    MaskIs(bit);
  }
}
