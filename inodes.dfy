// Layer 1: the inode table (`inode_read`, `inode_write`) and the inode
// bitmap (`inode_free`, `inode_create`).
//
// Each state-changing operation is specified by a function of the disk
// contents (`PutInode`, `ClearUsed`, `Claim`); the lemmas say what each of
// them does to the table and to the bitmap, and that nothing else changes.
module Inodes {
  import opened Codec
  import opened Bits
  import opened Globals
  import opened BlockStore
  import opened Layout
  import opened SuperblockIO

  // ------------------------------------------------------ bits of the bitmap

  /** Bit j of a bitmap block: bit j % 8 (from the most significant) of byte j / 8. */
  predicate BitOf(b: Block, j: nat)
    requires j < BITS_PER_BLOCK
  {
    BitSet(b[j / 8], j % 8)
  }

  predicate AllSet(b: Block) {
    forall j :: 0 <= j < BITS_PER_BLOCK ==> BitOf(b, j)
  }

  /** Block k of the bitmap (0-based). */
  ghost function BitmapBlock(s: seq<Block>, k: nat): Block
    requires Mounted(s) && k < SuperOf(s).ibitmapSize
  {
    s[SuperOf(s).ibitmapOffset + k]
  }

  lemma BitOfAt(b: Block, i: nat, k: nat)
    requires i < BLOCK_SIZE && k < 8
    ensures 8 * i + k < BITS_PER_BLOCK && BitOf(b, 8 * i + k) == BitSet(b[i], k)
  {
  }

  /** Bit j of bitmap block k stands for inode k * BITS_PER_BLOCK + j + 1. */
  lemma NumberOf(k: nat, j: nat)
    requires j < BITS_PER_BLOCK
    ensures (k * BITS_PER_BLOCK + j) / BITS_PER_BLOCK == k
    ensures (k * BITS_PER_BLOCK + j) % BITS_PER_BLOCK == j
  {
  }

  /** Inode n's bit is bit (n - 1) % BITS_PER_BLOCK of bitmap block (n - 1) / BITS_PER_BLOCK. */
  lemma UsedBit(s: seq<Block>, n: int)
    requires Mounted(s) && ValidInum(SuperOf(s), n)
    ensures SuperOf(s).ibitmapOffset + (n - 1) / BITS_PER_BLOCK < |s|
    ensures InodeUsed(s, n)
        == BitOf(s[SuperOf(s).ibitmapOffset + (n - 1) / BITS_PER_BLOCK], (n - 1) % BITS_PER_BLOCK)
  {
    BitmapLocation(SuperOf(s), |s|, n);
  }

  /** Two inodes share a bitmap bit only if they are the same inode. */
  lemma BitInjective(n: int, m: int)
    requires n >= 1 && m >= 1
    requires (n - 1) / BITS_PER_BLOCK == (m - 1) / BITS_PER_BLOCK
    requires BitmapByte(n) == BitmapByte(m) && BitmapBit(n) == BitmapBit(m)
    ensures n == m
  {
  }

  /** Two inodes share a table slot only if they are the same inode. */
  lemma SlotInjective(n: int, m: int)
    requires n >= 1 && m >= 1
    requires (n - 1) / INODES_PER_BLOCK == (m - 1) / INODES_PER_BLOCK
    requires InodeSlot(n) == InodeSlot(m)
    ensures n == m
  {
  }

  /** Every inode is in use. */
  ghost predicate AllUsed(s: seq<Block>)
    requires Mounted(s)
  {
    forall m :: ValidInum(SuperOf(s), m) ==> InodeUsed(s, m)
  }

  /** n is the lowest-numbered inode not in use. */
  ghost predicate LowestFree(s: seq<Block>, n: int)
    requires Mounted(s)
  {
    && ValidInum(SuperOf(s), n) && !InodeUsed(s, n)
    && forall m :: 1 <= m < n ==> InodeUsed(s, m)
  }

  /** There is at most one lowest free inode. */
  lemma LowestFreeUnique(s: seq<Block>, n: int, n': int)
    requires Mounted(s) && LowestFree(s, n) && LowestFree(s, n')
    ensures n == n'
  {
  }

  // ------------------------------------------------------------ disk updates

  /** Writing a block of the bitmap keeps the superblock, the inode table and
      the data region as they were. */
  lemma BitmapBlockWrite(s: seq<Block>, x: int, b: Block)
    requires Mounted(s)
    requires SuperOf(s).ibitmapOffset <= x < SuperOf(s).ibitmapOffset + SuperOf(s).ibitmapSize
    ensures var s' := s[x := b];
      && Mounted(s') && SuperOf(s') == SuperOf(s) && Data(s') == Data(s)
      && forall m :: ValidInum(SuperOf(s), m) ==> InodeAt(s', m) == InodeAt(s, m)
  {
    var s' := s[x := b];
    assert s'[0] == s[0];
    forall m | ValidInum(SuperOf(s), m) ensures InodeAt(s', m) == InodeAt(s, m) {
      InodeLocation(SuperOf(s), |s|, m);
    }
  }

  /** Writing a block of the inode table keeps the superblock, the bitmap and
      the data region as they were. */
  lemma TableBlockWrite(s: seq<Block>, x: int, b: Block)
    requires Mounted(s)
    requires SuperOf(s).ilistOffset <= x < SuperOf(s).ilistOffset + SuperOf(s).ilistSize
    ensures var s' := s[x := b];
      && Mounted(s') && SuperOf(s') == SuperOf(s) && Data(s') == Data(s)
      && forall m :: ValidInum(SuperOf(s), m) ==> InodeUsed(s', m) == InodeUsed(s, m)
  {
    var s' := s[x := b];
    assert s'[0] == s[0];
    forall m | ValidInum(SuperOf(s), m) ensures InodeUsed(s', m) == InodeUsed(s, m) {
      BitmapLocation(SuperOf(s), |s|, m);
    }
  }

  /** The disk after `inode_write(n, ino)`. */
  ghost function PutInode(s: seq<Block>, n: int, ino: Inode): (s': seq<Block>)
    requires Mounted(s) && ValidInum(SuperOf(s), n)
    ensures Mounted(s') && SuperOf(s') == SuperOf(s) && |s'| == |s|
  {
    InodeLocation(SuperOf(s), |s|, n);
    var x := InodeBlockIndex(SuperOf(s), n);
    TableBlockWrite(s, x, WithInode(s[x], InodeSlot(n), ino));
    s[x := WithInode(s[x], InodeSlot(n), ino)]
  }

  /** The disk after `inode_free(n)`: inode n's bitmap byte with its bit cleared. */
  ghost function ClearUsed(s: seq<Block>, n: int): (s': seq<Block>)
    requires Mounted(s) && ValidInum(SuperOf(s), n)
    ensures Mounted(s') && SuperOf(s') == SuperOf(s) && |s'| == |s|
  {
    BitmapLocation(SuperOf(s), |s|, n);
    var x := BitmapBlockIndex(SuperOf(s), n);
    var b := s[x][BitmapByte(n) := ClearBit(s[x][BitmapByte(n)], BitmapBit(n))];
    BitmapBlockWrite(s, x, b);
    s[x := b]
  }

  /** The disk with inode n's bitmap bit set. */
  ghost function MarkUsed(s: seq<Block>, n: int): (s': seq<Block>)
    requires Mounted(s) && ValidInum(SuperOf(s), n)
    ensures Mounted(s') && SuperOf(s') == SuperOf(s) && |s'| == |s|
  {
    BitmapLocation(SuperOf(s), |s|, n);
    var x := BitmapBlockIndex(SuperOf(s), n);
    var b := s[x][BitmapByte(n) := SetBit(s[x][BitmapByte(n)], BitmapBit(n))];
    BitmapBlockWrite(s, x, b);
    s[x := b]
  }

  /** The disk after `inode_create` hands out inode n for `ino`: the bit is
      set first, then the inode is written. */
  ghost function Claim(s: seq<Block>, n: int, ino: Inode): seq<Block>
    requires Mounted(s) && ValidInum(SuperOf(s), n)
  {
    PutInode(MarkUsed(s, n), n, ino)
  }

  /** `inode_write` then `inode_read`: inode n reads back as written, every
      other inode as before, and the bitmap and data region do not change. */
  lemma PutInodeEffect(s: seq<Block>, n: int, ino: Inode)
    requires Mounted(s) && ValidInum(SuperOf(s), n)
    ensures var s' := PutInode(s, n, ino);
      && Data(s') == Data(s)
      && (forall m :: ValidInum(SuperOf(s), m) ==>
            InodeAt(s', m) == if m == n then ino else InodeAt(s, m))
      && (forall m :: ValidInum(SuperOf(s), m) ==> InodeUsed(s', m) == InodeUsed(s, m))
  {
    var sb := SuperOf(s);
    InodeLocation(sb, |s|, n);
    var x := InodeBlockIndex(sb, n);
    var b := WithInode(s[x], InodeSlot(n), ino);
    TableBlockWrite(s, x, b);
    var s' := PutInode(s, n, ino);
    forall m | ValidInum(sb, m)
      ensures InodeAt(s', m) == if m == n then ino else InodeAt(s, m)
    {
      InodeLocation(sb, |s|, m);
      if InodeBlockIndex(sb, m) == x {
        InodeInWithInode(s[x], InodeSlot(n), ino, InodeSlot(m));
        if InodeSlot(m) == InodeSlot(n) {
          SlotInjective(n, m);
        }
      }
    }
  }

  /** Inode n's bit is the only bit of the bitmap that `f` can change. */
  lemma BitmapByteEffect(s: seq<Block>, n: int, y: byte, m: int)
    requires Mounted(s) && ValidInum(SuperOf(s), n) && ValidInum(SuperOf(s), m)
    requires BitmapBlockIndex(SuperOf(s), n) < |s| && BitmapByte(n) < BLOCK_SIZE
    ensures var x := BitmapBlockIndex(SuperOf(s), n);
      var s' := s[x := s[x][BitmapByte(n) := y]];
      Mounted(s') && ValidInum(SuperOf(s'), m) &&
      InodeUsed(s', m) == if m != n && (BitmapBlockIndex(SuperOf(s), m) != x || BitmapByte(m) != BitmapByte(n))
                         then InodeUsed(s, m) else BitSet(y, BitmapBit(m))
  {
    BitmapLocation(SuperOf(s), |s|, n);
    BitmapLocation(SuperOf(s), |s|, m);
    var x := BitmapBlockIndex(SuperOf(s), n);
    BitmapBlockWrite(s, x, s[x][BitmapByte(n) := y]);
  }

  /** After `inode_free(n)` inode n is free and every other inode is as it
      was; no inode record and no data block changes. */
  lemma ClearUsedEffect(s: seq<Block>, n: int)
    requires Mounted(s) && ValidInum(SuperOf(s), n)
    ensures var s' := ClearUsed(s, n);
      && Data(s') == Data(s)
      && (forall m :: ValidInum(SuperOf(s), m) ==> InodeAt(s', m) == InodeAt(s, m))
      && (forall m :: ValidInum(SuperOf(s), m) ==> InodeUsed(s', m) == (m != n && InodeUsed(s, m)))
  {
    var sb := SuperOf(s);
    BitmapLocation(sb, |s|, n);
    var x := BitmapBlockIndex(sb, n);
    var old_ := s[x][BitmapByte(n)];
    var y := ClearBit(old_, BitmapBit(n));
    BitmapBlockWrite(s, x, s[x][BitmapByte(n) := y]);
    forall m | ValidInum(sb, m) ensures InodeUsed(ClearUsed(s, n), m) == (m != n && InodeUsed(s, m)) {
      BitmapByteEffect(s, n, y, m);
      BitmapLocation(sb, |s|, m);
      if m != n && BitmapBlockIndex(sb, m) == x && BitmapByte(m) == BitmapByte(n) {
        if BitmapBit(m) == BitmapBit(n) {
          BitInjective(n, m);
        }
      }
      ClearBitBits(old_, BitmapBit(n), BitmapBit(m));
    }
  }

  /** Marking inode n makes it used and leaves every other bit as it was. */
  lemma MarkUsedEffect(s: seq<Block>, n: int)
    requires Mounted(s) && ValidInum(SuperOf(s), n)
    ensures var s' := MarkUsed(s, n);
      && Data(s') == Data(s)
      && (forall m :: ValidInum(SuperOf(s), m) ==> InodeAt(s', m) == InodeAt(s, m))
      && (forall m :: ValidInum(SuperOf(s), m) ==> InodeUsed(s', m) == (m == n || InodeUsed(s, m)))
  {
    var sb := SuperOf(s);
    BitmapLocation(sb, |s|, n);
    var x := BitmapBlockIndex(sb, n);
    var old_ := s[x][BitmapByte(n)];
    var y := SetBit(old_, BitmapBit(n));
    BitmapBlockWrite(s, x, s[x][BitmapByte(n) := y]);
    forall m | ValidInum(sb, m) ensures InodeUsed(MarkUsed(s, n), m) == (m == n || InodeUsed(s, m)) {
      BitmapByteEffect(s, n, y, m);
      BitmapLocation(sb, |s|, m);
      if m != n && BitmapBlockIndex(sb, m) == x && BitmapByte(m) == BitmapByte(n) {
        if BitmapBit(m) == BitmapBit(n) {
          BitInjective(n, m);
        }
      }
      SetBitBits(old_, BitmapBit(n), BitmapBit(m));
    }
  }

  /** Freeing an inode twice is the same as freeing it once. */
  lemma ClearUsedTwice(s: seq<Block>, n: int)
    requires Mounted(s) && ValidInum(SuperOf(s), n)
    ensures ClearUsed(ClearUsed(s, n), n) == ClearUsed(s, n)
  {
    BitmapLocation(SuperOf(s), |s|, n);
    var x := BitmapBlockIndex(SuperOf(s), n);
    ClearBitTwice(s[x][BitmapByte(n)], BitmapBit(n));
    var s1 := ClearUsed(s, n);
    assert s1[x][BitmapByte(n) := ClearBit(s1[x][BitmapByte(n)], BitmapBit(n))] == s1[x];
  }

  /** Freeing an inode that was free before it was marked gives the disk back. */
  lemma MarkThenClear(s: seq<Block>, n: int)
    requires Mounted(s) && ValidInum(SuperOf(s), n) && !InodeUsed(s, n)
    ensures ClearUsed(MarkUsed(s, n), n) == s
  {
    BitmapLocation(SuperOf(s), |s|, n);
    var x := BitmapBlockIndex(SuperOf(s), n);
    var i, bit := BitmapByte(n), BitmapBit(n);
    ClearAfterSet(s[x][i], bit);
    var s1 := MarkUsed(s, n);
    assert s1[x][i] == SetBit(s[x][i], bit);
    assert s1[x][i := ClearBit(s1[x][i], bit)] == s[x];
    assert s1[x := s[x]] == s;
  }

  /** What `inode_create` leaves behind: the new inode is used and holds
      `ino`; every other inode keeps its bit and its record. */
  lemma ClaimEffect(s: seq<Block>, n: int, ino: Inode)
    requires Mounted(s) && ValidInum(SuperOf(s), n)
    ensures var s' := Claim(s, n, ino);
      && Mounted(s') && SuperOf(s') == SuperOf(s) && Data(s') == Data(s)
      && (forall m :: ValidInum(SuperOf(s), m) ==> InodeUsed(s', m) == (m == n || InodeUsed(s, m)))
      && (forall m :: ValidInum(SuperOf(s), m) ==>
            InodeAt(s', m) == if m == n then ino else InodeAt(s, m))
  {
    MarkUsedEffect(s, n);
    PutInodeEffect(MarkUsed(s, n), n, ino);
  }

  /** Freeing an inode just handed out gives back the bitmap as it was. */
  lemma ClaimThenFree(s: seq<Block>, n: int, ino: Inode)
    requires Mounted(s) && ValidInum(SuperOf(s), n) && !InodeUsed(s, n)
    ensures Mounted(Claim(s, n, ino))
    ensures forall m :: ValidInum(SuperOf(s), m) ==>
      InodeUsed(ClearUsed(Claim(s, n, ino), n), m) == InodeUsed(s, m)
  {
    ClaimEffect(s, n, ino);
    ClearUsedEffect(Claim(s, n, ino), n);
  }

  /** When inodes 1..k are exactly the ones in use, `inode_create` hands out
      k + 1, after which 1..k + 1 are: the inodes come out in order, and
      after `mkfs` (which uses inode 1) numInodes - 1 creations succeed. */
  lemma ClaimNext(s: seq<Block>, k: nat, ino: Inode)
    requires Mounted(s) && k < SuperOf(s).numInodes
    requires forall m :: ValidInum(SuperOf(s), m) ==> (InodeUsed(s, m) <==> m <= k)
    ensures LowestFree(s, k + 1)
    ensures Mounted(Claim(s, k + 1, ino))
    ensures forall m :: ValidInum(SuperOf(s), m) ==> (InodeUsed(Claim(s, k + 1, ino), m) <==> m <= k + 1)
  {
    ClaimEffect(s, k + 1, ino);
  }

  // ---------------------------------------------------- the scan of a block

  /** The outcome of scanning one bitmap block: every bit set, the first clear
      bit, or the first bit whose inode number is past the last inode. */
  datatype Scan = AllInUse | FoundFree(j: nat) | PastLast(j: nat)

  /** The inner loops of `inode_create` over one bitmap block: byte by byte,
      skipping bytes equal to 0xff, and through a byte from its most
      significant bit; `base` is the number of bits in the blocks before it. */
  method ScanBitmapBlock(b: Block, base: int, numInodes: int) returns (r: Scan)
    ensures r.AllInUse? ==> AllSet(b)
    ensures !r.AllInUse? ==> r.j < BITS_PER_BLOCK && forall k :: 0 <= k < r.j ==> BitOf(b, k)
    ensures r.FoundFree? ==> !BitOf(b, r.j) && base + r.j + 1 <= numInodes
    ensures r.PastLast? ==> base + r.j + 1 > numInodes
  {
    var byteOff := 0;
    while byteOff < BLOCK_SIZE
      invariant 0 <= byteOff <= BLOCK_SIZE
      invariant forall k :: 0 <= k < 8 * byteOff ==> BitOf(b, k)
    {
      var x := b[byteOff];
      if x != 0xff {
        var bit := 0;
        while bit < 8
          invariant 0 <= bit <= 8
          invariant forall k :: 0 <= k < 8 * byteOff + bit ==> BitOf(b, k)
        {
          var number := base + byteOff * 8 + bit + 1;
          if number > numInodes {
            return PastLast(8 * byteOff + bit);
          }
          ClearAtBit(x, bit);
          BitOfAt(b, byteOff, bit);
          if ClearAt(x, bit) {
            return FoundFree(8 * byteOff + bit);
          }
          bit := bit + 1;
        }
      } else {
        forall k | 8 * byteOff <= k < 8 * byteOff + 8 ensures BitOf(b, k) {
          FullByte(k - 8 * byteOff);
          BitOfAt(b, byteOff, k - 8 * byteOff);
        }
      }
      byteOff := byteOff + 1;
    }
    return AllInUse;
  }

  /** The outer loop of `inode_create`: the bitmap blocks in order, up to the
      first one whose scan does not find every bit set. */
  method ScanBitmap(d: Disk, sb: Superblock, ghost s: seq<Block>) returns (blk: nat, res: Scan)
    requires Consistent(d) && Ready(d) && s == d.Contents() && sb == SuperOf(s)
    ensures Mounted(s) && blk <= sb.ibitmapSize
    ensures forall k :: 0 <= k < blk ==> AllSet(BitmapBlock(s, k))
    ensures res.AllInUse? <==> blk == sb.ibitmapSize
    ensures !res.AllInUse? ==>
      res.j < BITS_PER_BLOCK && forall k :: 0 <= k < res.j ==> BitOf(BitmapBlock(s, blk), k)
    ensures res.FoundFree? ==>
      !BitOf(BitmapBlock(s, blk), res.j) && blk * BITS_PER_BLOCK + res.j + 1 <= sb.numInodes
    ensures res.PastLast? ==> blk * BITS_PER_BLOCK + res.j + 1 > sb.numInodes
  {
    blk := 0;
    while blk < sb.ibitmapSize
      invariant 0 <= blk <= sb.ibitmapSize
      invariant forall k :: 0 <= k < blk ==> AllSet(BitmapBlock(s, k))
    {
      var _, buf := d.ReadBlock(sb.ibitmapOffset + blk, Some(ZeroBlock()));
      assert buf.value == BitmapBlock(s, blk);
      res := ScanBitmapBlock(buf.value, blk * BITS_PER_BLOCK, sb.numInodes);
      if !res.AllInUse? {
        return;
      }
      blk := blk + 1;
    }
    return blk, AllInUse;
  }

  /** The scan found every bit before bit j of block blk set, and no inode
      lies beyond that point: every inode is in use. */
  lemma AllUsedUpTo(s: seq<Block>, blk: nat, j: nat)
    requires Mounted(s) && blk <= SuperOf(s).ibitmapSize && j <= BITS_PER_BLOCK
    requires forall k :: 0 <= k < blk ==> AllSet(BitmapBlock(s, k))
    requires j > 0 ==> blk < SuperOf(s).ibitmapSize
    requires j > 0 ==> forall k :: 0 <= k < j ==> BitOf(BitmapBlock(s, blk), k)
    requires SuperOf(s).numInodes <= blk * BITS_PER_BLOCK + j
    ensures AllUsed(s)
  {
    forall m | ValidInum(SuperOf(s), m) ensures InodeUsed(s, m) {
      BitBefore(s, blk, j, m);
    }
  }

  /** The scan stopped at clear bit j of block blk with every earlier bit
      set: its inode is the lowest free one. */
  lemma LowestAt(s: seq<Block>, blk: nat, j: nat)
    requires Mounted(s) && blk < SuperOf(s).ibitmapSize && j < BITS_PER_BLOCK
    requires forall k :: 0 <= k < blk ==> AllSet(BitmapBlock(s, k))
    requires forall k :: 0 <= k < j ==> BitOf(BitmapBlock(s, blk), k)
    requires !BitOf(BitmapBlock(s, blk), j)
    requires blk * BITS_PER_BLOCK + j + 1 <= SuperOf(s).numInodes
    ensures LowestFree(s, blk * BITS_PER_BLOCK + j + 1)
  {
    var n := blk * BITS_PER_BLOCK + j + 1;
    NumberOf(blk, j);
    UsedBit(s, n);
    forall m | 1 <= m < n ensures InodeUsed(s, m) {
      BitBefore(s, blk, j, m);
    }
  }

  /** An inode whose bit comes before bit j of block blk is in use when all
      those bits are set. */
  lemma BitBefore(s: seq<Block>, blk: nat, j: nat, m: int)
    requires Mounted(s) && blk <= SuperOf(s).ibitmapSize && j <= BITS_PER_BLOCK
    requires forall k :: 0 <= k < blk ==> AllSet(BitmapBlock(s, k))
    requires j > 0 ==> blk < SuperOf(s).ibitmapSize
    requires j > 0 ==> forall k :: 0 <= k < j ==> BitOf(BitmapBlock(s, blk), k)
    requires ValidInum(SuperOf(s), m) && m - 1 < blk * BITS_PER_BLOCK + j
    ensures InodeUsed(s, m)
  {
    UsedBit(s, m);
    var q := (m - 1) / BITS_PER_BLOCK;
    var r := (m - 1) % BITS_PER_BLOCK;
    assert m - 1 == q * BITS_PER_BLOCK + r;
    if q < blk {
      assert AllSet(BitmapBlock(s, q));
    } else {
      assert q == blk && r < j;
      assert BitOf(BitmapBlock(s, blk), r);
    }
  }

  // ------------------------------------------------------------- the methods

  /** `inode_read`: on an error the caller's inode is left as it was. */
  method InodeRead(d: Disk, n: int, buf: Inode) returns (r: int, ino: Inode)
    requires Consistent(d)
    ensures r == if !Ready(d) then DISC_UNINITIALIZED
                 else if !ValidInum(SuperOf(d.Contents()), n) then BAD_INODE
                 else SUCCESS
    ensures r == SUCCESS ==> ino == InodeAt(d.Contents(), n)
    ensures r != SUCCESS ==> ino == buf
  {
    var ret, sb := ReadSuperblock(d);
    if ret != SUCCESS {
      return DISC_UNINITIALIZED, buf;
    }
    if n <= 0 || n > sb.numInodes {
      return BAD_INODE, buf;
    }
    InodeLocation(sb, |d.Contents()|, n);
    var _, block := d.ReadBlock(InodeBlockIndex(sb, n), Some(ZeroBlock()));
    assert block.value == d.Contents()[InodeBlockIndex(sb, n)];
    return SUCCESS, InodeIn(block.value, InodeSlot(n));
  }

  /** `inode_write`: a read-modify-write of the table block that holds inode n. */
  method InodeWrite(d: Disk, n: int, ino: Inode) returns (r: int)
    requires Consistent(d)
    modifies d.disk
    ensures Consistent(d)
    ensures r == if !Ready(d) then DISC_UNINITIALIZED
                 else if !ValidInum(old(SuperOf(d.Contents())), n) then BAD_INODE
                 else SUCCESS
    ensures r == SUCCESS ==> d.Contents() == PutInode(old(d.Contents()), n, ino)
    ensures r != SUCCESS ==> d.Contents() == old(d.Contents())
  {
    var ret, sb := ReadSuperblock(d);
    if ret != SUCCESS {
      return DISC_UNINITIALIZED;
    }
    if n <= 0 || n > sb.numInodes {
      return BAD_INODE;
    }
    InodeLocation(sb, |d.Contents()|, n);
    var x := InodeBlockIndex(sb, n);
    var _, block := d.ReadBlock(x, Some(ZeroBlock()));
    var b := WithInode(block.value, InodeSlot(n), ino);
    TableBlockWrite(d.Contents(), x, b);
    r := d.WriteBlock(x, Some(b));
  }

  /** `inode_free`: clears inode n's bit with `byte &= byte ^ mask`. */
  method InodeFree(d: Disk, n: int) returns (r: int)
    requires Consistent(d)
    modifies d.disk
    ensures Consistent(d)
    ensures r == if !Ready(d) then DISC_UNINITIALIZED
                 else if !ValidInum(old(SuperOf(d.Contents())), n) then BAD_INODE
                 else SUCCESS
    ensures r == SUCCESS ==> d.Contents() == ClearUsed(old(d.Contents()), n)
    ensures r != SUCCESS ==> d.Contents() == old(d.Contents())
  {
    var ret, sb := ReadSuperblock(d);
    if ret != SUCCESS {
      return DISC_UNINITIALIZED;
    }
    if n <= 0 || n > sb.numInodes {
      return BAD_INODE;
    }
    BitmapLocation(sb, |d.Contents()|, n);
    var x := BitmapBlockIndex(sb, n);
    var _, buf := d.ReadBlock(x, Some(ZeroBlock()));
    var b: Block := buf.value[BitmapByte(n) := ClearBit(buf.value[BitmapByte(n)], BitmapBit(n))];
    BitmapBlockWrite(d.Contents(), x, b);
    r := d.WriteBlock(x, Some(b));
  }

  /** `inode_create`: hands out the lowest-numbered free inode and stores
      `ino` in it, or reports that every inode is in use. */
  method InodeCreate(d: Disk, ino: Inode) returns (r: int, num: int)
    requires Consistent(d)
    modifies d.disk
    ensures Consistent(d)
    ensures !Ready(d) ==> r == DISC_UNINITIALIZED
    ensures Ready(d) ==> old(Mounted(d.Contents()))
    ensures Ready(d) ==> (r == SUCCESS || r == ILIST_FULL)
    ensures Ready(d) ==> (r == ILIST_FULL <==> AllUsed(old(d.Contents())))
    ensures r == SUCCESS ==>
      LowestFree(old(d.Contents()), num) && d.Contents() == Claim(old(d.Contents()), num, ino)
    ensures r != SUCCESS ==> d.Contents() == old(d.Contents())
  {
    var ret, sb := ReadSuperblock(d);
    if ret != SUCCESS {
      return DISC_UNINITIALIZED, 0;
    }
    r, num := CreateIn(d, sb, ino);
    if r == SUCCESS {
      assert !InodeUsed(old(d.Contents()), num);
    }
  }

  /** `inode_create` once the superblock has been read. */
  method CreateIn(d: Disk, sb: Superblock, ino: Inode) returns (r: int, num: int)
    requires Consistent(d) && Ready(d) && sb == SuperOf(d.Contents())
    modifies d.disk
    ensures Consistent(d) && Mounted(old(d.Contents()))
    ensures r == SUCCESS || r == ILIST_FULL
    ensures r == ILIST_FULL ==> AllUsed(old(d.Contents())) && d.Contents() == old(d.Contents())
    ensures r == SUCCESS ==>
      LowestFree(old(d.Contents()), num) && d.Contents() == Claim(old(d.Contents()), num, ino)
  {
    ghost var s := d.Contents();
    var blk, res := ScanBitmap(d, sb, s);
    if res.FoundFree? {
      num := blk * BITS_PER_BLOCK + res.j + 1;
      LowestAt(s, blk, res.j);
      ghost var lowest := LowestFree(s, num);
      r := ClaimInode(d, sb, blk, res.j, num, ino);
      assert lowest;
      return;
    }
    AllUsedUpTo(s, blk, if res.PastLast? then res.j else 0);
    return ILIST_FULL, 0;
  }

  /** The end of `inode_create` once bit j of bitmap block blk is found
      clear: set it in the block, write the block back, then write the inode. */
  method ClaimInode(d: Disk, sb: Superblock, blk: nat, j: nat, num: int, ino: Inode)
    returns (r: int)
    requires Consistent(d) && Ready(d) && sb == SuperOf(d.Contents())
    requires blk < sb.ibitmapSize && j < BITS_PER_BLOCK
    requires num == blk * BITS_PER_BLOCK + j + 1 && ValidInum(sb, num)
    modifies d.disk
    ensures Consistent(d) && r == SUCCESS
    ensures d.Contents() == Claim(old(d.Contents()), num, ino)
  {
    MarkBit(d, sb, blk, j, num);
    r := InodeWrite(d, num, ino);
  }

  /** Sets bit j of bitmap block blk, the bit of inode `num`, on the disk. */
  method MarkBit(d: Disk, sb: Superblock, blk: nat, j: nat, num: int)
    requires Consistent(d) && Ready(d) && sb == SuperOf(d.Contents())
    requires blk < sb.ibitmapSize && j < BITS_PER_BLOCK
    requires num == blk * BITS_PER_BLOCK + j + 1 && ValidInum(sb, num)
    modifies d.disk
    ensures Consistent(d) && Ready(d)
    ensures d.Contents() == MarkUsed(old(d.Contents()), num)
  {
    ghost var s := d.Contents();
    NumberOf(blk, j);
    var x := sb.ibitmapOffset + blk;
    var _, buf := d.ReadBlock(x, Some(ZeroBlock()));
    var b := buf.value;
    var byte := b[j / 8];
    var b': Block := b[j / 8 := SetBit(byte, j % 8)];
    assert x == BitmapBlockIndex(sb, num) && j / 8 == BitmapByte(num) && j % 8 == BitmapBit(num);
    BitmapBlockWrite(s, x, b');
    var _ := d.WriteBlock(x, Some(b'));
  }
}
