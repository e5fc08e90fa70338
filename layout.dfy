// The on-disk format: the constants of the layout, the superblock and
// inode records with their word encodings, the regions of the disk and
// the directory block written for a new directory.
module Layout {
  import opened Codec
  import opened Bits

  const SUPERBLOCK_SIZE: nat := 1        // ceil(sizeof(superblock) / BLOCK_SIZE)
  const SUPERBLOCK_WORDS: nat := 13
  const MIN_IBITMAP: nat := 1
  const MIN_INODES: nat := 1
  const MIN_DATA: nat := 1
  const MIN_BLOCKS: nat := SUPERBLOCK_SIZE + MIN_IBITMAP + MIN_INODES + MIN_DATA
  const ADDR_PER_NODE: nat := 1023       // (BLOCK_SIZE - 4) / 4
  const INODE_WORDS: nat := 21           // sizeof(inode) == 84
  const INODE_BYTES: nat := 4 * INODE_WORDS
  const INODES_PER_BLOCK: nat := 48      // BLOCK_SIZE / sizeof(inode)
  const NUM_DIRECT: nat := 10
  const BITS_PER_BLOCK: nat := 8 * BLOCK_SIZE
  const ROOT_INODE: nat := 1
  const ROOT_FREELIST: nat := 1
  const INVALID_INODE: nat := 0
  const INVALID_DATA: nat := 0
  const MAX_FS_SIZE: nat := 262144       // about 1 GB of 4096-byte blocks
  const DIRENT_BYTES: nat := 261         // char name[257] + int inode_num
  const FILENAME_BYTES: nat := 257

  // ---------------------------------------------------------------- superblock

  datatype Superblock = Superblock(
    ibitmapOffset: Word, ibitmapSize: Word,
    ilistOffset: Word, ilistSize: Word,
    dataOffset: Word, dataSize: Word,
    totalBlocks: Word, totalInodes: Word,
    freeListHead: Word, rootInode: Word,
    blockSize: Word, inodesPerBlock: Word, numInodes: Word)

  function SuperWords(sb: Superblock): (ws: seq<Word>)
    ensures |ws| == SUPERBLOCK_WORDS
  {
    [sb.ibitmapOffset, sb.ibitmapSize, sb.ilistOffset, sb.ilistSize,
     sb.dataOffset, sb.dataSize, sb.totalBlocks, sb.totalInodes,
     sb.freeListHead, sb.rootInode, sb.blockSize, sb.inodesPerBlock, sb.numInodes]
  }

  /** The fields of a superblock, read from the first thirteen words of a block. */
  function DecodeSuper(b: Block): Superblock {
    var w := BlockWords(b);
    Superblock(w[0], w[1], w[2], w[3], w[4], w[5], w[6], w[7], w[8], w[9], w[10], w[11], w[12])
  }

  /** The block that `write_superblock` stores; the bytes after the record are zero. */
  function EncodeSuper(sb: Superblock): Block {
    BlockOf(SuperWords(sb) + Zeros(WORDS_PER_BLOCK - SUPERBLOCK_WORDS))
  }

  lemma DecodeEncodeSuper(sb: Superblock)
    ensures DecodeSuper(EncodeSuper(sb)) == sb
  {
    var ws := SuperWords(sb) + Zeros(WORDS_PER_BLOCK - SUPERBLOCK_WORDS);
    assert BlockWords(EncodeSuper(sb)) == ws;
  }

  /** Regions in order (superblock, inode bitmap, inode table, data), each
      inside the disk, with a bitmap bit and a table slot for every inode. */
  predicate LayoutOk(sb: Superblock, total: int) {
    && SUPERBLOCK_SIZE <= sb.ibitmapOffset
    && sb.ibitmapOffset + sb.ibitmapSize <= sb.ilistOffset
    && sb.ilistOffset + sb.ilistSize <= sb.dataOffset
    && sb.dataOffset + sb.dataSize <= total
    && sb.numInodes <= sb.ilistSize * INODES_PER_BLOCK
    && sb.numInodes <= sb.ibitmapSize * BITS_PER_BLOCK
  }

  function CeilDiv(a: nat, b: nat): (q: nat)
    requires b > 0
    ensures q * b >= a && (q == 0 || (q - 1) * b < a)
  {
    (a + b - 1) / b
  }

  /** Blocks for the inode bitmap and table together: a tenth of the disk, at least two. */
  function TotalIBlocks(blocks: nat): nat {
    var t := CeilDiv(blocks, 10);
    if MIN_IBITMAP + MIN_INODES > t then MIN_IBITMAP + MIN_INODES else t
  }

  /** Bitmap blocks out of t: one bitmap block for every BITS_PER_BLOCK / INODES_PER_BLOCK
      table blocks, rounded up (the ceiling of t / (32768 / 48 + 1)). */
  function IBitmapBlocks(t: nat): nat {
    CeilDiv(INODES_PER_BLOCK * t, BITS_PER_BLOCK + INODES_PER_BLOCK)
  }

  /** The superblock `init_superblock` computes for a disk of `blocks` blocks. */
  function InitSuper(blocks: nat): Superblock
    requires MIN_BLOCKS <= blocks <= MAX_FS_SIZE
  {
    var t := TotalIBlocks(blocks);
    var bm := IBitmapBlocks(t);
    var it := t - bm;
    Superblock(
      SUPERBLOCK_SIZE, bm,
      SUPERBLOCK_SIZE + bm, it,
      SUPERBLOCK_SIZE + bm + it, blocks - SUPERBLOCK_SIZE - t,
      blocks, it * INODES_PER_BLOCK,
      ROOT_FREELIST, ROOT_INODE,
      BLOCK_SIZE, INODES_PER_BLOCK, it * INODES_PER_BLOCK)
  }

  /** The computed regions tile the disk contiguously, none of them empty,
      and every inode has a bitmap bit and a table slot. */
  lemma InitSuperLayout(blocks: nat)
    requires MIN_BLOCKS <= blocks <= MAX_FS_SIZE
    ensures LayoutOk(InitSuper(blocks), blocks)
    ensures InitSuper(blocks).ibitmapOffset == SUPERBLOCK_SIZE
    ensures InitSuper(blocks).ilistOffset == InitSuper(blocks).ibitmapOffset + InitSuper(blocks).ibitmapSize
    ensures InitSuper(blocks).dataOffset == InitSuper(blocks).ilistOffset + InitSuper(blocks).ilistSize
    ensures SUPERBLOCK_SIZE + InitSuper(blocks).ibitmapSize + InitSuper(blocks).ilistSize
            + InitSuper(blocks).dataSize == blocks
    ensures InitSuper(blocks).numInodes == InitSuper(blocks).ilistSize * INODES_PER_BLOCK
    ensures InitSuper(blocks).ibitmapSize >= MIN_IBITMAP && InitSuper(blocks).ilistSize >= MIN_INODES
    ensures InitSuper(blocks).dataSize >= MIN_DATA
    ensures InitSuper(blocks).numInodes >= INODES_PER_BLOCK
  {
    var t := TotalIBlocks(blocks);
    var bm := IBitmapBlocks(t);
    assert 2 <= t <= blocks - 2 by {
      assert CeilDiv(blocks, 10) * 10 < blocks + 10;
    }
    // bm <= t - 1: 48 * t <= 32816 * (t - 1) because t >= 2
    assert INODES_PER_BLOCK * t <= (t - 1) * (BITS_PER_BLOCK + INODES_PER_BLOCK);
    assert bm >= 1;
    assert (bm - 1) * (BITS_PER_BLOCK + INODES_PER_BLOCK) < (t - 1) * (BITS_PER_BLOCK + INODES_PER_BLOCK);
    assert bm <= t - 1;
    // (t - bm) * 48 <= bm * 32768 because 48 * t <= bm * 32816
    assert bm * (BITS_PER_BLOCK + INODES_PER_BLOCK) >= INODES_PER_BLOCK * t;
  }

  // -------------------------------------------------------------------- inodes

  type Direct = s: seq<Word> | |s| == NUM_DIRECT witness seq(10, _ => 0)
  /** The range of `off_t`, a signed 64-bit integer. */
  type Offset = x: int | -0x8000_0000_0000_0000 <= x < 0x8000_0000_0000_0000

  datatype Inode = Inode(
    mode: Word, links: Word, uid: Word, gid: Word, size: Offset,
    accessTime: Word, modTime: Word,
    direct: Direct, indirect: Word, doubleIndirect: Word, tripleIndirect: Word)

  /** The inode `memset` to zero. */
  const ZeroInode: Inode := Inode(0, 0, 0, 0, 0, 0, 0, seq(10, _ => 0), 0, 0, 0)

  /** The 21 words of a packed inode; `size` takes two words, low word first. */
  function EncodeInode(ino: Inode): (ws: seq<Word>)
    ensures |ws| == INODE_WORDS
  {
    var u := if ino.size < 0 then ino.size + 0x1_0000_0000_0000_0000 else ino.size;
    [ino.mode, ino.links, ino.uid, ino.gid, u % 0x1_0000_0000, u / 0x1_0000_0000,
     ino.accessTime, ino.modTime]
    + ino.direct + [ino.indirect, ino.doubleIndirect, ino.tripleIndirect]
  }

  function DecodeInode(ws: seq<Word>): Inode
    requires |ws| == INODE_WORDS
  {
    var u: int := ws[4] as int + (ws[5] as int) * 0x1_0000_0000;
    Inode(ws[0], ws[1], ws[2], ws[3],
      if u >= 0x8000_0000_0000_0000 then u - 0x1_0000_0000_0000_0000 else u,
      ws[6], ws[7], ws[8..18], ws[18], ws[19], ws[20])
  }

  lemma DecodeEncodeInode(ino: Inode)
    ensures DecodeInode(EncodeInode(ino)) == ino
  {
    var ws := EncodeInode(ino);
    assert ws[8..18] == ino.direct;
  }

  lemma EncodeDecodeInode(ws: seq<Word>)
    requires |ws| == INODE_WORDS
    ensures EncodeInode(DecodeInode(ws)) == ws
  {
    var e := EncodeInode(DecodeInode(ws));
    assert e[4] == ws[4] && e[5] == ws[5];
    assert e[8..18] == ws[8..18];
    assert e == e[..8] + e[8..18] + e[18..];
    assert ws == ws[..8] + ws[8..18] + ws[18..];
  }

  /** Inode `i` of an inode-table block (0-based slot). */
  function InodeIn(b: Block, i: nat): Inode
    requires i < INODES_PER_BLOCK
  {
    DecodeInode(BlockWords(b)[INODE_WORDS * i .. INODE_WORDS * i + INODE_WORDS])
  }

  /** The table block with slot `i` replaced by `ino`. */
  function WithInode(b: Block, i: nat, ino: Inode): Block
    requires i < INODES_PER_BLOCK
  {
    var w := BlockWords(b);
    BlockOf(w[..INODE_WORDS * i] + EncodeInode(ino) + w[INODE_WORDS * i + INODE_WORDS..])
  }

  /** Storing an inode in a slot makes that slot read back as the inode and
      leaves the other slots of the block as they were. */
  lemma InodeInWithInode(b: Block, i: nat, ino: Inode, j: nat)
    requires i < INODES_PER_BLOCK && j < INODES_PER_BLOCK
    ensures InodeIn(WithInode(b, i, ino), j) == if j == i then ino else InodeIn(b, j)
  {
    var w := BlockWords(b);
    var w' := BlockWords(WithInode(b, i, ino));
    assert w' == w[..INODE_WORDS * i] + EncodeInode(ino) + w[INODE_WORDS * i + INODE_WORDS..];
    SpliceSlice(w, INODE_WORDS * i, EncodeInode(ino), INODE_WORDS * j);
    var slot' := w'[INODE_WORDS * j .. INODE_WORDS * j + INODE_WORDS];
    assert InodeIn(WithInode(b, i, ino), j) == DecodeInode(slot');
    if j == i {
      assert slot' == EncodeInode(ino);
      DecodeEncodeInode(ino);
    } else {
      assert slot' == w[INODE_WORDS * j .. INODE_WORDS * j + INODE_WORDS];
    }
  }

  /** Splicing `e` into `w` at `lo` puts `e` there and keeps every run of the
      same length that does not overlap it. */
  lemma SpliceSlice<T>(w: seq<T>, lo: nat, e: seq<T>, lo2: nat)
    requires lo + |e| <= |w| && lo2 + |e| <= |w|
    requires lo2 == lo || lo2 + |e| <= lo || lo + |e| <= lo2
    ensures var w' := w[..lo] + e + w[lo + |e|..];
      w'[lo2 .. lo2 + |e|] == if lo2 == lo then e else w[lo2 .. lo2 + |e|]
  {
  }

  // ------------------------------------------------------------ disk regions

  /** A disk whose superblock describes a layout that fits it. */
  ghost predicate Mounted(s: seq<Block>) {
    |s| >= SUPERBLOCK_SIZE && LayoutOk(SuperOf(s), |s|)
  }

  function SuperOf(s: seq<Block>): Superblock
    requires |s| >= SUPERBLOCK_SIZE
  {
    DecodeSuper(s[0])
  }

  /** The data region: data block k (1-based) is `Data(s)[k - 1]`. */
  function Data(s: seq<Block>): (dd: seq<Block>)
    requires Mounted(s)
    ensures |dd| == SuperOf(s).dataSize
  {
    s[SuperOf(s).dataOffset .. SuperOf(s).dataOffset + SuperOf(s).dataSize]
  }

  /** Data block k as `data_read` sees it: block 0 (and any block outside the
      region) reads as zeros. */
  function DataBlock(dd: seq<Block>, k: int): Block {
    if 1 <= k <= |dd| then dd[k - 1] else ZeroBlock()
  }

  /** The disk index of data block k. */
  function DataIndex(sb: Superblock, k: int): int {
    sb.dataOffset + k - 1
  }

  /** The disk index of the table block holding inode n (1-based), and its slot. */
  function InodeBlockIndex(sb: Superblock, n: int): int
    requires n >= 1
  {
    sb.ilistOffset + (n - 1) / INODES_PER_BLOCK
  }

  function InodeSlot(n: int): nat
    requires n >= 1
  {
    (n - 1) % INODES_PER_BLOCK
  }

  predicate ValidInum(sb: Superblock, n: int) {
    1 <= n <= sb.numInodes
  }

  lemma DivBelow(a: nat, b: nat, c: nat)
    requires b > 0 && a < b * c
    ensures a / b < c
  {
    assert (a / b) * b <= a;
  }

  /** Every valid inode number lies in a table block of the inode table. */
  lemma InodeLocation(sb: Superblock, total: int, n: int)
    requires LayoutOk(sb, total) && ValidInum(sb, n)
    ensures sb.ilistOffset <= InodeBlockIndex(sb, n) < sb.ilistOffset + sb.ilistSize
    ensures InodeSlot(n) < INODES_PER_BLOCK
  {
    DivBelow(n - 1, INODES_PER_BLOCK, sb.ilistSize);
  }

  /** Every valid inode number has a bit in a block of the inode bitmap. */
  lemma BitmapLocation(sb: Superblock, total: int, n: int)
    requires LayoutOk(sb, total) && ValidInum(sb, n)
    ensures sb.ibitmapOffset <= BitmapBlockIndex(sb, n) < sb.ibitmapOffset + sb.ibitmapSize
    ensures BitmapByte(n) < BLOCK_SIZE && BitmapBit(n) < 8
  {
    DivBelow(n - 1, BITS_PER_BLOCK, sb.ibitmapSize);
    DivBelow((n - 1) % BITS_PER_BLOCK, 8, BLOCK_SIZE);
  }

  /** Inode n as `inode_read` returns it. */
  function InodeAt(s: seq<Block>, n: int): Inode
    requires Mounted(s) && ValidInum(SuperOf(s), n)
  {
    InodeLocation(SuperOf(s), |s|, n);
    InodeIn(s[InodeBlockIndex(SuperOf(s), n)], InodeSlot(n))
  }

  /** The disk index, byte and bit (0 = most significant) of inode n's bitmap bit. */
  function BitmapBlockIndex(sb: Superblock, n: int): int
    requires n >= 1
  {
    sb.ibitmapOffset + (n - 1) / BITS_PER_BLOCK
  }

  function BitmapByte(n: int): nat
    requires n >= 1
  {
    ((n - 1) % BITS_PER_BLOCK) / 8
  }

  function BitmapBit(n: int): nat
    requires n >= 1
  {
    ((n - 1) % BITS_PER_BLOCK) % 8
  }

  /** Whether inode n is marked as in use in the bitmap. */
  ghost predicate InodeUsed(s: seq<Block>, n: int)
    requires Mounted(s) && ValidInum(SuperOf(s), n)
  {
    BitmapLocation(SuperOf(s), |s|, n);
    BitSet(s[BitmapBlockIndex(SuperOf(s), n)][BitmapByte(n)], BitmapBit(n))
  }

  // ------------------------------------------------------------- directories

  const DOT: seq<byte> := [46]
  const DOT_DOT: seq<byte> := [46, 46]

  /** The bytes of a NUL-terminated name, up to its first NUL. */
  function CString(b: seq<byte>): (name: seq<byte>)
    ensures |name| <= |b|
    ensures forall i :: 0 <= i < |name| ==> name[i] != 0
  {
    if b == [] || b[0] == 0 then [] else [b[0]] + CString(b[1..])
  }

  /** The name of entry i of a directory block. */
  function DirEntName(b: Block, i: nat): seq<byte>
    requires i < BLOCK_SIZE / DIRENT_BYTES
  {
    CString(b[DIRENT_BYTES * i .. DIRENT_BYTES * i + FILENAME_BYTES])
  }

  /** The inode number of entry i of a directory block. */
  function DirEntInum(b: Block, i: nat): Word
    requires i < BLOCK_SIZE / DIRENT_BYTES
  {
    Words(b[DIRENT_BYTES * i + FILENAME_BYTES .. DIRENT_BYTES * (i + 1)])[0]
  }

  /** Entry i of block b after `strcpy` of the name into it and assignment of
      its inode number: the name and its NUL, then whatever the entry held in
      the rest of the name field, then the number. */
  function WithDirEnt(b: Block, i: nat, name: seq<byte>, inum: Word): Block
    requires i < BLOCK_SIZE / DIRENT_BYTES && |name| < FILENAME_BYTES
  {
    var lo := DIRENT_BYTES * i;
    b[..lo] + name + [0] + b[lo + |name| + 1 .. lo + FILENAME_BYTES]
      + FromWords([inum]) + b[lo + DIRENT_BYTES..]
  }

  /** A name without NUL bytes followed by a NUL reads back as the name. */
  lemma {:induction false} CStringPadded(name: seq<byte>, pad: seq<byte>)
    requires forall i :: 0 <= i < |name| ==> name[i] != 0
    requires |pad| > 0 && pad[0] == 0
    ensures CString(name + pad) == name
  {
    if name != [] {
      assert (name + pad)[1..] == name[1..] + pad;
      CStringPadded(name[1..], pad);
    }
  }

  /** An entry written into a block reads back with its name and number,
      whatever the block held before. */
  lemma WithDirEntAt(b: Block, i: nat, name: seq<byte>, inum: Word)
    requires i < BLOCK_SIZE / DIRENT_BYTES && |name| < FILENAME_BYTES
    requires forall k :: 0 <= k < |name| ==> name[k] != 0
    ensures DirEntName(WithDirEnt(b, i, name, inum), i) == name
    ensures DirEntInum(WithDirEnt(b, i, name, inum), i) == inum
  {
    var lo := DIRENT_BYTES * i;
    var b' := WithDirEnt(b, i, name, inum);
    var pad := [0] + b[lo + |name| + 1 .. lo + FILENAME_BYTES];
    assert b'[lo .. lo + FILENAME_BYTES] == name + pad;
    CStringPadded(name, pad);
    assert b'[lo + FILENAME_BYTES .. DIRENT_BYTES * (i + 1)] == FromWords([inum]);
    WordsFromWords([inum]);
  }

  /** Writing entry i leaves every other entry as it was. */
  lemma WithDirEntKeeps(b: Block, i: nat, name: seq<byte>, inum: Word, j: nat)
    requires i < BLOCK_SIZE / DIRENT_BYTES && |name| < FILENAME_BYTES
    requires j < BLOCK_SIZE / DIRENT_BYTES && j != i
    ensures DirEntName(WithDirEnt(b, i, name, inum), j) == DirEntName(b, j)
    ensures DirEntInum(WithDirEnt(b, i, name, inum), j) == DirEntInum(b, j)
  {
    var b' := WithDirEnt(b, i, name, inum);
    var lo := DIRENT_BYTES * j;
    if j < i {
      assert b'[..DIRENT_BYTES * i] == b[..DIRENT_BYTES * i];
    } else {
      assert b'[DIRENT_BYTES * (i + 1)..] == b[DIRENT_BYTES * (i + 1)..];
    }
    assert b'[lo .. lo + DIRENT_BYTES] == b[lo .. lo + DIRENT_BYTES];
    assert b'[lo .. lo + FILENAME_BYTES] == b[lo .. lo + FILENAME_BYTES];
    assert b'[lo + FILENAME_BYTES .. DIRENT_BYTES * (j + 1)] == b[lo + FILENAME_BYTES .. DIRENT_BYTES * (j + 1)];
  }

  /** The first block of a new directory, built over the uninitialised block
      `junk`: entry 0 is `.` naming the directory itself, entry 1 is `..`
      naming its parent, and every other byte is left as it was. */
  function NewDirBlock(junk: Block, self: Word, parent: Word): Block {
    WithDirEnt(WithDirEnt(junk, 0, DOT, self), 1, DOT_DOT, parent)
  }

  /** The entries of a new directory block read back as `.` and `..`. */
  lemma NewDirBlockEntries(junk: Block, self: Word, parent: Word)
    ensures DirEntName(NewDirBlock(junk, self, parent), 0) == DOT
    ensures DirEntInum(NewDirBlock(junk, self, parent), 0) == self
    ensures DirEntName(NewDirBlock(junk, self, parent), 1) == DOT_DOT
    ensures DirEntInum(NewDirBlock(junk, self, parent), 1) == parent
  {
    var b := WithDirEnt(junk, 0, DOT, self);
    WithDirEntAt(junk, 0, DOT, self);
    WithDirEntAt(b, 1, DOT_DOT, parent);
    WithDirEntKeeps(b, 1, DOT_DOT, parent, 0);
  }
}
