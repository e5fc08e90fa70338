// Creating a filesystem: `mkfs` and the steps it takes, `init_superblock`,
// `init_freelist`, `init_ibitmap` and `create_dir_base`.
//
// `init_freelist` lays the free list out over the data region: node i sits
// at data block i * 1024 + 1, its slots name the 1023 blocks after it (as
// far as the region goes) and its `next` names node i + 1 when there is
// one. The lemmas below prove that this is a well-formed free list holding
// every data block exactly once.
module Format {
  import opened Codec
  import opened Globals
  import opened BlockStore
  import opened Bits
  import opened Layout
  import opened FreeList
  import opened SuperblockIO
  import opened Inodes
  import opened DataBlocks

  /** The blocks one free-list node accounts for: itself and its slots. */
  const BLOCKS_PER_NODE: nat := ADDR_PER_NODE + 1

  // ------------------------------------------------- init_freelist, specified

  /** The data block of node i. */
  function NodeLoc(i: nat): nat {
    i * BLOCKS_PER_NODE + 1
  }

  /** The number of nodes a data region of `size` blocks is laid out with. */
  function NodeCount(size: nat): nat {
    CeilDiv(size, BLOCKS_PER_NODE)
  }

  /** The slots holding from, from + 1, ..., to - 1, each number past `last`
      replaced by 0. */
  function Run(from: nat, to: nat, last: Word): (a: seq<Word>)
    ensures |a| == (if to < from then 0 else to - from)
    decreases if from < to then to - from else 0
  {
    if to <= from then [] else [if from <= last then from else 0] + Run(from + 1, to, last)
  }

  /** Node i of the free list `init_freelist` builds for `size` data blocks. */
  function FreeNode(size: Word, i: nat): Node {
    NodeOf(if NodeLoc(i + 1) <= size then NodeLoc(i + 1) else INVALID_DATA,
           Run(NodeLoc(i) + 1, NodeLoc(i + 1), size))
  }

  /** The node numbers from node i on: NodeLoc(i), NodeLoc(i + 1), ..., up to node n - 1. */
  function Locs(i: nat, n: nat): seq<int>
    decreases n - i
  {
    if i >= n then [] else [NodeLoc(i)] + Locs(i + 1, n)
  }

  /** Every node of the layout lies inside the data region. */
  lemma NodeInRange(size: nat, i: nat)
    requires i < NodeCount(size)
    ensures 1 <= NodeLoc(i) <= size
  {
    var q := NodeCount(size);
    assert (q - 1) * BLOCKS_PER_NODE < size;
    assert i * BLOCKS_PER_NODE <= (q - 1) * BLOCKS_PER_NODE;
  }

  /** Node i has a successor exactly when it is not the last node. */
  lemma NextInRange(size: nat, i: nat)
    requires i < NodeCount(size)
    ensures NodeLoc(i + 1) <= size <==> i + 1 < NodeCount(size)
  {
    var q := NodeCount(size);
    if i + 1 < q {
      NodeInRange(size, i + 1);
    }
    if NodeLoc(i + 1) <= size {
      assert q * BLOCKS_PER_NODE >= size;
      assert i + 1 < q;
    }
  }

  /** No node lies past the last block of the region. */
  lemma PastLastNode(size: nat)
    ensures NodeLoc(NodeCount(size)) > size
  {
    assert NodeCount(size) * BLOCKS_PER_NODE >= size;
  }

  /** Slot j of a run holds from + j, or 0 once that is past `last`. */
  lemma {:induction false} RunAt(from: nat, to: nat, last: Word, j: nat)
    requires from + j < to
    ensures Run(from, to, last)[j] == (if from + j <= last then from + j else 0)
    decreases if from < to then to - from else 0
  {
    if j > 0 {
      RunAt(from + 1, to, last, j - 1);
    }
  }

  /** A run names each block from `from` up to `last` (and below `to`) once. */
  lemma {:induction false} RunCount(from: nat, to: nat, last: Word, x: int)
    requires from >= 1
    ensures SlotCount(Run(from, to, last), x) == (if from <= x < to && x <= last then 1 else 0)
    decreases if from < to then to - from else 0
  {
    if from < to {
      var a := Run(from, to, last);
      assert a[1..] == Run(from + 1, to, last);
      RunCount(from + 1, to, last, x);
    }
  }

  /** The node numbers of the layout are data block numbers. */
  lemma {:induction false} LocsInRange(size: nat, i: nat)
    ensures forall k :: 0 <= k < |Locs(i, NodeCount(size))| ==> 1 <= Locs(i, NodeCount(size))[k] <= size
    decreases NodeCount(size) - i
  {
    if i < NodeCount(size) {
      NodeInRange(size, i);
      LocsInRange(size, i + 1);
    }
  }

  /** The data region holds node i of the layout at NodeLoc(i), for every i. */
  ghost predicate Laid(dd: seq<Node>, size: Word) {
    |dd| == size &&
    forall i :: 0 <= i < NodeCount(size) ==> NodeLoc(i) <= |dd| && dd[NodeLoc(i) - 1] == FreeNode(size, i)
  }

  /** The `next` of node i of the layout names node i + 1, or ends the list
      at the last node. */
  ghost predicate Linked(dd: seq<Node>, size: Word) {
    forall i :: 0 <= i < NodeCount(size) ==>
      NodeLoc(i) <= |dd| && NodeNext(dd[NodeLoc(i) - 1]) == NextNode(size, i)
  }

  function NextNode(size: Word, i: nat): int {
    if i + 1 < NodeCount(size) then NodeLoc(i + 1) else INVALID_DATA
  }

  /** The slots of node i of the layout name the blocks after it. */
  ghost predicate Slotted(dd: seq<Node>, size: Word) {
    forall i :: 0 <= i < NodeCount(size) ==>
      NodeLoc(i) <= |dd| && NodeSlots(dd[NodeLoc(i) - 1]) == Run(NodeLoc(i) + 1, NodeLoc(i + 1), size)
  }

  lemma LaidParts(dd: seq<Node>, size: Word)
    requires Laid(dd, size)
    ensures Linked(dd, size) && Slotted(dd, size)
  {
    forall i | 0 <= i < NodeCount(size)
      ensures NodeNext(dd[NodeLoc(i) - 1]) == NextNode(size, i)
      ensures NodeSlots(dd[NodeLoc(i) - 1]) == Run(NodeLoc(i) + 1, NodeLoc(i + 1), size)
    {
      NextInRange(size, i);
      NodeFields(if NodeLoc(i + 1) <= size then NodeLoc(i + 1) else INVALID_DATA,
                 Run(NodeLoc(i) + 1, NodeLoc(i + 1), size));
    }
  }

  /** Following `next` from node i visits nodes i, i + 1, ... to the last one. */
  lemma {:induction false} LaidChain(dd: seq<Node>, size: Word, i: nat, fuel: nat)
    requires Linked(dd, size) && |dd| == size && i < NodeCount(size) && fuel >= NodeCount(size) - i
    ensures ChainFrom(dd, NodeLoc(i), fuel) == Some(Locs(i, NodeCount(size)))
    decreases NodeCount(size) - i
  {
    NodeInRange(size, i);
    assert NodeNext(dd[NodeLoc(i) - 1]) == NextNode(size, i);
    if i + 1 < NodeCount(size) {
      LaidChain(dd, size, i + 1, fuel - 1);
    }
  }

  /** The nodes from node i on record each block from NodeLoc(i) to the end
      of the region once, and nothing else. */
  lemma {:induction false} LaidCount(dd: seq<Node>, size: Word, i: nat, x: int)
    requires Slotted(dd, size) && i <= NodeCount(size)
    requires InRange(dd, Locs(i, NodeCount(size)))
    ensures Count(dd, Locs(i, NodeCount(size)), x) == if NodeLoc(i) <= x <= size then 1 else 0
    decreases NodeCount(size) - i
  {
    var n := NodeCount(size);
    if i == n {
      PastLastNode(size);
    } else {
      var ns := Locs(i, n);
      assert ns[1..] == Locs(i + 1, n);
      LaidCount(dd, size, i + 1, x);
      assert NodeSlots(dd[NodeLoc(i) - 1]) == Run(NodeLoc(i) + 1, NodeLoc(i + 1), size);
      RunCount(NodeLoc(i) + 1, NodeLoc(i + 1), size, x);
    }
  }

  /** A data region laid out by `init_freelist` is a well-formed free list from
      block 1 that holds every data block. */
  lemma LaidListOk(dd: seq<Node>, size: Word)
    requires Laid(dd, size) && size >= 1
    ensures FreeListOk(dd, ROOT_FREELIST) && FreeSet(dd, ROOT_FREELIST) == Blocks(size)
  {
    var n := NodeCount(size);
    assert n >= 1 && n <= size;
    LaidParts(dd, size);
    LaidChain(dd, size, 0, size);
    var ns := Locs(0, n);
    assert Chain(dd, ROOT_FREELIST) == Some(ns);
    forall x ensures Count(dd, ns, x) == if 1 <= x <= size then 1 else 0 {
      LaidCount(dd, size, 0, x);
    }
    assert FreeSet(dd, ROOT_FREELIST) == Blocks(size);
  }

  /** The word view of a data region of `size` blocks once `init_freelist`
      has written its first k nodes. */
  function NodesLaid(dd: seq<Node>, size: Word, k: nat): (dd': seq<Node>)
    requires |dd| == size && k <= NodeCount(size)
    ensures |dd'| == |dd|
  {
    if k == 0 then dd
    else
      NodeInRange(size, k - 1);
      NodesLaid(dd, size, k - 1)[NodeLoc(k - 1) - 1 := FreeNode(size, k - 1)]
  }

  /** After k nodes are written, the region holds each of them at its place. */
  lemma {:induction false} NodesLaidAt(dd: seq<Node>, size: Word, k: nat, i: nat)
    requires |dd| == size && i < k <= NodeCount(size)
    ensures NodeLoc(i) <= size
    ensures NodesLaid(dd, size, k)[NodeLoc(i) - 1] == FreeNode(size, i)
  {
    NodeInRange(size, k - 1);
    NodeInRange(size, i);
    if i < k - 1 {
      NodesLaidAt(dd, size, k - 1, i);
    }
  }

  /** s' differs from s in the data region only. */
  ghost predicate OnlyData(s: seq<Block>, s': seq<Block>)
    requires Mounted(s)
  {
    |s'| == |s| &&
    forall x :: 0 <= x < |s| && !(SuperOf(s).dataOffset <= x < SuperOf(s).dataOffset + SuperOf(s).dataSize)
      ==> s'[x] == s[x]
  }

  /** The disk `init_freelist` leaves behind: the data region holds the word
      view of the layout and no other block has changed. */
  ghost predicate FreelistLaid(s: seq<Block>, s': seq<Block>)
  {
    && Mounted(s) && OnlyData(s, s') && Mounted(s') && SuperOf(s') == SuperOf(s)
    && Nodes(s') == NodesLaid(Nodes(s), SuperOf(s).dataSize, NodeCount(SuperOf(s).dataSize))
  }

  /** `init_freelist` leaves a well-formed free list from block 1 holding
      every data block (the superblock names block 1 as its head). */
  lemma FreshListOk(s: seq<Block>, s': seq<Block>)
    requires FreelistLaid(s, s') && Head(s) == ROOT_FREELIST && SuperOf(s).dataSize >= 1
    ensures ListOk(s') && Free(s') == Blocks(SuperOf(s).dataSize)
  {
    var size := SuperOf(s).dataSize;
    var dd := Nodes(s');
    forall i | 0 <= i < NodeCount(size)
      ensures NodeLoc(i) <= |dd| && dd[NodeLoc(i) - 1] == FreeNode(size, i)
    {
      NodesLaidAt(Nodes(s), size, NodeCount(size), i);
    }
    LaidListOk(dd, size);
  }

  // ------------------------------------------------------- init_freelist

  /** The slots of the node at `loc`: the blocks after it, up to the end of the region. */
  method FillSlots(loc: nat, size: Word) returns (addr: seq<Word>)
    ensures addr == Run(loc + 1, loc + BLOCKS_PER_NODE, size)
  {
    addr := Zeros(ADDR_PER_NODE);
    var j := 0;
    while j < ADDR_PER_NODE && loc + j + 1 <= size
      invariant 0 <= j <= ADDR_PER_NODE && |addr| == ADDR_PER_NODE
      invariant j > 0 ==> loc + j <= size
      invariant forall k :: 0 <= k < j ==> addr[k] == loc + k + 1
      invariant forall k :: j <= k < ADDR_PER_NODE ==> addr[k] == 0
    {
      addr := addr[j := loc + j + 1];
      j := j + 1;
    }
    forall k | 0 <= k < ADDR_PER_NODE ensures addr[k] == Run(loc + 1, loc + BLOCKS_PER_NODE, size)[k] {
      RunAt(loc + 1, loc + BLOCKS_PER_NODE, size, k);
    }
  }

  /** Node i, zeroed, then its slots and (when there is a node after it) its `next`. */
  method BuildNode(i: nat, size: Word) returns (cur: Node)
    ensures cur == FreeNode(size, i)
  {
    var nodeLoc := i * BLOCKS_PER_NODE + 1;
    var addr := FillSlots(nodeLoc, size);
    var next: Word := INVALID_DATA;
    var nextLoc := (i + 1) * BLOCKS_PER_NODE + 1;
    if nextLoc <= size {
      next := nextLoc;
    }
    cur := NodeOf(next, addr);
  }

  /** The loop body of `init_freelist`: builds node i and writes it at its place. */
  method WriteNode(d: Disk, sb: Superblock, i: nat, ghost s: seq<Block>)
    requires Consistent(d) && Ready(d) && Mounted(s) && sb == SuperOf(s)
    requires i < NodeCount(sb.dataSize)
    requires OnlyData(s, d.Contents()) && Mounted(d.Contents()) && SuperOf(d.Contents()) == sb
    requires Nodes(d.Contents()) == NodesLaid(Nodes(s), sb.dataSize, i)
    modifies d.disk
    ensures Consistent(d)
    ensures OnlyData(s, d.Contents()) && Mounted(d.Contents()) && SuperOf(d.Contents()) == sb
    ensures Nodes(d.Contents()) == NodesLaid(Nodes(s), sb.dataSize, i + 1)
  {
    var nodeLoc := i * BLOCKS_PER_NODE + 1;
    var cur := BuildNode(i, sb.dataSize);
    NodeInRange(sb.dataSize, i);
    DataBlockWrite(d.Contents(), nodeLoc, BlockOf(cur));
    var w := DataWrite(d, nodeLoc, BlockOf(cur));
    // The node lies inside the data region, so the write cannot fail.
    assert w == SUCCESS;
  }

  /** The loop of `init_freelist`: each of the ceil(dataSize / 1024) nodes in turn. */
  method WriteNodes(d: Disk, sb: Superblock, ghost s: seq<Block>)
    requires Consistent(d) && Ready(d) && s == d.Contents() && Mounted(s) && sb == SuperOf(s)
    modifies d.disk
    ensures Consistent(d) && FreelistLaid(s, d.Contents())
  {
    var numNodes := CeilDiv(sb.dataSize, BLOCKS_PER_NODE);
    var i := 0;
    while i < numNodes
      invariant 0 <= i <= numNodes == NodeCount(sb.dataSize)
      invariant Consistent(d)
      invariant OnlyData(s, d.Contents()) && Mounted(d.Contents()) && SuperOf(d.Contents()) == sb
      invariant Nodes(d.Contents()) == NodesLaid(Nodes(s), sb.dataSize, i)
    {
      WriteNode(d, sb, i, s);
      i := i + 1;
    }
  }

  /** `init_freelist`: writes node i at data block i * 1024 + 1 for each of
      the ceil(dataSize / 1024) nodes. */
  method InitFreelist(d: Disk) returns (r: int)
    requires Consistent(d)
    modifies d.disk
    ensures Consistent(d)
    ensures r == if Ready(d) then SUCCESS else DISC_UNINITIALIZED
    ensures r == SUCCESS ==> FreelistLaid(old(d.Contents()), d.Contents())
    ensures r != SUCCESS ==> d.Contents() == old(d.Contents())
  {
    var ret, sb := ReadSuperblock(d);
    if ret != SUCCESS {
      return DISC_UNINITIALIZED;
    }
    WriteNodes(d, sb, d.Contents());
    return SUCCESS;
  }

  // ----------------------------------------------------- init_superblock

  /** Writing the computed superblock over block 0 of a disk of `blocks`
      blocks leaves a disk whose superblock is the computed one and fits. */
  lemma SuperblockInitialized(s: seq<Block>, blocks: nat)
    requires MIN_BLOCKS <= blocks <= MAX_FS_SIZE && |s| == blocks
    ensures Mounted(s[0 := EncodeSuper(InitSuper(blocks))])
    ensures SuperOf(s[0 := EncodeSuper(InitSuper(blocks))]) == InitSuper(blocks)
  {
    DecodeEncodeSuper(InitSuper(blocks));
    InitSuperLayout(blocks);
  }

  /** `init_superblock`: `blocks` must be a valid size. */
  method InitSuperblock(d: Disk, blocks: nat) returns (r: int)
    requires d.Valid() && MIN_BLOCKS <= blocks <= MAX_FS_SIZE
    modifies d.disk
    ensures d.Valid()
    ensures r == if Ready(d) then SUCCESS else DISC_UNINITIALIZED
    ensures r == SUCCESS ==> d.Contents() == old(d.Contents())[0 := EncodeSuper(InitSuper(blocks))]
    ensures r != SUCCESS ==> d.Contents() == old(d.Contents())
  {
    r := WriteSuperblock(d, InitSuper(blocks));
  }

  // ------------------------------------------------ init_ibitmap, specified

  /** The disk with the first k blocks of the inode bitmap zeroed. */
  ghost function BitmapZeroed(s: seq<Block>, k: nat): (s': seq<Block>)
    requires Mounted(s) && k <= SuperOf(s).ibitmapSize
    ensures |s'| == |s| && s'[0] == s[0]
  {
    if k == 0 then s
    else BitmapZeroed(s, k - 1)[SuperOf(s).ibitmapOffset + k - 1 := ZeroBlock()]
  }

  lemma {:induction false} BitmapZeroedAt(s: seq<Block>, k: nat, x: int)
    requires Mounted(s) && k <= SuperOf(s).ibitmapSize && 0 <= x < |s|
    ensures BitmapZeroed(s, k)[x] ==
      if SuperOf(s).ibitmapOffset <= x < SuperOf(s).ibitmapOffset + k then ZeroBlock() else s[x]
  {
    if k > 0 {
      BitmapZeroedAt(s, k - 1, x);
    }
  }

  /** `init_ibitmap` marks every inode free and changes nothing else: the
      superblock, the inode table and the data region (so the free list)
      are as they were. */
  lemma BitmapCleared(s: seq<Block>)
    requires Mounted(s)
    ensures var s' := BitmapZeroed(s, SuperOf(s).ibitmapSize);
      && Mounted(s') && SuperOf(s') == SuperOf(s) && Data(s') == Data(s)
      && (forall m :: ValidInum(SuperOf(s), m) ==> !InodeUsed(s', m))
      && (forall m :: ValidInum(SuperOf(s), m) ==> InodeAt(s', m) == InodeAt(s, m))
  {
    var sb := SuperOf(s);
    var s' := BitmapZeroed(s, sb.ibitmapSize);
    forall x | 0 <= x < |s|
      ensures s'[x] == if sb.ibitmapOffset <= x < sb.ibitmapOffset + sb.ibitmapSize then ZeroBlock() else s[x]
    {
      BitmapZeroedAt(s, sb.ibitmapSize, x);
    }
    assert Data(s') == Data(s);
    forall m | ValidInum(sb, m) ensures !InodeUsed(s', m) && InodeAt(s', m) == InodeAt(s, m) {
      BitmapLocation(sb, |s|, m);
      InodeLocation(sb, |s|, m);
      assert s'[BitmapBlockIndex(sb, m)][BitmapByte(m)] == 0;
    }
  }

  // ------------------------------------------------------- init_ibitmap

  /** `init_ibitmap`: writes a zero block over each block of the inode bitmap. */
  method InitIbitmap(d: Disk) returns (r: int)
    requires Consistent(d)
    modifies d.disk
    ensures Consistent(d)
    ensures r == if Ready(d) then SUCCESS else DISC_UNINITIALIZED
    ensures r == SUCCESS ==> old(Mounted(d.Contents()))
    ensures r == SUCCESS ==>
      d.Contents() == BitmapZeroed(old(d.Contents()), old(SuperOf(d.Contents())).ibitmapSize)
    ensures r != SUCCESS ==> d.Contents() == old(d.Contents())
  {
    var ret, sb := ReadSuperblock(d);
    if ret != SUCCESS {
      return DISC_UNINITIALIZED;
    }
    ZeroBitmap(d, sb, d.Contents());
    return SUCCESS;
  }

  /** The loop of `init_ibitmap`. The source ignores each write's result; every
      bitmap block lies on the disk, so each write succeeds. */
  method ZeroBitmap(d: Disk, sb: Superblock, ghost s: seq<Block>)
    requires Consistent(d) && Ready(d) && s == d.Contents() && sb == SuperOf(s)
    modifies d.disk
    ensures Consistent(d) && d.Contents() == BitmapZeroed(s, sb.ibitmapSize)
  {
    var zeroBuffer := ZeroBlock();
    var cur := 0;
    while cur < sb.ibitmapSize
      invariant 0 <= cur <= sb.ibitmapSize
      invariant d.Valid() && d.Contents() == BitmapZeroed(s, cur)
    {
      var w := d.WriteBlock(sb.ibitmapOffset + cur, Some(zeroBuffer));
      assert w == SUCCESS;
      cur := cur + 1;
    }
  }

  // --------------------------------------------- create_dir_base, specified

  /** The mode of the root directory, S_IFDIR | S_IRWXU | S_IRGRP | S_IROTH (040744). */
  const ROOT_MODE: Word := 0x41E4

  /** The inode `..` names: the parent, or the directory itself when there is none. */
  function DotDot(self: Word, parent: Int32): Word {
    if parent == INVALID_INODE then self else WordOfInt(parent)
  }

  /** The inode of a new directory: zero apart from its mode, its owner, its
      size (two entries) and its first data block. */
  function DirInode(mode: Word, uid: Int32, gid: Int32, block: Word): Inode {
    Inode(mode, 0, WordOfInt(uid), WordOfInt(gid), 2 * DIRENT_BYTES, 0, 0, [block] + Zeros(NUM_DIRECT - 1), 0, 0, 0)
  }

  /** Claiming an inode keeps the superblock and the free list. */
  lemma ClaimKeepsList(s: seq<Block>, n: int, ino: Inode)
    requires ListOk(s) && ValidInum(SuperOf(s), n)
    ensures ListOk(Claim(s, n, ino)) && SuperOf(Claim(s, n, ino)) == SuperOf(s)
  {
    ClaimEffect(s, n, ino);
  }

  /** Allocating keeps the number of inodes and hands out a data block number. */
  lemma AllocKeepsSuper(s: seq<Block>, data: Block)
    requires ListOk(s) && Head(s) != INVALID_DATA
    ensures Mounted(AllocSpec(s, data).0)
    ensures SuperOf(AllocSpec(s, data).0).numInodes == SuperOf(s).numInodes
    ensures 1 <= AllocSpec(s, data).1 <= SuperOf(s).dataSize
  {
    AllocSpecOk(s, data, AllocSpec(s, data).0, AllocSpec(s, data).1);
  }

  /** The disk, and the data block used, after `create_dir_base` makes inode n
      a directory: n is claimed holding the uninitialised `junkInode`, a block
      holding `.` and `..` (over the uninitialised `junkBlock`) is allocated,
      then n's inode is written. */
  ghost function CreateDirSpec(s: seq<Block>, n: int, mode: Word, uid: Int32, gid: Int32,
                               parent: Int32, junkInode: Inode, junkBlock: Block): (seq<Block>, int)
    requires ListOk(s) && ValidInum(SuperOf(s), n) && Head(s) != INVALID_DATA
  {
    ClaimKeepsList(s, n, junkInode);
    var s1 := Claim(s, n, junkInode);
    var blk := NewDirBlock(junkBlock, n, DotDot(n, parent));
    var a := AllocSpec(s1, blk);
    AllocKeepsSuper(s1, blk);
    (PutInode(a.0, n, DirInode(mode, uid, gid, a.1)), a.1)
  }

  /** Writes confined to the superblock and to data blocks, with the regions
      kept, leave every inode's bit and record as they were. */
  lemma InodesKept(s: seq<Block>, s': seq<Block>, F: set<int>)
    requires Mounted(s) && Mounted(s') && OnlyChanged(s, s', F)
    requires SuperOf(s') == SuperOf(s).(freeListHead := Head(s'))
    requires forall x :: x in F ==> x >= 1
    ensures forall m :: ValidInum(SuperOf(s), m) ==>
      InodeUsed(s', m) == InodeUsed(s, m) && InodeAt(s', m) == InodeAt(s, m)
  {
    var sb := SuperOf(s);
    forall m | ValidInum(sb, m) ensures InodeUsed(s', m) == InodeUsed(s, m) && InodeAt(s', m) == InodeAt(s, m) {
      BitmapLocation(sb, |s|, m);
      InodeLocation(sb, |s|, m);
      assert BlockNum(sb, BitmapBlockIndex(sb, m)) < 1;
      assert BlockNum(sb, InodeBlockIndex(sb, m)) < 1;
    }
  }

  /** What `create_dir_base` does to the free list: one free block is used
      up, and it holds `.` and `..`. */
  lemma CreateDirBlock(s: seq<Block>, n: int, mode: Word, uid: Int32, gid: Int32,
                       parent: Int32, junkInode: Inode, junkBlock: Block, s': seq<Block>, b: int)
    requires ListOk(s) && ValidInum(SuperOf(s), n) && Head(s) != INVALID_DATA
    requires (s', b) == CreateDirSpec(s, n, mode, uid, gid, parent, junkInode, junkBlock)
    ensures |s'| == |s| && ListOk(s') && SuperOf(s') == SuperOf(s).(freeListHead := Head(s'))
    ensures b in Free(s) && Free(s') == Free(s) - {b}
    ensures DirEntName(DataBlock(Data(s'), b), 0) == DOT && DirEntInum(DataBlock(Data(s'), b), 0) == n
    ensures DirEntName(DataBlock(Data(s'), b), 1) == DOT_DOT
    ensures DirEntInum(DataBlock(Data(s'), b), 1) == DotDot(n, parent)
  {
    ClaimEffect(s, n, junkInode);
    var s1 := Claim(s, n, junkInode);
    var blk := NewDirBlock(junkBlock, n, DotDot(n, parent));
    var a := AllocSpec(s1, blk);
    AllocSpecOk(s1, blk, a.0, a.1);
    PutInodeEffect(a.0, n, DirInode(mode, uid, gid, b));
    NewDirBlockEntries(junkBlock, n, DotDot(n, parent));
  }

  /** What `create_dir_base` does to the bitmap: the new inode is in use; no
      other inode's bit changes. */
  lemma CreateDirUsed(s: seq<Block>, n: int, mode: Word, uid: Int32, gid: Int32,
                      parent: Int32, junkInode: Inode, junkBlock: Block, s': seq<Block>, b: int)
    requires ListOk(s) && ValidInum(SuperOf(s), n) && Head(s) != INVALID_DATA
    requires (s', b) == CreateDirSpec(s, n, mode, uid, gid, parent, junkInode, junkBlock)
    ensures Mounted(s') && SuperOf(s').numInodes == SuperOf(s).numInodes
    ensures forall m :: ValidInum(SuperOf(s), m) ==> InodeUsed(s', m) == (m == n || InodeUsed(s, m))
  {
    ClaimEffect(s, n, junkInode);
    var s1 := Claim(s, n, junkInode);
    var blk := NewDirBlock(junkBlock, n, DotDot(n, parent));
    var a := AllocSpec(s1, blk);
    AllocSpecOk(s1, blk, a.0, a.1);
    InodesKept(s1, a.0, Free(s1));
    PutInodeEffect(a.0, n, DirInode(mode, uid, gid, b));
  }

  /** What `create_dir_base` does to the inode table: the new inode
      describes the directory; no other inode's record changes. */
  lemma CreateDirInode(s: seq<Block>, n: int, mode: Word, uid: Int32, gid: Int32,
                       parent: Int32, junkInode: Inode, junkBlock: Block, s': seq<Block>, b: int)
    requires ListOk(s) && ValidInum(SuperOf(s), n) && Head(s) != INVALID_DATA
    requires (s', b) == CreateDirSpec(s, n, mode, uid, gid, parent, junkInode, junkBlock)
    ensures Mounted(s') && SuperOf(s').numInodes == SuperOf(s).numInodes
    ensures 1 <= b <= SuperOf(s).dataSize
    ensures forall m :: ValidInum(SuperOf(s), m) ==>
      InodeAt(s', m) == if m == n then DirInode(mode, uid, gid, b) else InodeAt(s, m)
  {
    ClaimEffect(s, n, junkInode);
    var s1 := Claim(s, n, junkInode);
    var blk := NewDirBlock(junkBlock, n, DotDot(n, parent));
    var a := AllocSpec(s1, blk);
    AllocSpecOk(s1, blk, a.0, a.1);
    InodesKept(s1, a.0, Free(s1));
    PutInodeEffect(a.0, n, DirInode(mode, uid, gid, b));
    assert SuperOf(a.0).numInodes == SuperOf(s).numInodes;
    forall m | ValidInum(SuperOf(s), m)
      ensures InodeAt(s', m) == if m == n then DirInode(mode, uid, gid, b) else InodeAt(s, m)
    {
      assert ValidInum(SuperOf(s1), m) && ValidInum(SuperOf(a.0), m);
      if m != n {
        assert InodeAt(s', m) == InodeAt(a.0, m) == InodeAt(s1, m);
      }
    }
  }

  // ----------------------------------------------------- create_dir_base

  /** `create_dir_base`: makes a directory holding only `.` and `..`; with
      no parent, `..` names the directory itself. When no data block is
      left, the inode just claimed stays claimed. On an error the source
      leaves `*inode_num` alone; here `inum` is then INVALID_INODE. */
  method CreateDirBase(d: Disk, mode: Word, uid: Int32, gid: Int32, parent: Int32,
                       junkInode: Inode, junkBlock: Block) returns (r: int, inum: int, ghost block: int)
    requires Consistent(d) && (Ready(d) ==> ListOk(d.Contents()))
    modifies d.disk
    ensures Consistent(d)
    ensures !Ready(d) ==> r == DISC_UNINITIALIZED
    ensures Ready(d) ==> r == (if old(AllUsed(d.Contents())) then ILIST_FULL
                               else if old(Head(d.Contents())) == INVALID_DATA then DATA_FULL
                               else SUCCESS)
    ensures r == SUCCESS ==> old(LowestFree(d.Contents(), inum))
    ensures r == SUCCESS ==>
      (d.Contents(), block) == CreateDirSpec(old(d.Contents()), inum, mode, uid, gid, parent, junkInode, junkBlock)
    ensures r == DATA_FULL ==>
      exists n :: old(LowestFree(d.Contents(), n)) && d.Contents() == Claim(old(d.Contents()), n, junkInode)
    ensures r != SUCCESS && r != DATA_FULL ==> d.Contents() == old(d.Contents())
    ensures r != SUCCESS ==> inum == INVALID_INODE
  {
    ghost var s := d.Contents();
    var ret, my := InodeCreate(d, junkInode);
    if ret != SUCCESS {
      return ret, INVALID_INODE, 0;
    }
    r, block := FillDir(d, my, mode, uid, gid, parent, junkInode, junkBlock, s);
    inum := if r == SUCCESS then my else INVALID_INODE;
  }

  /** `create_dir_base` once inode `my` is claimed: the directory block is
      allocated, then the inode is written. The source ignores the result of
      `inode_write`; `my` is a valid inode, so the write succeeds. */
  method FillDir(d: Disk, my: int, mode: Word, uid: Int32, gid: Int32, parent: Int32,
                 junkInode: Inode, junkBlock: Block, ghost s: seq<Block>) returns (r: int, ghost block: int)
    requires Consistent(d) && Ready(d) && ListOk(s) && LowestFree(s, my)
    requires d.Contents() == Claim(s, my, junkInode)
    modifies d.disk
    ensures Consistent(d)
    ensures r == if Head(s) == INVALID_DATA then DATA_FULL else SUCCESS
    ensures r == SUCCESS ==>
      (d.Contents(), block) == CreateDirSpec(s, my, mode, uid, gid, parent, junkInode, junkBlock)
    ensures r != SUCCESS ==> d.Contents() == Claim(s, my, junkInode)
  {
    ClaimKeepsList(s, my, junkInode);
    var dotDot: Word := if parent == INVALID_INODE then my else WordOfInt(parent);
    var dirBlock := NewDirBlock(junkBlock, my, dotDot);
    ghost var s1 := d.Contents();
    var dataNum;
    r, dataNum := DataAllocate(d, dirBlock, 0);
    if r != SUCCESS {
      return r, 0;
    }
    AllocKeepsSuper(s1, dirBlock);
    var newDir := DirInode(mode, uid, gid, dataNum);
    var w := InodeWrite(d, my, newDir);
    assert w == SUCCESS;
    return SUCCESS, dataNum;
  }

  // ------------------------------------------------------- mkfs, specified

  /** The data block the root directory gets: the block after the first
      free-list node, or the node's own block when the region has one block. */
  function RootBlock(size: Word): Word {
    if size >= 2 then 2 else 1
  }

  /** The superblock of a fresh filesystem: the computed one, with the head
      of the free list moved off block 1 when block 1 itself was used. */
  function FreshSuper(n: nat): Superblock
    requires MIN_BLOCKS <= n <= MAX_FS_SIZE
  {
    InitSuper(n).(freeListHead := if InitSuper(n).dataSize >= 2 then ROOT_FREELIST else INVALID_DATA)
  }

  /** The disk after `init_superblock`, `init_freelist` and `init_ibitmap`:
      the free list holds every data block, its first node is the one laid
      out, and no inode is in use. */
  ghost predicate Blank(s: seq<Block>, n: nat) {
    && MIN_BLOCKS <= n <= MAX_FS_SIZE && |s| == n && Mounted(s) && SuperOf(s) == InitSuper(n)
    && SuperOf(s).dataSize >= 1 && ValidInum(SuperOf(s), ROOT_INODE)
    && ListOk(s) && Free(s) == Blocks(SuperOf(s).dataSize)
    && Nodes(s)[0] == FreeNode(SuperOf(s).dataSize, 0)
    && (forall m :: ValidInum(SuperOf(s), m) ==> !InodeUsed(s, m))
  }

  /** The root directory block read back: `.` and `..` both name inode 1. */
  predicate RootEntries(b: Block) {
    && DirEntName(b, 0) == DOT && DirEntInum(b, 0) == ROOT_INODE
    && DirEntName(b, 1) == DOT_DOT && DirEntInum(b, 1) == ROOT_INODE
  }

  /** A filesystem freshly made by `mkfs` on n blocks: the computed regions,
      a free list holding every data block but the root directory's, inode 1
      the only inode in use, and inode 1 the root directory, owned by
      uid:gid, holding `.` and `..`. */
  ghost predicate Formatted(s: seq<Block>, n: nat, uid: Int32, gid: Int32) {
    && MIN_BLOCKS <= n <= MAX_FS_SIZE && |s| == n && Mounted(s)
    && SuperOf(s) == FreshSuper(n)
    && ListOk(s) && Free(s) == Blocks(SuperOf(s).dataSize) - {RootBlock(SuperOf(s).dataSize)}
    && ValidInum(SuperOf(s), ROOT_INODE)
    && (forall m :: ValidInum(SuperOf(s), m) ==> (InodeUsed(s, m) <==> m == ROOT_INODE))
    && InodeAt(s, ROOT_INODE) == DirInode(ROOT_MODE, uid, gid, RootBlock(SuperOf(s).dataSize))
    && RootEntries(DataBlock(Data(s), RootBlock(SuperOf(s).dataSize)))
  }

  /** The first allocation from a fresh free list hands out block 2 (block 1
      when the region has one block, which then empties the list). */
  lemma FirstAllocation(s: seq<Block>, data: Block)
    requires ListOk(s) && Head(s) == ROOT_FREELIST && SuperOf(s).dataSize >= 1
    requires Nodes(s)[0] == FreeNode(SuperOf(s).dataSize, 0)
    ensures AllocSpec(s, data).1 == RootBlock(SuperOf(s).dataSize)
    ensures Mounted(AllocSpec(s, data).0)
    ensures Head(AllocSpec(s, data).0) == if SuperOf(s).dataSize >= 2 then ROOT_FREELIST else INVALID_DATA
  {
    var size := SuperOf(s).dataSize;
    var a := Run(NodeLoc(0) + 1, NodeLoc(1), size);
    NodeFields(if NodeLoc(1) <= size then NodeLoc(1) else INVALID_DATA, a);
    assert NodeSlots(Nodes(s)[0]) == a;
    AllocKeepsSuper(s, data);
    var s' := AllocSpec(s, data).0;
    if size >= 2 {
      RunAt(NodeLoc(0) + 1, NodeLoc(1), size, 0);
      FirstSlotIs(a, false, 0);
      assert s'[0] == s[0];
    } else {
      forall j | 0 <= j < ADDR_PER_NODE ensures a[j] == INVALID_DATA {
        RunAt(NodeLoc(0) + 1, NodeLoc(1), size, j);
      }
      FirstSlotIs(a, false, ADDR_PER_NODE);
      DecodeEncodeSuper(SuperOf(s).(freeListHead := INVALID_DATA));
    }
  }

  /** `init_freelist` then `init_ibitmap` after `init_superblock` leave a
      blank disk (the clauses of Blank, one by one). */
  lemma BlankMade(s1: seq<Block>, s2: seq<Block>, s3: seq<Block>, n: nat)
    requires MIN_BLOCKS <= n <= MAX_FS_SIZE && |s1| == n && Mounted(s1) && SuperOf(s1) == InitSuper(n)
    requires FreelistLaid(s1, s2) && s3 == BitmapZeroed(s2, SuperOf(s2).ibitmapSize)
    ensures |s3| == n && Mounted(s3) && SuperOf(s3) == InitSuper(n)
    ensures SuperOf(s3).dataSize >= 1 && ValidInum(SuperOf(s3), ROOT_INODE)
    ensures ListOk(s3)
    ensures Free(s3) == Blocks(SuperOf(s3).dataSize)
    ensures Nodes(s3)[0] == FreeNode(SuperOf(s3).dataSize, 0)
    ensures forall m :: ValidInum(SuperOf(s3), m) ==> !InodeUsed(s3, m)
  {
    var size := SuperOf(s1).dataSize;
    assert size >= 1 && SuperOf(s1).numInodes >= INODES_PER_BLOCK by {
      InitSuperLayout(n);
    }
    assert ListOk(s2) && Free(s2) == Blocks(size) by {
      FreshListOk(s1, s2);
    }
    assert Nodes(s2)[0] == FreeNode(size, 0) by {
      NodesLaidAt(Nodes(s1), size, NodeCount(size), 0);
    }
    assert Mounted(s3) && SuperOf(s3) == SuperOf(s2) && Data(s3) == Data(s2)
      && forall m :: ValidInum(SuperOf(s2), m) ==> !InodeUsed(s3, m) by {
      BitmapCleared(s2);
    }
    assert Nodes(s3) == Nodes(s2);
  }

  /** On a blank disk inode 1 is the lowest free inode and the list is not empty. */
  lemma BlankLowest(s: seq<Block>, n: nat)
    requires Blank(s, n)
    ensures ValidInum(SuperOf(s), ROOT_INODE) && LowestFree(s, ROOT_INODE)
    ensures !AllUsed(s) && Head(s) != INVALID_DATA
  {
    InitSuperLayout(n);
  }

  /** `create_dir_base` for the root on a blank disk: the superblock, the
      free list and the root directory's block of a formatted disk. */
  lemma RootBlockMade(s: seq<Block>, n: nat, uid: Int32, gid: Int32, junkInode: Inode, junkBlock: Block,
                      s': seq<Block>, b: int)
    requires Blank(s, n)
    requires (s', b) == CreateDirSpec(s, ROOT_INODE, ROOT_MODE, uid, gid, INVALID_INODE, junkInode, junkBlock)
    ensures |s'| == n && Mounted(s') && SuperOf(s') == FreshSuper(n)
    ensures b == RootBlock(SuperOf(s').dataSize)
    ensures ListOk(s') && Free(s') == Blocks(SuperOf(s').dataSize) - {b}
    ensures RootEntries(DataBlock(Data(s'), b))
  {
    var s1 := Claim(s, ROOT_INODE, junkInode);
    var blk := NewDirBlock(junkBlock, ROOT_INODE, ROOT_INODE);
    assert ListOk(s1) && SuperOf(s1) == SuperOf(s) && Nodes(s1) == Nodes(s) by {
      ClaimEffect(s, ROOT_INODE, junkInode);
    }
    assert b == RootBlock(SuperOf(s).dataSize) && Mounted(AllocSpec(s1, blk).0)
      && Head(AllocSpec(s1, blk).0) == if SuperOf(s).dataSize >= 2 then ROOT_FREELIST else INVALID_DATA by {
      FirstAllocation(s1, blk);
    }
    assert DotDot(ROOT_INODE, INVALID_INODE) == ROOT_INODE;
    CreateDirBlock(s, ROOT_INODE, ROOT_MODE, uid, gid, INVALID_INODE, junkInode, junkBlock, s', b);
    assert Head(s') == Head(AllocSpec(s1, blk).0);
    assert SuperOf(s') == FreshSuper(n);
    assert Free(s') == Blocks(SuperOf(s').dataSize) - {b};
  }

  /** `create_dir_base` for the root on a blank disk: the inodes of a
      formatted disk. */
  lemma RootInodeMade(s: seq<Block>, n: nat, uid: Int32, gid: Int32, junkInode: Inode, junkBlock: Block,
                      s': seq<Block>, b: int)
    requires Blank(s, n)
    requires (s', b) == CreateDirSpec(s, ROOT_INODE, ROOT_MODE, uid, gid, INVALID_INODE, junkInode, junkBlock)
    ensures Mounted(s') && SuperOf(s').numInodes == SuperOf(s).numInodes
    ensures 1 <= b <= SuperOf(s).dataSize
    ensures forall m :: ValidInum(SuperOf(s), m) ==> (InodeUsed(s', m) <==> m == ROOT_INODE)
    ensures InodeAt(s', ROOT_INODE) == DirInode(ROOT_MODE, uid, gid, b)
  {
    CreateDirUsed(s, ROOT_INODE, ROOT_MODE, uid, gid, INVALID_INODE, junkInode, junkBlock, s', b);
    CreateDirInode(s, ROOT_INODE, ROOT_MODE, uid, gid, INVALID_INODE, junkInode, junkBlock, s', b);
  }

  /** Writing the superblock back with inode 1 as the root keeps a formatted disk. */
  lemma SuperRewrite(s: seq<Block>, n: nat, uid: Int32, gid: Int32)
    requires Formatted(s, n, uid, gid)
    ensures Formatted(s[0 := EncodeSuper(SuperOf(s).(rootInode := ROOT_INODE))], n, uid, gid)
  {
    var sb := SuperOf(s).(rootInode := ROOT_INODE);
    assert sb == SuperOf(s);
    var s' := s[0 := EncodeSuper(sb)];
    SuperWrite(s, sb);
    assert Head(s') == Head(s) && ListOk(s') && Free(s') == Free(s);
    InodesKept(s, s', {});
  }

  // ------------------------------------------------------------------ mkfs

  /** The first three steps of `mkfs`. The source ignores their results;
      on the new disk each of them succeeds. */
  method LayOut(d: Disk, n: nat)
    requires d.Valid() && d.Initialized() && d.totalBlocks == n && MIN_BLOCKS <= n <= MAX_FS_SIZE
    modifies d.disk
    ensures Consistent(d) && Blank(d.Contents(), n)
  {
    ghost var s0 := d.Contents();
    var r1 := InitSuperblock(d, n);
    SuperblockInitialized(s0, n);
    InitSuperLayout(n);
    ghost var s1 := d.Contents();
    var r2 := InitFreelist(d);
    ghost var s2 := d.Contents();
    var r3 := InitIbitmap(d);
    BlankMade(s1, s2, d.Contents(), n);
  }

  /** `create_dir_base` for the root directory, which gets inode 1. */
  method CreateRoot(d: Disk, n: nat, uid: Int32, gid: Int32, junkInode: Inode, junkBlock: Block)
    returns (rootInode: int)
    requires Consistent(d) && Ready(d) && Blank(d.Contents(), n)
    modifies d.disk
    ensures Consistent(d) && Formatted(d.Contents(), n, uid, gid) && rootInode == ROOT_INODE
  {
    ghost var s := d.Contents();
    BlankLowest(s, n);
    rootInode := INVALID_INODE;
    var r, root, block := CreateDirBase(d, ROOT_MODE, uid, gid, INVALID_INODE, junkInode, junkBlock);
    assert r == SUCCESS;
    LowestFreeUnique(s, root, ROOT_INODE);
    rootInode := root;
    RootBlockMade(s, n, uid, gid, junkInode, junkBlock, d.Contents(), block);
    RootInodeMade(s, n, uid, gid, junkInode, junkBlock, d.Contents(), block);
  }

  /** The end of `mkfs`: the root's inode number is stored in the superblock. */
  method StoreRoot(d: Disk, n: nat, uid: Int32, gid: Int32, rootInode: int)
    requires Consistent(d) && Ready(d) && Formatted(d.Contents(), n, uid, gid) && rootInode == ROOT_INODE
    modifies d.disk
    ensures Consistent(d) && Formatted(d.Contents(), n, uid, gid)
  {
    var _, sb := ReadSuperblock(d);
    SuperRewrite(d.Contents(), n, uid, gid);
    var w := WriteSuperblock(d, sb.(rootInode := rootInode));
  }

  /** `mkfs`: checks its arguments, replaces the disk by a new buffer of
      min(blocks, MAX_FS_SIZE) blocks holding `junk` (the buffer `malloc`
      returns is not cleared), and lays a filesystem out on it whose root
      directory is owned by rootUid:rootGid. An inode always fits in a
      block, so the BLOCKSIZE_TOO_SMALL check never fires. */
  method Mkfs(d: Disk, blocks: Int32, rootUid: Int32, rootGid: Int32,
              junk: nat -> Block, junkInode: Inode, junkBlock: Block) returns (r: int)
    requires d.Valid()
    modifies d
    ensures d.Valid()
    ensures r == if blocks < 0 then TOTALBLOCKS_INVALID
                 else if blocks < MIN_BLOCKS then FS_TOO_SMALL
                 else if rootUid < 0 || rootGid < 0 then BAD_UID
                 else SUCCESS
    ensures r == SUCCESS ==> Consistent(d) && Ready(d)
    ensures r == SUCCESS ==>
      Formatted(d.Contents(), if blocks > MAX_FS_SIZE then MAX_FS_SIZE else blocks, rootUid, rootGid)
    ensures r != SUCCESS ==> unchanged(d) && d.Contents() == old(d.Contents())
  {
    if blocks < 0 {
      return TOTALBLOCKS_INVALID;
    }
    if blocks < MIN_BLOCKS {
      return FS_TOO_SMALL;
    }
    assert INODE_BYTES <= BLOCK_SIZE;
    if rootUid < 0 || rootGid < 0 {
      return BAD_UID;
    }
    var n: nat := blocks;
    if n > MAX_FS_SIZE {
      n := MAX_FS_SIZE;
    }
    d.disk := new Block[n](junk);
    d.totalBlocks := n;
    LayOut(d, n);
    var rootInode := CreateRoot(d, n, rootUid, rootGid, junkInode, junkBlock);
    StoreRoot(d, n, rootUid, rootGid, rootInode);
    return SUCCESS;
  }
}
