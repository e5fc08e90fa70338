// Writing the bytes of a file (`write_i` in layer2.c): the run is cut into
// blocks as for reading; the first and the last block are read, patched and
// written back, the whole blocks between are written outright, and a block
// whose new contents are all zero is removed from the file instead of
// being written. The inode, with its new size, is written after each block.
module FileWrite {
  import opened Globals
  import opened Codec
  import opened BlockStore
  import opened Layout
  import opened FreeList
  import opened SuperblockIO
  import opened Inodes
  import opened DataBlocks
  import opened Tree
  import opened Indirect
  import opened Remove
  import opened Routes
  import opened FileRead

  // ------------------------------------------------------------ arithmetic

  /** `int original_size = my_inode.size`: the 64-bit size cut to a C int. */
  function Int32Of(x: int): (v: Int32)
    ensures (v - x) % 0x1_0000_0000 == 0
    ensures -0x8000_0000 <= x < 0x8000_0000 ==> v == x
  {
    (x + 0x8000_0000) % 0x1_0000_0000 - 0x8000_0000
  }

  /** `MAX(original_size, n)` where n is unsigned: the int is compared as an
      unsigned value, so a negative size is never replaced. */
  function SizeMax(orig: Int32, n: nat): (v: Offset)
    requires n <= INT_MAX
    ensures orig < 0 ==> v == orig
    ensures orig >= 0 ==> v >= orig && v >= n && (v == orig || v == n)
  {
    if orig < 0 || orig > n then orig else n
  }

  /** `memcpy(&block_buf[at], x, |x|)`. */
  function Splice(blk: Block, at: nat, x: seq<byte>): (b: Block)
    requires at + |x| <= BLOCK_SIZE
    ensures b[at .. at + |x|] == x
    ensures forall i :: 0 <= i < BLOCK_SIZE && !(at <= i < at + |x|) ==> b[i] == blk[i]
  {
    blk[.. at] + x + blk[at + |x| ..]
  }

  // ------------------------------------------------------- one block's step

  /** The disk, the caller's copy of the inode, a status and the `created`
      flag after one step of `write_i`. */
  datatype Step = Step(disk: seq<Block>, ino: Inode, r: int, created: bool)

  /** The route to logical block k is one `get_nth_datablock` and
      `rm_nth_datablock` can follow: the free list is sound and no block on
      the route is free or met twice. */
  ghost predicate RouteOk(s: seq<Block>, ino: Inode, k: int)
    requires Mounted(s)
  {
    RouteDef(s, ino, k, false)
  }

  ghost predicate RouteDef(s: seq<Block>, ino: Inode, k: int, deep: bool)
    requires Mounted(s)
    decreases |s|, !deep
  {
    if !deep then RouteDef(s, ino, k, true)
    else ListOk(s) && PathClean(s, ino, k) && PathDistinct(s, ino, k)
  }

  lemma RouteParts(s: seq<Block>, ino: Inode, k: int)
    requires Mounted(s) && RouteOk(s, ino, k)
    ensures ListOk(s) && PathClean(s, ino, k) && PathDistinct(s, ino, k)
  {
    assert RouteDef(s, ino, k, true);
  }

  /** The regions the superblock describes are the same on both disks. */
  ghost predicate SameLayout(s: seq<Block>, s': seq<Block>)
    requires |s| >= SUPERBLOCK_SIZE && |s'| >= SUPERBLOCK_SIZE
  {
    && SuperOf(s').dataSize == SuperOf(s).dataSize
    && SuperOf(s').dataOffset == SuperOf(s).dataOffset
    && SuperOf(s').numInodes == SuperOf(s).numInodes
  }

  /** `rm_nth_datablock(&my_inode, k)`, its status ignored. */
  ghost function Discard(s: seq<Block>, ino: Inode, k: int, created: bool): (t: Step)
    requires Mounted(s) && RouteOk(s, ino, k)
    ensures Mounted(t.disk) && SameLayout(s, t.disk) && t.r == SUCCESS
  {
    RouteParts(s, ino, k);
    RmKeeps(s, ino, k);
    var f := RmSpec(true, s, ino, k);
    Step(f.disk, f.ino, SUCCESS, created)
  }

  /** `data_write(a, blk)`. */
  ghost function Put(s: seq<Block>, ino: Inode, a: int, blk: Block, created: bool): (t: Step)
    requires Mounted(s)
    ensures Mounted(t.disk) && SameLayout(s, t.disk)
    ensures t.r == SUCCESS || t.r == INVALID_BLOCK
  {
    if a <= 0 || a > SuperOf(s).dataSize then Step(s, ino, INVALID_BLOCK, created)
    else
      DataBlockWrite(s, a, blk);
      Step(s[DataIndex(SuperOf(s), a) := blk], ino, SUCCESS, created)
  }

  /** The end of a partial block's step: a block of zeros is removed from
      the file, any other is written to data block a. */
  ghost function Store(s: seq<Block>, ino: Inode, k: int, a: int, blk: Block, created: bool): (t: Step)
    requires Mounted(s) && RouteOk(s, ino, k)
    ensures Mounted(t.disk) && SameLayout(s, t.disk)
    ensures t.r == SUCCESS || t.r == INVALID_BLOCK
  {
    if IsZero(blk) then Discard(s, ino, k, created) else Put(s, ino, a, blk, created)
  }

  /** The first or the last block of a write: block k is found, created if
      missing; a new block starts as zeros and an existing one is read; x is
      copied in at byte at, and the block is stored. */
  ghost function Edge(s: seq<Block>, ino: Inode, k: int, at: nat, x: seq<byte>): (t: Step)
    requires Mounted(s) && RouteOk(s, ino, k) && at + |x| <= BLOCK_SIZE
    ensures Mounted(t.disk) && SameLayout(s, t.disk)
    ensures t.r == SUCCESS || t.r == INVALID_BLOCK || t.r == DATA_FULL
  {
    EdgeDef(s, ino, k, at, x, false)
  }

  ghost function EdgeDef(s: seq<Block>, ino: Inode, k: int, at: nat, x: seq<byte>, deep: bool): (t: Step)
    requires Mounted(s) && RouteOk(s, ino, k) && at + |x| <= BLOCK_SIZE
    ensures Mounted(t.disk) && SameLayout(s, t.disk)
    ensures t.r == SUCCESS || t.r == INVALID_BLOCK || t.r == DATA_FULL
    decreases |s|, !deep
  {
    if !deep then EdgeDef(s, ino, k, at, x, true) else
    RouteParts(s, ino, k);
    GetKeeps(s, ino, k, false);
    GetRoutes(s, ino, k, false);
    var g := GetSpec(true, s, ino, k, false);
    if g.r == DATA_FULL then Step(g.disk, g.ino, DATA_FULL, g.created)
    else
      var cur := if g.created then Fetched(SUCCESS, ZeroBlock()) else Fetch(g.disk, g.r);
      if cur.r != SUCCESS then Step(g.disk, g.ino, cur.r, g.created)
      else Store(g.disk, g.ino, k, g.r, Splice(cur.block, at, x), g.created)
  }

  /** A whole block in the middle of a write: a chunk of zeros removes block
      k without allocating anything; any other chunk is written to the
      block, created if missing. */
  ghost function Whole(s: seq<Block>, ino: Inode, k: int, chunk: Block, created: bool): (t: Step)
    requires Mounted(s) && RouteOk(s, ino, k)
    ensures Mounted(t.disk) && SameLayout(s, t.disk)
    ensures t.r == SUCCESS || t.r == INVALID_BLOCK || t.r == DATA_FULL
  {
    WholeDef(s, ino, k, chunk, created, false)
  }

  ghost function WholeDef(s: seq<Block>, ino: Inode, k: int, chunk: Block, created: bool, deep: bool): (t: Step)
    requires Mounted(s) && RouteOk(s, ino, k)
    ensures Mounted(t.disk) && SameLayout(s, t.disk)
    ensures t.r == SUCCESS || t.r == INVALID_BLOCK || t.r == DATA_FULL
    decreases |s|, !deep
  {
    if !deep then WholeDef(s, ino, k, chunk, created, true)
    else if IsZero(chunk) then Discard(s, ino, k, created)
    else
      RouteParts(s, ino, k);
      GetKeeps(s, ino, k, created);
      var g := GetSpec(true, s, ino, k, created);
      if g.r == DATA_FULL then Step(g.disk, g.ino, DATA_FULL, g.created)
      else Put(g.disk, g.ino, g.r, chunk, g.created)
  }

  /** `inode_write(inum, &my_inode)`, its status ignored. */
  ghost function Persist(s: seq<Block>, inum: int, ino: Inode): (s': seq<Block>)
    requires Mounted(s)
    ensures Mounted(s') && SuperOf(s') == SuperOf(s)
  {
    PersistDef(s, inum, ino, false)
  }

  ghost function PersistDef(s: seq<Block>, inum: int, ino: Inode, deep: bool): (s': seq<Block>)
    requires Mounted(s)
    ensures Mounted(s') && SuperOf(s') == SuperOf(s)
    decreases |s|, !deep
  {
    if !deep then PersistDef(s, inum, ino, true) else
    if ValidInum(SuperOf(s), inum) then PutInode(s, inum, ino) else s
  }

  // ------------------------------------------------------------ the whole run

  /** A call `write_i(inum, buf, offset, |data|)` once the inode is read:
      orig is `original_size`. */
  datatype Job = Job(inum: int, data: seq<byte>, offset: nat, orig: Int32)

  predicate JobOk(j: Job) {
    1 <= |j.data| && j.offset + |j.data| <= INT_MAX
  }

  /** The blocks the job covers. */
  function Cover(j: Job): (b: Bounds)
    requires JobOk(j)
    ensures b.first <= b.last && b.start < BLOCK_SIZE && 1 <= b.end <= BLOCK_SIZE
    ensures |j.data| == (b.last - b.first) * BLOCK_SIZE + b.end - b.start
  {
    BoundsOf(j.offset, |j.data|)
  }

  /** The bytes the first block takes (`writeOffset` after it). */
  function HeadLen(b: Bounds): nat
    requires b.start < BLOCK_SIZE && b.first <= b.last && (b.first == b.last ==> b.start < b.end)
  {
    if b.first == b.last then b.end - b.start else BLOCK_SIZE - b.start
  }

  /** `writeOffset` when the middle loop reaches block k. */
  function Done(b: Bounds, k: int): int {
    (k - b.first) * BLOCK_SIZE - b.start
  }

  /** The state `write_i` carries from block to block: the disk, its copy of
      the inode, the status, the `created` flag, and ok, which is false once
      a route was met that the model does not follow (see RouteOk). */
  datatype Pass = Pass(disk: seq<Block>, ino: Inode, r: int, created: bool, ok: bool)

  /** After a block's step: on success the size becomes the larger of
      `original_size` and n, the inode is written, and res is the status. */
  ghost function Advance(t: Step, j: Job, n: nat, res: int): (q: Pass)
    requires Mounted(t.disk) && n <= INT_MAX
    ensures Mounted(q.disk) && SameLayout(t.disk, q.disk)
  {
    AdvanceDef(t, j, n, res, false)
  }

  ghost function AdvanceDef(t: Step, j: Job, n: nat, res: int, deep: bool): (q: Pass)
    requires Mounted(t.disk) && n <= INT_MAX
    ensures Mounted(q.disk) && SameLayout(t.disk, q.disk)
    decreases |t.disk|, !deep
  {
    if !deep then AdvanceDef(t, j, n, res, true)
    else if t.r != SUCCESS then Pass(t.disk, t.ino, t.r, t.created, true)
    else
      var ino' := t.ino.(size := SizeMax(j.orig, n));
      Pass(Persist(t.disk, j.inum, ino'), ino', res, t.created, true)
  }

  /** A failed step passes its state on unchanged. */
  lemma AdvanceStops(t: Step, j: Job, n: nat, res: int)
    requires Mounted(t.disk) && n <= INT_MAX && t.r != SUCCESS
    ensures Advance(t, j, n, res) == Pass(t.disk, t.ino, t.r, t.created, true)
  {
    assert Advance(t, j, n, res) == AdvanceDef(t, j, n, res, true);
  }

  /** The first block of `write_i`. Line 266 sets the size to the larger of
      `original_size` and `writeOffset`; with fix it is `offset +
      writeOffset`, the value the later blocks use. */
  ghost function First(fix: bool, s: seq<Block>, ino: Inode, j: Job): (p: Pass)
    requires Mounted(s) && JobOk(j)
    ensures Mounted(p.disk) && SameLayout(s, p.disk)
  {
    FirstDef(fix, s, ino, j, false)
  }

  ghost function FirstDef(fix: bool, s: seq<Block>, ino: Inode, j: Job, deep: bool): (p: Pass)
    requires Mounted(s) && JobOk(j)
    ensures Mounted(p.disk) && SameLayout(s, p.disk)
    decreases |s|, !deep
  {
    if !deep then FirstDef(fix, s, ino, j, true) else
    var b := Cover(j);
    var n0 := HeadLen(b);
    if !RouteOk(s, ino, b.first) then Pass(s, ino, SUCCESS, false, false)
    else Advance(Edge(s, ino, b.first, b.start, j.data[.. n0]), j, if fix then j.offset + n0 else n0, SUCCESS)
  }

  /** Block k of the middle loop, from the state p. */
  ghost function MidStep(p: Pass, j: Job, k: int): (q: Pass)
    requires Mounted(p.disk) && JobOk(j) && Cover(j).first < k < Cover(j).last
    ensures Mounted(q.disk) && SameLayout(p.disk, q.disk)
  {
    MidDef(p, j, k, false)
  }

  ghost function MidDef(p: Pass, j: Job, k: int, deep: bool): (q: Pass)
    requires Mounted(p.disk) && JobOk(j) && Cover(j).first < k < Cover(j).last
    ensures Mounted(q.disk) && SameLayout(p.disk, q.disk)
    decreases |p.disk|, !deep
  {
    if !deep then MidDef(p, j, k, true) else
    var w := Done(Cover(j), k);
    if !RouteOk(p.disk, p.ino, k) then p.(ok := false)
    else Advance(Whole(p.disk, p.ino, k, j.data[w .. w + BLOCK_SIZE], p.created), j, j.offset + w + BLOCK_SIZE, SUCCESS)
  }

  /** The middle loop of `write_i` over blocks i to hi - 1 from the state
      p, where step(p, k) is block k's step; it stops at the first error. */
  ghost function Run(step: (Pass, int) -> Pass, p: Pass, i: int, hi: int): Pass
    decreases hi - i
  {
    if i >= hi then p
    else
      var q := step(p, i);
      if q.r != SUCCESS || !q.ok then q else Run(step, q, i + 1, hi)
  }

  /** MidStep as a step function of the job. */
  ghost function Steps(j: Job): (Pass, int) -> Pass {
    (p: Pass, k: int) =>
      if Mounted(p.disk) && JobOk(j) && Cover(j).first < k < Cover(j).last then MidStep(p, j, k) else p
  }

  /** step takes MidStep's steps; stated block by block so that only an
      explicit MidStep brings a step's definition into play. */
  ghost predicate Follows(j: Job, step: (Pass, int) -> Pass) {
    JobOk(j) &&
    forall p: Pass, k: int {:trigger MidStep(p, j, k)} ::
      Mounted(p.disk) && Cover(j).first < k < Cover(j).last ==> step(p, k) == MidStep(p, j, k)
  }

  lemma StepsFollow(j: Job)
    requires JobOk(j)
    ensures Follows(j, Steps(j))
  {
  }

  /** The middle loop keeps the disk formatted, with the same regions. */
  lemma {:induction false} RunMounted(j: Job, p: Pass, i: int, hi: int)
    requires Mounted(p.disk) && JobOk(j)
    ensures Mounted(Run(Steps(j), p, i, hi).disk) && SameLayout(p.disk, Run(Steps(j), p, i, hi).disk)
    decreases hi - i
  {
    if i < hi {
      var q := Steps(j)(p, i);
      if q.r == SUCCESS && q.ok {
        RunMounted(j, q, i + 1, hi);
      }
    }
  }

  /** The last block of `write_i`; on success the call returns |data|. */
  ghost function Last(p: Pass, j: Job): (q: Pass)
    requires Mounted(p.disk) && JobOk(j) && Cover(j).first < Cover(j).last
    ensures Mounted(q.disk) && SameLayout(p.disk, q.disk)
  {
    LastDef(p, j, false)
  }

  ghost function LastDef(p: Pass, j: Job, deep: bool): (q: Pass)
    requires Mounted(p.disk) && JobOk(j) && Cover(j).first < Cover(j).last
    ensures Mounted(q.disk) && SameLayout(p.disk, q.disk)
    decreases |p.disk|, !deep
  {
    if !deep then LastDef(p, j, true) else
    var w := |j.data| - Cover(j).end;
    if !RouteOk(p.disk, p.ino, Cover(j).last) then p.(ok := false)
    else Advance(Edge(p.disk, p.ino, Cover(j).last, 0, j.data[w ..]), j, j.offset + |j.data|, |j.data|)
  }

  /** The disk `write_i` leaves and what it returns; ok as in Pass. */
  datatype Outcome = Outcome(disk: seq<Block>, r: int, ok: bool)

  /** `write_i(inum, buf, offset, |data|)`; fix selects the corrected size
      update of the first block. */
  ghost function WriteSpec(fix: bool, ready: bool, s: seq<Block>, inum: int, data: seq<byte>, offset: nat): (o: Outcome)
    requires ready ==> Mounted(s)
    requires 1 <= |data| && offset + |data| <= INT_MAX
    ensures ready ==> Mounted(o.disk) && SameLayout(s, o.disk)
  {
    if !ready then Outcome(s, DISC_UNINITIALIZED, true)
    else if !ValidInum(SuperOf(s), inum) then Outcome(s, BAD_INODE, true)
    else Written(fix, s, InodeAt(s, inum), Job(inum, data, offset, Int32Of(InodeAt(s, inum).size)))
  }

  /** `write_i` once inode j.inum is read as ino: the first block, then
      the middle loop and the last block unless the first was also the last,
      stopping at the first error. */
  ghost function Written(fix: bool, s: seq<Block>, ino: Inode, j: Job): (o: Outcome)
    requires Mounted(s) && JobOk(j)
    ensures Mounted(o.disk) && SameLayout(s, o.disk)
  {
    WrittenDef(fix, s, ino, j, false)
  }

  ghost function WrittenDef(fix: bool, s: seq<Block>, ino: Inode, j: Job, deep: bool): (o: Outcome)
    requires Mounted(s) && JobOk(j)
    ensures Mounted(o.disk) && SameLayout(s, o.disk)
    decreases |s|, !deep
  {
    if !deep then WrittenDef(fix, s, ino, j, true) else
    var p := First(fix, s, ino, j);
    if !p.ok || p.r != SUCCESS then Outcome(p.disk, p.r, p.ok)
    else if Cover(j).first == Cover(j).last then Outcome(p.disk, HeadLen(Cover(j)), true)
    else
      var m := Run(Steps(j), p, Cover(j).first + 1, Cover(j).last);
      RunMounted(j, p, Cover(j).first + 1, Cover(j).last);
      if !m.ok || m.r != SUCCESS then Outcome(m.disk, m.r, m.ok)
      else Ending(Last(m, j))
  }

  /** What `write_i` returns and leaves once its last block is done. */
  function Ending(q: Pass): Outcome {
    Outcome(q.disk, q.r, q.ok)
  }

  // ------------------------------------------------------------ the methods

  /** The end of a partial block's step, as in Store. */
  method StoreBlock(d: Disk, ino: Inode, k: int, a: int, blk: Block, created: bool, ghost s: seq<Block>)
      returns (r: int, ino': Inode)
    requires Consistent(d) && Ready(d) && s == d.Contents() && Mounted(s) && RouteOk(s, ino, k)
    modifies d.disk
    ensures Consistent(d)
    ensures Step(d.Contents(), ino', r, created) == Store(s, ino, k, a, blk, created)
  {
    RouteParts(s, ino, k);
    if IsZero(blk) {
      var _, i := RmNth(d, ino, k);
      return SUCCESS, i;
    }
    r := DataWrite(d, a, blk);
    ino' := ino;
  }

  /** The first or the last block of `write_i`, as in Edge. */
  method WriteEdge(d: Disk, ino: Inode, k: int, at: nat, x: seq<byte>, ghost s: seq<Block>)
      returns (r: int, ino': Inode, created: bool)
    requires Consistent(d) && Ready(d) && s == d.Contents() && Mounted(s) && RouteOk(s, ino, k)
    requires at + |x| <= BLOCK_SIZE
    modifies d.disk
    ensures Consistent(d)
    ensures Step(d.Contents(), ino', r, created) == Edge(s, ino, k, at, x)
  {
    assert Edge(s, ino, k, at, x) == EdgeDef(s, ino, k, at, x, true);
    RouteParts(s, ino, k);
    GetKeeps(s, ino, k, false);
    GetRoutes(s, ino, k, false);
    var a, i, c := GetNth(d, ino, k, true, false);
    if a == DATA_FULL {
      return DATA_FULL, i, c;
    }
    var blk := ZeroBlock();
    if !c {
      var ret;
      ret, blk := DataRead(d, a, ZeroBlock());
      if ret != SUCCESS {
        return ret, i, c;
      }
    }
    r, ino' := StoreBlock(d, i, k, a, Splice(blk, at, x), c, d.Contents());
    created := c;
  }

  /** `inode_write(inum, &my_inode)`, its status ignored. */
  method PersistInode(d: Disk, inum: int, ino: Inode, ghost s: seq<Block>)
    requires Consistent(d) && Ready(d) && s == d.Contents() && Mounted(s)
    modifies d.disk
    ensures Consistent(d) && d.Contents() == Persist(s, inum, ino)
  {
    assert Persist(s, inum, ino) == PersistDef(s, inum, ino, true);
    var _ := InodeWrite(d, inum, ino);
  }

  /** The size update and the inode write after a block, as in Advance. */
  method AdvanceInode(d: Disk, j: Job, ghost t: Step, ino: Inode, created: bool, n: nat, res: int)
      returns (r: int, ino': Inode)
    requires Consistent(d) && Ready(d) && t.disk == d.Contents() && Mounted(t.disk)
    requires t.ino == ino && t.created == created && t.r == SUCCESS && n <= INT_MAX
    modifies d.disk
    ensures Consistent(d)
    ensures Pass(d.Contents(), ino', r, created, true) == Advance(t, j, n, res)
  {
    assert Advance(t, j, n, res) == AdvanceDef(t, j, n, res, true);
    ino' := ino.(size := SizeMax(j.orig, n));
    PersistInode(d, j.inum, ino', d.Contents());
    r := res;
  }

  /** The first block of `write_i` as written (line 266). */
  method WriteFirst(d: Disk, j: Job, ino: Inode, ghost s: seq<Block>) returns (r: int, ino': Inode, created: bool)
    requires Consistent(d) && Ready(d) && s == d.Contents() && Mounted(s) && JobOk(j)
    requires First(false, s, ino, j).ok
    modifies d.disk
    ensures Consistent(d)
    ensures Pass(d.Contents(), ino', r, created, true) == First(false, s, ino, j)
  {
    assert First(false, s, ino, j) == FirstDef(false, s, ino, j, true);
    var b := Cover(j);
    var n0 := HeadLen(b);
    r, ino', created := WriteEdge(d, ino, b.first, b.start, j.data[.. n0], s);
    if r != SUCCESS {
      AdvanceStops(Step(d.Contents(), ino', r, created), j, n0, SUCCESS);
      return;
    }
    r, ino' := AdvanceInode(d, j, Step(d.Contents(), ino', r, created), ino', created, n0, SUCCESS);
  }

  /** A whole block in the middle of a write, as in Whole. */
  method WholeBlock(d: Disk, ino: Inode, k: int, chunk: Block, created: bool, ghost s: seq<Block>)
      returns (r: int, ino': Inode, created': bool)
    requires Consistent(d) && Ready(d) && s == d.Contents() && Mounted(s) && RouteOk(s, ino, k)
    modifies d.disk
    ensures Consistent(d)
    ensures Step(d.Contents(), ino', r, created') == Whole(s, ino, k, chunk, created)
  {
    assert Whole(s, ino, k, chunk, created) == WholeDef(s, ino, k, chunk, created, true);
    RouteParts(s, ino, k);
    if IsZero(chunk) {
      RmKeeps(s, ino, k);
      var _, i := RmNth(d, ino, k);
      return SUCCESS, i, created;
    }
    GetKeeps(s, ino, k, created);
    var a, i, c := GetNth(d, ino, k, true, created);
    if a == DATA_FULL {
      return DATA_FULL, i, c;
    }
    r := DataWrite(d, a, chunk);
    ino', created' := i, c;
  }

  /** Block k of the middle loop of `write_i`, as in MidStep. */
  method WriteWhole(d: Disk, j: Job, ino: Inode, created: bool, k: int, ghost step: (Pass, int) -> Pass, ghost s: seq<Block>)
      returns (r: int, ino': Inode, created': bool)
    requires Consistent(d) && Ready(d) && s == d.Contents() && Mounted(s) && Follows(j, step)
    requires Cover(j).first < k < Cover(j).last && step(Pass(s, ino, SUCCESS, created, true), k).ok
    modifies d.disk
    ensures Consistent(d)
    ensures Pass(d.Contents(), ino', r, created', true) == step(Pass(s, ino, SUCCESS, created, true), k)
  {
    assert step(Pass(s, ino, SUCCESS, created, true), k) == MidStep(Pass(s, ino, SUCCESS, created, true), j, k);
    assert MidStep(Pass(s, ino, SUCCESS, created, true), j, k) == MidDef(Pass(s, ino, SUCCESS, created, true), j, k, true);
    var w := Done(Cover(j), k);
    r, ino', created' := WholeBlock(d, ino, k, j.data[w .. w + BLOCK_SIZE], created, s);
    if r != SUCCESS {
      AdvanceStops(Step(d.Contents(), ino', r, created'), j, j.offset + w + BLOCK_SIZE, SUCCESS);
      return;
    }
    r, ino' := AdvanceInode(d, j, Step(d.Contents(), ino', r, created'), ino', created', j.offset + w + BLOCK_SIZE, SUCCESS);
  }

  /** The middle loop of `write_i`, as in Run. */
  method WriteMid(d: Disk, j: Job, ino0: Inode, created0: bool, ghost step: (Pass, int) -> Pass, ghost p0: Pass)
      returns (r: int, ino: Inode, created: bool)
    requires Consistent(d) && Ready(d) && Follows(j, step) && Cover(j).first < Cover(j).last
    requires p0 == Pass(d.Contents(), ino0, SUCCESS, created0, true)
    requires Run(step, p0, Cover(j).first + 1, Cover(j).last).ok
    modifies d.disk
    ensures Consistent(d)
    ensures Pass(d.Contents(), ino, r, created, true) == Run(step, p0, Cover(j).first + 1, Cover(j).last)
  {
    var b := Cover(j);
    ghost var goal := Run(step, p0, b.first + 1, b.last);
    ino, created := ino0, created0;
    var i := b.first + 1;
    while i < b.last
      invariant b.first + 1 <= i <= b.last
      invariant Consistent(d) && Ready(d)
      invariant Run(step, Pass(d.Contents(), ino, SUCCESS, created, true), i, b.last) == goal
    {
      r, ino, created := WriteWhole(d, j, ino, created, i, step, d.Contents());
      if r != SUCCESS {
        return;
      }
      i := i + 1;
    }
    r := SUCCESS;
  }

  /** The last block of `write_i`, as in Last. */
  method WriteLast(d: Disk, j: Job, ino: Inode, created: bool, ghost s: seq<Block>)
      returns (r: int, ino': Inode, created': bool)
    requires Consistent(d) && Ready(d) && s == d.Contents() && Mounted(s) && JobOk(j)
    requires Cover(j).first < Cover(j).last && Last(Pass(s, ino, SUCCESS, created, true), j).ok
    modifies d.disk
    ensures Consistent(d)
    ensures Pass(d.Contents(), ino', r, created', true) == Last(Pass(s, ino, SUCCESS, created, true), j)
  {
    assert Last(Pass(s, ino, SUCCESS, created, true), j) == LastDef(Pass(s, ino, SUCCESS, created, true), j, true);
    var b := Cover(j);
    r, ino', created' := WriteEdge(d, ino, b.last, 0, j.data[|j.data| - b.end ..], s);
    if r != SUCCESS {
      AdvanceStops(Step(d.Contents(), ino', r, created'), j, j.offset + |j.data|, |j.data|);
      return;
    }
    r, ino' := AdvanceInode(d, j, Step(d.Contents(), ino', r, created'), ino', created', j.offset + |j.data|, |j.data|);
  }

  /** `write_i` once the inode is read, as in Written. */
  method WriteJob(d: Disk, j: Job, ino: Inode, ghost s: seq<Block>) returns (r: int)
    requires Consistent(d) && Ready(d) && s == d.Contents() && Mounted(s) && JobOk(j)
    requires Written(false, s, ino, j).ok
    modifies d.disk
    ensures Consistent(d)
    ensures Outcome(d.Contents(), r, true) == Written(false, s, ino, j)
  {
    assert Written(false, s, ino, j) == WrittenDef(false, s, ino, j, true);
    var b := Cover(j);
    var ino1, created;
    r, ino1, created := WriteFirst(d, j, ino, s);
    if r != SUCCESS {
      return;
    }
    if b.first == b.last {
      return HeadLen(b);
    }
    ghost var p := Pass(d.Contents(), ino1, SUCCESS, created, true);
    var ino2;
    StepsFollow(j);
    r, ino2, created := WriteMid(d, j, ino1, created, Steps(j), p);
    if r != SUCCESS {
      return;
    }
    var ino3;
    r, ino3, created := WriteLast(d, j, ino2, created, d.Contents());
  }

  /** `write_i(inum, buf, offset, |data|)` as written. */
  method WriteI(d: Disk, inum: int, data: seq<byte>, offset: int) returns (r: int)
    requires Consistent(d) && 1 <= |data| && 0 <= offset && offset + |data| <= INT_MAX
    requires WriteSpec(false, Ready(d), d.Contents(), inum, data, offset).ok
    modifies d.disk
    ensures Consistent(d)
    ensures Outcome(d.Contents(), r, true) == WriteSpec(false, Ready(d), old(d.Contents()), inum, data, offset)
  {
    ghost var s := d.Contents();
    var ret, ino := InodeRead(d, inum, ZeroInode);
    if ret != SUCCESS {
      return ret;
    }
    r := WriteJob(d, Job(inum, data, offset, Int32Of(ino.size)), ino, s);
  }
}
