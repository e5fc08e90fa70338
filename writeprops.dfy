// What `write_i` (layer2.c) achieves, stated over the model in filewrite.dfy:
// the statuses it can return, the size it leaves in the inode, what a block
// holds after its step, and what `read_i` returns after a write that stays
// within one block -- with the size update of line 266 as written and as
// evidently intended.
module WriteProps {
  import opened Globals
  import opened Codec
  import opened Layout
  import opened FreeList
  import opened Inodes
  import opened DataBlocks
  import opened Tree
  import opened Indirect
  import opened Remove
  import opened Routes
  import opened FileRead
  import opened FileWrite

  /** The errors a block's step can end with. */
  predicate Failed(r: int) {
    r == INVALID_BLOCK || r == DATA_FULL
  }

  // ------------------------------------------------------------ helpers

  lemma RouteIntro(s: seq<Block>, ino: Inode, k: int)
    requires Mounted(s) && ListOk(s) && PathClean(s, ino, k) && PathDistinct(s, ino, k)
    ensures RouteOk(s, ino, k)
  {
  }

  /** A block every byte of which is zero is the block of zeros. */
  lemma ZeroIsZeroBlock(b: Block)
    requires IsZero(b)
    ensures b == ZeroBlock()
  {
    assert forall i :: 0 <= i < BLOCK_SIZE ==> b[i] == ZeroBlock()[i];
  }

  /** `get_nth_datablock` with `*created` clear that takes no block changes
      neither the disk nor the caller's inode. */
  lemma GetSame(s: seq<Block>, ino: Inode, k: int)
    requires ListOk(s) && PathClean(s, ino, k)
    ensures var g := GetSpec(true, s, ino, k, false);
      !g.created && g.r != DATA_FULL ==> g.disk == s && g.ino == ino
  {
    GetKeeps(s, ino, k, false);
    match PlaceOf(k)
    case None =>
    case Some(p) =>
      if SignedOf(Root(ino, p)) == 0 && Head(s) != INVALID_DATA {
        var t := AllocSpec(s, ZeroBlock());
        RootCreate(s, p, t.0, t.1);
      }
  }

  /** Rewriting the inode leaves every block of every file where it was;
      the size field plays no part in finding them. */
  lemma PersistReads(s: seq<Block>, inum: int, ino: Inode, u: Inode, z: Offset, k: int)
    requires Mounted(s)
    ensures FileBlocks(Persist(s, inum, ino), u.(size := z))(k) == FileBlocks(s, u)(k)
  {
    assert Persist(s, inum, ino) == PersistDef(s, inum, ino, true);
    if ValidInum(SuperOf(s), inum) {
      PutInodeEffect(s, inum, ino);
    }
    assert Lookup(true, Nodes(s), u.(size := z), k) == Lookup(true, Nodes(s), u, k);
  }

  /** Rewriting inode inum makes it read back as written. */
  lemma PersistInodeAt(s: seq<Block>, inum: int, ino: Inode)
    requires Mounted(s) && ValidInum(SuperOf(s), inum)
    ensures InodeAt(Persist(s, inum, ino), inum) == ino
  {
    assert Persist(s, inum, ino) == PersistDef(s, inum, ino, true);
    PutInodeEffect(s, inum, ino);
  }

  /** Advance after a successful step: the size is updated, the inode
      written and the status is res. */
  lemma AdvanceIs(t: Step, j: Job, n: nat, res: int)
    requires Mounted(t.disk) && n <= INT_MAX && t.r == SUCCESS
    ensures Advance(t, j, n, res)
      == Pass(Persist(t.disk, j.inum, t.ino.(size := SizeMax(j.orig, n))), t.ino.(size := SizeMax(j.orig, n)), res, t.created, true)
  {
    assert Advance(t, j, n, res) == AdvanceDef(t, j, n, res, true);
  }

  // -------------------------------------------------- one block's contents

  /** The end of a partial block's step on a block the lookup finds: the
      block then reads back as blk, whether it was written or, being all
      zeros, removed from the file. */
  lemma StoreReads(s: seq<Block>, ino: Inode, k: int, a: int, blk: Block, created: bool)
    requires Mounted(s) && RouteOk(s, ino, k)
    requires Lookup(true, Nodes(s), ino, k) == a && 1 <= a <= SuperOf(s).dataSize
    ensures var t := Store(s, ino, k, a, blk, created);
      t.r == SUCCESS && FileBlocks(t.disk, t.ino)(k) == Fetched(SUCCESS, blk)
  {
    if IsZero(blk) {
      DiscardReads(s, ino, k, created);
      ZeroIsZeroBlock(blk);
    } else {
      PutReads(s, ino, k, a, blk, created);
    }
  }

  /** Removing a block the lookup finds, or a hole, leaves a hole: the
      lookup gives 0 and the block reads as zeros. */
  lemma DiscardReads(s: seq<Block>, ino: Inode, k: int, created: bool)
    requires Mounted(s) && RouteOk(s, ino, k)
    requires 0 <= Lookup(true, Nodes(s), ino, k) <= SuperOf(s).dataSize
    ensures var t := Discard(s, ino, k, created);
      && Lookup(true, Nodes(t.disk), t.ino, k) == 0
      && FileBlocks(t.disk, t.ino)(k) == Fetched(SUCCESS, ZeroBlock())
  {
    RouteParts(s, ino, k);
    RmResult(s, ino, k);
    RmClears(s, ino, k);
  }

  /** Writing the block the lookup finds makes it read back as written. */
  lemma PutReads(s: seq<Block>, ino: Inode, k: int, a: int, blk: Block, created: bool)
    requires Mounted(s) && RouteOk(s, ino, k)
    requires Lookup(true, Nodes(s), ino, k) == a && 1 <= a <= SuperOf(s).dataSize
    ensures var t := Put(s, ino, a, blk, created);
      t.r == SUCCESS && FileBlocks(t.disk, t.ino)(k) == Fetched(SUCCESS, blk)
  {
    RouteParts(s, ino, k);
    DataBlockWrite(s, a, blk);
    var p := PlaceOf(k).value;
    LeafWrite(Nodes(s), SignedOf(Root(ino, p)), p.off, p.level, BlockWords(blk));
  }

  /** After the first or the last block's step succeeds, block k of the
      file was readable before, and it now holds what it held with x copied
      in at byte at; a block that was a hole held zeros. */
  lemma EdgeReads(s: seq<Block>, ino: Inode, k: int, at: nat, x: seq<byte>)
    requires Mounted(s) && RouteOk(s, ino, k) && at + |x| <= BLOCK_SIZE && SuperOf(s).dataSize < 0x8000_0000
    ensures var t := Edge(s, ino, k, at, x);
      t.r == SUCCESS ==>
        && FileBlocks(s, ino)(k).r == SUCCESS
        && FileBlocks(t.disk, t.ino)(k) == Fetched(SUCCESS, Splice(FileBlocks(s, ino)(k).block, at, x))
  {
    assert Edge(s, ino, k, at, x) == EdgeDef(s, ino, k, at, x, true);
    RouteParts(s, ino, k);
    GetKeeps(s, ino, k, false);
    GetRoutes(s, ino, k, false);
    GetFinds(s, ino, k, false);
    GetEnds(s, ino, k);
    GetSame(s, ino, k);
    var g := GetSpec(true, s, ino, k, false);
    if g.r != DATA_FULL {
      var cur := if g.created then Fetched(SUCCESS, ZeroBlock()) else Fetch(g.disk, g.r);
      if cur.r == SUCCESS {
        assert cur == FileBlocks(s, ino)(k);
        RouteIntro(g.disk, g.ino, k);
        StoreReads(g.disk, g.ino, k, g.r, Splice(cur.block, at, x), g.created);
      }
    }
  }

  // ------------------------------------------------------ statuses and sizes

  /** The first block's step ends in success or a block error; the model
      follows it exactly when the block's route is sound. */
  lemma FirstStatus(fix: bool, s: seq<Block>, ino: Inode, j: Job)
    requires Mounted(s) && JobOk(j)
    ensures var p := First(fix, s, ino, j);
      && (p.ok <==> RouteOk(s, ino, Cover(j).first))
      && (p.ok ==> p.r == SUCCESS || Failed(p.r))
  {
    assert First(fix, s, ino, j) == FirstDef(fix, s, ino, j, true);
    var b := Cover(j);
    var n := if fix then j.offset + HeadLen(b) else HeadLen(b);
    if RouteOk(s, ino, b.first) {
      var t := Edge(s, ino, b.first, b.start, j.data[.. HeadLen(b)]);
      if t.r == SUCCESS {
        AdvanceIs(t, j, n, SUCCESS);
      } else {
        AdvanceStops(t, j, n, SUCCESS);
      }
    }
  }

  /** A block of the middle loop ends in success or a block error. */
  lemma MidStatus(p: Pass, j: Job, k: int)
    requires Mounted(p.disk) && JobOk(j) && Cover(j).first < k < Cover(j).last
    ensures var q := MidStep(p, j, k);
      q.ok ==> q.r == SUCCESS || Failed(q.r)
  {
    assert MidStep(p, j, k) == MidDef(p, j, k, true);
    if RouteOk(p.disk, p.ino, k) {
      var w := Done(Cover(j), k);
      var t := Whole(p.disk, p.ino, k, j.data[w .. w + BLOCK_SIZE], p.created);
      if t.r == SUCCESS {
        AdvanceIs(t, j, j.offset + w + BLOCK_SIZE, SUCCESS);
      } else {
        AdvanceStops(t, j, j.offset + w + BLOCK_SIZE, SUCCESS);
      }
    }
  }

  /** The middle loop ends in success or with the error of the block it
      stopped at. */
  lemma {:induction false} RunStatus(j: Job, p: Pass, i: int, hi: int)
    requires Mounted(p.disk) && JobOk(j) && p.r == SUCCESS && Cover(j).first < i && hi <= Cover(j).last
    ensures var m := Run(Steps(j), p, i, hi);
      m.ok ==> m.r == SUCCESS || Failed(m.r)
    decreases hi - i
  {
    if i < hi {
      var q := Steps(j)(p, i);
      assert q == MidStep(p, j, i);
      MidStatus(p, j, i);
      if q.r == SUCCESS && q.ok {
        RunStatus(j, q, i + 1, hi);
      }
    }
  }

  /** The last block's step returns |data| or a block error. */
  lemma LastStatus(p: Pass, j: Job)
    requires Mounted(p.disk) && JobOk(j) && Cover(j).first < Cover(j).last
    ensures var q := Last(p, j);
      q.ok ==> q.r == |j.data| || Failed(q.r)
  {
    assert Last(p, j) == LastDef(p, j, true);
    var b := Cover(j);
    if RouteOk(p.disk, p.ino, b.last) {
      var t := Edge(p.disk, p.ino, b.last, 0, j.data[|j.data| - b.end ..]);
      if t.r == SUCCESS {
        AdvanceIs(t, j, j.offset + |j.data|, |j.data|);
      } else {
        AdvanceStops(t, j, j.offset + |j.data|, |j.data|);
      }
    }
  }

  /** The three ways `write_i` ends once its inode is read: at the first
      block, after it when it was also the last, or after the middle loop
      and, if that went through, the last block. */
  lemma WrittenCases(fix: bool, s: seq<Block>, ino: Inode, j: Job)
    requires Mounted(s) && JobOk(j)
    ensures var o := Written(fix, s, ino, j);
      var p := First(fix, s, ino, j);
      var b := Cover(j);
      && (!p.ok || p.r != SUCCESS ==> o == Outcome(p.disk, p.r, p.ok))
      && (p.ok && p.r == SUCCESS && b.first == b.last ==> o == Outcome(p.disk, |j.data|, true))
      && (p.ok && p.r == SUCCESS && b.first < b.last ==>
            var m := Run(Steps(j), p, b.first + 1, b.last);
            && Mounted(m.disk)
            && (!m.ok || m.r != SUCCESS ==> o == Outcome(m.disk, m.r, m.ok))
            && (m.ok && m.r == SUCCESS ==> o == Ending(Last(m, j))))
  {
    assert Written(fix, s, ino, j) == WrittenDef(fix, s, ino, j, true);
    var p := First(fix, s, ino, j);
    if p.ok && p.r == SUCCESS && Cover(j).first < Cover(j).last {
      RunMounted(j, p, Cover(j).first + 1, Cover(j).last);
    }
  }

  /** Once the inode is read, `write_i` returns the number of bytes given
      or the error of the block it stopped at. */
  lemma WrittenStatus(fix: bool, s: seq<Block>, ino: Inode, j: Job)
    requires Mounted(s) && JobOk(j)
    ensures var o := Written(fix, s, ino, j);
      o.ok ==> o.r == |j.data| || Failed(o.r)
  {
    WrittenCases(fix, s, ino, j);
    FirstStatus(fix, s, ino, j);
    var p := First(fix, s, ino, j);
    if p.ok && p.r == SUCCESS && Cover(j).first < Cover(j).last {
      TailStatus(j, p);
    }
  }

  /** The middle loop and the last block of a write that spans several
      blocks end in |data| or a block error. */
  lemma TailStatus(j: Job, p: Pass)
    requires Mounted(p.disk) && JobOk(j) && p.r == SUCCESS && Cover(j).first < Cover(j).last
    ensures var m := Run(Steps(j), p, Cover(j).first + 1, Cover(j).last);
      && Mounted(m.disk)
      && (m.ok ==> m.r == SUCCESS || Failed(m.r))
      && (m.ok && m.r == SUCCESS ==> Last(m, j).ok ==> Last(m, j).r == |j.data| || Failed(Last(m, j).r))
  {
    var b := Cover(j);
    RunMounted(j, p, b.first + 1, b.last);
    RunStatus(j, p, b.first + 1, b.last);
    var m := Run(Steps(j), p, b.first + 1, b.last);
    if m.ok && m.r == SUCCESS {
      LastStatus(m, j);
    }
  }

  /** `write_i` returns `DISC_UNINITIALIZED` without a disk and `BAD_INODE`
      for an inode number out of range, changing nothing; otherwise it
      returns the number of bytes given, or `INVALID_BLOCK` or `DATA_FULL`. */
  lemma WriteResult(fix: bool, ready: bool, s: seq<Block>, inum: int, data: seq<byte>, offset: nat)
    requires ready ==> Mounted(s)
    requires 1 <= |data| && offset + |data| <= INT_MAX
    ensures var o := WriteSpec(fix, ready, s, inum, data, offset);
      && (!ready ==> o == Outcome(s, DISC_UNINITIALIZED, true))
      && (ready && !ValidInum(SuperOf(s), inum) ==> o == Outcome(s, BAD_INODE, true))
      && (ready && ValidInum(SuperOf(s), inum) && o.ok ==> o.r == |data| || Failed(o.r))
  {
    if ready && ValidInum(SuperOf(s), inum) {
      var ino := InodeAt(s, inum);
      WrittenStatus(fix, s, ino, Job(inum, data, offset, Int32Of(ino.size)));
    }
  }

  /** After the first block's step succeeds, inode j.inum holds the size n
      of Advance. */
  lemma FirstSize(fix: bool, s: seq<Block>, ino: Inode, j: Job)
    requires Mounted(s) && JobOk(j) && ValidInum(SuperOf(s), j.inum)
    ensures var p := First(fix, s, ino, j);
      var n := if fix then j.offset + HeadLen(Cover(j)) else HeadLen(Cover(j));
      p.ok && p.r == SUCCESS ==> InodeAt(p.disk, j.inum) == p.ino && p.ino.size == SizeMax(j.orig, n)
  {
    assert First(fix, s, ino, j) == FirstDef(fix, s, ino, j, true);
    var b := Cover(j);
    var n := if fix then j.offset + HeadLen(b) else HeadLen(b);
    if RouteOk(s, ino, b.first) {
      var t := Edge(s, ino, b.first, b.start, j.data[.. HeadLen(b)]);
      if t.r == SUCCESS {
        AdvanceIs(t, j, n, SUCCESS);
        PersistInodeAt(t.disk, j.inum, t.ino.(size := SizeMax(j.orig, n)));
      } else {
        AdvanceStops(t, j, n, SUCCESS);
      }
    }
  }

  /** After the last block's step succeeds, inode j.inum holds the size
      offset + |data| unless the old size was larger. */
  lemma LastSize(p: Pass, j: Job)
    requires Mounted(p.disk) && JobOk(j) && Cover(j).first < Cover(j).last && ValidInum(SuperOf(p.disk), j.inum)
    ensures var q := Last(p, j);
      q.ok && q.r == |j.data| ==> InodeAt(q.disk, j.inum) == q.ino && q.ino.size == SizeMax(j.orig, j.offset + |j.data|)
  {
    assert Last(p, j) == LastDef(p, j, true);
    var b := Cover(j);
    if RouteOk(p.disk, p.ino, b.last) {
      var t := Edge(p.disk, p.ino, b.last, 0, j.data[|j.data| - b.end ..]);
      if t.r == SUCCESS {
        AdvanceIs(t, j, j.offset + |j.data|, |j.data|);
        PersistInodeAt(t.disk, j.inum, t.ino.(size := SizeMax(j.orig, j.offset + |j.data|)));
      } else {
        AdvanceStops(t, j, j.offset + |j.data|, |j.data|);
      }
    }
  }

  /** The size a successful `write_i` leaves: the larger of the old size
      and where the write ends, which a write within one block takes, as
      written, to be |data|. */
  lemma WrittenSize(fix: bool, s: seq<Block>, ino: Inode, j: Job)
    requires Mounted(s) && JobOk(j) && ValidInum(SuperOf(s), j.inum)
    ensures var o := Written(fix, s, ino, j);
      var b := Cover(j);
      o.ok && o.r == |j.data| ==>
        && ValidInum(SuperOf(o.disk), j.inum)
        && InodeAt(o.disk, j.inum).size == SizeMax(j.orig, if b.first == b.last && !fix then |j.data| else j.offset + |j.data|)
  {
    WrittenCases(fix, s, ino, j);
    FirstSize(fix, s, ino, j);
    FirstStatus(fix, s, ino, j);
    var p := First(fix, s, ino, j);
    assert Cover(j).first == Cover(j).last ==> HeadLen(Cover(j)) == |j.data|;
    if p.ok && p.r == SUCCESS && Cover(j).first < Cover(j).last {
      TailSize(j, p);
    }
  }

  /** After a write that spans several blocks, the last block's inode write
      is the one that stays. */
  lemma TailSize(j: Job, p: Pass)
    requires Mounted(p.disk) && JobOk(j) && p.r == SUCCESS && Cover(j).first < Cover(j).last
    requires ValidInum(SuperOf(p.disk), j.inum)
    ensures var m := Run(Steps(j), p, Cover(j).first + 1, Cover(j).last);
      && Mounted(m.disk) && ValidInum(SuperOf(m.disk), j.inum)
      && (m.ok ==> m.r == SUCCESS || Failed(m.r))
      && (Last(m, j).ok && Last(m, j).r == |j.data| ==>
            InodeAt(Last(m, j).disk, j.inum).size == SizeMax(j.orig, j.offset + |j.data|))
  {
    var b := Cover(j);
    RunMounted(j, p, b.first + 1, b.last);
    RunStatus(j, p, b.first + 1, b.last);
    LastSize(Run(Steps(j), p, b.first + 1, b.last), j);
  }

  /** `write_i` on inode inum, when it returns |data|: the new size is the
      larger of the old one, cut to an int, and offset + |data| -- or, for
      a write within one block as written, |data|. */
  lemma WriteSize(fix: bool, s: seq<Block>, inum: int, data: seq<byte>, offset: nat)
    requires Mounted(s) && ValidInum(SuperOf(s), inum)
    requires 1 <= |data| && offset + |data| <= INT_MAX
    ensures var o := WriteSpec(fix, true, s, inum, data, offset);
      var b := BoundsOf(offset, |data|);
      o.ok && o.r == |data| ==>
        && ValidInum(SuperOf(o.disk), inum)
        && InodeAt(o.disk, inum).size
          == SizeMax(Int32Of(InodeAt(s, inum).size), if b.first == b.last && !fix then |data| else offset + |data|)
  {
    var ino := InodeAt(s, inum);
    WrittenSize(fix, s, ino, Job(inum, data, offset, Int32Of(ino.size)));
  }

  // ------------------------------------------------- reading a write back

  /** After the first block's step succeeds, the block holds what it held
      with the head of the data copied in at its offset. */
  lemma FirstReads(fix: bool, s: seq<Block>, ino: Inode, j: Job)
    requires Mounted(s) && JobOk(j) && SuperOf(s).dataSize < 0x8000_0000
    ensures var p := First(fix, s, ino, j);
      var b := Cover(j);
      p.ok && p.r == SUCCESS ==>
        && FileBlocks(s, ino)(b.first).r == SUCCESS
        && FileBlocks(p.disk, p.ino)(b.first)
          == Fetched(SUCCESS, Splice(FileBlocks(s, ino)(b.first).block, b.start, j.data[.. HeadLen(b)]))
  {
    assert First(fix, s, ino, j) == FirstDef(fix, s, ino, j, true);
    var b := Cover(j);
    var n := if fix then j.offset + HeadLen(b) else HeadLen(b);
    if RouteOk(s, ino, b.first) {
      var t := Edge(s, ino, b.first, b.start, j.data[.. HeadLen(b)]);
      EdgeReads(s, ino, b.first, b.start, j.data[.. HeadLen(b)]);
      if t.r == SUCCESS {
        AdvanceIs(t, j, n, SUCCESS);
        PersistReads(t.disk, j.inum, t.ino.(size := SizeMax(j.orig, n)), t.ino, SizeMax(j.orig, n), b.first);
      } else {
        AdvanceStops(t, j, n, SUCCESS);
      }
    }
  }

  /** A write within one block, with the size update corrected: on a sound
      route it ends in |data| or a block error, and after |data| a read of
      |data| bytes at offset returns the data written. */
  lemma ReadBack(s: seq<Block>, inum: int, data: seq<byte>, offset: nat)
    requires Mounted(s) && ValidInum(SuperOf(s), inum) && SuperOf(s).dataSize < 0x8000_0000
    requires 1 <= |data| && offset + |data| <= INT_MAX
    requires 0 <= InodeAt(s, inum).size <= INT_MAX
    requires BoundsOf(offset, |data|).first == BoundsOf(offset, |data|).last
    requires ListOk(s)
    requires PathClean(s, InodeAt(s, inum), BoundsOf(offset, |data|).first)
    requires PathDistinct(s, InodeAt(s, inum), BoundsOf(offset, |data|).first)
    ensures var o := WriteSpec(true, true, s, inum, data, offset);
      && o.ok && (o.r == |data| || Failed(o.r))
      && (o.r == |data| ==> ReadSpec(true, o.disk, inum, offset, |data|) == Read(|data|, data))
  {
    var ino := InodeAt(s, inum);
    var j := Job(inum, data, offset, Int32Of(ino.size));
    var b := Cover(j);
    RouteIntro(s, ino, b.first);
    WriteResult(true, true, s, inum, data, offset);
    WriteSize(true, s, inum, data, offset);
    WrittenCases(true, s, ino, j);
    FirstStatus(true, s, ino, j);
    FirstSize(true, s, ino, j);
    FirstReads(true, s, ino, j);
    var p := First(true, s, ino, j);
    var o := WriteSpec(true, true, s, inum, data, offset);
    if o.r == |data| {
      assert HeadLen(b) == |data| && j.data[.. HeadLen(b)] == data;
      SpanRead(p.disk, inum, data, offset, FileBlocks(p.disk, p.ino)(b.first).block);
    }
  }

  /** A read of |data| bytes at offset, within one block of a file at least
      offset + |data| long, returns the bytes the block holds there. */
  lemma SpanRead(d: seq<Block>, inum: int, data: seq<byte>, offset: nat, blk: Block)
    requires Mounted(d) && ValidInum(SuperOf(d), inum)
    requires 1 <= |data| && offset + |data| <= InodeAt(d, inum).size
    requires var b := BoundsOf(offset, |data|);
      && b.first == b.last
      && FileBlocks(d, InodeAt(d, inum))(b.first) == Fetched(SUCCESS, blk)
      && blk[b.start .. b.end] == data
    ensures ReadSpec(true, d, inum, offset, |data|) == Read(|data|, data)
  {
  }

  /** As written, a write within one block that starts at or past the old
      end of the file sets the size to |data|, so a read at offset finds
      nothing of what was written: for an empty file, 5 bytes written at
      offset 10 leave a size of 5. */
  lemma ShortRead(s: seq<Block>, inum: int, data: seq<byte>, offset: nat)
    requires Mounted(s) && ValidInum(SuperOf(s), inum)
    requires 1 <= |data| <= offset && offset + |data| <= INT_MAX
    requires 0 <= InodeAt(s, inum).size <= |data|
    requires BoundsOf(offset, |data|).first == BoundsOf(offset, |data|).last
    ensures var o := WriteSpec(false, true, s, inum, data, offset);
      o.ok && o.r == |data| ==>
        && InodeAt(o.disk, inum).size == |data|
        && ReadSpec(true, o.disk, inum, offset, |data|) == Read(0, [])
  {
    WriteSize(false, s, inum, data, offset);
  }

  /** A partial block whose direct slot is still 0 is created from the free
      list: while the list is not empty its step succeeds. */
  lemma EdgeFresh(s: seq<Block>, ino: Inode, k: int, at: nat, x: seq<byte>)
    requires Mounted(s) && RouteOk(s, ino, k) && at + |x| <= BLOCK_SIZE && SuperOf(s).dataSize < 0x8000_0000
    requires 0 <= k < NUM_DIRECT && ino.direct[k] == 0 && Head(s) != INVALID_DATA
    ensures Edge(s, ino, k, at, x).r == SUCCESS
  {
    RouteParts(s, ino, k);
    assert Edge(s, ino, k, at, x) == EdgeDef(s, ino, k, at, x, true);
    GetKeeps(s, ino, k, false);
    GetRoutes(s, ino, k, false);
    GetEnds(s, ino, k);
    var t := AllocSpec(s, ZeroBlock());
    Taken(s, t.0, t.1);
    var g := GetSpec(true, s, ino, k, false);
    assert g.created && g.r == t.1 as int;
    RouteIntro(g.disk, g.ino, k);
  }

  /** A write confined to one block whose direct slot is still 0 succeeds
      while the free list is not empty, with or without the correction of
      layer2.c:266. */
  lemma FreshWrite(fix: bool, s: seq<Block>, inum: int, data: seq<byte>, offset: nat)
    requires Mounted(s) && ValidInum(SuperOf(s), inum) && SuperOf(s).dataSize < 0x8000_0000
    requires 1 <= |data| && offset + |data| <= INT_MAX
    requires var b := BoundsOf(offset, |data|); b.first == b.last < NUM_DIRECT && InodeAt(s, inum).direct[b.first] == 0
    requires ListOk(s) && Head(s) != INVALID_DATA
    ensures var o := WriteSpec(fix, true, s, inum, data, offset);
      o.ok && o.r == |data|
  {
    var ino := InodeAt(s, inum);
    var j := Job(inum, data, offset, Int32Of(ino.size));
    var b := Cover(j);
    RouteIntro(s, ino, b.first);
    assert First(fix, s, ino, j) == FirstDef(fix, s, ino, j, true);
    var n := if fix then j.offset + HeadLen(b) else HeadLen(b);
    EdgeFresh(s, ino, b.first, b.start, data[.. HeadLen(b)]);
    AdvanceIs(Edge(s, ino, b.first, b.start, data[.. HeadLen(b)]), j, n, SUCCESS);
    WrittenCases(fix, s, ino, j);
  }

  /** The discrepancy of layer2.c:266 is reachable: on an empty file whose
      first direct slot is 0, writing one byte at offset 1 succeeds while the
      free list has a block, the size becomes 1, and reading that byte back
      at offset 1 returns nothing. */
  lemma ShortReachable(s: seq<Block>, inum: int, x: byte)
    requires Mounted(s) && ValidInum(SuperOf(s), inum) && SuperOf(s).dataSize < 0x8000_0000
    requires ListOk(s) && Head(s) != INVALID_DATA
    requires InodeAt(s, inum).size == 0 && InodeAt(s, inum).direct[0] == 0
    ensures var o := WriteSpec(false, true, s, inum, [x], 1);
      && o.ok && o.r == 1
      && InodeAt(o.disk, inum).size == 1
      && ReadSpec(true, o.disk, inum, 1, 1) == Read(0, [])
  {
    var b := BoundsOf(1, 1);
    assert b.first == 0 == b.last;
    FreshWrite(false, s, inum, [x], 1);
    ShortRead(s, inum, [x], 1);
  }
}
