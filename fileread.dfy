// Reading the bytes of a file (`read_i` in layer2.c): a run of bytes at
// an offset is cut into the logical blocks it covers -- a partial first
// block, whole blocks, a partial last block -- and each block is reached
// through the inode's zones.
module FileRead {
  import opened Globals
  import opened Codec
  import opened BlockStore
  import opened Layout
  import opened FreeList
  import opened SuperblockIO
  import opened Inodes
  import opened DataBlocks
  import opened Tree
  import opened Indirect
  import opened Remove
  import opened Routes

  const INT_MAX: int := 0x7fff_ffff

  function Min(x: int, y: int): int {
    if x < y then x else y
  }

  // ------------------------------------------------------ offsets and blocks

  /** The blocks that n >= 1 bytes from offset cover: logical blocks first to
      last, from byte start of the first to just before byte end of the last. */
  datatype Bounds = Bounds(first: nat, start: nat, last: nat, end: nat)

  function BoundsOf(offset: nat, n: nat): (b: Bounds)
    requires n >= 1
    ensures b.first <= b.last && b.start < BLOCK_SIZE && 1 <= b.end <= BLOCK_SIZE
    ensures offset == b.first * BLOCK_SIZE + b.start
    ensures offset + n == b.last * BLOCK_SIZE + b.end
  {
    Bounds(offset / BLOCK_SIZE, offset % BLOCK_SIZE,
           (offset + n - 1) / BLOCK_SIZE, (offset + n - 1) % BLOCK_SIZE + 1)
  }

  /** Byte x of block q sits at q * BLOCK_SIZE + x of the file. */
  lemma Split(q: int, x: int)
    requires 0 <= x < BLOCK_SIZE
    ensures (q * BLOCK_SIZE + x) / BLOCK_SIZE == q && (q * BLOCK_SIZE + x) % BLOCK_SIZE == x
  {
  }

  // ------------------------------------------------------------- reading

  /** A block as `data_read` returns it: a status and the block. */
  datatype Fetched = Fetched(r: int, block: Block)

  /** A status and the bytes copied with it. */
  datatype Read = Read(r: int, bytes: seq<byte>)

  /** `data_read(a)` on a formatted disk: block 0 reads as zeros. */
  ghost function Fetch(s: seq<Block>, a: int): (f: Fetched)
    requires Mounted(s)
    ensures f.r == SUCCESS || f.r == INVALID_BLOCK
    ensures f.r == SUCCESS <==> 0 <= a <= SuperOf(s).dataSize
    ensures a == 0 ==> f.block == ZeroBlock()
  {
    if a < 0 || a > SuperOf(s).dataSize then Fetched(INVALID_BLOCK, ZeroBlock())
    else Fetched(SUCCESS, DataBlock(Data(s), a))
  }

  /** The file with inode ino, by logical block: each block found through
      the zones, then read with `data_read`. */
  ghost function FileBlocks(s: seq<Block>, ino: Inode): int -> Fetched
    requires Mounted(s)
  {
    k => Fetch(s, Lookup(true, Nodes(s), ino, k))
  }

  /** fs gives the blocks of the file with inode ino; stated block by block
      so that only a lookup of a block brings its fetch into play. */
  ghost predicate Serves(s: seq<Block>, ino: Inode, fs: int -> Fetched)
    requires Mounted(s)
  {
    forall k {:trigger Lookup(true, Nodes(s), ino, k)} :: fs(k) == Fetch(s, Lookup(true, Nodes(s), ino, k))
  }

  lemma FileServes(s: seq<Block>, ino: Inode)
    requires Mounted(s)
    ensures Serves(s, ino, FileBlocks(s, ino))
  {
  }

  /** Byte x of a file whose blocks are f. */
  function FileByte(f: int -> Fetched, x: nat): byte {
    f(x / BLOCK_SIZE).block[x % BLOCK_SIZE]
  }

  /** Every logical block from lo to hi - 1 can be read. */
  predicate Readable(f: int -> Fetched, lo: int, hi: int) {
    forall k :: lo <= k < hi ==> f(k).r == SUCCESS
  }

  /** The middle loop of `read_i` over logical blocks lo to hi - 1: their
      bytes one block after the other, or the error of the first block that
      cannot be read, with the bytes copied before it. */
  function ReadRun(f: int -> Fetched, lo: int, hi: int): Read
    decreases hi - lo
  {
    if hi <= lo then Read(SUCCESS, [])
    else
      var p := ReadRun(f, lo, hi - 1);
      if p.r != SUCCESS then p
      else if f(hi - 1).r != SUCCESS then Read(f(hi - 1).r, p.bytes)
      else Read(SUCCESS, p.bytes + f(hi - 1).block)
  }

  /** The number of bytes a read of len bytes from offset can deliver. */
  function Want(size: int, offset: nat, len: nat): nat {
    if offset >= size then 0 else Min(size - offset, len)
  }

  /** `read_i` once the inode is read, for a file of the given size whose
      blocks are f: nothing at or past the end of the file; otherwise the
      first block, the whole blocks between, and the last block, stopping
      at the first block that cannot be read. */
  function ReadFrom(f: int -> Fetched, size: int, offset: nat, len: nat): Read {
    if offset >= size then Read(0, [])
    else
      var t := Min(size - offset, len);
      if t == 0 then Read(0, []) else ReadSpan(f, BoundsOf(offset, t), t)
  }

  /** The copying part of `read_i`, once the t bytes to deliver and the
      blocks they cover are known. */
  function ReadSpan(f: int -> Fetched, b: Bounds, t: nat): Read
    requires b.start < BLOCK_SIZE && b.end <= BLOCK_SIZE && (b.first == b.last ==> b.start <= b.end)
  {
    var first := f(b.first);
    if first.r != SUCCESS then Read(first.r, [])
    else if b.first == b.last then Read(b.end - b.start, first.block[b.start .. b.end])
    else
      var head := first.block[b.start ..];
      var m := ReadRun(f, b.first + 1, b.last);
      if m.r != SUCCESS then Read(m.r, head + m.bytes)
      else
        var last := f(b.last);
        if last.r != SUCCESS then Read(last.r, head + m.bytes)
        else Read(t, head + m.bytes + last.block[.. b.end])
  }

  /** `read_i(inum, buf, offset, len)`: the status, and the bytes copied into
      `buf`. */
  ghost function ReadSpec(ready: bool, s: seq<Block>, inum: int, offset: nat, len: nat): Read
    requires ready ==> Mounted(s)
  {
    if !ready then Read(DISC_UNINITIALIZED, [])
    else if !ValidInum(SuperOf(s), inum) then Read(BAD_INODE, [])
    else
      var ino := InodeAt(s, inum);
      ReadFrom(FileBlocks(s, ino), ino.size, offset, len)
  }

  /** Block reads fail only with `INVALID_BLOCK`. */
  ghost predicate Statuses(f: int -> Fetched) {
    forall k :: f(k).r == SUCCESS || f(k).r == INVALID_BLOCK
  }

  lemma FileStatuses(s: seq<Block>, ino: Inode)
    requires Mounted(s)
    ensures Statuses(FileBlocks(s, ino))
  {
    forall k ensures FileBlocks(s, ino)(k).r == SUCCESS || FileBlocks(s, ino)(k).r == INVALID_BLOCK {
      var a := Lookup(true, Nodes(s), ino, k);
      assert FileBlocks(s, ino)(k) == Fetch(s, a);
    }
  }

  /** The run of blocks lo to hi - 1 reads them all, byte for byte, exactly
      when each of them can be read; otherwise it fails with the error of a
      block. */
  lemma {:induction false} RunBytes(f: int -> Fetched, lo: nat, hi: nat)
    requires lo <= hi && Statuses(f)
    ensures var m := ReadRun(f, lo, hi);
      && (m.r == SUCCESS || m.r == INVALID_BLOCK)
      && (m.r == SUCCESS <==> Readable(f, lo, hi))
      && (m.r == SUCCESS ==>
            |m.bytes| == BLOCK_SIZE * (hi - lo) &&
            forall x :: 0 <= x < |m.bytes| ==> m.bytes[x] == FileByte(f, lo * BLOCK_SIZE + x))
    decreases hi - lo
  {
    if lo < hi {
      RunBytes(f, lo, hi - 1);
      var p := ReadRun(f, lo, hi - 1);
      var m := ReadRun(f, lo, hi);
      if p.r == SUCCESS && f(hi - 1).r == SUCCESS {
        forall x | 0 <= x < |m.bytes| ensures m.bytes[x] == FileByte(f, lo * BLOCK_SIZE + x) {
          if x >= |p.bytes| {
            Split(hi - 1, x - |p.bytes|);
          }
        }
      }
      if p.r != SUCCESS {
        assert !Readable(f, lo, hi - 1);
      }
    }
  }

  /** A run that failed at some block stays failed, with the same bytes. */
  lemma {:induction false} RunStops(f: int -> Fetched, lo: int, i: int, hi: int)
    requires lo <= i <= hi && ReadRun(f, lo, i).r != SUCCESS
    ensures ReadRun(f, lo, hi) == ReadRun(f, lo, i)
    decreases hi - i
  {
    if i < hi {
      RunStops(f, lo, i, hi - 1);
    }
  }

  /** What `read_i` delivers: as many bytes as lie between offset and the
      end of the file, at most len, and exactly the file's bytes there --
      when every block they cover can be read; otherwise `INVALID_BLOCK`. */
  lemma ReadBytes(f: int -> Fetched, size: int, offset: nat, len: nat)
    requires Statuses(f)
    ensures var rd := ReadFrom(f, size, offset, len);
      var w := Want(size, offset, len);
      && (rd.r >= 0 ==>
            rd.r == w && |rd.bytes| == w &&
            forall i :: 0 <= i < w ==> rd.bytes[i] == FileByte(f, offset + i))
      && (rd.r < 0 ==> rd.r == INVALID_BLOCK)
      && (w > 0 ==> (rd.r >= 0 <==> Readable(f, offset / BLOCK_SIZE, (offset + w - 1) / BLOCK_SIZE + 1)))
  {
    var w := Want(size, offset, len);
    if w > 0 {
      var b := BoundsOf(offset, w);
      SpanBytes(f, offset, w, b);
      Split(b.first, b.start);
      Split(b.last, b.end - 1);
    }
  }

  /** The span of w bytes from offset reads exactly those bytes of the file
      when every block it covers can be read, and fails otherwise. */
  lemma SpanBytes(f: int -> Fetched, offset: nat, w: nat, b: Bounds)
    requires Statuses(f) && w >= 1 && b == BoundsOf(offset, w)
    ensures var rd := ReadSpan(f, b, w);
      && (rd.r >= 0 ==>
            rd.r == w && |rd.bytes| == w &&
            forall i :: 0 <= i < w ==> rd.bytes[i] == FileByte(f, offset + i))
      && (rd.r < 0 ==> rd.r == INVALID_BLOCK)
      && (rd.r >= 0 <==> Readable(f, b.first, b.last + 1))
  {
    if f(b.first).r == SUCCESS {
      if b.first == b.last {
        SingleBytes(f, offset, w, b);
      } else {
        RunBytes(f, b.first + 1, b.last);
        if ReadRun(f, b.first + 1, b.last).r == SUCCESS && f(b.last).r == SUCCESS {
          ManyBytes(f, offset, w, b);
        }
        assert Readable(f, b.first, b.last + 1) <==> f(b.first).r == SUCCESS && Readable(f, b.first + 1, b.last) && f(b.last).r == SUCCESS;
      }
    } else {
      assert !Readable(f, b.first, b.last + 1);
    }
  }

  lemma SingleBytes(f: int -> Fetched, offset: nat, w: nat, b: Bounds)
    requires w >= 1 && b == BoundsOf(offset, w) && b.first == b.last
    ensures forall i :: 0 <= i < w ==> f(b.first).block[b.start .. b.end][i] == FileByte(f, offset + i)
  {
    forall i | 0 <= i < w ensures f(b.first).block[b.start .. b.end][i] == FileByte(f, offset + i) {
      Split(b.first, b.start + i);
    }
  }

  lemma ManyBytes(f: int -> Fetched, offset: nat, w: nat, b: Bounds)
    requires w >= 1 && b == BoundsOf(offset, w) && b.first < b.last
    requires var m := ReadRun(f, b.first + 1, b.last);
      && m.r == SUCCESS && |m.bytes| == BLOCK_SIZE * (b.last - b.first - 1)
      && forall x :: 0 <= x < |m.bytes| ==> m.bytes[x] == FileByte(f, (b.first + 1) * BLOCK_SIZE + x)
    ensures var bytes := f(b.first).block[b.start ..] + ReadRun(f, b.first + 1, b.last).bytes + f(b.last).block[.. b.end];
      |bytes| == w && forall i :: 0 <= i < w ==> bytes[i] == FileByte(f, offset + i)
  {
    var head := f(b.first).block[b.start ..];
    var m := ReadRun(f, b.first + 1, b.last).bytes;
    var tail := f(b.last).block[.. b.end];
    var bytes := head + m + tail;
    forall i | 0 <= i < w ensures bytes[i] == FileByte(f, offset + i) {
      if i < |head| {
        Split(b.first, b.start + i);
      } else if i < |head| + |m| {
        assert offset + i == (b.first + 1) * BLOCK_SIZE + (i - |head|);
      } else {
        Split(b.last, i - |head| - |m|);
      }
    }
  }

  /** Logical block k through `get_nth_datablock` and `data_read`. */
  method FetchBlock(d: Disk, ino: Inode, k: int, ghost s: seq<Block>, ghost fs: int -> Fetched) returns (f: Fetched)
    requires Consistent(d) && Ready(d) && s == d.Contents() && Mounted(s) && Serves(s, ino, fs)
    modifies d.disk
    ensures Consistent(d) && d.Contents() == s
    ensures f == fs(k)
  {
    var a, _, _ := GetNth(d, ino, k, false, false);
    var ret, blk := DataRead(d, a, ZeroBlock());
    f := Fetched(ret, blk);
  }

  /** The middle loop of `read_i`: whole blocks lo to hi - 1, appended to
      what was copied before. */
  method ReadMid(d: Disk, ino: Inode, lo: int, hi: int, head: seq<byte>, ghost s: seq<Block>, ghost fs: int -> Fetched)
      returns (r: int, out: seq<byte>)
    requires Consistent(d) && Ready(d) && s == d.Contents() && Mounted(s) && Serves(s, ino, fs) && lo <= hi
    modifies d.disk
    ensures Consistent(d) && d.Contents() == s
    ensures Read(r, out) == Read(ReadRun(fs, lo, hi).r, head + ReadRun(fs, lo, hi).bytes)
  {
    out := head;
    var i := lo;
    while i < hi
      invariant lo <= i <= hi
      invariant Consistent(d) && d.Contents() == s
      invariant ReadRun(fs, lo, i).r == SUCCESS
      invariant out == head + ReadRun(fs, lo, i).bytes
    {
      var g := FetchBlock(d, ino, i, s, fs);
      if g.r != SUCCESS {
        RunStops(fs, lo, i + 1, hi);
        return g.r, out;
      }
      out := out + g.block;
      i := i + 1;
    }
    r := SUCCESS;
  }

  /** `read_i` after the inode has been read. */
  method ReadFile(d: Disk, ino: Inode, offset: nat, len: nat, ghost s: seq<Block>, ghost fs: int -> Fetched)
      returns (r: int, out: seq<byte>)
    requires Consistent(d) && Ready(d) && s == d.Contents() && Mounted(s) && Serves(s, ino, fs)
    requires offset + len <= INT_MAX
    modifies d.disk
    ensures Consistent(d) && d.Contents() == s
    ensures Read(r, out) == ReadFrom(fs, ino.size, offset, len)
  {
    if offset >= ino.size {
      return 0, [];
    }
    var t := Min(ino.size - offset, len);
    if t == 0 {
      return 0, [];
    }
    var b := BoundsOf(offset, t);
    r, out := CopySpan(d, ino, b, t, s, fs);
  }

  /** The copying part of `read_i`: the first block, the whole blocks
      between, and the last block. */
  method CopySpan(d: Disk, ino: Inode, b: Bounds, t: nat, ghost s: seq<Block>, ghost fs: int -> Fetched)
      returns (r: int, out: seq<byte>)
    requires Consistent(d) && Ready(d) && s == d.Contents() && Mounted(s) && Serves(s, ino, fs)
    requires b.first <= b.last && b.start < BLOCK_SIZE && b.end <= BLOCK_SIZE && (b.first == b.last ==> b.start <= b.end)
    modifies d.disk
    ensures Consistent(d) && d.Contents() == s
    ensures Read(r, out) == ReadSpan(fs, b, t)
  {
    var f := FetchBlock(d, ino, b.first, s, fs);
    if f.r != SUCCESS {
      return f.r, [];
    }
    if b.first == b.last {
      return b.end - b.start, f.block[b.start .. b.end];
    }
    var head := f.block[b.start ..];
    r, out := ReadMid(d, ino, b.first + 1, b.last, head, s, fs);
    if r != SUCCESS {
      return;
    }
    var l := FetchBlock(d, ino, b.last, s, fs);
    if l.r != SUCCESS {
      return l.r, out;
    }
    return t, out + l.block[.. b.end];
  }

  /** `read_i(inum, buf, offset, len)`, returning the status and the bytes
      copied into `buf`. */
  method ReadI(d: Disk, inum: int, offset: int, len: int) returns (r: int, out: seq<byte>)
    requires Consistent(d) && 0 <= offset && 0 <= len && offset + len <= INT_MAX
    modifies d.disk
    ensures Consistent(d) && d.Contents() == old(d.Contents())
    ensures Read(r, out) == ReadSpec(Ready(d), d.Contents(), inum, offset, len)
  {
    ghost var s := d.Contents();
    var ret, ino := InodeRead(d, inum, ZeroInode);
    if ret != SUCCESS {
      return ret, [];
    }
    FileServes(s, ino);
    r, out := ReadFile(d, ino, offset, len, s, FileBlocks(s, ino));
  }
}
