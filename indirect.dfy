// `get_nth_datablock` and `intPow` (layer2.c): finding, and with `create`
// making, the data block behind logical block n of a file.
//
// Every lookup is specified by `Lookup` over the word view of the data
// region; the allocating descent by `Create`, which follows layer2.c level
// by level: a missing block is taken from the free list with all-zero
// contents and linked into the indirection block above it.
module Indirect {
  import opened Globals
  import opened Codec
  import opened BlockStore
  import opened Layout
  import opened FreeList
  import opened SuperblockIO
  import opened DataBlocks
  import opened Tree

  /** The word view of the data region of a disk that can be read (nothing
      is read from a disk that cannot). */
  ghost function Region(d: Disk): seq<Node>
    reads d, d.disk
    requires Consistent(d)
  {
    if Ready(d) then Nodes(d.Contents()) else []
  }

  /** `intPow`: multiplies x into 1, y times. The model computes on
      unbounded integers; layer2.c only calls it for 1024^j with j <= 2. */
  method IntPow(x: int, y: int) returns (r: int)
    ensures r == if y <= 0 then 1 else Pow(x, y)
  {
    r := 1;
    var i := 0;
    while i < y
      invariant 0 <= i <= if y < 0 then 0 else y
      invariant r == Pow(x, i)
    {
      r := r * x;
      i := i + 1;
    }
  }

  // ------------------------------------------------------------ frames

  /** Writing a data block the free list does not record leaves the list. */
  lemma WriteKeepsList(s: seq<Block>, k: int, blk: Block)
    requires ListOk(s) && 1 <= k <= SuperOf(s).dataSize && k !in Free(s)
    ensures var s' := s[DataIndex(SuperOf(s), k) := blk];
      && ListOk(s') && Free(s') == Free(s) && SuperOf(s') == SuperOf(s)
      && Nodes(s') == Nodes(s)[k - 1 := BlockWords(blk)]
  {
    var s' := s[DataIndex(SuperOf(s), k) := blk];
    DataBlockWrite(s, k, blk);
    var dd, dd' := Nodes(s), Nodes(s');
    var head := Head(s);
    NotFreeNotNode(dd, head, k);
    var ns := Chain(dd, head).value;
    Untouched(dd, ns, k, BlockWords(blk));
    ChainFrame(dd, dd', head, |dd|);
    forall x {
      CountFrame(dd, dd', ns, x);
    }
  }

  /** Blocks outside F keep their words when only F changed. */
  lemma NodesKept(s: seq<Block>, s': seq<Block>, F: set<int>)
    requires Mounted(s) && Mounted(s') && OnlyChanged(s, s', F)
    requires SuperOf(s').dataOffset == SuperOf(s).dataOffset && SuperOf(s').dataSize == SuperOf(s).dataSize
    ensures forall a :: 1 <= a <= SuperOf(s).dataSize && a !in F ==> Nodes(s')[a - 1] == Nodes(s)[a - 1]
  {
    var sb := SuperOf(s);
    forall a | 1 <= a <= sb.dataSize && a !in F
      ensures Nodes(s')[a - 1] == Nodes(s)[a - 1]
    {
      assert BlockNum(sb, DataIndex(sb, a)) == a;
      assert Data(s')[a - 1] == Data(s)[a - 1];
      ViewAt(Data(s), a - 1);
      ViewAt(Data(s'), a - 1);
    }
  }

  /** The same for one block a. */
  lemma NodeKept(s: seq<Block>, s': seq<Block>, F: set<int>, a: int)
    requires Mounted(s) && Mounted(s') && OnlyChanged(s, s', F)
    requires SuperOf(s').dataOffset == SuperOf(s).dataOffset && SuperOf(s').dataSize == SuperOf(s).dataSize
    requires 1 <= a <= SuperOf(s).dataSize && a !in F
    ensures Nodes(s')[a - 1] == Nodes(s)[a - 1]
  {
    NodesKept(s, s', F);
  }

  /** No block on the route from addr at level j is free. */
  ghost predicate Clean(s: seq<Block>, addr: int, off: nat, j: int)
    requires ChainOk(s) && j >= -1 && (j >= 0 ==> off < Pow(P, j + 1))
    decreases j + 1
  {
    addr < 1 || addr > SuperOf(s).dataSize ||
      (addr !in Free(s) &&
       (j >= 0 ==> Clean(s, Entry(Nodes(s), addr, Digit(off, j)), Rest(off, j), j - 1)))
  }

  /** Below a block that is not free and holds zeros the route is clean. */
  lemma ZeroRoute(s: seq<Block>, a: int, off: nat, j: int)
    requires ChainOk(s) && 1 <= a <= SuperOf(s).dataSize && a !in Free(s)
    requires Nodes(s)[a - 1] == Zeros(WORDS_PER_BLOCK)
    requires j >= -1 && (j >= 0 ==> off < Pow(P, j + 1))
    ensures Clean(s, a, off, j)
  {
    if j >= 0 {
      assert Entry(Nodes(s), a, Digit(off, j)) == 0;
    }
  }

  // ------------------------------------------------------ the create walk

  /** State, result and `*created` of a descent. */
  datatype Got = Got(disk: seq<Block>, r: int, created: bool)

  /** One allocating step: a block of zeros is taken from the free list and
      entry k of indirection block a is set to it, by writing back the words
      of a as they were read before the allocation. */
  ghost function Grow(s: seq<Block>, a: int, k: nat): (seq<Block>, Word)
    requires ListOk(s) && Head(s) != INVALID_DATA && 1 <= a <= SuperOf(s).dataSize && k < P
  {
    var t := AllocSpec(s, ZeroBlock());
    AllocShape(s, ZeroBlock(), t.0, t.1);
    (t.0[DataIndex(SuperOf(t.0), a) := BlockOf(Nodes(s)[a - 1][k := t.1])], t.1)
  }

  /** What `Grow` needs of the allocation: the regions stay where they are
      and the block number is one of the data region's. */
  lemma AllocShape(s: seq<Block>, data: Block, s1: seq<Block>, b: int)
    requires ListOk(s) && Head(s) != INVALID_DATA && (s1, b) == AllocSpec(s, data)
    ensures Mounted(s1) && SuperOf(s1).dataSize == SuperOf(s).dataSize
    ensures SuperOf(s1).dataOffset == SuperOf(s).dataOffset && SuperOf(s1).numInodes == SuperOf(s).numInodes && 1 <= b <= SuperOf(s).dataSize
  {
    AllocSpecOk(s, data, s1, b);
  }

  /** The first half of `Grow`: the block handed out holds zeros. */
  lemma Taken(s: seq<Block>, s1: seq<Block>, b: int)
    requires ListOk(s) && Head(s) != INVALID_DATA && (s1, b) == AllocSpec(s, ZeroBlock())
    ensures b in Free(s) && 1 <= b <= SuperOf(s).dataSize
    ensures ListOk(s1) && Free(s1) == Free(s) - {b} && SuperOf(s1).dataSize == SuperOf(s).dataSize
    ensures SuperOf(s1).dataOffset == SuperOf(s).dataOffset && SuperOf(s1).numInodes == SuperOf(s).numInodes
    ensures Nodes(s1)[b - 1] == Zeros(WORDS_PER_BLOCK)
    ensures OnlyChanged(s, s1, Free(s))
  {
    AllocSpecOk(s, ZeroBlock(), s1, b);
    DataBlockAt(Data(s1), b);
    ViewAt(Data(s1), b - 1);
    ZeroBlockWords();
  }

  /** A step of `Grow` from a block that is not free keeps the free list
      well formed, takes exactly the new block b off it, leaves b holding
      zeros and links it from entry k of a. */
  lemma GrowOk(s: seq<Block>, a: int, k: nat, s2: seq<Block>, b: Word)
    requires ListOk(s) && Head(s) != INVALID_DATA && 1 <= a <= SuperOf(s).dataSize && k < P
    requires a !in Free(s) && (s2, b) == Grow(s, a, k)
    ensures b in Free(s) && 1 <= b <= SuperOf(s).dataSize && b != a
    ensures ListOk(s2) && Free(s2) == Free(s) - {b}
    ensures SuperOf(s2).dataSize == SuperOf(s).dataSize && SuperOf(s2).dataOffset == SuperOf(s).dataOffset && SuperOf(s2).numInodes == SuperOf(s).numInodes
    ensures Nodes(s2)[b - 1] == Zeros(WORDS_PER_BLOCK)
    ensures Nodes(s2)[a - 1] == Nodes(s)[a - 1][k := b]
    ensures OnlyChanged(s, s2, Free(s) + {a})
  {
    var t := AllocSpec(s, ZeroBlock());
    Taken(s, t.0, t.1);
    var blk := BlockOf(Nodes(s)[a - 1][k := b]);
    assert Nodes(t.0)[a - 1] == Nodes(s)[a - 1] by {
      NodesKept(s, t.0, Free(s));
    }
    WriteKeepsList(t.0, a, blk);
    WriteOnly(t.0, a, blk, Free(s) + {a}, s2);
    OnlyChangedTrans(s, t.0, s2, Free(s) + {a});
  }

  /** What a step of `Grow` did, as one fact: block b was taken off the free
      list, holds zeros and is linked from entry k of a. */
  ghost predicate Linked(s: seq<Block>, a: int, k: nat, s2: seq<Block>, b: Word)
    requires ListOk(s) && 1 <= a <= SuperOf(s).dataSize && k < P
  {
    && 1 <= b <= SuperOf(s).dataSize && b in Free(s) && b != a
    && ListOk(s2) && Free(s2) == Free(s) - {b}
    && SuperOf(s2).dataSize == SuperOf(s).dataSize && SuperOf(s2).dataOffset == SuperOf(s).dataOffset && SuperOf(s2).numInodes == SuperOf(s).numInodes
    && Nodes(s2)[b - 1] == Zeros(WORDS_PER_BLOCK)
    && Nodes(s2)[a - 1] == Nodes(s)[a - 1][k := b]
    && OnlyChanged(s, s2, Free(s) + {a})
  }

  lemma GrowLinked(s: seq<Block>, a: int, k: nat, s2: seq<Block>, b: Word)
    requires ListOk(s) && Head(s) != INVALID_DATA && 1 <= a <= SuperOf(s).dataSize && k < P
    requires a !in Free(s) && (s2, b) == Grow(s, a, k)
    ensures Linked(s, a, k, s2, b)
  {
    GrowOk(s, a, k, s2, b);
  }

  /** After a step of `Grow` the route below the new block is clean. */
  lemma GrowClean(s: seq<Block>, a: int, off: nat, j: nat, s2: seq<Block>, b: Word)
    requires ListOk(s) && Head(s) != INVALID_DATA && 1 <= a <= SuperOf(s).dataSize
    requires off < Pow(P, j + 1) && a !in Free(s) && (s2, b) == Grow(s, a, Digit(off, j))
    ensures ListOk(s2) && 1 <= b < 0x1_0000_0000 && SignedOf(b) != 0
    ensures Clean(s2, SignedOf(b), Rest(off, j), j - 1)
  {
    GrowOk(s, a, Digit(off, j), s2, b);
    ZeroRoute(s2, b, Rest(off, j), j - 1);
  }

  /** The loop of `get_nth_datablock` with `create` set, from block addr at
      level j: a zero entry gets a new all-zero block. */
  ghost function Create(s: seq<Block>, addr: int, off: nat, j: int, created: bool): Got
    requires ListOk(s) && addr != 0 && j >= -1 && (j >= 0 ==> off < Pow(P, j + 1))
    requires Clean(s, addr, off, j)
    decreases j + 1, 1
  {
    if j < 0 then Got(s, addr, created)
    else if addr < 0 || addr > SuperOf(s).dataSize then Got(s, INVALID_BLOCK, created)
    else
      var e := Nodes(s)[addr - 1][Digit(off, j)];
      if e != 0 then Create(s, SignedOf(e), Rest(off, j), j - 1, created)
      else if Head(s) == INVALID_DATA then Got(s, DATA_FULL, created)
      else Extend(s, addr, off, j)
  }

  /** The zero entry of block addr at level j gets a new block, and the
      descent goes on from it. */
  ghost function Extend(s: seq<Block>, addr: int, off: nat, j: nat): Got
    requires ListOk(s) && Head(s) != INVALID_DATA && 1 <= addr <= SuperOf(s).dataSize
    requires off < Pow(P, j + 1) && addr !in Free(s)
    decreases j + 1, 0
  {
    var g := Grow(s, addr, Digit(off, j));
    GrowClean(s, addr, off, j, g.0, g.1);
    Create(g.0, SignedOf(g.1), Rest(off, j), j - 1, true)
  }

  /** The blocks on logical block n's route are not free. */
  ghost predicate PathClean(s: seq<Block>, ino: Inode, n: int)
    requires ChainOk(s)
  {
    match PlaceOf(n)
    case None => true
    case Some(p) => Clean(s, SignedOf(Root(ino, p)), p.off, p.level)
  }

  /** A zone root just allocated leads a clean route. */
  lemma RootClean(s: seq<Block>, s1: seq<Block>, b: int, off: nat, j: int)
    requires ListOk(s) && Head(s) != INVALID_DATA && (s1, b) == AllocSpec(s, ZeroBlock())
    requires j >= -1 && (j >= 0 ==> off < Pow(P, j + 1))
    ensures ListOk(s1) && 1 <= b < 0x1_0000_0000 && SignedOf(b) != 0
    ensures Clean(s1, SignedOf(b), off, j)
  {
    Taken(s, s1, b);
    ZeroRoute(s1, b, off, j);
  }

  /** State, inode, result and `*created` of `get_nth_datablock`. */
  datatype Found = Found(disk: seq<Block>, ino: Inode, r: int, created: bool)

  /** `get_nth_datablock(inod, n, TRUE, created)`: a missing zone root is
      allocated first and stored in the caller's inode (not on disk). */
  ghost function GetSpec(ready: bool, s: seq<Block>, ino: Inode, n: int, created: bool): Found
    requires ready ==> ListOk(s) && PathClean(s, ino, n)
  {
    match PlaceOf(n)
    case None => Found(s, ino, INVALID_BLOCK, created)
    case Some(p) =>
      var root := SignedOf(Root(ino, p));
      if root == 0 then
        if !ready then Found(s, ino, DISC_UNINITIALIZED, created)
        else if Head(s) == INVALID_DATA then Found(s, ino, DATA_FULL, created)
        else
          var t := AllocSpec(s, ZeroBlock());
          RootClean(s, t.0, t.1, p.off, p.level);
          var g := Create(t.0, SignedOf(t.1), p.off, p.level, true);
          Found(g.disk, WithRoot(ino, p, t.1), g.r, g.created)
      else if p.level < 0 then Found(s, ino, root, created)
      else if !ready then Found(s, ino, DISC_UNINITIALIZED, created)
      else
        var g := Create(s, root, p.off, p.level, created);
        Found(g.disk, ino, g.r, g.created)
  }

  // ------------------------------------------------- what the descent does

  /** Changes confined to F are confined to any G containing F. */
  lemma Widen(s: seq<Block>, s': seq<Block>, F: set<int>, G: set<int>)
    requires Mounted(s) && OnlyChanged(s, s', F) && F <= G
    ensures OnlyChanged(s, s', G)
  {
  }

  /** Below a block of zeros the route is that block alone. */
  lemma ZeroReach(ns: seq<Node>, a: int, off: nat, j: int)
    requires 1 <= a <= |ns| && ns[a - 1] == Zeros(WORDS_PER_BLOCK)
    requires j >= -1 && (j >= 0 ==> off < Pow(P, j + 1))
    ensures Reach(ns, a, off, j) == {a} && Distinct(ns, a, off, j)
  {
    if j >= 0 {
      assert Entry(ns, a, Digit(off, j)) == 0;
    }
  }

  /** `Create` at a non-zero entry goes on from the block it names. */
  lemma CreateDown(s: seq<Block>, addr: int, off: nat, j: nat, created: bool)
    requires ListOk(s) && 1 <= addr <= SuperOf(s).dataSize && off < Pow(P, j + 1)
    requires Clean(s, addr, off, j) && Nodes(s)[addr - 1][Digit(off, j)] != 0
    ensures var e := Entry(Nodes(s), addr, Digit(off, j));
      && e != 0 && Clean(s, e, Rest(off, j), j - 1)
      && Create(s, addr, off, j, created) == Create(s, e, Rest(off, j), j - 1, created)
  {
  }

  /** `Create` at a zero entry, with a block to take, goes on from the
      block it links in. */
  lemma CreateGrows(s: seq<Block>, addr: int, off: nat, j: nat, created: bool, s2: seq<Block>, b: Word)
    requires ListOk(s) && 1 <= addr <= SuperOf(s).dataSize && off < Pow(P, j + 1)
    requires Clean(s, addr, off, j) && Nodes(s)[addr - 1][Digit(off, j)] == 0
    requires Head(s) != INVALID_DATA && (s2, b) == Grow(s, addr, Digit(off, j))
    ensures addr !in Free(s)
    ensures ListOk(s2) && 1 <= b < 0x1_0000_0000 && SignedOf(b) != 0
    ensures Clean(s2, SignedOf(b), Rest(off, j), j - 1)
    ensures Create(s, addr, off, j, created) == Create(s2, SignedOf(b), Rest(off, j), j - 1, true)
  {
    GrowClean(s, addr, off, j, s2, b);
  }

  /** Below a block of zeros numbered b the route is that block alone, or
      nothing when b does not fit an `int`. */
  lemma NewReach(ns: seq<Node>, b: Word, off: nat, j: int)
    requires 1 <= b <= |ns| && ns[b - 1] == Zeros(WORDS_PER_BLOCK)
    requires j >= -1 && (j >= 0 ==> off < Pow(P, j + 1))
    ensures Reach(ns, SignedOf(b), off, j) <= {b} && Distinct(ns, SignedOf(b), off, j)
  {
    if 1 <= SignedOf(b) <= |ns| {
      ZeroReach(ns, SignedOf(b), off, j);
    }
  }

  // Each property of `Create` below is proved by induction on the level: a
  // lemma per case of `Create` (a non-zero entry, `...Down`, and a zero entry
  // that gets a new block, `...Grow`), and a step lemma that links the block
  // below to the block above without mentioning `Create` or `Grow`.

  /** The free list stays well formed and only loses blocks, and the
      regions stay where they were. */
  ghost predicate Keeps(s: seq<Block>, s': seq<Block>)
    requires ListOk(s)
  {
    && ListOk(s') && Free(s') <= Free(s)
    && SuperOf(s').dataSize == SuperOf(s).dataSize
    && SuperOf(s').dataOffset == SuperOf(s).dataOffset && SuperOf(s').numInodes == SuperOf(s).numInodes
  }

  lemma KeepsLink(s: seq<Block>, a: int, k: nat, s2: seq<Block>, b: Word, s3: seq<Block>)
    requires ListOk(s) && 1 <= a <= SuperOf(s).dataSize && k < P && Linked(s, a, k, s2, b)
    requires Keeps(s2, s3)
    ensures Keeps(s, s3)
  {
  }

  /** `Create` keeps the free list well formed and only takes blocks off it. */
  lemma {:induction false} CreateKeeps(s: seq<Block>, addr: int, off: nat, j: int, created: bool)
    requires ListOk(s) && addr != 0 && j >= -1 && (j >= 0 ==> off < Pow(P, j + 1))
    requires Clean(s, addr, off, j)
    ensures Keeps(s, Create(s, addr, off, j, created).disk)
    decreases j + 1, 1
  {
    if j >= 0 && 1 <= addr <= SuperOf(s).dataSize {
      if Nodes(s)[addr - 1][Digit(off, j)] != 0 {
        KeepsDown(s, addr, off, j, created);
      } else if Head(s) != INVALID_DATA {
        KeepsGrow(s, addr, off, j, created);
      } else {
        assert Create(s, addr, off, j, created).disk == s;
      }
    } else {
      assert Create(s, addr, off, j, created).disk == s;
    }
  }

  lemma {:induction false} KeepsDown(s: seq<Block>, addr: int, off: nat, j: nat, created: bool)
    requires ListOk(s) && 1 <= addr <= SuperOf(s).dataSize && off < Pow(P, j + 1)
    requires Clean(s, addr, off, j) && Nodes(s)[addr - 1][Digit(off, j)] != 0
    ensures Keeps(s, Create(s, addr, off, j, created).disk)
    decreases j + 1, 0
  {
    CreateDown(s, addr, off, j, created);
    CreateKeeps(s, Entry(Nodes(s), addr, Digit(off, j)), Rest(off, j), j - 1, created);
  }

  lemma {:induction false} KeepsGrow(s: seq<Block>, addr: int, off: nat, j: nat, created: bool)
    requires ListOk(s) && 1 <= addr <= SuperOf(s).dataSize && off < Pow(P, j + 1)
    requires Clean(s, addr, off, j) && Nodes(s)[addr - 1][Digit(off, j)] == 0 && Head(s) != INVALID_DATA
    ensures Keeps(s, Create(s, addr, off, j, created).disk)
    decreases j + 1, 0
  {
    var t := Grow(s, addr, Digit(off, j));
    CreateGrows(s, addr, off, j, created, t.0, t.1);
    GrowLinked(s, addr, Digit(off, j), t.0, t.1);
    CreateKeeps(t.0, SignedOf(t.1), Rest(off, j), j - 1, true);
    KeepsLink(s, addr, Digit(off, j), t.0, t.1, Create(t.0, SignedOf(t.1), Rest(off, j), j - 1, true).disk);
  }

  /** `created` is set exactly when a block was taken; when none was, the
      disk is as it was. */
  ghost predicate Flagged(s: seq<Block>, g: Got, created: bool)
    requires ListOk(s)
  {
    && ListOk(g.disk)
    && g.created == (created || Free(g.disk) != Free(s))
    && (Free(g.disk) == Free(s) ==> g.disk == s)
  }

  lemma FlagsLink(s: seq<Block>, a: int, k: nat, s2: seq<Block>, b: Word, g: Got, created: bool)
    requires ListOk(s) && 1 <= a <= SuperOf(s).dataSize && k < P && Linked(s, a, k, s2, b)
    requires Keeps(s2, g.disk) && Flagged(s2, g, true)
    ensures Flagged(s, g, created)
  {
    assert b !in Free(g.disk);
  }

  /** `created` comes back set exactly when a block was taken, and when none
      was the disk is as it was. */
  lemma {:induction false} CreateFlags(s: seq<Block>, addr: int, off: nat, j: int, created: bool)
    requires ListOk(s) && addr != 0 && j >= -1 && (j >= 0 ==> off < Pow(P, j + 1))
    requires Clean(s, addr, off, j)
    ensures Flagged(s, Create(s, addr, off, j, created), created)
    decreases j + 1, 1
  {
    if j >= 0 && 1 <= addr <= SuperOf(s).dataSize {
      if Nodes(s)[addr - 1][Digit(off, j)] != 0 {
        FlagsDown(s, addr, off, j, created);
      } else if Head(s) != INVALID_DATA {
        FlagsGrow(s, addr, off, j, created);
      } else {
        assert Create(s, addr, off, j, created) == Got(s, DATA_FULL, created);
      }
    } else {
      assert Create(s, addr, off, j, created).disk == s;
      assert Create(s, addr, off, j, created).created == created;
    }
  }

  lemma {:induction false} FlagsDown(s: seq<Block>, addr: int, off: nat, j: nat, created: bool)
    requires ListOk(s) && 1 <= addr <= SuperOf(s).dataSize && off < Pow(P, j + 1)
    requires Clean(s, addr, off, j) && Nodes(s)[addr - 1][Digit(off, j)] != 0
    ensures Flagged(s, Create(s, addr, off, j, created), created)
    decreases j + 1, 0
  {
    CreateDown(s, addr, off, j, created);
    CreateFlags(s, Entry(Nodes(s), addr, Digit(off, j)), Rest(off, j), j - 1, created);
  }

  lemma {:induction false} FlagsGrow(s: seq<Block>, addr: int, off: nat, j: nat, created: bool)
    requires ListOk(s) && 1 <= addr <= SuperOf(s).dataSize && off < Pow(P, j + 1)
    requires Clean(s, addr, off, j) && Nodes(s)[addr - 1][Digit(off, j)] == 0 && Head(s) != INVALID_DATA
    ensures Flagged(s, Create(s, addr, off, j, created), created)
    decreases j + 1, 0
  {
    var t := Grow(s, addr, Digit(off, j));
    CreateGrows(s, addr, off, j, created, t.0, t.1);
    GrowLinked(s, addr, Digit(off, j), t.0, t.1);
    var g := Create(t.0, SignedOf(t.1), Rest(off, j), j - 1, true);
    CreateKeeps(t.0, SignedOf(t.1), Rest(off, j), j - 1, true);
    CreateFlags(t.0, SignedOf(t.1), Rest(off, j), j - 1, true);
    FlagsLink(s, addr, Digit(off, j), t.0, t.1, g, created);
  }

  /** Linking in a block b below addr, then writing only free blocks and the
      blocks of the route below b, writes nothing off the route from addr. */
  lemma FrameLink(s: seq<Block>, addr: int, off: nat, j: nat, s2: seq<Block>, b: Word, s3: seq<Block>)
    requires ListOk(s) && 1 <= addr <= SuperOf(s).dataSize && off < Pow(P, j + 1)
    requires Linked(s, addr, Digit(off, j), s2, b)
    requires OnlyChanged(s2, s3, Free(s2) + Reach(Nodes(s2), SignedOf(b), Rest(off, j), j - 1))
    ensures OnlyChanged(s, s3, Free(s) + Reach(Nodes(s), addr, off, j))
  {
    var R := Reach(Nodes(s2), SignedOf(b), Rest(off, j), j - 1);
    NewReach(Nodes(s2), b, Rest(off, j), j - 1);
    var G := Free(s) + Reach(Nodes(s), addr, off, j);
    assert addr in G;
    Widen(s, s2, Free(s) + {addr}, G);
    Widen(s2, s3, Free(s2) + R, G);
    OnlyChangedTrans(s, s2, s3, G);
  }

  /** What is written below the block an entry names is on the route. */
  lemma FrameUp(s: seq<Block>, addr: int, off: nat, j: nat, s3: seq<Block>)
    requires ListOk(s) && 1 <= addr <= SuperOf(s).dataSize && off < Pow(P, j + 1)
    requires OnlyChanged(s, s3, Free(s) + Reach(Nodes(s), Entry(Nodes(s), addr, Digit(off, j)), Rest(off, j), j - 1))
    ensures OnlyChanged(s, s3, Free(s) + Reach(Nodes(s), addr, off, j))
  {
    Widen(s, s3, Free(s) + Reach(Nodes(s), Entry(Nodes(s), addr, Digit(off, j)), Rest(off, j), j - 1),
          Free(s) + Reach(Nodes(s), addr, off, j));
  }

  /** `Create` writes nothing but free blocks and the blocks of its route. */
  lemma {:induction false} CreateFrame(s: seq<Block>, addr: int, off: nat, j: int, created: bool)
    requires ListOk(s) && addr != 0 && j >= -1 && (j >= 0 ==> off < Pow(P, j + 1))
    requires Clean(s, addr, off, j)
    ensures OnlyChanged(s, Create(s, addr, off, j, created).disk, Free(s) + Reach(Nodes(s), addr, off, j))
    decreases j + 1, 2
  {
    if j >= 0 && 1 <= addr <= SuperOf(s).dataSize {
      if Nodes(s)[addr - 1][Digit(off, j)] != 0 {
        FrameDown(s, addr, off, j, created);
      } else if Head(s) != INVALID_DATA {
        FrameGrow(s, addr, off, j, created);
      } else {
        assert Create(s, addr, off, j, created).disk == s;
      }
    } else {
      assert Create(s, addr, off, j, created).disk == s;
    }
  }

  lemma {:induction false} FrameDown(s: seq<Block>, addr: int, off: nat, j: nat, created: bool)
    requires ListOk(s) && 1 <= addr <= SuperOf(s).dataSize && off < Pow(P, j + 1)
    requires Clean(s, addr, off, j) && Nodes(s)[addr - 1][Digit(off, j)] != 0
    ensures OnlyChanged(s, Create(s, addr, off, j, created).disk, Free(s) + Reach(Nodes(s), addr, off, j))
    decreases j + 1, 0
  {
    CreateDown(s, addr, off, j, created);
    var c := Entry(Nodes(s), addr, Digit(off, j));
    CreateFrame(s, c, Rest(off, j), j - 1, created);
    FrameUp(s, addr, off, j, Create(s, c, Rest(off, j), j - 1, created).disk);
  }

  lemma {:induction false} FrameGrow(s: seq<Block>, addr: int, off: nat, j: nat, created: bool)
    requires ListOk(s) && 1 <= addr <= SuperOf(s).dataSize && off < Pow(P, j + 1)
    requires Clean(s, addr, off, j) && Nodes(s)[addr - 1][Digit(off, j)] == 0 && Head(s) != INVALID_DATA
    ensures OnlyChanged(s, Create(s, addr, off, j, created).disk, Free(s) + Reach(Nodes(s), addr, off, j))
    decreases j + 1, 1
  {
    var t := Grow(s, addr, Digit(off, j));
    FrameGrown(s, addr, off, j, created, t.0, t.1);
  }

  lemma {:induction false} FrameGrown(s: seq<Block>, addr: int, off: nat, j: nat, created: bool, s2: seq<Block>, b: Word)
    requires ListOk(s) && 1 <= addr <= SuperOf(s).dataSize && off < Pow(P, j + 1)
    requires Clean(s, addr, off, j) && Nodes(s)[addr - 1][Digit(off, j)] == 0
    requires Head(s) != INVALID_DATA && (s2, b) == Grow(s, addr, Digit(off, j))
    ensures OnlyChanged(s, Create(s, addr, off, j, created).disk, Free(s) + Reach(Nodes(s), addr, off, j))
    decreases j + 1, 0
  {
    CreateGrows(s, addr, off, j, created, s2, b);
    GrowLinked(s, addr, Digit(off, j), s2, b);
    var s3 := Create(s2, SignedOf(b), Rest(off, j), j - 1, true).disk;
    CreateFrame(s2, SignedOf(b), Rest(off, j), j - 1, true);
    FrameLink(s, addr, off, j, s2, b, s3);
  }

  /** The result is never 0, and unless the free list ran out a lookup on
      the new disk finds it. */
  ghost predicate FindsAgain(g: Got, addr: int, off: nat, j: int)
    requires Mounted(g.disk) && j >= -1 && (j >= 0 ==> off < Pow(P, j + 1))
  {
    g.r != 0 && (g.r != DATA_FULL ==> Tree.Walk(true, Nodes(g.disk), addr, off, j) == g.r)
  }

  /** Block addr, untouched, still leads to the block below it. */
  lemma FindsUp(s: seq<Block>, addr: int, off: nat, j: nat, g: Got)
    requires ListOk(s) && 1 <= addr <= SuperOf(s).dataSize && off < Pow(P, j + 1)
    requires Clean(s, addr, off, j) && Distinct(Nodes(s), addr, off, j) && Keeps(s, g.disk)
    requires var c := Entry(Nodes(s), addr, Digit(off, j));
      && OnlyChanged(s, g.disk, Free(s) + Reach(Nodes(s), c, Rest(off, j), j - 1))
      && FindsAgain(g, c, Rest(off, j), j - 1)
    ensures FindsAgain(g, addr, off, j)
  {
    var c := Entry(Nodes(s), addr, Digit(off, j));
    var F := Free(s) + Reach(Nodes(s), c, Rest(off, j), j - 1);
    assert addr !in F;
    NodeKept(s, g.disk, F, addr);
    assert Entry(Nodes(g.disk), addr, Digit(off, j)) == c;
  }

  /** Block addr, with block b linked in, leads to b. */
  lemma FindsLink(s: seq<Block>, addr: int, off: nat, j: nat, s2: seq<Block>, b: Word, g: Got)
    requires ListOk(s) && 1 <= addr <= SuperOf(s).dataSize && off < Pow(P, j + 1) && addr !in Free(s)
    requires Linked(s, addr, Digit(off, j), s2, b) && Keeps(s2, g.disk)
    requires OnlyChanged(s2, g.disk, Free(s2) + Reach(Nodes(s2), SignedOf(b), Rest(off, j), j - 1))
    requires FindsAgain(g, SignedOf(b), Rest(off, j), j - 1)
    ensures FindsAgain(g, addr, off, j)
  {
    NewReach(Nodes(s2), b, Rest(off, j), j - 1);
    var F := Free(s2) + Reach(Nodes(s2), SignedOf(b), Rest(off, j), j - 1);
    assert addr !in F;
    NodeKept(s2, g.disk, F, addr);
    assert Nodes(g.disk)[addr - 1][Digit(off, j)] == b;
    assert Entry(Nodes(g.disk), addr, Digit(off, j)) == SignedOf(b);
  }

  /** The descent below a block b just linked in from addr leads back to it. */
  lemma {:induction false} FindsBelow(s: seq<Block>, addr: int, off: nat, j: nat, s2: seq<Block>, b: Word)
    requires ListOk(s) && 1 <= addr <= SuperOf(s).dataSize && off < Pow(P, j + 1) && addr !in Free(s)
    requires Linked(s, addr, Digit(off, j), s2, b) && SignedOf(b) != 0
    requires Clean(s2, SignedOf(b), Rest(off, j), j - 1)
    ensures Mounted(Create(s2, SignedOf(b), Rest(off, j), j - 1, true).disk)
    ensures FindsAgain(Create(s2, SignedOf(b), Rest(off, j), j - 1, true), addr, off, j)
    decreases j + 1, 0
  {
    BelowNew(s2, b, Rest(off, j), j - 1);
    FindsLink(s, addr, off, j, s2, b, Create(s2, SignedOf(b), Rest(off, j), j - 1, true));
  }

  /** The descent from a new block b of zeros finds its block again and
      changes only free blocks and b. */
  lemma {:induction false} BelowNew(s2: seq<Block>, b: Word, off: nat, i: int)
    requires ListOk(s2) && 1 <= b <= SuperOf(s2).dataSize && SignedOf(b) != 0
    requires Nodes(s2)[b - 1] == Zeros(WORDS_PER_BLOCK)
    requires i >= -1 && (i >= 0 ==> off < Pow(P, i + 1)) && Clean(s2, SignedOf(b), off, i)
    ensures var g := Create(s2, SignedOf(b), off, i, true);
      && Mounted(g.disk) && Keeps(s2, g.disk) && FindsAgain(g, SignedOf(b), off, i)
      && OnlyChanged(s2, g.disk, Free(s2) + Reach(Nodes(s2), SignedOf(b), off, i))
    decreases i + 1, 3
  {
    NewReach(Nodes(s2), b, off, i);
    CreateFinds(s2, SignedOf(b), off, i, true);
    CreateKeeps(s2, SignedOf(b), off, i, true);
    CreateFrame(s2, SignedOf(b), off, i, true);
  }

  /** When the route meets no block twice, looking the block up again after
      `Create` finds the block it returned, which is never 0. */
  lemma {:induction false} CreateFinds(s: seq<Block>, addr: int, off: nat, j: int, created: bool)
    requires ListOk(s) && addr != 0 && j >= -1 && (j >= 0 ==> off < Pow(P, j + 1))
    requires Clean(s, addr, off, j)
    requires Distinct(Nodes(s), addr, off, j)
    ensures Mounted(Create(s, addr, off, j, created).disk)
    ensures FindsAgain(Create(s, addr, off, j, created), addr, off, j)
    decreases j + 1, 2
  {
    if j >= 0 && 1 <= addr <= SuperOf(s).dataSize {
      if Nodes(s)[addr - 1][Digit(off, j)] != 0 {
        FindsDown(s, addr, off, j, created);
      } else if Head(s) != INVALID_DATA {
        FindsGrow(s, addr, off, j, created);
      } else {
        assert Create(s, addr, off, j, created) == Got(s, DATA_FULL, created);
      }
    } else {
      var r := if j < 0 then addr else INVALID_BLOCK;
      assert Create(s, addr, off, j, created) == Got(s, r, created);
      assert Tree.Walk(true, Nodes(s), addr, off, j) == r;
    }
  }

  lemma {:induction false} FindsDown(s: seq<Block>, addr: int, off: nat, j: nat, created: bool)
    requires ListOk(s) && 1 <= addr <= SuperOf(s).dataSize && off < Pow(P, j + 1)
    requires Clean(s, addr, off, j) && Nodes(s)[addr - 1][Digit(off, j)] != 0
    requires Distinct(Nodes(s), addr, off, j)
    ensures Mounted(Create(s, addr, off, j, created).disk)
    ensures FindsAgain(Create(s, addr, off, j, created), addr, off, j)
    decreases j + 1, 0
  {
    CreateDown(s, addr, off, j, created);
    var c := Entry(Nodes(s), addr, Digit(off, j));
    CreateFinds(s, c, Rest(off, j), j - 1, created);
    CreateKeeps(s, c, Rest(off, j), j - 1, created);
    CreateFrame(s, c, Rest(off, j), j - 1, created);
    FindsUp(s, addr, off, j, Create(s, c, Rest(off, j), j - 1, created));
  }

  lemma {:induction false} FindsGrow(s: seq<Block>, addr: int, off: nat, j: nat, created: bool)
    requires ListOk(s) && 1 <= addr <= SuperOf(s).dataSize && off < Pow(P, j + 1)
    requires Clean(s, addr, off, j) && Nodes(s)[addr - 1][Digit(off, j)] == 0 && Head(s) != INVALID_DATA
    requires Distinct(Nodes(s), addr, off, j)
    ensures Mounted(Create(s, addr, off, j, created).disk)
    ensures FindsAgain(Create(s, addr, off, j, created), addr, off, j)
    decreases j + 1, 1
  {
    var t := Grow(s, addr, Digit(off, j));
    CreateGrows(s, addr, off, j, created, t.0, t.1);
    GrowLinked(s, addr, Digit(off, j), t.0, t.1);
    FindsBelow(s, addr, off, j, t.0, t.1);
  }

  // ------------------------------------------- what get_nth_datablock does

  /** No block is met twice on logical block n's route. */
  ghost predicate PathDistinct(s: seq<Block>, ino: Inode, n: int)
    requires Mounted(s)
  {
    match PlaceOf(n)
    case None => true
    case Some(p) => Distinct(Nodes(s), SignedOf(Root(ino, p)), p.off, p.level)
  }

  /** The data blocks on logical block n's route. */
  ghost function PathReach(s: seq<Block>, ino: Inode, n: int): set<int>
    requires Mounted(s)
  {
    match PlaceOf(n)
    case None => {}
    case Some(p) => Reach(Nodes(s), SignedOf(Root(ino, p)), p.off, p.level)
  }

  /** The descent from a zone root just allocated: it finds its block
      again, changes only free blocks, and keeps the free list. */
  lemma RootCreate(s: seq<Block>, p: Place, s1: seq<Block>, b: int)
    requires ListOk(s) && Head(s) != INVALID_DATA && PlaceOk(p) && (s1, b) == AllocSpec(s, ZeroBlock())
    ensures ListOk(s1) && 1 <= b < 0x1_0000_0000 && SignedOf(b) != 0 && Clean(s1, SignedOf(b), p.off, p.level)
    ensures var g := Create(s1, SignedOf(b), p.off, p.level, true);
      && Mounted(g.disk) && FindsAgain(g, SignedOf(b), p.off, p.level)
      && OnlyChanged(s, g.disk, Free(s)) && Keeps(s, g.disk) && g.created
      && Free(g.disk) != Free(s)
  {
    Taken(s, s1, b);
    RootClean(s, s1, b, p.off, p.level);
    NewReach(Nodes(s1), b, p.off, p.level);
    var c := SignedOf(b);
    CreateFinds(s1, c, p.off, p.level, true);
    CreateKeeps(s1, c, p.off, p.level, true);
    CreateFlags(s1, c, p.off, p.level, true);
    CreateFrame(s1, c, p.off, p.level, true);
    var g := Create(s1, c, p.off, p.level, true);
    Widen(s1, g.disk, Free(s1) + Reach(Nodes(s1), c, p.off, p.level), Free(s));
    OnlyChangedTrans(s, s1, g.disk, Free(s));
    assert b !in Free(g.disk);
  }

  /** With `create` on a formatted disk whose route meets no block twice,
      the block returned is never 0, and unless the free list ran out,
      looking logical block n up again in the new state finds it. */
  lemma GetFinds(s: seq<Block>, ino: Inode, n: int, created: bool)
    requires ListOk(s) && PathClean(s, ino, n) && PathDistinct(s, ino, n)
    ensures Mounted(GetSpec(true, s, ino, n, created).disk)
    ensures var f := GetSpec(true, s, ino, n, created);
      f.r != 0 && (f.r != DATA_FULL ==> Lookup(true, Nodes(f.disk), f.ino, n) == f.r)
  {
    match PlaceOf(n)
    case None =>
    case Some(p) =>
      var root := SignedOf(Root(ino, p));
      if root == 0 {
        if Head(s) != INVALID_DATA {
          var t := AllocSpec(s, ZeroBlock());
          RootCreate(s, p, t.0, t.1);
        }
      } else if p.level >= 0 {
        CreateFinds(s, root, p.off, p.level, created);
      }
  }

  /** With `create`, only free blocks and the blocks on n's route change,
      the free list stays well formed and only shrinks, and `*created` is
      set exactly when a block was taken; when none was, nothing changed. */
  lemma GetKeeps(s: seq<Block>, ino: Inode, n: int, created: bool)
    requires ListOk(s) && PathClean(s, ino, n)
    ensures var f := GetSpec(true, s, ino, n, created);
      && Keeps(s, f.disk) && OnlyChanged(s, f.disk, Free(s) + PathReach(s, ino, n))
      && Flagged(s, Got(f.disk, f.r, f.created), created)
  {
    match PlaceOf(n)
    case None =>
    case Some(p) =>
      var root := SignedOf(Root(ino, p));
      if root == 0 {
        if Head(s) != INVALID_DATA {
          var t := AllocSpec(s, ZeroBlock());
          RootCreate(s, p, t.0, t.1);
          var f := GetSpec(true, s, ino, n, created);
          Widen(s, f.disk, Free(s), Free(s) + PathReach(s, ino, n));
        }
      } else if p.level >= 0 {
        CreateKeeps(s, root, p.off, p.level, created);
        CreateFrame(s, root, p.off, p.level, created);
        CreateFlags(s, root, p.off, p.level, created);
      }
  }

  /** The inode changes only where a zone root was allocated. */
  lemma GetInode(ready: bool, s: seq<Block>, ino: Inode, n: int, created: bool)
    requires ready ==> ListOk(s) && PathClean(s, ino, n)
    ensures var f := GetSpec(ready, s, ino, n, created);
      f.ino == ino || (PlaceOf(n).Some? && Root(ino, PlaceOf(n).value) == 0
        && f.ino == WithRoot(ino, PlaceOf(n).value, Root(f.ino, PlaceOf(n).value)))
  {
  }

  /** Without a formatted disk nothing is written and the result is an error
      or a direct block's number. */
  lemma GetUnready(s: seq<Block>, ino: Inode, n: int, created: bool)
    ensures var f := GetSpec(false, s, ino, n, created);
      && f.disk == s && f.ino == ino && f.created == created
      && (f.r == INVALID_BLOCK || f.r == DISC_UNINITIALIZED
          || (PlaceOf(n).Some? && PlaceOf(n).value.level < 0 && f.r == SignedOf(Root(ino, PlaceOf(n).value))))
  {
  }

  // ------------------------------------------------------------ the methods

  /** The loop of `get_nth_datablock` without `create`. */
  method Find(d: Disk, addr: int, off: nat, level: int) returns (r: int)
    requires Consistent(d) && level >= -1 && (level >= 0 ==> off < Pow(P, level + 1))
    ensures r == Tree.Walk(Ready(d), Region(d), addr, off, level)
  {
    var i := level;
    var next := addr;
    var offset: nat := off;
    while i >= 0
      invariant -1 <= i <= level
      invariant i >= 0 ==> offset < Pow(P, i + 1)
      invariant Tree.Walk(Ready(d), Region(d), next, offset, i) == Tree.Walk(Ready(d), Region(d), addr, off, level)
    {
      if next == 0 {
        return 0;
      }
      var ret, b := DataRead(d, next, ZeroBlock());
      if ret != SUCCESS {
        return ret;
      }
      var q := IntPow(P, i);
      PowPositive(P, i);
      ViewAt(Data(d.Contents()), next - 1);
      next := SignedOf(BlockWords(b)[offset / q]);
      offset := offset % q;
      i := i - 1;
    }
    r := next;
  }

  /** Entry k of a (not free) is set to a new all-zero block. */
  method GrowStep(d: Disk, a: int, w: Node, k: nat, ghost s: seq<Block>) returns (ret: int, b: int)
    requires Consistent(d) && Ready(d) && s == d.Contents() && ListOk(s)
    requires 1 <= a <= SuperOf(s).dataSize && a !in Free(s) && k < P && w == Nodes(s)[a - 1]
    modifies d.disk
    ensures Consistent(d)
    ensures ret == (if Head(s) == INVALID_DATA then DATA_FULL else SUCCESS)
    ensures ret == SUCCESS ==> (d.Contents(), b) == Grow(s, a, k)
    ensures ret != SUCCESS ==> d.Contents() == s
  {
    ret, b := DataAllocate(d, ZeroBlock(), 0);
    if ret != SUCCESS {
      return;
    }
    ghost var s1 := d.Contents();
    AllocSpecOk(s, ZeroBlock(), s1, b);
    var rw := DataWrite(d, a, BlockOf(w[k := b]));
    assert rw == SUCCESS;
  }

  /** One level of `Create` from block addr at level i leads to block next
      at level i - 1 in state s', or ends with the error ret. */
  ghost predicate Stepped(s: seq<Block>, addr: int, off: nat, i: nat, created: bool,
                          ret: int, s': seq<Block>, next: int, off': nat, created': bool)
    requires ListOk(s) && addr != 0 && off < Pow(P, i + 1) && Clean(s, addr, off, i)
  {
    if ret == SUCCESS then
      && ListOk(s') && next != 0 && off' < Pow(P, i) && Clean(s', next, off', i - 1)
      && Create(s, addr, off, i, created) == Create(s', next, off', i - 1, created')
    else
      Create(s, addr, off, i, created) == Got(s', ret, created')
  }

  /** One level of the loop of `get_nth_datablock` with `create` set. */
  method MakeStep(d: Disk, addr: int, offset: nat, i: nat, created: bool, ghost s: seq<Block>)
    returns (ret: int, next: int, offset': nat, created': bool)
    requires Consistent(d) && Ready(d) && s == d.Contents() && ListOk(s)
    requires addr != 0 && offset < Pow(P, i + 1) && Clean(s, addr, offset, i)
    modifies d.disk
    ensures Consistent(d)
    ensures Stepped(s, addr, offset, i, created, ret, d.Contents(), next, offset', created')
  {
    var rr, blk := DataRead(d, addr, ZeroBlock());
    if rr != SUCCESS {
      return rr, addr, offset, created;
    }
    var q := IntPow(P, i);
    PowPositive(P, i);
    var k := offset / q;
    offset' := offset % q;
    ViewAt(Data(s), addr - 1);
    var w := BlockWords(blk);
    if w[k] != 0 {
      return SUCCESS, SignedOf(w[k]), offset', created;
    }
    var rg, b := GrowStep(d, addr, w, k, s);
    if rg != SUCCESS {
      return rg, addr, offset, created;
    }
    GrowClean(s, addr, offset, i, d.Contents(), b);
    return SUCCESS, SignedOf(b), offset', true;
  }

  /** The loop of `get_nth_datablock` with `create` set. */
  method Make(d: Disk, addr: int, off: nat, level: int, created: bool, ghost s: seq<Block>)
    returns (r: int, created': bool)
    requires Consistent(d) && Ready(d) && s == d.Contents() && ListOk(s)
    requires addr != 0 && level >= -1 && (level >= 0 ==> off < Pow(P, level + 1))
    requires Clean(s, addr, off, level)
    modifies d.disk
    ensures Consistent(d)
    ensures Got(d.Contents(), r, created') == Create(s, addr, off, level, created)
  {
    var i := level;
    var next := addr;
    var offset: nat := off;
    created' := created;
    while i >= 0
      invariant -1 <= i <= level
      invariant i >= 0 ==> offset < Pow(P, i + 1)
      invariant Consistent(d) && Ready(d) && ListOk(d.Contents()) && next != 0
      invariant Clean(d.Contents(), next, offset, i)
      invariant Create(s, addr, off, level, created) == Create(d.Contents(), next, offset, i, created')
    {
      var ret;
      ret, next, offset, created' := MakeStep(d, next, offset, i, created', d.Contents());
      if ret != SUCCESS {
        return ret, created';
      }
      i := i - 1;
    }
    r := next;
  }

  /** A missing zone root is allocated and the descent made from it. */
  method MakeRoot(d: Disk, off: nat, level: int, ghost s: seq<Block>) returns (r: int, root: int, created': bool)
    requires Consistent(d) && Ready(d) && s == d.Contents() && ListOk(s)
    requires level >= -1 && (level >= 0 ==> off < Pow(P, level + 1))
    modifies d.disk
    ensures Consistent(d)
    ensures Head(s) == INVALID_DATA ==> r == DATA_FULL && root == 0 && d.Contents() == s
    ensures Head(s) != INVALID_DATA ==> var t := AllocSpec(s, ZeroBlock());
      && root == t.1 && 1 <= root < 0x1_0000_0000 && ListOk(t.0) && Clean(t.0, SignedOf(t.1), off, level)
      && Got(d.Contents(), r, created') == Create(t.0, SignedOf(t.1), off, level, true)
  {
    var ra, nb := DataAllocate(d, ZeroBlock(), 0);
    if ra != SUCCESS {
      return ra, 0, false;
    }
    RootClean(s, d.Contents(), nb, off, level);
    root := nb;
    r, created' := Make(d, SignedOf(nb), off, level, true, d.Contents());
  }

  /** `get_nth_datablock`: without `create` a pure lookup; with it, the
      route is completed as `GetSpec` says. The inode is the caller's copy,
      returned updated. */
  method GetNth(d: Disk, ino: Inode, n: int, create: bool, created: bool)
    returns (r: int, ino': Inode, created': bool)
    requires Consistent(d)
    requires create && Ready(d) ==> ListOk(d.Contents()) && PathClean(d.Contents(), ino, n)
    modifies d.disk
    ensures Consistent(d)
    ensures !create ==> r == Lookup(Ready(d), Region(d), ino, n)
    ensures !create ==> ino' == ino && created' == created && d.Contents() == old(d.Contents())
    ensures create ==> Found(d.Contents(), ino', r, created') == GetSpec(Ready(d), old(d.Contents()), ino, n, created)
  {
    ino', created' := ino, created;
    var p := PlaceOf(n);
    if p.None? {
      return INVALID_BLOCK, ino, created;
    }
    var pl := p.value;
    var next := SignedOf(Root(ino, pl));
    if !create {
      r := Find(d, next, pl.off, pl.level);
      return;
    }
    if next == 0 && !Ready(d) {
      var ra, nb := DataAllocate(d, ZeroBlock(), 0);
      return ra, ino, created;
    }
    if next == 0 {
      var root;
      r, root, created' := MakeRoot(d, pl.off, pl.level, d.Contents());
      if root != 0 {
        ino' := WithRoot(ino, pl, root);
      } else {
        created' := created;
      }
      return;
    }
    if pl.level < 0 {
      return next, ino, created;
    }
    if !Ready(d) {
      var ret, b := DataRead(d, next, ZeroBlock());
      return ret, ino, created;
    }
    r, created' := Make(d, next, pl.off, pl.level, created, d.Contents());
  }
}
