// The data region (`data_read`, `data_write`) and the free list of data
// blocks (`data_free`, `data_allocate`).
//
// Each free-list operation is specified by a function of the disk contents
// (`FreeSpec`, `AllocSpec`) that says which blocks it writes; the lemmas
// below them say what that does to the free list.
module DataBlocks {
  import opened Codec
  import opened Globals
  import opened BlockStore
  import opened Layout
  import opened FreeList
  import opened SuperblockIO

  // ------------------------------------------------------ the disk's free list

  ghost function Head(s: seq<Block>): Word
    requires Mounted(s)
  {
    SuperOf(s).freeListHead
  }

  /** The free list of a mounted disk: its nodes, read through the word view. */
  ghost function Nodes(s: seq<Block>): seq<Node>
    requires Mounted(s)
  {
    View(Data(s))
  }

  /** The free list ends inside the data region. */
  ghost predicate ChainOk(s: seq<Block>) {
    Mounted(s) && Chain(Nodes(s), Head(s)).Some?
  }

  /** The free list is well formed. */
  ghost predicate ListOk(s: seq<Block>) {
    Mounted(s) && FreeListOk(Nodes(s), Head(s))
  }

  ghost function Free(s: seq<Block>): set<int>
    requires ChainOk(s)
  {
    FreeSet(Nodes(s), Head(s))
  }

  /** Block x of the disk belongs to data block BlockNum(sb, x). */
  function BlockNum(sb: Superblock, x: int): int {
    x - sb.dataOffset + 1
  }

  /** s' differs from s at most in the superblock and in the data blocks of F. */
  ghost predicate OnlyChanged(s: seq<Block>, s': seq<Block>, F: set<int>)
    requires Mounted(s)
  {
    |s'| == |s| &&
    forall x :: SUPERBLOCK_SIZE <= x < |s| && BlockNum(SuperOf(s), x) !in F ==> s'[x] == s[x]
  }

  // -------------------------------------------------- writes and the regions

  /** Writing data block k changes that block of the data region and nothing
      the superblock describes. */
  lemma DataBlockWrite(s: seq<Block>, k: int, b: Block)
    requires Mounted(s) && 1 <= k <= SuperOf(s).dataSize
    ensures var s' := s[DataIndex(SuperOf(s), k) := b];
      && Mounted(s') && SuperOf(s') == SuperOf(s)
      && Data(s') == Data(s)[k - 1 := b]
      && Nodes(s') == Nodes(s)[k - 1 := BlockWords(b)]
  {
    var sb := SuperOf(s);
    var s' := s[DataIndex(sb, k) := b];
    assert s'[0] == s[0];
    assert Data(s') == Data(s)[k - 1 := b];
    ViewUpdate(Data(s), k - 1, b);
  }

  /** Writing a superblock with the same regions keeps the data region. */
  lemma SuperWrite(s: seq<Block>, sb: Superblock)
    requires Mounted(s) && LayoutOk(sb, |s|)
    requires sb.dataOffset == SuperOf(s).dataOffset && sb.dataSize == SuperOf(s).dataSize
    ensures var s' := s[0 := EncodeSuper(sb)];
      Mounted(s') && SuperOf(s') == sb && Data(s') == Data(s) && Nodes(s') == Nodes(s)
  {
    DecodeEncodeSuper(sb);
    var s' := s[0 := EncodeSuper(sb)];
    assert Data(s') == Data(s);
  }

  /** A data block number in range lies on the disk, after the superblock. */
  lemma DataIndexInDisk(s: seq<Block>, k: int)
    requires Mounted(s) && 1 <= k <= SuperOf(s).dataSize
    ensures SUPERBLOCK_SIZE <= DataIndex(SuperOf(s), k) < |s|
    ensures BlockNum(SuperOf(s), DataIndex(SuperOf(s), k)) == k
  {
  }

  /** A non-zero head of a chain that ends is a data block number. */
  lemma HeadInRange(s: seq<Block>)
    requires ChainOk(s) && Head(s) != INVALID_DATA
    ensures 1 <= Head(s) <= SuperOf(s).dataSize
  {
  }

  /** Writing data block k of F changes nothing outside the superblock and F. */
  lemma WriteOnly(s: seq<Block>, k: int, blk: Block, F: set<int>, s': seq<Block>)
    requires Mounted(s) && 1 <= k <= SuperOf(s).dataSize && k in F
    requires s' == s[DataIndex(SuperOf(s), k) := blk]
    ensures OnlyChanged(s, s', F)
  {
  }

  /** Changes confined to F, made one after the other, stay confined to F. */
  lemma OnlyChangedTrans(s: seq<Block>, s1: seq<Block>, s2: seq<Block>, F: set<int>)
    requires Mounted(s) && Mounted(s1) && SuperOf(s1).dataOffset == SuperOf(s).dataOffset
    requires OnlyChanged(s, s1, F) && OnlyChanged(s1, s2, F)
    ensures OnlyChanged(s, s2, F)
  {
  }

  // ---------------------------------------------------- data_free, specified

  /** The disk with block b stored in slot i of free-list node n. */
  ghost function FillSlot(s: seq<Block>, n: int, i: nat, b: Word): seq<Block>
    requires Mounted(s) && 1 <= n <= SuperOf(s).dataSize && i < ADDR_PER_NODE
  {
    s[DataIndex(SuperOf(s), n) := BlockOf(WithSlot(Nodes(s)[n - 1], i, b))]
  }

  /** The disk with block b made a node with no slots, linked to the old head,
      and the new head. */
  ghost function PushHead(s: seq<Block>, b: Word): seq<Block>
    requires Mounted(s) && 1 <= b <= SuperOf(s).dataSize
  {
    s[DataIndex(SuperOf(s), b) := BlockOf(NodeOf(Head(s), Zeros(ADDR_PER_NODE)))]
     [0 := EncodeSuper(SuperOf(s).(freeListHead := b))]
  }

  /** The disk `data_free(b)` leaves: b goes into the first empty slot of the
      first node that has one; when every node is full, b becomes the head. */
  ghost function FreeSpec(s: seq<Block>, b: Word): seq<Block>
    requires ChainOk(s) && 1 <= b <= SuperOf(s).dataSize
  {
    var p := FirstSpace(Nodes(s), Chain(Nodes(s), Head(s)).value);
    if p.Some? then FillSlot(s, p.value.0, p.value.1, b) else PushHead(s, b)
  }

  /** The first case of `data_free`: b fills an empty slot of node n. */
  lemma FreeIntoSlot(s: seq<Block>, b: Word, n: int, i: nat)
    requires ListOk(s) && 1 <= b <= SuperOf(s).dataSize && b !in Free(s)
    requires n in Chain(Nodes(s), Head(s)).value && 1 <= n <= SuperOf(s).dataSize
    requires i < ADDR_PER_NODE && NodeSlots(Nodes(s)[n - 1])[i] == INVALID_DATA
    ensures ListOk(FillSlot(s, n, i, b)) && Free(FillSlot(s, n, i, b)) == Free(s) + {b}
    ensures SuperOf(FillSlot(s, n, i, b)) == SuperOf(s)
    ensures OnlyChanged(s, FillSlot(s, n, i, b), Free(s) + {b})
  {
    var dd := Nodes(s);
    var w := WithSlot(dd[n - 1], i, b);
    DataBlockWrite(s, n, BlockOf(w));
    PutSlot(dd, Head(s), n, i, b, dd[n - 1 := w]);
    NodeIsFree(dd, Head(s), n);
    WriteOnly(s, n, BlockOf(w), Free(s) + {b}, FillSlot(s, n, i, b));
  }

  /** The second case of `data_free`: b becomes the new head node. */
  lemma FreeAsHead(s: seq<Block>, b: Word)
    requires ListOk(s) && 1 <= b <= SuperOf(s).dataSize && b !in Free(s)
    ensures ListOk(PushHead(s, b)) && Free(PushHead(s, b)) == Free(s) + {b}
    ensures SuperOf(PushHead(s, b)) == SuperOf(s).(freeListHead := b)
    ensures OnlyChanged(s, PushHead(s, b), Free(s) + {b})
  {
    var sb := SuperOf(s);
    var dd := Nodes(s);
    var w := NodeOf(Head(s), Zeros(ADDR_PER_NODE));
    var s1 := s[DataIndex(sb, b) := BlockOf(w)];
    DataBlockWrite(s, b, BlockOf(w));
    SuperWrite(s1, sb.(freeListHead := b));
    PushNode(dd, Head(s), b, dd[b - 1 := w]);
    WriteOnly(s, b, BlockOf(w), Free(s) + {b}, s1);
  }

  /** Freeing a block that is not free adds exactly that block to a well-formed
      free list, and writes nothing but the superblock and free blocks. */
  lemma FreeSpecOk(s: seq<Block>, b: Word)
    requires ListOk(s) && 1 <= b <= SuperOf(s).dataSize && b !in Free(s)
    ensures ListOk(FreeSpec(s, b)) && Free(FreeSpec(s, b)) == Free(s) + {b}
    ensures SuperOf(FreeSpec(s, b)) == SuperOf(s).(freeListHead := Head(FreeSpec(s, b)))
    ensures OnlyChanged(s, FreeSpec(s, b), Free(s) + {b})
  {
    var p := FirstSpace(Nodes(s), Chain(Nodes(s), Head(s)).value);
    if p.Some? {
      FreeIntoSlot(s, b, p.value.0, p.value.1);
    } else {
      FreeAsHead(s, b);
    }
  }

  // ------------------------------------------------ data_allocate, specified

  /** The disk with slot i of the head node cleared and `data` stored in the
      block r that the slot named. */
  ghost function TakeFromSlot(s: seq<Block>, i: nat, r: int, data: Block): seq<Block>
    requires Mounted(s) && 1 <= Head(s) <= SuperOf(s).dataSize && i < ADDR_PER_NODE
    requires 1 <= r <= SuperOf(s).dataSize
  {
    s[DataIndex(SuperOf(s), Head(s)) := BlockOf(WithSlot(Nodes(s)[Head(s) - 1], i, INVALID_DATA))]
     [DataIndex(SuperOf(s), r) := data]
  }

  /** The disk with the head's `next` made the head and `data` stored in the
      old head block. */
  ghost function TakeHeadBlock(s: seq<Block>, data: Block): seq<Block>
    requires Mounted(s) && 1 <= Head(s) <= SuperOf(s).dataSize
  {
    s[0 := EncodeSuper(SuperOf(s).(freeListHead := NodeNext(Nodes(s)[Head(s) - 1])))]
     [DataIndex(SuperOf(s), Head(s)) := data]
  }

  /** The disk and the block number `data_allocate(data)` leaves when the list
      is not empty: the first non-empty slot of the head node is cleared and
      the block it named receives `data`; when the head node has no such
      slot, the head block itself is handed out and its `next` becomes the
      head. */
  ghost function AllocSpec(s: seq<Block>, data: Block): (seq<Block>, int)
    requires ListOk(s) && Head(s) != INVALID_DATA
  {
    HeadInRange(s);
    var w := Nodes(s)[Head(s) - 1];
    var i := FirstSlot(NodeSlots(w), false);
    if i < ADDR_PER_NODE then
      HeadSlot(Nodes(s), Head(s), i);
      (TakeFromSlot(s, i, NodeSlots(w)[i], data), NodeSlots(w)[i] as int)
    else
      (TakeHeadBlock(s, data), Head(s) as int)
  }

  /** The first case of `data_allocate`: slot i of the head node names r. */
  lemma AllocFromSlot(s: seq<Block>, data: Block, i: nat, r: int)
    requires ListOk(s) && Head(s) != INVALID_DATA && Head(s) <= SuperOf(s).dataSize
    requires i < ADDR_PER_NODE && r == NodeSlots(Nodes(s)[Head(s) - 1])[i] != INVALID_DATA
    requires r <= SuperOf(s).dataSize
    ensures r in Free(s)
    ensures ListOk(TakeFromSlot(s, i, r, data))
    ensures Free(TakeFromSlot(s, i, r, data)) == Free(s) - {r}
    ensures SuperOf(TakeFromSlot(s, i, r, data)) == SuperOf(s)
    ensures DataBlock(Data(TakeFromSlot(s, i, r, data)), r) == data
    ensures OnlyChanged(s, TakeFromSlot(s, i, r, data), Free(s))
  {
    var dd := Nodes(s);
    var head := Head(s);
    var w' := WithSlot(dd[head - 1], i, INVALID_DATA);
    var s1 := s[DataIndex(SuperOf(s), head) := BlockOf(w')];
    var s' := TakeFromSlot(s, i, r, data);
    HeadSlot(dd, head, i);
    NodeIsFree(dd, head, head);
    DataBlockWrite(s, head, BlockOf(w'));
    DataBlockWrite(s1, r, data);
    TakeSlot(dd, head, i, r, BlockWords(data), dd[head - 1 := w'][r - 1 := BlockWords(data)]);
    WriteOnly(s, head, BlockOf(w'), Free(s), s1);
    WriteOnly(s1, r, data, Free(s), s');
    OnlyChangedTrans(s, s1, s', Free(s));
  }

  /** The second case of `data_allocate`: the head node's slots are empty and
      the head block itself is handed out. */
  lemma AllocHead(s: seq<Block>, data: Block)
    requires ListOk(s) && Head(s) != INVALID_DATA && Head(s) <= SuperOf(s).dataSize
    requires AllZeroWords(NodeSlots(Nodes(s)[Head(s) - 1]))
    ensures Head(s) in Free(s)
    ensures ListOk(TakeHeadBlock(s, data))
    ensures Free(TakeHeadBlock(s, data)) == Free(s) - {Head(s)}
    ensures SuperOf(TakeHeadBlock(s, data)) == SuperOf(s).(freeListHead := NodeNext(Nodes(s)[Head(s) - 1]))
    ensures DataBlock(Data(TakeHeadBlock(s, data)), Head(s)) == data
    ensures OnlyChanged(s, TakeHeadBlock(s, data), Free(s))
  {
    var dd := Nodes(s);
    var head := Head(s);
    var sb' := SuperOf(s).(freeListHead := NodeNext(dd[head - 1]));
    var s1 := s[0 := EncodeSuper(sb')];
    NodeIsFree(dd, head, head);
    SuperWrite(s, sb');
    DataBlockWrite(s1, head, data);
    TakeHead(dd, head, BlockWords(data), dd[head - 1 := BlockWords(data)]);
    WriteOnly(s1, head, data, Free(s), TakeHeadBlock(s, data));
  }

  /** Allocation hands out a free block holding `data`, removes exactly that
      block from the free list, and writes nothing but the superblock and
      blocks that were free. */
  lemma AllocSpecOk(s: seq<Block>, data: Block, s': seq<Block>, num: int)
    requires ListOk(s) && Head(s) != INVALID_DATA && (s', num) == AllocSpec(s, data)
    ensures num in Free(s)
    ensures ListOk(s') && Free(s') == Free(s) - {num}
    ensures SuperOf(s') == SuperOf(s).(freeListHead := Head(s'))
    ensures DataBlock(Data(s'), num) == data
    ensures OnlyChanged(s, s', Free(s))
  {
    HeadInRange(s);
    var w := Nodes(s)[Head(s) - 1];
    var i := FirstSlot(NodeSlots(w), false);
    if i < ADDR_PER_NODE {
      HeadSlot(Nodes(s), Head(s), i);
      AllocFromSlot(s, data, i, NodeSlots(w)[i]);
    } else {
      AllocHead(s, data);
    }
  }

  /** Freeing the block just allocated gives back the free blocks there were. */
  lemma AllocThenFree(s: seq<Block>, data: Block, s': seq<Block>, num: int)
    requires ListOk(s) && Head(s) != INVALID_DATA && (s', num) == AllocSpec(s, data)
    ensures ListOk(s') && 1 <= num <= SuperOf(s').dataSize && num !in Free(s')
    ensures ListOk(FreeSpec(s', num)) && Free(FreeSpec(s', num)) == Free(s)
  {
    AllocSpecOk(s, data, s', num);
    FreeSpecOk(s', num);
    RemoveAdd(Free(s), num);
  }

  lemma RemoveAdd(f: set<int>, x: int)
    requires x in f
    ensures (f - {x}) + {x} == f
  {
  }

  lemma DataBlockAt(dd: seq<Block>, k: int)
    requires 1 <= k <= |dd|
    ensures DataBlock(dd, k) == dd[k - 1]
  {
  }

  /** FirstSlot is the one index before which no slot matches. */
  lemma FirstSlotIs(a: seq<Word>, zero: bool, i: nat)
    requires i <= |a| && (i < |a| ==> (a[i] == INVALID_DATA) == zero)
    requires forall j :: 0 <= j < i ==> (a[j] == INVALID_DATA) != zero
    ensures FirstSlot(a, zero) == i
  {
  }

  // ------------------------------------------------------------ the methods

  /** `data_read`: data block 0 reads as zeros; on an error the caller's
      buffer is left as it was. */
  method DataRead(d: Disk, k: int, buf: Block) returns (r: int, out: Block)
    requires Consistent(d)
    ensures r == if !Ready(d) then DISC_UNINITIALIZED
                 else if k < 0 || k > SuperOf(d.Contents()).dataSize then INVALID_BLOCK
                 else SUCCESS
    ensures r == SUCCESS ==> out == DataBlock(Data(d.Contents()), k)
    ensures r != SUCCESS ==> out == buf
  {
    var ret, sb := ReadSuperblock(d);
    if ret != SUCCESS {
      return DISC_UNINITIALIZED, buf;
    }
    if k < 0 || k > sb.dataSize {
      return INVALID_BLOCK, buf;
    }
    if k == 0 {
      return SUCCESS, ZeroBlock();
    }
    DataIndexInDisk(d.Contents(), k);
    var rb, ob := d.ReadBlock(DataIndex(sb, k), Some(buf));
    return rb, ob.value;
  }

  /** `data_write`: block 0 cannot be written. */
  method DataWrite(d: Disk, k: int, buf: Block) returns (r: int)
    requires Consistent(d)
    modifies d.disk
    ensures Consistent(d)
    ensures r == if !Ready(d) then DISC_UNINITIALIZED
                 else if k <= 0 || k > old(SuperOf(d.Contents())).dataSize then INVALID_BLOCK
                 else SUCCESS
    ensures r == SUCCESS ==>
      d.Contents() == old(d.Contents())[DataIndex(old(SuperOf(d.Contents())), k) := buf]
    ensures r != SUCCESS ==> d.Contents() == old(d.Contents())
  {
    var ret, sb := ReadSuperblock(d);
    if ret != SUCCESS {
      return DISC_UNINITIALIZED;
    }
    if k <= 0 || k > sb.dataSize {
      return INVALID_BLOCK;
    }
    DataIndexInDisk(d.Contents(), k);
    DataBlockWrite(d.Contents(), k, buf);
    r := d.WriteBlock(DataIndex(sb, k), Some(buf));
  }

  /** When the walk of `data_free` finds slot i of node n empty. */
  lemma FreeFound(s: seq<Block>, b: Word, n: int, i: nat)
    requires ChainOk(s) && 1 <= b <= SuperOf(s).dataSize
    requires FirstSpace(Nodes(s), Chain(Nodes(s), Head(s)).value) == Some((n, i))
    ensures 1 <= n <= SuperOf(s).dataSize && i < ADDR_PER_NODE
    ensures FreeSpec(s, b) == FillSlot(s, n, i, b)
  {
  }

  /** When the walk of `data_free` finds no empty slot. */
  lemma FreeNotFound(s: seq<Block>, b: Word)
    requires ChainOk(s) && 1 <= b <= SuperOf(s).dataSize
    requires FirstSpace(Nodes(s), Chain(Nodes(s), Head(s)).value) == None
    ensures FreeSpec(s, b) == PushHead(s, b)
  {
  }

  /** The scan over the slots of a node, for the first empty one (`zero`) or
      the first one that names a block. */
  method ScanSlots(slots: seq<Word>, zero: bool) returns (i: nat)
    ensures i == FirstSlot(slots, zero)
  {
    i := 0;
    while i < |slots| && (slots[i] == INVALID_DATA) != zero
      invariant i <= |slots|
      invariant forall j :: 0 <= j < i ==> (slots[j] == INVALID_DATA) != zero
    {
      i := i + 1;
    }
    FirstSlotIs(slots, zero, i);
  }

  /** Reads data block k as a free-list node. */
  method ReadNode(d: Disk, k: int, ghost s: seq<Block>) returns (node: Node)
    requires Consistent(d) && Ready(d) && s == d.Contents() && 1 <= k <= SuperOf(s).dataSize
    ensures node == Nodes(s)[k - 1]
  {
    var _, nb := DataRead(d, k, ZeroBlock());
    DataBlockAt(Data(s), k);
    ViewAt(Data(s), k - 1);
    node := BlockWords(nb);
  }

  /** One step of the walk of `data_free`: reads node ns[k] and returns its
      first empty slot, its successor and its words. */
  method Visit(d: Disk, cur: int, ghost s: seq<Block>, ghost ns: seq<int>, ghost fs: seq<int>, ghost nx: seq<int>, ghost k: nat)
    returns (i: nat, next: int, node: Node)
    requires Consistent(d) && Ready(d) && s == d.Contents()
    requires Trail(Nodes(s), ns, fs, nx) && k < |ns| && cur == ns[k]
    ensures i == fs[k] && i <= ADDR_PER_NODE && node == Nodes(s)[cur - 1]
    ensures next == (if k + 1 < |ns| then ns[k + 1] else INVALID_DATA)
    ensures k + 1 < |ns| ==> next != INVALID_DATA
  {
    TrailAt(Nodes(s), ns, fs, nx, k);
    if k + 1 < |ns| {
      TrailAt(Nodes(s), ns, fs, nx, k + 1);
    }
    node := ReadNode(d, cur, s);
    i := ScanSlots(NodeSlots(node), true);
    next := NodeNext(node);
  }

  /** The walk of `data_free` along the chain from the head: the first node
      with an empty slot, that slot and the node's words; `cur` is 0 when no
      node has one. The walk only reads. */
  method FindSpace(d: Disk) returns (cur: int, i: nat, node: Node)
    requires Consistent(d) && Ready(d) && ChainOk(d.Contents())
    ensures var p := FirstSpace(Nodes(d.Contents()), Chain(Nodes(d.Contents()), Head(d.Contents())).value);
      && (p.None? <==> cur == INVALID_DATA)
      && (p.Some? ==> p.value == (cur, i) && node == Nodes(d.Contents())[cur - 1])
  {
    ghost var s := d.Contents();
    ghost var dd := Nodes(s);
    ghost var ns := Chain(dd, Head(s)).value;
    ghost var fs, nx := TrailOfChain(dd, Head(s), |dd|);
    var _, sb := ReadSuperblock(d);
    ghost var k;
    cur, i, node, k := Walk(d, sb.freeListHead, s, ns, fs, nx);
    SpaceResult(dd, ns, fs, nx, k);
  }

  /** The loop of the walk, from node `head` along the chain ns: on return no
      node before ns[k] has an empty slot, and either the walk ran off the end
      or node ns[k] has one at slot i. */
  method Walk(d: Disk, head: int, ghost s: seq<Block>, ghost ns: seq<int>, ghost fs: seq<int>, ghost nx: seq<int>)
    returns (cur: int, i: nat, node: Node, ghost k: nat)
    requires Consistent(d) && Ready(d) && s == d.Contents() && Trail(Nodes(s), ns, fs, nx)
    requires (ns == [] <==> head == INVALID_DATA) && (ns != [] ==> ns[0] == head)
    ensures k <= |ns| && (cur == INVALID_DATA <==> k == |ns|)
    ensures forall j :: 0 <= j < k ==> fs[j] == ADDR_PER_NODE
    ensures k < |ns| ==> cur == ns[k] && i == fs[k] < ADDR_PER_NODE && node == Nodes(s)[cur - 1]
  {
    cur := head;
    node := Zeros(WORDS_PER_BLOCK);
    i := ADDR_PER_NODE;
    k := 0;
    while cur != INVALID_DATA
      invariant k <= |ns| && cur == if k < |ns| then ns[k] else INVALID_DATA
      invariant k < |ns| ==> cur != INVALID_DATA
      invariant forall j :: 0 <= j < k ==> fs[j] == ADDR_PER_NODE
      decreases |ns| - k
    {
      var next;
      i, next, node := Visit(d, cur, s, ns, fs, nx, k);
      if i < ADDR_PER_NODE {
        return;
      }
      assert fs[k] == ADDR_PER_NODE;
      cur := next;
      k := k + 1;
    }
  }

  /** `data_free`: the block goes into the slot the walk found, or becomes
      the new head. The chain must end inside the data region (otherwise the
      walk does not end). */
  method DataFree(d: Disk, b: int) returns (r: int)
    requires Consistent(d) && (Ready(d) ==> ChainOk(d.Contents()))
    modifies d.disk
    ensures Consistent(d)
    ensures r == if !Ready(d) then DISC_UNINITIALIZED
                 else if b <= 0 || b > old(SuperOf(d.Contents())).dataSize then INVALID_BLOCK
                 else SUCCESS
    ensures r == SUCCESS ==> d.Contents() == FreeSpec(old(d.Contents()), b)
    ensures r != SUCCESS ==> d.Contents() == old(d.Contents())
  {
    var ret, sb := ReadSuperblock(d);
    if ret != SUCCESS {
      return DISC_UNINITIALIZED;
    }
    if b <= 0 || b > sb.dataSize {
      return INVALID_BLOCK;
    }
    ghost var s := d.Contents();
    var cur, i, node := FindSpace(d);
    if cur != INVALID_DATA {
      FreeFound(s, b, cur, i);
      FillFree(d, cur, i, node, b);
      return SUCCESS;
    }
    FreeNotFound(s, b);
    PushFree(d, sb, b);
    return SUCCESS;
  }

  /** The freed block goes into empty slot i of node n. */
  method FillFree(d: Disk, n: int, i: nat, node: Node, b: Word)
    requires Consistent(d) && Ready(d) && 1 <= n <= SuperOf(d.Contents()).dataSize && i < ADDR_PER_NODE
    requires node == Nodes(d.Contents())[n - 1]
    modifies d.disk
    ensures Consistent(d) && d.Contents() == FillSlot(old(d.Contents()), n, i, b)
  {
    var _ := DataWrite(d, n, BlockOf(WithSlot(node, i, b)));
  }

  /** The freed block becomes a node of its own that points at the old head,
      and the superblock names it as the new head. */
  method PushFree(d: Disk, sb: Superblock, b: int)
    requires Consistent(d) && Ready(d) && sb == SuperOf(d.Contents())
    requires 1 <= b <= sb.dataSize
    modifies d.disk
    ensures Consistent(d) && d.Contents() == PushHead(old(d.Contents()), b)
  {
    var _ := DataWrite(d, b, BlockOf(NodeOf(sb.freeListHead, Zeros(ADDR_PER_NODE))));
    MoveHead(d, sb, b);
  }

  /** What `data_allocate` hands out when slot i is the first non-empty slot
      of the head node. */
  lemma AllocFound(s: seq<Block>, data: Block, i: nat)
    requires ListOk(s) && Head(s) != INVALID_DATA && Head(s) <= SuperOf(s).dataSize
    requires i == FirstSlot(NodeSlots(Nodes(s)[Head(s) - 1]), false) < ADDR_PER_NODE
    ensures var r := NodeSlots(Nodes(s)[Head(s) - 1])[i] as int;
      && 1 <= r <= SuperOf(s).dataSize && r != Head(s)
      && AllocSpec(s, data) == (TakeFromSlot(s, i, r, data), r)
  {
    HeadSlot(Nodes(s), Head(s), i);
  }

  /** What `data_allocate` hands out when the head node has no block in its slots. */
  lemma AllocNotFound(s: seq<Block>, data: Block)
    requires ListOk(s) && Head(s) != INVALID_DATA && Head(s) <= SuperOf(s).dataSize
    requires FirstSlot(NodeSlots(Nodes(s)[Head(s) - 1]), false) == ADDR_PER_NODE
    ensures AllocSpec(s, data) == (TakeHeadBlock(s, data), Head(s) as int)
  {
  }

  /** `data_allocate`: on success `num` is the block handed out; on an error
      the caller's `num0` is left as it was. */
  method DataAllocate(d: Disk, newData: Block, num0: int) returns (r: int, num: int)
    requires Consistent(d) && (Ready(d) ==> ListOk(d.Contents()))
    modifies d.disk
    ensures Consistent(d)
    ensures r == if !Ready(d) then DISC_UNINITIALIZED
                 else if old(Head(d.Contents())) == INVALID_DATA then DATA_FULL
                 else SUCCESS
    ensures r == SUCCESS ==> (d.Contents(), num) == AllocSpec(old(d.Contents()), newData)
    ensures r != SUCCESS ==> d.Contents() == old(d.Contents()) && num == num0
  {
    var ret, sb := ReadSuperblock(d);
    if ret != SUCCESS {
      return DISC_UNINITIALIZED, num0;
    }
    if sb.freeListHead == INVALID_DATA {
      return DATA_FULL, num0;
    }
    ghost var s := d.Contents();
    HeadInRange(s);
    num := sb.freeListHead;
    var cur := ReadNode(d, num, s);
    var i := ScanSlots(NodeSlots(cur), false);
    if i < ADDR_PER_NODE {
      AllocFound(s, newData, i);
      num := NodeSlots(cur)[i];
      r := WriteTakeSlot(d, sb, i, cur, num, newData);
      return;
    }
    AllocNotFound(s, newData);
    r := WriteTakeHead(d, sb, cur, newData);
  }

  /** The slot of the head node is emptied, then the block it named gets the
      new data. */
  method WriteTakeSlot(d: Disk, sb: Superblock, i: nat, cur: Node, num: int, newData: Block) returns (r: int)
    requires Consistent(d) && Ready(d) && sb == SuperOf(d.Contents())
    requires 1 <= sb.freeListHead <= sb.dataSize && cur == Nodes(d.Contents())[sb.freeListHead - 1]
    requires i < ADDR_PER_NODE && 1 <= num <= sb.dataSize
    modifies d.disk
    ensures Consistent(d) && r == SUCCESS
    ensures d.Contents() == TakeFromSlot(old(d.Contents()), i, num, newData)
  {
    ghost var s := d.Contents();
    var _ := DataWrite(d, sb.freeListHead, BlockOf(WithSlot(cur, i, INVALID_DATA)));
    DataBlockWrite(s, sb.freeListHead, BlockOf(WithSlot(cur, i, INVALID_DATA)));
    ghost var s1 := d.Contents();
    assert s1 == s[DataIndex(SuperOf(s), Head(s)) := BlockOf(WithSlot(cur, i, INVALID_DATA))];
    assert SuperOf(s1) == sb;
    r := DataWrite(d, num, newData);
    assert d.Contents() == s1[DataIndex(sb, num) := newData];
    assert TakeFromSlot(s, i, num, newData) == s1[DataIndex(SuperOf(s), num) := newData];
  }

  /** The head node itself is handed out: the superblock moves the head to the
      next node, then the block gets the new data. */
  method WriteTakeHead(d: Disk, sb: Superblock, cur: Node, newData: Block) returns (r: int)
    requires Consistent(d) && Ready(d) && sb == SuperOf(d.Contents())
    requires 1 <= sb.freeListHead <= sb.dataSize && cur == Nodes(d.Contents())[sb.freeListHead - 1]
    modifies d.disk
    ensures Consistent(d) && r == SUCCESS
    ensures d.Contents() == TakeHeadBlock(old(d.Contents()), newData)
  {
    ghost var s := d.Contents();
    var num := sb.freeListHead;
    assert NodeNext(cur) == NodeNext(Nodes(s)[Head(s) - 1]);
    MoveHead(d, sb, NodeNext(cur));
    assert DataIndex(SuperOf(d.Contents()), num) == DataIndex(SuperOf(s), Head(s));
    r := DataWrite(d, num, newData);
  }

  /** `write_superblock` with only the head of the free list changed. */
  method MoveHead(d: Disk, sb: Superblock, h: Word)
    requires Consistent(d) && Ready(d) && sb == SuperOf(d.Contents())
    modifies d.disk
    ensures Consistent(d) && Ready(d)
    ensures d.Contents() == old(d.Contents())[0 := EncodeSuper(sb.(freeListHead := h))]
    ensures SuperOf(d.Contents()) == sb.(freeListHead := h)
  {
    SuperWrite(d.Contents(), sb.(freeListHead := h));
    var _ := WriteSuperblock(d, sb.(freeListHead := h));
  }
}
