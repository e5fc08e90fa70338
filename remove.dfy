// `rm_nth_datablock` (layer2.c): removing the data block behind logical
// block n of a file, and every indirection block on its route that is left
// holding only zeros.
//
// The C code makes two passes. The first reads the indirection blocks from
// the zone root down, stopping at a zero entry; the second goes back up
// from there: it frees the block below, clears its entry in the copy it
// read, writes that copy back, and stops at the first block that still
// holds a non-zero entry. `Prune` states the same thing as a recursion on
// the level: the recursive call is the part of the route below, and the
// work after it is the second pass at this level.
module Remove {
  import opened Globals
  import opened Codec
  import opened BlockStore
  import opened Layout
  import opened FreeList
  import opened SuperblockIO
  import opened DataBlocks
  import opened Tree
  import opened Indirect

  // ------------------------------------------- the route, on the word view

  /** Indirection block a at level j ends all zero: with its entry on the
      route cleared it holds only zeros, and the block that entry named (if
      it named an indirection block) ended all zero too. */
  ghost predicate Emptied(ns: seq<Node>, a: int, off: nat, j: nat)
    requires 1 <= a <= |ns| && off < Pow(P, j + 1)
    decreases j
  {
    var c := Entry(ns, a, Digit(off, j));
    && AllZeroWords(ns[a - 1][Digit(off, j) := 0])
    && (c == 0 || j == 0 || (1 <= c <= |ns| && Emptied(ns, c, Rest(off, j), j - 1)))
  }

  /** The blocks freed below indirection block a at level j: the data block
      at the end of the route, and each indirection block below a that ends
      all zero. */
  ghost function Dropped(ns: seq<Node>, a: int, off: nat, j: nat): set<int>
    requires 1 <= a <= |ns| && off < Pow(P, j + 1)
    decreases j
  {
    var c := Entry(ns, a, Digit(off, j));
    if c < 1 || c > |ns| then {}
    else if j == 0 then {c}
    else Dropped(ns, c, Rest(off, j), j - 1) + (if Emptied(ns, c, Rest(off, j), j - 1) then {c} else {})
  }

  // ------------------------------------------------------- the two passes

  /** State and result after the part of `rm_nth_datablock` that handles one
      indirection block, and whether that block ended all zero (so that the
      level above frees it). */
  datatype Cut = Cut(disk: seq<Block>, r: int, empty: bool)

  /** The second pass at one level: `data_free(c)`, then block a written
      back with the words w it held when it was read, entry k cleared. */
  ghost function Drop(s: seq<Block>, a: int, w: Node, k: nat, c: int): Cut
    requires ListOk(s) && 1 <= a <= SuperOf(s).dataSize && k < P
    requires 1 <= c <= SuperOf(s).dataSize ==> c !in Free(s)
  {
    if c < 1 || c > SuperOf(s).dataSize then Cut(s, INVALID_BLOCK, false)
    else
      FreeShape(s, c);
      var s2 := FreeSpec(s, c);
      Cut(s2[DataIndex(SuperOf(s2), a) := BlockOf(w[k := 0])], SUCCESS, AllZeroWords(w[k := 0]))
  }

  /** What a successful `Drop` did, as one fact: c joined the free list and
      a holds w with entry k cleared; nothing else but free blocks changed. */
  ghost predicate Dropping(s: seq<Block>, a: int, w: Node, k: nat, c: int, g: Cut)
    requires ListOk(s) && 1 <= a <= SuperOf(s).dataSize && k < P
  {
    && g.r == SUCCESS && g.empty == (AllZeroWords(w[k := 0]))
    && 1 <= c <= SuperOf(s).dataSize
    && ListOk(g.disk) && Free(g.disk) == Free(s) + {c}
    && SuperOf(g.disk).dataSize == SuperOf(s).dataSize && SuperOf(g.disk).dataOffset == SuperOf(s).dataOffset && SuperOf(g.disk).numInodes == SuperOf(s).numInodes
    && Nodes(g.disk)[a - 1] == w[k := 0]
    && OnlyChanged(s, g.disk, Free(s) + {c, a})
  }

  /** What `Drop` needs of `data_free`: the regions stay where they are. */
  lemma FreeShape(s: seq<Block>, c: int)
    requires ListOk(s) && 1 <= c <= SuperOf(s).dataSize && c !in Free(s)
    ensures Mounted(FreeSpec(s, c)) && SuperOf(FreeSpec(s, c)).dataSize == SuperOf(s).dataSize
    ensures SuperOf(FreeSpec(s, c)).dataOffset == SuperOf(s).dataOffset && SuperOf(FreeSpec(s, c)).numInodes == SuperOf(s).numInodes
  {
    FreeSpecOk(s, c);
  }

  lemma DropOk(s: seq<Block>, a: int, w: Node, k: nat, c: int, g: Cut)
    requires ListOk(s) && 1 <= a <= SuperOf(s).dataSize && k < P && a !in Free(s)
    requires 1 <= c <= SuperOf(s).dataSize && c !in Free(s) && c != a && g == Drop(s, a, w, k, c)
    ensures Dropping(s, a, w, k, c, g)
  {
    var s2 := FreeSpec(s, c);
    FreeSpecOk(s, c);
    assert g == Cut(s2[DataIndex(SuperOf(s2), a) := BlockOf(w[k := 0])], SUCCESS, AllZeroWords(w[k := 0]));
    WriteBack(s, c, s2, a, w[k := 0], g.disk);
  }

  /** The write at the end of `Drop`, after c was freed. */
  lemma WriteBack(s: seq<Block>, c: int, s2: seq<Block>, a: int, w: Node, s3: seq<Block>)
    requires ListOk(s) && ListOk(s2) && 1 <= a <= SuperOf(s).dataSize && a !in Free(s) && c != a
    requires Free(s2) == Free(s) + {c} && OnlyChanged(s, s2, Free(s) + {c})
    requires SuperOf(s2).dataSize == SuperOf(s).dataSize && SuperOf(s2).dataOffset == SuperOf(s).dataOffset && SuperOf(s2).numInodes == SuperOf(s).numInodes
    requires s3 == s2[DataIndex(SuperOf(s2), a) := BlockOf(w)]
    ensures ListOk(s3) && Free(s3) == Free(s) + {c} && Nodes(s3)[a - 1] == w
    ensures SuperOf(s3).dataSize == SuperOf(s).dataSize && SuperOf(s3).dataOffset == SuperOf(s).dataOffset && SuperOf(s3).numInodes == SuperOf(s).numInodes
    ensures OnlyChanged(s, s3, Free(s) + {c, a})
  {
    WriteKeepsList(s2, a, BlockOf(w));
    WriteOnly(s2, a, BlockOf(w), Free(s) + {c, a}, s3);
    Widen(s, s2, Free(s) + {c}, Free(s) + {c, a});
    OnlyChangedTrans(s, s2, s3, Free(s) + {c, a});
  }

  /** Both passes from indirection block addr at level j. A block number out
      of range fails the read of the first pass (and nothing is written); a
      zero entry ends the first pass; at level 0 the entry is the data block. */
  ghost function Prune(s: seq<Block>, addr: int, off: nat, j: nat): Cut
    requires ListOk(s) && addr != 0 && off < Pow(P, j + 1)
    requires Clean(s, addr, off, j) && Distinct(Nodes(s), addr, off, j)
    decreases j, 0
  {
    if addr < 0 || addr > SuperOf(s).dataSize then Cut(s, INVALID_BLOCK, false)
    else
      var w := Nodes(s)[addr - 1];
      var k := Digit(off, j);
      var c := Entry(Nodes(s), addr, k);
      if c == 0 then Cut(s, SUCCESS, AllZeroWords(w))
      else if j == 0 then Drop(s, addr, w, k, c)
      else
        PruneKeeps(s, c, Rest(off, j), j - 1);
        var below := Prune(s, c, Rest(off, j), j - 1);
        if below.r != SUCCESS || !below.empty then below
        else Drop(below.disk, addr, w, k, c)
  }

  /** What `Prune` keeps, as one fact: the free list stays well formed and
      only grows, by blocks on the route below addr, and nothing but free
      blocks and blocks on the route changes. */
  ghost predicate Pruned(s: seq<Block>, addr: int, off: nat, j: nat, s': seq<Block>)
    requires ListOk(s) && off < Pow(P, j + 1)
  {
    && ListOk(s')
    && SuperOf(s').dataSize == SuperOf(s).dataSize && SuperOf(s').dataOffset == SuperOf(s).dataOffset && SuperOf(s').numInodes == SuperOf(s).numInodes
    && Free(s) <= Free(s') <= Free(s) + (Reach(Nodes(s), addr, off, j) - {addr})
    && OnlyChanged(s, s', Free(s) + Reach(Nodes(s), addr, off, j))
  }

  /** `Pruned`, plus: a failed `Prune` never reports its block empty, and
      addr itself is not freed. */
  ghost predicate Kept(s: seq<Block>, addr: int, off: nat, j: nat, g: Cut)
    requires ListOk(s) && off < Pow(P, j + 1)
  {
    && Pruned(s, addr, off, j, g.disk)
    && (g.r != SUCCESS ==> !g.empty)
    && (1 <= addr <= SuperOf(s).dataSize ==> addr !in Free(g.disk))
  }

  lemma {:induction false} PruneKeeps(s: seq<Block>, addr: int, off: nat, j: nat)
    requires ListOk(s) && addr != 0 && off < Pow(P, j + 1)
    requires Clean(s, addr, off, j) && Distinct(Nodes(s), addr, off, j)
    ensures Kept(s, addr, off, j, Prune(s, addr, off, j))
    decreases j, 2
  {
    if 1 <= addr <= SuperOf(s).dataSize {
      var c := Entry(Nodes(s), addr, Digit(off, j));
      if c != 0 && j > 0 {
        KeepsUp(s, addr, off, j);
      } else if c != 0 && 1 <= c <= SuperOf(s).dataSize {
        KeepsLeaf(s, addr, off, j);
      }
    }
  }

  /** The data block at level 0 freed. */
  lemma KeepsLeaf(s: seq<Block>, addr: int, off: nat, j: nat)
    requires ListOk(s) && 1 <= addr <= SuperOf(s).dataSize && off < Pow(P, j + 1) && j == 0
    requires Clean(s, addr, off, j) && Distinct(Nodes(s), addr, off, j)
    requires 1 <= Entry(Nodes(s), addr, Digit(off, j)) <= SuperOf(s).dataSize
    ensures Kept(s, addr, off, j, Prune(s, addr, off, j))
    decreases j, 1
  {
    var w := Nodes(s)[addr - 1];
    var k := Digit(off, j);
    var c := Entry(Nodes(s), addr, k);
    var g := Prune(s, addr, off, j);
    assert g == Drop(s, addr, w, k, c);
    DropOk(s, addr, w, k, c, g);
    assert Reach(Nodes(s), addr, off, j) == {addr, c};
  }

  lemma {:induction false} KeepsUp(s: seq<Block>, addr: int, off: nat, j: nat)
    requires ListOk(s) && 1 <= addr <= SuperOf(s).dataSize && off < Pow(P, j + 1) && j > 0
    requires Clean(s, addr, off, j) && Distinct(Nodes(s), addr, off, j)
    requires Entry(Nodes(s), addr, Digit(off, j)) != 0
    ensures Kept(s, addr, off, j, Prune(s, addr, off, j))
    decreases j, 1
  {
    var w := Nodes(s)[addr - 1];
    var k := Digit(off, j);
    var c := Entry(Nodes(s), addr, k);
    PruneKeeps(s, c, Rest(off, j), j - 1);
    var below := Prune(s, c, Rest(off, j), j - 1);
    var g := Prune(s, addr, off, j);
    KeepsPass(s, addr, off, j, below.disk);
    if below.r == SUCCESS && below.empty {
      assert 1 <= c <= SuperOf(s).dataSize;
      assert g == Drop(below.disk, addr, w, k, c);
      DropOk(below.disk, addr, w, k, c, g);
      KeepsLink(s, addr, off, j, below.disk, g);
    } else {
      assert g == below;
    }
  }

  /** The route below addr kept what `Pruned` says, so addr's route does. */
  lemma KeepsPass(s: seq<Block>, addr: int, off: nat, j: nat, s1: seq<Block>)
    requires ListOk(s) && 1 <= addr <= SuperOf(s).dataSize && off < Pow(P, j + 1) && j > 0
    requires Clean(s, addr, off, j) && Distinct(Nodes(s), addr, off, j)
    requires Pruned(s, Entry(Nodes(s), addr, Digit(off, j)), Rest(off, j), j - 1, s1)
    ensures Pruned(s, addr, off, j, s1)
    ensures addr !in Free(s1) && Entry(Nodes(s), addr, Digit(off, j)) !in Free(s1)
  {
    var c := Entry(Nodes(s), addr, Digit(off, j));
    var R := Reach(Nodes(s), c, Rest(off, j), j - 1);
    assert Reach(Nodes(s), addr, off, j) == {addr} + R;
    Widen(s, s1, Free(s) + R, Free(s) + ({addr} + R));
  }

  /** After the route below addr was pruned to s1, the `Drop` at addr keeps
      what `Pruned` says. */
  lemma KeepsLink(s: seq<Block>, addr: int, off: nat, j: nat, s1: seq<Block>, g: Cut)
    requires ListOk(s) && 1 <= addr <= SuperOf(s).dataSize && off < Pow(P, j + 1) && j > 0
    requires Clean(s, addr, off, j) && Distinct(Nodes(s), addr, off, j)
    requires Pruned(s, addr, off, j, s1)
    requires Dropping(s1, addr, Nodes(s)[addr - 1], Digit(off, j), Entry(Nodes(s), addr, Digit(off, j)), g)
    ensures Pruned(s, addr, off, j, g.disk)
  {
    var c := Entry(Nodes(s), addr, Digit(off, j));
    var R := Reach(Nodes(s), c, Rest(off, j), j - 1);
    assert Reach(Nodes(s), addr, off, j) == {addr} + R;
    assert c in R;
    Widen(s1, g.disk, Free(s1) + {c, addr}, Free(s) + ({addr} + R));
    OnlyChangedTrans(s, s1, g.disk, Free(s) + ({addr} + R));
  }

  /** `Prune` succeeds exactly when the lookup from addr ends at 0 or at a
      data block; otherwise it fails with `INVALID_BLOCK` and writes nothing. */
  lemma {:induction false} PruneResult(s: seq<Block>, addr: int, off: nat, j: nat)
    requires ListOk(s) && addr != 0 && off < Pow(P, j + 1)
    requires Clean(s, addr, off, j) && Distinct(Nodes(s), addr, off, j)
    ensures var g := Prune(s, addr, off, j);
      && (g.r == SUCCESS <==> 0 <= Tree.Walk(true, Nodes(s), addr, off, j) <= SuperOf(s).dataSize)
      && (g.r == SUCCESS ==> 1 <= addr <= SuperOf(s).dataSize)
      && (g.r != SUCCESS ==> g.r == INVALID_BLOCK && g.disk == s)
    decreases j, 2
  {
    if 1 <= addr <= SuperOf(s).dataSize {
      var w := Nodes(s)[addr - 1];
      var k := Digit(off, j);
      var c := Entry(Nodes(s), addr, k);
      if c != 0 && 1 <= c <= SuperOf(s).dataSize && j == 0 {
        DropOk(s, addr, w, k, c, Prune(s, addr, off, j));
      } else if c != 0 && j > 0 {
        ResultUp(s, addr, off, j);
      }
    }
  }

  lemma {:induction false} ResultUp(s: seq<Block>, addr: int, off: nat, j: nat)
    requires ListOk(s) && 1 <= addr <= SuperOf(s).dataSize && off < Pow(P, j + 1) && j > 0
    requires Clean(s, addr, off, j) && Distinct(Nodes(s), addr, off, j)
    requires Entry(Nodes(s), addr, Digit(off, j)) != 0
    ensures var g := Prune(s, addr, off, j);
      && (g.r == SUCCESS <==> 0 <= Tree.Walk(true, Nodes(s), addr, off, j) <= SuperOf(s).dataSize)
      && (g.r != SUCCESS ==> g.r == INVALID_BLOCK && g.disk == s)
    decreases j, 1
  {
    var w := Nodes(s)[addr - 1];
    var k := Digit(off, j);
    var c := Entry(Nodes(s), addr, k);
    PruneKeeps(s, c, Rest(off, j), j - 1);
    PruneResult(s, c, Rest(off, j), j - 1);
    var below := Prune(s, c, Rest(off, j), j - 1);
    if below.r == SUCCESS && below.empty {
      KeepsPass(s, addr, off, j, below.disk);
      DropOk(below.disk, addr, w, k, c, Prune(s, addr, off, j));
    }
  }

  /** What a successful `Prune` from addr leaves, as one fact: the lookup
      from addr finds 0, and addr is reported empty exactly when it ends all
      zero. */
  ghost predicate Cleared(s: seq<Block>, addr: int, off: nat, j: nat, g: Cut)
    requires ListOk(s) && off < Pow(P, j + 1)
  {
    && Mounted(g.disk)
    && (g.r == SUCCESS ==>
      && 1 <= addr <= SuperOf(s).dataSize
      && Tree.Walk(true, Nodes(g.disk), addr, off, j) == 0
      && g.empty == Emptied(Nodes(s), addr, off, j))
  }

  lemma {:induction false} PruneClears(s: seq<Block>, addr: int, off: nat, j: nat)
    requires ListOk(s) && addr != 0 && off < Pow(P, j + 1)
    requires Clean(s, addr, off, j) && Distinct(Nodes(s), addr, off, j)
    ensures Cleared(s, addr, off, j, Prune(s, addr, off, j))
    decreases j, 2
  {
    PruneKeeps(s, addr, off, j);
    if 1 <= addr <= SuperOf(s).dataSize {
      var c := Entry(Nodes(s), addr, Digit(off, j));
      if c != 0 && j > 0 {
        ClearsUp(s, addr, off, j);
      } else if c == 0 {
        ClearsZero(s, addr, off, j);
      } else if 1 <= c <= SuperOf(s).dataSize {
        ClearsData(s, addr, off, j);
      }
    }
  }

  /** A zero entry: nothing is written. */
  lemma ClearsZero(s: seq<Block>, addr: int, off: nat, j: nat)
    requires ListOk(s) && 1 <= addr <= SuperOf(s).dataSize && off < Pow(P, j + 1)
    requires Clean(s, addr, off, j) && Distinct(Nodes(s), addr, off, j)
    requires Entry(Nodes(s), addr, Digit(off, j)) == 0
    ensures var g := Prune(s, addr, off, j);
      && g == Cut(s, SUCCESS, AllZeroWords(Nodes(s)[addr - 1]))
      && Tree.Walk(true, Nodes(g.disk), addr, off, j) == 0 && g.empty == Emptied(Nodes(s), addr, off, j)
  {
    var w := Nodes(s)[addr - 1];
    assert w[Digit(off, j) := 0] == w;
  }

  /** The data block at level 0. */
  lemma ClearsData(s: seq<Block>, addr: int, off: nat, j: nat)
    requires ListOk(s) && 1 <= addr <= SuperOf(s).dataSize && off < Pow(P, j + 1) && j == 0
    requires Clean(s, addr, off, j) && Distinct(Nodes(s), addr, off, j)
    requires 1 <= Entry(Nodes(s), addr, Digit(off, j)) <= SuperOf(s).dataSize
    ensures Mounted(Prune(s, addr, off, j).disk)
    ensures var g := Prune(s, addr, off, j);
      Tree.Walk(true, Nodes(g.disk), addr, off, j) == 0 && g.empty == Emptied(Nodes(s), addr, off, j)
  {
    var w := Nodes(s)[addr - 1];
    var k := Digit(off, j);
    var c := Entry(Nodes(s), addr, k);
    var g := Prune(s, addr, off, j);
    assert g == Drop(s, addr, w, k, c);
    DropOk(s, addr, w, k, c, g);
    ClearsLeaf(s, addr, off, j, g);
  }

  /** The data block freed at level 0 and its entry cleared. */
  lemma ClearsLeaf(s: seq<Block>, addr: int, off: nat, j: nat, g: Cut)
    requires ListOk(s) && 1 <= addr <= SuperOf(s).dataSize && off < Pow(P, j + 1) && j == 0
    requires Dropping(s, addr, Nodes(s)[addr - 1], Digit(off, j), Entry(Nodes(s), addr, Digit(off, j)), g)
    ensures Tree.Walk(true, Nodes(g.disk), addr, off, j) == 0 && g.empty == Emptied(Nodes(s), addr, off, j)
  {
    assert Entry(Nodes(g.disk), addr, Digit(off, j)) == 0;
  }

  lemma {:induction false} ClearsUp(s: seq<Block>, addr: int, off: nat, j: nat)
    requires ListOk(s) && 1 <= addr <= SuperOf(s).dataSize && off < Pow(P, j + 1) && j > 0
    requires Clean(s, addr, off, j) && Distinct(Nodes(s), addr, off, j)
    requires Entry(Nodes(s), addr, Digit(off, j)) != 0
    ensures Cleared(s, addr, off, j, Prune(s, addr, off, j))
    decreases j, 1
  {
    var w := Nodes(s)[addr - 1];
    var k := Digit(off, j);
    var c := Entry(Nodes(s), addr, k);
    PruneClears(s, c, Rest(off, j), j - 1);
    PruneKeeps(s, c, Rest(off, j), j - 1);
    var below := Prune(s, c, Rest(off, j), j - 1);
    var g := Prune(s, addr, off, j);
    if below.r == SUCCESS && below.empty {
      assert g == Drop(below.disk, addr, w, k, c);
      ClearsDrop(s, addr, off, j, below, g);
    } else {
      assert g == below;
      ClearsKept(s, addr, off, j, below);
    }
  }

  /** The block below ended all zero: it is freed and addr's entry cleared. */
  lemma ClearsDrop(s: seq<Block>, addr: int, off: nat, j: nat, below: Cut, g: Cut)
    requires ListOk(s) && 1 <= addr <= SuperOf(s).dataSize && off < Pow(P, j + 1) && j > 0
    requires Clean(s, addr, off, j) && Distinct(Nodes(s), addr, off, j)
    requires var c := Entry(Nodes(s), addr, Digit(off, j));
      && c != 0 && Pruned(s, c, Rest(off, j), j - 1, below.disk)
      && Cleared(s, c, Rest(off, j), j - 1, below) && below.r == SUCCESS && below.empty
      && c !in Free(below.disk)
      && g == Drop(below.disk, addr, Nodes(s)[addr - 1], Digit(off, j), c)
    ensures Cleared(s, addr, off, j, g)
  {
    var c := Entry(Nodes(s), addr, Digit(off, j));
    KeepsPass(s, addr, off, j, below.disk);
    NotSelf(Nodes(s), addr, off, j);
    DropOk(below.disk, addr, Nodes(s)[addr - 1], Digit(off, j), c, g);
    ClearsLink(s, addr, off, j, below.disk, g);
  }

  /** On a route that meets no block twice, an entry never names its own block. */
  lemma NotSelf(ns: seq<Node>, addr: int, off: nat, j: nat)
    requires 1 <= addr <= |ns| && off < Pow(P, j + 1) && j > 0 && Distinct(ns, addr, off, j)
    requires 1 <= Entry(ns, addr, Digit(off, j)) <= |ns|
    ensures Entry(ns, addr, Digit(off, j)) != addr
  {
    var c := Entry(ns, addr, Digit(off, j));
    assert c in Reach(ns, c, Rest(off, j), j - 1);
  }

  /** The route below failed or still holds something: its result is
      passed up unchanged. */
  lemma ClearsKept(s: seq<Block>, addr: int, off: nat, j: nat, below: Cut)
    requires ListOk(s) && 1 <= addr <= SuperOf(s).dataSize && off < Pow(P, j + 1) && j > 0
    requires Clean(s, addr, off, j) && Distinct(Nodes(s), addr, off, j)
    requires var c := Entry(Nodes(s), addr, Digit(off, j));
      && c != 0 && Pruned(s, c, Rest(off, j), j - 1, below.disk)
      && Cleared(s, c, Rest(off, j), j - 1, below) && !(below.r == SUCCESS && below.empty)
    ensures Cleared(s, addr, off, j, below)
  {
    if below.r == SUCCESS {
      ClearsPass(s, addr, off, j, below.disk);
    }
  }

  /** addr's entry cleared after the block below ended all zero: the lookup
      from addr ends there. */
  lemma ClearsLink(s: seq<Block>, addr: int, off: nat, j: nat, s1: seq<Block>, g: Cut)
    requires ListOk(s) && 1 <= addr <= SuperOf(s).dataSize && off < Pow(P, j + 1) && j > 0
    requires ListOk(s1) && SuperOf(s1).dataSize == SuperOf(s).dataSize
    requires var c := Entry(Nodes(s), addr, Digit(off, j));
      1 <= c <= SuperOf(s).dataSize && Emptied(Nodes(s), c, Rest(off, j), j - 1)
      && Dropping(s1, addr, Nodes(s)[addr - 1], Digit(off, j), c, g)
    ensures Tree.Walk(true, Nodes(g.disk), addr, off, j) == 0 && g.empty == Emptied(Nodes(s), addr, off, j)
  {
    assert Entry(Nodes(g.disk), addr, Digit(off, j)) == 0;
  }

  /** addr untouched above a route that now ends in 0. */
  lemma ClearsPass(s: seq<Block>, addr: int, off: nat, j: nat, s1: seq<Block>)
    requires ListOk(s) && 1 <= addr <= SuperOf(s).dataSize && off < Pow(P, j + 1) && j > 0
    requires Clean(s, addr, off, j) && Distinct(Nodes(s), addr, off, j)
    requires var c := Entry(Nodes(s), addr, Digit(off, j));
      && c != 0 && Pruned(s, c, Rest(off, j), j - 1, s1)
      && Tree.Walk(true, Nodes(s1), c, Rest(off, j), j - 1) == 0
      && (1 <= c <= SuperOf(s).dataSize ==> !Emptied(Nodes(s), c, Rest(off, j), j - 1))
    ensures Tree.Walk(true, Nodes(s1), addr, off, j) == 0 && !Emptied(Nodes(s), addr, off, j)
  {
    var c := Entry(Nodes(s), addr, Digit(off, j));
    var F := Free(s) + Reach(Nodes(s), c, Rest(off, j), j - 1);
    assert addr !in F;
    NodeKept(s, s1, F, addr);
    assert Entry(Nodes(s1), addr, Digit(off, j)) == c;
  }

  /** What a successful `Prune` from addr frees, as one fact: exactly the
      blocks `Dropped` names join the free list. */
  ghost predicate Freed(s: seq<Block>, addr: int, off: nat, j: nat, g: Cut)
    requires ListOk(s) && off < Pow(P, j + 1)
  {
    && ListOk(g.disk)
    && (g.r == SUCCESS ==>
      && 1 <= addr <= SuperOf(s).dataSize
      && Free(g.disk) == Free(s) + Dropped(Nodes(s), addr, off, j))
  }

  lemma {:induction false} PruneFrees(s: seq<Block>, addr: int, off: nat, j: nat)
    requires ListOk(s) && addr != 0 && off < Pow(P, j + 1)
    requires Clean(s, addr, off, j) && Distinct(Nodes(s), addr, off, j)
    ensures Freed(s, addr, off, j, Prune(s, addr, off, j))
    decreases j, 2
  {
    PruneKeeps(s, addr, off, j);
    if 1 <= addr <= SuperOf(s).dataSize {
      var c := Entry(Nodes(s), addr, Digit(off, j));
      if c != 0 && j > 0 {
        FreesUp(s, addr, off, j);
      } else if c == 0 {
        ClearsZero(s, addr, off, j);
      } else if 1 <= c <= SuperOf(s).dataSize {
        FreesData(s, addr, off, j);
      }
    }
  }

  /** At level 0 the data block is what is freed. */
  lemma FreesData(s: seq<Block>, addr: int, off: nat, j: nat)
    requires ListOk(s) && 1 <= addr <= SuperOf(s).dataSize && off < Pow(P, j + 1) && j == 0
    requires Clean(s, addr, off, j) && Distinct(Nodes(s), addr, off, j)
    requires 1 <= Entry(Nodes(s), addr, Digit(off, j)) <= SuperOf(s).dataSize
    ensures Freed(s, addr, off, j, Prune(s, addr, off, j))
  {
    var w := Nodes(s)[addr - 1];
    var k := Digit(off, j);
    var c := Entry(Nodes(s), addr, k);
    var g := Prune(s, addr, off, j);
    assert g == Drop(s, addr, w, k, c);
    DropOk(s, addr, w, k, c, g);
  }

  lemma {:induction false} FreesUp(s: seq<Block>, addr: int, off: nat, j: nat)
    requires ListOk(s) && 1 <= addr <= SuperOf(s).dataSize && off < Pow(P, j + 1) && j > 0
    requires Clean(s, addr, off, j) && Distinct(Nodes(s), addr, off, j)
    requires Entry(Nodes(s), addr, Digit(off, j)) != 0
    ensures Freed(s, addr, off, j, Prune(s, addr, off, j))
    decreases j, 1
  {
    var w := Nodes(s)[addr - 1];
    var k := Digit(off, j);
    var c := Entry(Nodes(s), addr, k);
    PruneFrees(s, c, Rest(off, j), j - 1);
    PruneClears(s, c, Rest(off, j), j - 1);
    PruneKeeps(s, c, Rest(off, j), j - 1);
    var below := Prune(s, c, Rest(off, j), j - 1);
    var g := Prune(s, addr, off, j);
    if below.r == SUCCESS && below.empty {
      assert g == Drop(below.disk, addr, w, k, c);
      FreesDrop(s, addr, off, j, below, g);
    } else {
      assert g == below;
      FreesKept(s, addr, off, j, below);
    }
  }

  /** The block below ended all zero: it joins the free list too. */
  lemma FreesDrop(s: seq<Block>, addr: int, off: nat, j: nat, below: Cut, g: Cut)
    requires ListOk(s) && 1 <= addr <= SuperOf(s).dataSize && off < Pow(P, j + 1) && j > 0
    requires Clean(s, addr, off, j) && Distinct(Nodes(s), addr, off, j)
    requires var c := Entry(Nodes(s), addr, Digit(off, j));
      && c != 0 && Kept(s, c, Rest(off, j), j - 1, below)
      && Cleared(s, c, Rest(off, j), j - 1, below) && Freed(s, c, Rest(off, j), j - 1, below)
      && below.r == SUCCESS && below.empty
      && g == Drop(below.disk, addr, Nodes(s)[addr - 1], Digit(off, j), c)
    ensures Freed(s, addr, off, j, g)
  {
    var c := Entry(Nodes(s), addr, Digit(off, j));
    KeepsPass(s, addr, off, j, below.disk);
    DropOk(below.disk, addr, Nodes(s)[addr - 1], Digit(off, j), c, g);
    FreesSum(s, addr, off, j, below, g);
  }

  lemma FreesSum(s: seq<Block>, addr: int, off: nat, j: nat, below: Cut, g: Cut)
    requires ListOk(s) && 1 <= addr <= SuperOf(s).dataSize && off < Pow(P, j + 1) && j > 0
    requires var c := Entry(Nodes(s), addr, Digit(off, j));
      && 1 <= c <= SuperOf(s).dataSize
      && Cleared(s, c, Rest(off, j), j - 1, below) && Freed(s, c, Rest(off, j), j - 1, below)
      && below.r == SUCCESS && below.empty && ListOk(below.disk)
      && SuperOf(below.disk).dataSize == SuperOf(s).dataSize
      && Dropping(below.disk, addr, Nodes(s)[addr - 1], Digit(off, j), c, g)
    ensures Freed(s, addr, off, j, g)
  {
    var c := Entry(Nodes(s), addr, Digit(off, j));
    assert Dropped(Nodes(s), addr, off, j) == Dropped(Nodes(s), c, Rest(off, j), j - 1) + {c};
  }

  /** The route below failed or still holds something: addr's block stays. */
  lemma FreesKept(s: seq<Block>, addr: int, off: nat, j: nat, below: Cut)
    requires ListOk(s) && 1 <= addr <= SuperOf(s).dataSize && off < Pow(P, j + 1) && j > 0
    requires Clean(s, addr, off, j) && Distinct(Nodes(s), addr, off, j)
    requires var c := Entry(Nodes(s), addr, Digit(off, j));
      && c != 0 && Cleared(s, c, Rest(off, j), j - 1, below) && Freed(s, c, Rest(off, j), j - 1, below)
      && !(below.r == SUCCESS && below.empty)
    ensures Freed(s, addr, off, j, below)
  {
    var c := Entry(Nodes(s), addr, Digit(off, j));
    if below.r == SUCCESS {
      assert Dropped(Nodes(s), addr, off, j) == Dropped(Nodes(s), c, Rest(off, j), j - 1);
    }
  }

  /** The data block a lookup from a ends at is among the blocks `Dropped`
      names. */
  lemma {:induction false} DroppedLeaf(ns: seq<Node>, a: int, off: nat, j: nat)
    requires 1 <= a <= |ns| && off < Pow(P, j + 1)
    requires 1 <= Tree.Walk(true, ns, a, off, j) <= |ns|
    ensures Tree.Walk(true, ns, a, off, j) in Dropped(ns, a, off, j)
    decreases j
  {
    var c := Entry(ns, a, Digit(off, j));
    if j > 0 {
      DroppedLeaf(ns, c, Rest(off, j), j - 1);
    }
  }

  // ------------------------------------------ what rm_nth_datablock does

  /** State, inode and result of `rm_nth_datablock`. */
  datatype Removed = Removed(disk: seq<Block>, ino: Inode, r: int)

  /** The end of `rm_nth_datablock`: `data_free(*from_pointer)`, then the
      inode field cleared. */
  ghost function FreeRoot(s: seq<Block>, ino: Inode, p: Place, root: int): Removed
    requires ListOk(s) && PlaceOk(p)
    requires 1 <= root <= SuperOf(s).dataSize ==> root !in Free(s)
  {
    if root < 1 || root > SuperOf(s).dataSize then Removed(s, ino, INVALID_BLOCK)
    else Removed(FreeSpec(s, root), WithRoot(ino, p, 0), SUCCESS)
  }

  /** The free list is well formed, and the route from the zone field of
      place p meets no free block and no block twice. */
  ghost predicate ZoneOk(s: seq<Block>, ino: Inode, p: Place)
    requires PlaceOk(p)
  {
    && ListOk(s)
    && Clean(s, SignedOf(Root(ino, p)), p.off, p.level)
    && Distinct(Nodes(s), SignedOf(Root(ino, p)), p.off, p.level)
  }

  /** `rm_nth_datablock` once the zone of n is known. */
  ghost function RmAt(ready: bool, s: seq<Block>, ino: Inode, p: Place): Removed
    requires PlaceOk(p) && (ready ==> ZoneOk(s, ino, p))
  {
    var root := SignedOf(Root(ino, p));
    if root == 0 then Removed(s, ino, SUCCESS)
    else if !ready then Removed(s, ino, DISC_UNINITIALIZED)
    else if p.level < 0 then FreeRoot(s, ino, p, root)
    else
      PruneKeeps(s, root, p.off, p.level);
      var g := Prune(s, root, p.off, p.level);
      if g.r != SUCCESS || !g.empty then Removed(g.disk, ino, g.r)
      else FreeRoot(g.disk, ino, p, root)
  }

  /** `rm_nth_datablock(inod, n)` on a disk whose free list is well formed,
      when logical block n's route meets no free block and no block twice.
      The inode is the caller's copy, returned updated. */
  ghost function RmSpec(ready: bool, s: seq<Block>, ino: Inode, n: int): Removed
    requires ready ==> ListOk(s) && PathClean(s, ino, n) && PathDistinct(s, ino, n)
  {
    match PlaceOf(n)
    case None => Removed(s, ino, INVALID_BLOCK)
    case Some(p) => RmAt(ready, s, ino, p)
  }

  /** The blocks `rm_nth_datablock` frees in the zone of place p: the data
      block and each indirection block on the route left all zero, the
      zone root included. */
  ghost function DroppedAt(s: seq<Block>, ino: Inode, p: Place): set<int>
    requires Mounted(s) && PlaceOk(p)
  {
    var root := SignedOf(Root(ino, p));
    if root < 1 || root > |Nodes(s)| then {}
    else if p.level < 0 then {root}
    else Dropped(Nodes(s), root, p.off, p.level)
           + (if Emptied(Nodes(s), root, p.off, p.level) then {root} else {})
  }

  /** The blocks `rm_nth_datablock(inod, n)` frees. */
  ghost function RmDropped(s: seq<Block>, ino: Inode, n: int): set<int>
    requires Mounted(s)
  {
    match PlaceOf(n)
    case None => {}
    case Some(p) => DroppedAt(s, ino, p)
  }

  /** `rm_nth_datablock` succeeds exactly when looking logical block n up
      ends at 0 or at a data block, so a block already absent is removed
      with `SUCCESS`; otherwise it fails with `INVALID_BLOCK` and changes
      nothing. */
  lemma RmResult(s: seq<Block>, ino: Inode, n: int)
    requires ListOk(s) && PathClean(s, ino, n) && PathDistinct(s, ino, n)
    ensures var f := RmSpec(true, s, ino, n);
      && (f.r == SUCCESS <==> 0 <= Lookup(true, Nodes(s), ino, n) <= SuperOf(s).dataSize)
      && (f.r != SUCCESS ==> f.r == INVALID_BLOCK && f.disk == s && f.ino == ino)
  {
    match PlaceOf(n)
    case None =>
    case Some(p) => ResultAt(s, ino, p);
  }

  lemma ResultAt(s: seq<Block>, ino: Inode, p: Place)
    requires PlaceOk(p) && ZoneOk(s, ino, p)
    ensures var f := RmAt(true, s, ino, p);
      && (f.r == SUCCESS <==> 0 <= Tree.Walk(true, Nodes(s), SignedOf(Root(ino, p)), p.off, p.level) <= SuperOf(s).dataSize)
      && (f.r != SUCCESS ==> f.r == INVALID_BLOCK && f.disk == s && f.ino == ino)
  {
    var root := SignedOf(Root(ino, p));
    if root != 0 && p.level >= 0 {
      PruneKeeps(s, root, p.off, p.level);
      PruneResult(s, root, p.off, p.level);
    }
  }

  /** After a successful `rm_nth_datablock`, looking logical block n up in
      the new state with the updated inode finds 0. */
  lemma RmClears(s: seq<Block>, ino: Inode, n: int)
    requires ListOk(s) && PathClean(s, ino, n) && PathDistinct(s, ino, n)
    ensures Mounted(RmSpec(true, s, ino, n).disk)
    ensures var f := RmSpec(true, s, ino, n);
      f.r == SUCCESS ==> Lookup(true, Nodes(f.disk), f.ino, n) == 0
  {
    match PlaceOf(n)
    case None =>
    case Some(p) => ClearsAt(s, ino, p);
  }

  lemma ClearsAt(s: seq<Block>, ino: Inode, p: Place)
    requires PlaceOk(p) && ZoneOk(s, ino, p)
    ensures Mounted(RmAt(true, s, ino, p).disk)
    ensures var f := RmAt(true, s, ino, p);
      f.r == SUCCESS ==> Tree.Walk(true, Nodes(f.disk), SignedOf(Root(f.ino, p)), p.off, p.level) == 0
  {
    var root := SignedOf(Root(ino, p));
    if root != 0 && p.level < 0 && 1 <= root <= SuperOf(s).dataSize {
      FreeSpecOk(s, root);
    } else if root != 0 && p.level >= 0 {
      PruneKeeps(s, root, p.off, p.level);
      PruneClears(s, root, p.off, p.level);
      var g := Prune(s, root, p.off, p.level);
      if g.r == SUCCESS && g.empty {
        FreeSpecOk(g.disk, root);
      }
    }
  }

  /** The free list stays well formed and only grows, by blocks on n's
      route; nothing but free blocks and blocks on the route changes; the
      inode changes at most by its zone field being cleared. */
  lemma RmKeeps(s: seq<Block>, ino: Inode, n: int)
    requires ListOk(s) && PathClean(s, ino, n) && PathDistinct(s, ino, n)
    ensures var f := RmSpec(true, s, ino, n);
      && ListOk(f.disk)
      && SuperOf(f.disk).dataSize == SuperOf(s).dataSize && SuperOf(f.disk).dataOffset == SuperOf(s).dataOffset && SuperOf(f.disk).numInodes == SuperOf(s).numInodes
      && Free(s) <= Free(f.disk) <= Free(s) + PathReach(s, ino, n)
      && OnlyChanged(s, f.disk, Free(s) + PathReach(s, ino, n))
      && (f.ino == ino || (PlaceOf(n).Some? && f.ino == WithRoot(ino, PlaceOf(n).value, 0)))
  {
    match PlaceOf(n)
    case None =>
    case Some(p) => KeepsAt(s, ino, p);
  }

  /** What `rm_nth_datablock` may change in the zone of place p: only
      blocks that were free or on the route, and only by freeing them. */
  ghost predicate Confined(s: seq<Block>, ino: Inode, p: Place, f: Removed)
    requires PlaceOk(p) && ListOk(s)
  {
    var R := Reach(Nodes(s), SignedOf(Root(ino, p)), p.off, p.level);
    && ListOk(f.disk)
    && SuperOf(f.disk).dataSize == SuperOf(s).dataSize && SuperOf(f.disk).dataOffset == SuperOf(s).dataOffset && SuperOf(f.disk).numInodes == SuperOf(s).numInodes
    && Free(s) <= Free(f.disk) <= Free(s) + R
    && OnlyChanged(s, f.disk, Free(s) + R)
    && (f.ino == ino || f.ino == WithRoot(ino, p, 0))
  }

  lemma KeepsAt(s: seq<Block>, ino: Inode, p: Place)
    requires PlaceOk(p) && ZoneOk(s, ino, p)
    ensures Confined(s, ino, p, RmAt(true, s, ino, p))
  {
    var root := SignedOf(Root(ino, p));
    if root != 0 && p.level < 0 {
      KeepsDirect(s, ino, p);
    } else if root != 0 {
      KeepsZone(s, ino, p);
    }
  }

  lemma KeepsDirect(s: seq<Block>, ino: Inode, p: Place)
    requires PlaceOk(p) && ZoneOk(s, ino, p) && p.level < 0 && SignedOf(Root(ino, p)) != 0
    ensures Confined(s, ino, p, RmAt(true, s, ino, p))
  {
    var root := SignedOf(Root(ino, p));
    if 1 <= root <= SuperOf(s).dataSize {
      FreeSpecOk(s, root);
    }
  }

  lemma KeepsZone(s: seq<Block>, ino: Inode, p: Place)
    requires PlaceOk(p) && ZoneOk(s, ino, p) && p.level >= 0 && SignedOf(Root(ino, p)) != 0
    ensures Confined(s, ino, p, RmAt(true, s, ino, p))
  {
    var root := SignedOf(Root(ino, p));
    PruneKeeps(s, root, p.off, p.level);
    var g := Prune(s, root, p.off, p.level);
    if g.r == SUCCESS && g.empty {
      assert RmAt(true, s, ino, p) == FreeRoot(g.disk, ino, p, root);
      RootFreed(s, root, p.off, p.level, g.disk);
    } else {
      assert RmAt(true, s, ino, p) == Removed(g.disk, ino, g.r);
    }
  }

  /** Freeing the zone root after the route below it was pruned. */
  lemma RootFreed(s: seq<Block>, root: int, off: nat, j: nat, s1: seq<Block>)
    requires ListOk(s) && 1 <= root <= SuperOf(s).dataSize && off < Pow(P, j + 1)
    requires Pruned(s, root, off, j, s1) && root !in Free(s1)
    ensures var s2 := FreeSpec(s1, root);
      && ListOk(s2)
      && SuperOf(s2).dataSize == SuperOf(s).dataSize && SuperOf(s2).dataOffset == SuperOf(s).dataOffset && SuperOf(s2).numInodes == SuperOf(s).numInodes
      && Free(s) <= Free(s2) <= Free(s) + Reach(Nodes(s), root, off, j)
      && OnlyChanged(s, s2, Free(s) + Reach(Nodes(s), root, off, j))
  {
    var R := Free(s) + Reach(Nodes(s), root, off, j);
    FreeSpecOk(s1, root);
    assert root in Reach(Nodes(s), root, off, j);
    Widen(s1, FreeSpec(s1, root), Free(s1) + {root}, R);
    OnlyChangedTrans(s, s1, FreeSpec(s1, root), R);
  }

  /** A successful `rm_nth_datablock` frees exactly the blocks `RmDropped`
      names, and clears the inode's zone field exactly when the zone root
      is among them. */
  lemma RmFrees(s: seq<Block>, ino: Inode, n: int)
    requires ListOk(s) && PathClean(s, ino, n) && PathDistinct(s, ino, n)
    ensures ListOk(RmSpec(true, s, ino, n).disk)
    ensures var f := RmSpec(true, s, ino, n);
      f.r == SUCCESS ==>
        && Free(f.disk) == Free(s) + RmDropped(s, ino, n)
        && f.ino == if PlaceOf(n).Some? && SignedOf(Root(ino, PlaceOf(n).value)) in RmDropped(s, ino, n)
                    then WithRoot(ino, PlaceOf(n).value, 0) else ino
  {
    match PlaceOf(n)
    case None =>
    case Some(p) => FreesAt(s, ino, p);
  }

  lemma FreesAt(s: seq<Block>, ino: Inode, p: Place)
    requires PlaceOk(p) && ZoneOk(s, ino, p)
    ensures ListOk(RmAt(true, s, ino, p).disk)
    ensures var f := RmAt(true, s, ino, p);
      f.r == SUCCESS ==>
        && Free(f.disk) == Free(s) + DroppedAt(s, ino, p)
        && f.ino == if SignedOf(Root(ino, p)) in DroppedAt(s, ino, p) then WithRoot(ino, p, 0) else ino
  {
    var root := SignedOf(Root(ino, p));
    if p.level < 0 {
      DirectFrees(s, ino, p);
    } else if root != 0 {
      ZoneFrees(s, root, p.off, p.level);
      ZoneRemoved(s, ino, p, root, Prune(s, root, p.off, p.level), RmAt(true, s, ino, p));
    }
  }

  /** `FreesAt` for a direct block. */
  lemma DirectFrees(s: seq<Block>, ino: Inode, p: Place)
    requires PlaceOk(p) && ZoneOk(s, ino, p) && p.level < 0
    ensures ListOk(RmAt(true, s, ino, p).disk)
    ensures var f := RmAt(true, s, ino, p);
      f.r == SUCCESS ==>
        && Free(f.disk) == Free(s) + DroppedAt(s, ino, p)
        && f.ino == if SignedOf(Root(ino, p)) in DroppedAt(s, ino, p) then WithRoot(ino, p, 0) else ino
  {
    var root := SignedOf(Root(ino, p));
    if root != 0 && 1 <= root <= SuperOf(s).dataSize {
      FreeSpecOk(s, root);
    }
  }

  /** `FreesAt` for a zone with a root. */
  lemma ZoneRemoved(s: seq<Block>, ino: Inode, p: Place, root: int, g: Cut, f: Removed)
    requires ListOk(s) && PlaceOk(p) && p.level >= 0 && root == SignedOf(Root(ino, p)) && root != 0
    requires var j: nat := p.level;
      && Kept(s, root, p.off, j, g)
      && (g.r == SUCCESS ==>
        && 1 <= root <= SuperOf(s).dataSize
        && Free(g.disk) == Free(s) + Dropped(Nodes(s), root, p.off, j)
        && root !in Dropped(Nodes(s), root, p.off, j)
        && g.empty == Emptied(Nodes(s), root, p.off, j))
    requires f == if g.r != SUCCESS || !g.empty then Removed(g.disk, ino, g.r) else FreeRoot(g.disk, ino, p, root)
    ensures ListOk(f.disk)
    ensures f.r == SUCCESS ==>
      var D := Dropped(Nodes(s), root, p.off, p.level)
               + (if Emptied(Nodes(s), root, p.off, p.level) then {root} else {});
      && Free(f.disk) == Free(s) + D
      && f.ino == if root in D then WithRoot(ino, p, 0) else ino
  {
    if g.r == SUCCESS && g.empty {
      FreeSpecOk(g.disk, root);
    }
  }

  /** The facts about a zone's `Prune` that `FreesAt` needs. */
  lemma ZoneFrees(s: seq<Block>, root: int, off: nat, j: nat)
    requires ListOk(s) && root != 0 && off < Pow(P, j + 1)
    requires Clean(s, root, off, j) && Distinct(Nodes(s), root, off, j)
    ensures var g := Prune(s, root, off, j);
      && Kept(s, root, off, j, g)
      && (g.r == SUCCESS ==>
        && 1 <= root <= SuperOf(s).dataSize
        && Free(g.disk) == Free(s) + Dropped(Nodes(s), root, off, j)
        && root !in Dropped(Nodes(s), root, off, j)
        && g.empty == Emptied(Nodes(s), root, off, j))
  {
    PruneKeeps(s, root, off, j);
    PruneClears(s, root, off, j);
    PruneFrees(s, root, off, j);
  }

  /** The data block that logical block n was in is free afterwards. */
  lemma RmFreesData(s: seq<Block>, ino: Inode, n: int)
    requires ListOk(s) && PathClean(s, ino, n) && PathDistinct(s, ino, n)
    ensures ListOk(RmSpec(true, s, ino, n).disk)
    ensures var f := RmSpec(true, s, ino, n);
      f.r == SUCCESS && 1 <= Lookup(true, Nodes(s), ino, n) <= SuperOf(s).dataSize ==>
        Lookup(true, Nodes(s), ino, n) in Free(f.disk)
  {
    match PlaceOf(n)
    case None =>
    case Some(p) => FreesDataAt(s, ino, p);
  }

  lemma FreesDataAt(s: seq<Block>, ino: Inode, p: Place)
    requires PlaceOk(p) && ZoneOk(s, ino, p)
    ensures ListOk(RmAt(true, s, ino, p).disk)
    ensures var f := RmAt(true, s, ino, p);
      var b := Tree.Walk(true, Nodes(s), SignedOf(Root(ino, p)), p.off, p.level);
      f.r == SUCCESS && 1 <= b <= SuperOf(s).dataSize ==> b in Free(f.disk)
  {
    FreesAt(s, ino, p);
    var root := SignedOf(Root(ino, p));
    if p.level >= 0 && 1 <= root <= SuperOf(s).dataSize
       && 1 <= Tree.Walk(true, Nodes(s), root, p.off, p.level) <= SuperOf(s).dataSize {
      DroppedLeaf(Nodes(s), root, p.off, p.level);
    }
  }

  /** Without a formatted disk nothing changes: the result is `SUCCESS` for
      an empty zone field and an error otherwise. */
  lemma RmUnready(s: seq<Block>, ino: Inode, n: int)
    ensures var f := RmSpec(false, s, ino, n);
      && f.disk == s && f.ino == ino
      && (f.r == SUCCESS <==> PlaceOf(n).Some? && Root(ino, PlaceOf(n).value) == 0)
      && (f.r != SUCCESS ==> f.r == INVALID_BLOCK || f.r == DISC_UNINITIALIZED)
      && (f.r == INVALID_BLOCK <==> PlaceOf(n).None?)
  {
  }

  // ------------------------------------------------ the arrays of the loops

  /** Level l of the arrays `b`, `next_index` and `block_addrs` (and of
      the offsets O the first pass went through) once the first pass has
      read it: the block is in range, its route is clean, and the arrays
      hold what the disk holds. */
  ghost predicate Level(s: seq<Block>, b: seq<Node>, idx: seq<nat>, A: seq<int>, O: seq<nat>, l: nat)
    requires ListOk(s) && |b| == 3 && |idx| == 3 && |A| == 3 && |O| == 3 && l < 3
  {
    && 1 <= A[l] <= SuperOf(s).dataSize && O[l] < Pow(P, l + 1)
    && Clean(s, A[l], O[l], l) && Distinct(Nodes(s), A[l], O[l], l)
    && b[l] == Nodes(s)[A[l] - 1] && idx[l] == Digit(O[l], l)
  }

  /** Block A[l] is the one entry idx[l + 1] of block A[l + 1] names. */
  ghost predicate Link(s: seq<Block>, idx: seq<nat>, A: seq<int>, O: seq<nat>, l: nat)
    requires Mounted(s) && |idx| == 3 && |A| == 3 && |O| == 3 && l < 2
  {
    && 1 <= A[l + 1] <= |Nodes(s)| && idx[l + 1] < P
    && A[l] == Entry(Nodes(s), A[l + 1], idx[l + 1]) && O[l] == Rest(O[l + 1], l + 1)
  }

  /** The arrays after the first pass has read levels lo..i of the route
      from root. */
  ghost predicate Route(s: seq<Block>, root: int, off: nat, b: seq<Node>, idx: seq<nat>,
                        A: seq<int>, O: seq<nat>, lo: nat, i: nat)
    requires ListOk(s)
  {
    && |b| == 3 && |idx| == 3 && |A| == 3 && |O| == 3 && i <= 2 && lo <= i + 1
    && (lo <= i ==> A[i] == root && O[i] == off)
    && (forall l :: lo <= l <= i ==> Level(s, b, idx, A, O, l))
    && (forall l :: lo <= l < i ==> Link(s, idx, A, O, l))
  }

  /** What the second pass has done once it is done with level l. */
  ghost function Up(s: seq<Block>, root: int, off: nat, b: seq<Node>, idx: seq<nat>,
                    A: seq<int>, O: seq<nat>, lo: nat, i: nat, l: nat): Cut
    requires ListOk(s) && Route(s, root, off, b, idx, A, O, lo, i) && lo <= l <= i
  {
    assert Level(s, b, idx, A, O, l);
    Prune(s, A[l], O[l], l)
  }

  /** The first pass reads one more level. */
  lemma RouteGrow(s: seq<Block>, root: int, off: nat, b: seq<Node>, idx: seq<nat>,
                  A: seq<int>, O: seq<nat>, j: nat, i: nat, next: int, offset: nat)
    requires ListOk(s) && Route(s, root, off, b, idx, A, O, j + 1, i) && j <= i
    requires j == i ==> next == root && offset == off
    requires j < i ==>
      Level(s, b, idx, A, O, j + 1) && next == Entry(Nodes(s), A[j + 1], idx[j + 1]) && offset == Rest(O[j + 1], j + 1)
    requires 1 <= next <= SuperOf(s).dataSize && offset < Pow(P, j + 1)
    requires Clean(s, next, offset, j) && Distinct(Nodes(s), next, offset, j)
    ensures Route(s, root, off, b[j := Nodes(s)[next - 1]], idx[j := Digit(offset, j)],
                  A[j := next], O[j := offset], j, i)
  {
    LevelsGrow(s, b, idx, A, O, j, i, next, offset);
    LinksGrow(s, b, idx, A, O, j, i, next, offset);
  }

  lemma LevelsGrow(s: seq<Block>, b: seq<Node>, idx: seq<nat>,
                   A: seq<int>, O: seq<nat>, j: nat, i: nat, next: int, offset: nat)
    requires ListOk(s) && |b| == 3 && |idx| == 3 && |A| == 3 && |O| == 3 && j <= i <= 2
    requires forall l :: j + 1 <= l <= i ==> Level(s, b, idx, A, O, l)
    requires 1 <= next <= SuperOf(s).dataSize && offset < Pow(P, j + 1)
    requires Clean(s, next, offset, j) && Distinct(Nodes(s), next, offset, j)
    ensures var b', idx', A', O' := b[j := Nodes(s)[next - 1]], idx[j := Digit(offset, j)], A[j := next], O[j := offset];
      forall l :: j <= l <= i ==> Level(s, b', idx', A', O', l)
  {
    var b', idx', A', O' := b[j := Nodes(s)[next - 1]], idx[j := Digit(offset, j)], A[j := next], O[j := offset];
    forall l | j <= l <= i
      ensures Level(s, b', idx', A', O', l)
    {
      if l > j {
        assert Level(s, b, idx, A, O, l);
        assert A'[l] == A[l] && O'[l] == O[l] && b'[l] == b[l] && idx'[l] == idx[l];
      }
    }
  }

  lemma LinksGrow(s: seq<Block>, b: seq<Node>, idx: seq<nat>,
                  A: seq<int>, O: seq<nat>, j: nat, i: nat, next: int, offset: nat)
    requires ListOk(s) && |b| == 3 && |idx| == 3 && |A| == 3 && |O| == 3 && j <= i <= 2
    requires forall l :: j + 1 <= l < i ==> Link(s, idx, A, O, l)
    requires offset < Pow(P, j + 1)
    requires j < i ==>
      Level(s, b, idx, A, O, j + 1) && next == Entry(Nodes(s), A[j + 1], idx[j + 1]) && offset == Rest(O[j + 1], j + 1)
    ensures var idx', A', O' := idx[j := Digit(offset, j)], A[j := next], O[j := offset];
      forall l :: j <= l < i ==> Link(s, idx', A', O', l)
  {
    var idx', A', O' := idx[j := Digit(offset, j)], A[j := next], O[j := offset];
    forall l | j <= l < i
      ensures Link(s, idx', A', O', l)
    {
      if l > j {
        assert Link(s, idx, A, O, l);
      }
      assert A'[l + 1] == A[l + 1] && O'[l + 1] == O[l + 1] && idx'[l + 1] == idx[l + 1];
    }
  }

  /** A result that is not "succeeded, block empty" is passed up unchanged. */
  lemma PassUp(s: seq<Block>, root: int, off: nat, b: seq<Node>, idx: seq<nat>,
               A: seq<int>, O: seq<nat>, lo: nat, i: nat, l: nat)
    requires ListOk(s) && Route(s, root, off, b, idx, A, O, lo, i) && lo <= l < i
    requires var g := Up(s, root, off, b, idx, A, O, lo, i, l); !(g.r == SUCCESS && g.empty)
    ensures Up(s, root, off, b, idx, A, O, lo, i, l + 1) == Up(s, root, off, b, idx, A, O, lo, i, l)
  {
    assert Level(s, b, idx, A, O, l) && Level(s, b, idx, A, O, l + 1) && Link(s, idx, A, O, l);
    assert Entry(Nodes(s), A[l + 1], Digit(O[l + 1], l + 1)) == A[l];
  }

  /** ... all the way to the zone root. */
  lemma {:induction false} Climb(s: seq<Block>, root: int, off: nat, b: seq<Node>, idx: seq<nat>,
                                 A: seq<int>, O: seq<nat>, lo: nat, i: nat, l: nat)
    requires ListOk(s) && Route(s, root, off, b, idx, A, O, lo, i) && lo <= l <= i
    requires var g := Up(s, root, off, b, idx, A, O, lo, i, l); !(g.r == SUCCESS && g.empty)
    ensures Up(s, root, off, b, idx, A, O, lo, i, i) == Up(s, root, off, b, idx, A, O, lo, i, l)
    decreases i - l
  {
    if l < i {
      PassUp(s, root, off, b, idx, A, O, lo, i, l);
      Climb(s, root, off, b, idx, A, O, lo, i, l + 1);
    }
  }

  /** A block number out of range met below level lo fails the read,
      and that failure is what the zone root reports. */
  lemma FailUp(s: seq<Block>, root: int, off: nat, b: seq<Node>, idx: seq<nat>,
               A: seq<int>, O: seq<nat>, lo: nat, i: nat)
    requires ListOk(s) && Route(s, root, off, b, idx, A, O, lo, i) && 1 <= lo <= i
    requires Level(s, b, idx, A, O, lo)
    requires var c := Entry(Nodes(s), A[lo], idx[lo]); c < 0 || c > SuperOf(s).dataSize
    ensures Up(s, root, off, b, idx, A, O, lo, i, i) == Cut(s, INVALID_BLOCK, false)
  {
    assert Level(s, b, idx, A, O, lo);
    BadEntry(s, A[lo], O[lo], lo);
    Climb(s, root, off, b, idx, A, O, lo, i, lo);
  }

  /** An entry out of range fails the read one level down. */
  lemma BadEntry(s: seq<Block>, addr: int, off: nat, j: nat)
    requires ListOk(s) && 1 <= addr <= SuperOf(s).dataSize && off < Pow(P, j + 1) && j > 0
    requires Clean(s, addr, off, j) && Distinct(Nodes(s), addr, off, j)
    requires var c := Entry(Nodes(s), addr, Digit(off, j)); c < 0 || c > SuperOf(s).dataSize
    ensures Prune(s, addr, off, j) == Cut(s, INVALID_BLOCK, false)
  {
    var c := Entry(Nodes(s), addr, Digit(off, j));
    assert Prune(s, c, Rest(off, j), j - 1) == Cut(s, INVALID_BLOCK, false);
  }

  /** The level the second pass starts at: its entry is zero (the first
      pass stopped below it) or, at level 0, names the data block. */
  lemma BaseCut(s: seq<Block>, root: int, off: nat, b: seq<Node>, idx: seq<nat>,
                A: seq<int>, O: seq<nat>, lo: nat, i: nat)
    requires ListOk(s) && Route(s, root, off, b, idx, A, O, lo, i) && lo <= i
    ensures Level(s, b, idx, A, O, lo)
    ensures var c := SignedOf(b[lo][idx[lo]]);
      && (c == 0 ==> Up(s, root, off, b, idx, A, O, lo, i, lo) == Cut(s, SUCCESS, AllZeroWords(b[lo])))
      && (c != 0 && lo == 0 ==>
        && A[lo] !in Free(s) && (1 <= c <= SuperOf(s).dataSize ==> c !in Free(s) && c != A[lo])
        && Up(s, root, off, b, idx, A, O, lo, i, lo) == Drop(s, A[lo], b[lo], idx[lo], c))
  {
    assert Level(s, b, idx, A, O, lo);
  }

  /** A level above one that ended empty: its entry is freed and cleared. */
  lemma StepDrop(s: seq<Block>, root: int, off: nat, b: seq<Node>, idx: seq<nat>,
                 A: seq<int>, O: seq<nat>, lo: nat, i: nat, l: nat)
    requires ListOk(s) && Route(s, root, off, b, idx, A, O, lo, i) && lo <= l < i
    requires var g := Up(s, root, off, b, idx, A, O, lo, i, l); g.r == SUCCESS && g.empty
    ensures Level(s, b, idx, A, O, l) && Level(s, b, idx, A, O, l + 1) && Link(s, idx, A, O, l)
    ensures var g := Up(s, root, off, b, idx, A, O, lo, i, l);
      && SignedOf(b[l + 1][idx[l + 1]]) == A[l]
      && ListOk(g.disk) && SuperOf(g.disk).dataSize == SuperOf(s).dataSize
      && A[l + 1] !in Free(g.disk) && A[l] !in Free(g.disk) && A[l] != A[l + 1]
      && Up(s, root, off, b, idx, A, O, lo, i, l + 1) == Drop(g.disk, A[l + 1], b[l + 1], idx[l + 1], A[l])
  {
    assert Level(s, b, idx, A, O, l) && Level(s, b, idx, A, O, l + 1) && Link(s, idx, A, O, l);
    PruneUp(s, A[l + 1], O[l + 1], l + 1, A[l], O[l], Up(s, root, off, b, idx, A, O, lo, i, l));
  }

  /** One level of `Prune` above a level that ended empty: the entry is
      freed and cleared. */
  lemma PruneUp(s: seq<Block>, a: int, o: nat, j: nat, c: int, o': nat, g: Cut)
    requires ListOk(s) && 1 <= a <= SuperOf(s).dataSize && o < Pow(P, j + 1) && j > 0
    requires Clean(s, a, o, j) && Distinct(Nodes(s), a, o, j)
    requires c == Entry(Nodes(s), a, Digit(o, j)) && c != 0 && o' == Rest(o, j)
    requires g == Prune(s, c, o', j - 1) && g.r == SUCCESS && g.empty
    ensures ListOk(g.disk) && SuperOf(g.disk).dataSize == SuperOf(s).dataSize
    ensures 1 <= c <= SuperOf(s).dataSize && a !in Free(g.disk) && c !in Free(g.disk) && c != a
    ensures Prune(s, a, o, j) == Drop(g.disk, a, Nodes(s)[a - 1], Digit(o, j), c)
  {
    UpKeeps(s, a, o, j, c, o', g);
    NotSelf(Nodes(s), a, o, j);
    UpDrops(s, a, o, j, c, o', g);
  }

  lemma UpKeeps(s: seq<Block>, a: int, o: nat, j: nat, c: int, o': nat, g: Cut)
    requires ListOk(s) && 1 <= a <= SuperOf(s).dataSize && o < Pow(P, j + 1) && j > 0
    requires Clean(s, a, o, j) && Distinct(Nodes(s), a, o, j)
    requires c == Entry(Nodes(s), a, Digit(o, j)) && c != 0 && o' == Rest(o, j)
    requires g == Prune(s, c, o', j - 1) && g.r == SUCCESS
    ensures ListOk(g.disk) && SuperOf(g.disk).dataSize == SuperOf(s).dataSize
    ensures 1 <= c <= SuperOf(s).dataSize && a !in Free(g.disk) && c !in Free(g.disk)
  {
    PruneKeeps(s, c, o', j - 1);
    KeepsPass(s, a, o, j, g.disk);
  }

  lemma UpDrops(s: seq<Block>, a: int, o: nat, j: nat, c: int, o': nat, g: Cut)
    requires ListOk(s) && 1 <= a <= SuperOf(s).dataSize && o < Pow(P, j + 1) && j > 0
    requires Clean(s, a, o, j) && Distinct(Nodes(s), a, o, j)
    requires c == Entry(Nodes(s), a, Digit(o, j)) && c != 0 && o' == Rest(o, j)
    requires g == Prune(s, c, o', j - 1) && g.r == SUCCESS && g.empty
    requires ListOk(g.disk) && SuperOf(g.disk).dataSize == SuperOf(s).dataSize
    requires 1 <= c <= SuperOf(s).dataSize && a !in Free(g.disk) && c !in Free(g.disk)
    ensures Prune(s, a, o, j) == Drop(g.disk, a, Nodes(s)[a - 1], Digit(o, j), c)
  {
  }

  /** Where the first pass stands above level j (j = -1 once it is past the
      bottom): the levels j+1..i were read along the route, and next, at
      offset offset, is the block number the last of them leads to. */
  ghost predicate Descent(s: seq<Block>, root: int, off: nat, b: seq<Node>, idx: seq<nat>,
                          A: seq<int>, O: seq<nat>, i: nat, j: int, next: int, offset: nat)
  {
    && ListOk(s) && i <= 2 && -1 <= j <= i
    && off < Pow(P, i + 1) && Clean(s, root, off, i) && Distinct(Nodes(s), root, off, i)
    && Route(s, root, off, b, idx, A, O, j + 1, i)
    && (j >= 0 ==> offset < Pow(P, j + 1) && Clean(s, next, offset, j) && Distinct(Nodes(s), next, offset, j))
    && (j == i ==> next == root && offset == off)
    && (j < i ==>
      && root != 0 && Level(s, b, idx, A, O, j + 1)
      && next == Entry(Nodes(s), A[j + 1], idx[j + 1]) && offset == Rest(O[j + 1], j + 1))
  }

  /** A read in the first pass fails only on an out-of-range address,
      which is what the second pass would also meet. */
  lemma ReadFails(s: seq<Block>, root: int, off: nat, b: seq<Node>, idx: seq<nat>,
                  A: seq<int>, O: seq<nat>, i: nat, j: nat, next: int, offset: nat)
    requires Descent(s, root, off, b, idx, A, O, i, j, next, offset) && root != 0
    requires next < 0 || next > SuperOf(s).dataSize
    ensures Prune(s, root, off, i) == Cut(s, INVALID_BLOCK, false)
  {
    if j < i {
      FailUp(s, root, off, b, idx, A, O, j + 1, i);
      assert Level(s, b, idx, A, O, i);
    }
  }

  /** A successful read in the first pass extends the route by one level:
      w is the block read, k the entry taken from it. */
  lemma ReadGrows(s: seq<Block>, root: int, off: nat, b: seq<Node>, idx: seq<nat>,
                  A: seq<int>, O: seq<nat>, i: nat, j: nat, next: int, offset: nat,
                  w: Node, k: nat, next': int, offset': nat)
    requires Descent(s, root, off, b, idx, A, O, i, j, next, offset)
    requires 1 <= next <= SuperOf(s).dataSize && w == Nodes(s)[next - 1]
    requires k == Digit(offset, j) && next' == SignedOf(w[k]) && offset' == Rest(offset, j)
    ensures Descent(s, root, off, b[j := w], idx[j := k], A[j := next], O[j := offset], i, j - 1, next', offset')
  {
    RouteGrow(s, root, off, b, idx, A, O, j, i, next, offset);
    assert Level(s, b[j := w], idx[j := k], A[j := next], O[j := offset], j);
  }

  /** The block `data_read` returns, on the word view. */
  lemma NodeRead(s: seq<Block>, k: int, blk: Block)
    requires Mounted(s) && 1 <= k <= SuperOf(s).dataSize && blk == DataBlock(Data(s), k)
    ensures BlockWords(blk) == Nodes(s)[k - 1]
  {
    ViewAt(Data(s), k - 1);
  }

  /** The levels of the second pass below level j are done, each leaving
      its block all zero, and t is the disk they left behind. */
  ghost predicate Below(s: seq<Block>, root: int, off: nat, b: seq<Node>, idx: seq<nat>,
                        A: seq<int>, O: seq<nat>, cs: nat, i: nat, j: nat, t: seq<Block>)
    requires ListOk(s) && Route(s, root, off, b, idx, A, O, cs, i) && cs <= j <= i + 1
  {
    && (j == cs ==> t == s)
    && (j > cs ==>
      var g := Up(s, root, off, b, idx, A, O, cs, i, j - 1);
      g.r == SUCCESS && g.empty && t == g.disk)
  }

  /** Once every level succeeded and ended all zero, the zone root did too. */
  lemma BelowTop(s: seq<Block>, root: int, off: nat, b: seq<Node>, idx: seq<nat>,
                 A: seq<int>, O: seq<nat>, cs: nat, i: nat, t: seq<Block>)
    requires ListOk(s) && Route(s, root, off, b, idx, A, O, cs, i) && cs <= i
    requires Below(s, root, off, b, idx, A, O, cs, i, i + 1, t)
    ensures Up(s, root, off, b, idx, A, O, cs, i, i) == Cut(t, SUCCESS, true)
  {
  }

  /** A level that did not end all zero ends the second pass: its result is
      the zone root's. */
  lemma Stop(s: seq<Block>, root: int, off: nat, b: seq<Node>, idx: seq<nat>,
             A: seq<int>, O: seq<nat>, cs: nat, i: nat, j: nat, t: seq<Block>, r: int, e: bool)
    requires ListOk(s) && Route(s, root, off, b, idx, A, O, cs, i) && cs <= j <= i
    requires Cut(t, r, e) == Up(s, root, off, b, idx, A, O, cs, i, j) && !(r == SUCCESS && e)
    ensures Cut(t, r, e) == Up(s, root, off, b, idx, A, O, cs, i, i)
  {
    Climb(s, root, off, b, idx, A, O, cs, i, j);
  }

  /** What the second pass meets at level j, on the disk t the levels below
      left behind: a zero entry leaves the block as it was read, a non-zero
      one is freed and cleared. */
  ghost predicate Meets(s: seq<Block>, root: int, off: nat, b: seq<Node>, idx: seq<nat>,
                        A: seq<int>, O: seq<nat>, cs: nat, i: nat, j: nat, t: seq<Block>)
    requires ListOk(s) && Route(s, root, off, b, idx, A, O, cs, i) && cs <= j <= i
  {
    && Level(s, b, idx, A, O, j) && ListOk(t) && 1 <= A[j] <= SuperOf(t).dataSize
    && var c := SignedOf(b[j][idx[j]]);
    && (c == 0 ==> Up(s, root, off, b, idx, A, O, cs, i, j) == Cut(t, SUCCESS, AllZeroWords(b[j])))
    && (c != 0 ==>
      && (1 <= c <= SuperOf(t).dataSize ==> c !in Free(t))
      && Up(s, root, off, b, idx, A, O, cs, i, j) == Drop(t, A[j], b[j], idx[j], c))
  }

  lemma AscendCase(s: seq<Block>, root: int, off: nat, b: seq<Node>, idx: seq<nat>,
                   A: seq<int>, O: seq<nat>, cs: nat, i: nat, j: nat, t: seq<Block>)
    requires ListOk(s) && Route(s, root, off, b, idx, A, O, cs, i) && cs <= j <= i
    requires 0 < cs ==> Level(s, b, idx, A, O, cs) && SignedOf(b[cs][idx[cs]]) == 0
    requires Below(s, root, off, b, idx, A, O, cs, i, j, t)
    ensures Meets(s, root, off, b, idx, A, O, cs, i, j, t)
  {
    if j == cs {
      AscendFirst(s, root, off, b, idx, A, O, cs, i);
    } else {
      AscendNext(s, root, off, b, idx, A, O, cs, i, j, t);
    }
  }

  lemma AscendFirst(s: seq<Block>, root: int, off: nat, b: seq<Node>, idx: seq<nat>,
                    A: seq<int>, O: seq<nat>, cs: nat, i: nat)
    requires ListOk(s) && Route(s, root, off, b, idx, A, O, cs, i) && cs <= i
    requires 0 < cs ==> Level(s, b, idx, A, O, cs) && SignedOf(b[cs][idx[cs]]) == 0
    ensures Meets(s, root, off, b, idx, A, O, cs, i, cs, s)
  {
    BaseCut(s, root, off, b, idx, A, O, cs, i);
  }

  lemma AscendNext(s: seq<Block>, root: int, off: nat, b: seq<Node>, idx: seq<nat>,
                   A: seq<int>, O: seq<nat>, cs: nat, i: nat, j: nat, t: seq<Block>)
    requires ListOk(s) && Route(s, root, off, b, idx, A, O, cs, i) && cs < j <= i
    requires Below(s, root, off, b, idx, A, O, cs, i, j, t)
    ensures Meets(s, root, off, b, idx, A, O, cs, i, j, t)
  {
    StepDrop(s, root, off, b, idx, A, O, cs, i, j - 1);
    assert Level(s, b, idx, A, O, j - 1);
  }

  /** The second pass's view of the zone root is `Prune` from it. */
  lemma UpRoot(s: seq<Block>, root: int, off: nat, b: seq<Node>, idx: seq<nat>,
               A: seq<int>, O: seq<nat>, cs: nat, i: nat)
    requires ListOk(s) && Route(s, root, off, b, idx, A, O, cs, i) && cs <= i
    ensures root != 0 && off < Pow(P, i + 1) && Clean(s, root, off, i) && Distinct(Nodes(s), root, off, i)
    ensures Up(s, root, off, b, idx, A, O, cs, i, i) == Prune(s, root, off, i)
  {
    assert Level(s, b, idx, A, O, i);
  }

  // ------------------------------------------------------------ the methods

  /** One level of the second pass with a non-zero entry c: `data_free(c)`,
      then the copy w read in the first pass written back with entry k
      cleared (the write's result is not looked at). */
  method DropStep(d: Disk, a: int, w: Node, k: nat, c: int, ghost s: seq<Block>) returns (ret: int, w': Node)
    requires Consistent(d) && Ready(d) && s == d.Contents() && ListOk(s)
    requires 1 <= a <= SuperOf(s).dataSize && k < P && c != 0
    requires 1 <= c <= SuperOf(s).dataSize ==> c !in Free(s)
    modifies d.disk
    ensures Consistent(d)
    ensures var g := Drop(s, a, w, k, c); d.Contents() == g.disk && ret == g.r
    ensures ret == SUCCESS ==> w' == w[k := 0]
  {
    ret := DataFree(d, c);
    if ret != SUCCESS {
      return ret, w;
    }
    FreeShape(s, c);
    w' := w[k := 0];
    var rw := DataWrite(d, a, BlockOf(w'));
  }

  /** One level of the first pass: read block next (at level j, offset
      offset) and pick the entry that leads one level down. */
  method DescendStep(d: Disk, root: int, off: nat, i: nat, j: nat, next: int, offset: nat,
                     b: seq<Node>, idx: seq<nat>, ghost A: seq<int>, ghost O: seq<nat>, ghost s: seq<Block>)
    returns (rr: int, b': seq<Node>, idx': seq<nat>, ghost O': seq<nat>, offset': nat, next': int)
    requires Consistent(d) && s == d.Contents() && j <= i && offset < Pow(P, j + 1) && next != 0
    requires |b| == 3 && |idx| == 3 && |O| == 3
    requires j == i ==> next == root && offset == off
    requires Ready(d) ==> Descent(s, root, off, b, idx, A, O, i, j, next, offset)
    ensures !Ready(d) ==> rr == DISC_UNINITIALIZED
    ensures Ready(d) && rr != SUCCESS ==> Prune(s, root, off, i) == Cut(s, rr, false)
    ensures rr == SUCCESS ==>
      && Ready(d) && |b'| == 3 && |idx'| == 3 && |O'| == 3 && offset' < Pow(P, j)
      && Descent(s, root, off, b', idx', A[j := next], O', i, j - 1, next', offset')
  {
    var blk;
    rr, blk := DataRead(d, next, ZeroBlock());
    if rr != SUCCESS {
      if Ready(d) {
        ReadFails(s, root, off, b, idx, A, O, i, j, next, offset);
      }
      return rr, b, idx, O, 0, 0;
    }
    var q := IntPow(P, j);
    PowPositive(P, j);
    var k := offset / q;
    NodeRead(s, next, blk);
    var w := BlockWords(blk);
    offset' := offset % q;
    next' := SignedOf(w[k]);
    ReadGrows(s, root, off, b, idx, A, O, i, j, next, offset, w, k, next', offset');
    b', idx', O' := b[j := w], idx[j := k], O[j := offset];
  }

  /** The first pass of `rm_nth_datablock`: from the zone root down, reading
      each indirection block met until a zero entry (`check_start` is the
      level above it) or the bottom. A failed read ends the operation. */
  method Descend(d: Disk, root: int, off: nat, i: nat, ghost s: seq<Block>)
    returns (ret: int, cs: nat, b: seq<Node>, idx: seq<nat>, addrs: seq<int>, ghost O: seq<nat>)
    requires Consistent(d) && s == d.Contents() && i <= 2 && off < Pow(P, i + 1)
    requires Ready(d) ==> ListOk(s) && Clean(s, root, off, i) && Distinct(Nodes(s), root, off, i)
    ensures !Ready(d) ==> ret == (if root == 0 then SUCCESS else DISC_UNINITIALIZED)
    ensures root == 0 ==> ret == SUCCESS && cs == i + 1
    ensures Ready(d) && root != 0 && ret != SUCCESS ==> Prune(s, root, off, i) == Cut(s, ret, false)
    ensures Ready(d) && ret == SUCCESS ==>
      && cs <= i + 1 && Route(s, root, off, b, idx, addrs, O, cs, i)
      && (cs == i + 1 ==> root == 0)
      && (0 < cs <= i ==> Level(s, b, idx, addrs, O, cs) && SignedOf(b[cs][idx[cs]]) == 0)
  {
    b, idx, addrs, O := [Zeros(WORDS_PER_BLOCK), Zeros(WORDS_PER_BLOCK), Zeros(WORDS_PER_BLOCK)], [0, 0, 0], [0, 0, 0], [0, 0, 0];
    var j: int := i;
    var next := root;
    var offset: nat := off;
    while j >= 0
      invariant -1 <= j <= i && |b| == 3 && |idx| == 3 && |addrs| == 3 && |O| == 3
      invariant j >= 0 ==> offset < Pow(P, j + 1)
      invariant j < i ==> root != 0 && Ready(d)
      invariant j == i ==> next == root && offset == off
      invariant Ready(d) ==> Descent(s, root, off, b, idx, addrs, O, i, j, next, offset)
    {
      if next == 0 {
        return SUCCESS, j + 1, b, idx, addrs, O;
      }
      ghost var A := addrs;
      addrs := addrs[j := next];
      var rr;
      rr, b, idx, O, offset, next := DescendStep(d, root, off, i, j, next, offset, b, idx, A, O, s);
      if rr != SUCCESS {
        return rr, 0, b, idx, addrs, O;
      }
      j := j - 1;
    }
    return SUCCESS, 0, b, idx, addrs, O;
  }

  /** One level of the second pass: free the block level j's entry names
      (if any), clear that entry and write the block back, and say whether
      the block now holds only zeros. */
  method AscendStep(d: Disk, b: seq<Node>, idx: seq<nat>, addrs: seq<int>, cs: nat, i: nat, j: nat,
                    ghost s: seq<Block>, ghost O: seq<nat>, ghost root: int, ghost off: nat)
    returns (ret: int, emptied: bool)
    requires Consistent(d) && Ready(d) && ListOk(s) && cs <= j <= i
    requires Route(s, root, off, b, idx, addrs, O, cs, i)
    requires 0 < cs ==> Level(s, b, idx, addrs, O, cs) && SignedOf(b[cs][idx[cs]]) == 0
    requires Below(s, root, off, b, idx, addrs, O, cs, i, j, d.Contents())
    modifies d.disk
    ensures Consistent(d)
    ensures ret == SUCCESS && emptied ==> Below(s, root, off, b, idx, addrs, O, cs, i, j + 1, d.Contents())
    ensures Cut(d.Contents(), ret, emptied) == Up(s, root, off, b, idx, addrs, O, cs, i, j)
    ensures !(ret == SUCCESS && emptied) ==> Cut(d.Contents(), ret, emptied) == Up(s, root, off, b, idx, addrs, O, cs, i, i)
  {
    AscendCase(s, root, off, b, idx, addrs, O, cs, i, j, d.Contents());
    var next := SignedOf(b[j][idx[j]]);
    var w := b[j];
    ret := SUCCESS;
    if next != 0 {
      ret, w := DropStep(d, addrs[j], w, idx[j], next, d.Contents());
    }
    emptied := ret == SUCCESS && AllZeroWords(w);
    if !(ret == SUCCESS && emptied) {
      Stop(s, root, off, b, idx, addrs, O, cs, i, j, d.Contents(), ret, emptied);
    }
  }

  /** The second pass of `rm_nth_datablock`, from level `check_start` up to
      the zone root, stopping at a failed free or at a block that still
      holds a non-zero entry; `emptied` says the zone root itself ended all
      zero. */
  method Ascend(d: Disk, b: seq<Node>, idx: seq<nat>, addrs: seq<int>, cs: nat, i: nat,
                ghost s: seq<Block>, ghost O: seq<nat>, ghost root: int, ghost off: nat)
    returns (ret: int, emptied: bool)
    requires Consistent(d) && Ready(d) && s == d.Contents() && ListOk(s) && cs <= i
    requires Route(s, root, off, b, idx, addrs, O, cs, i)
    requires 0 < cs ==> Level(s, b, idx, addrs, O, cs) && SignedOf(b[cs][idx[cs]]) == 0
    modifies d.disk
    ensures Consistent(d)
    ensures Cut(d.Contents(), ret, emptied) == Up(s, root, off, b, idx, addrs, O, cs, i, i)
  {
    var j := cs;
    while j <= i
      invariant cs <= j <= i + 1 && Consistent(d)
      invariant Below(s, root, off, b, idx, addrs, O, cs, i, j, d.Contents())
    {
      ret, emptied := AscendStep(d, b, idx, addrs, cs, i, j, s, O, root, off);
      if ret != SUCCESS || !emptied {
        return;
      }
      j := j + 1;
    }
    BelowTop(s, root, off, b, idx, addrs, O, cs, i, d.Contents());
    return SUCCESS, true;
  }

  /** The end of `rm_nth_datablock`: free the zone root and clear the
      inode's entry for it. */
  method FreeZoneRoot(d: Disk, ino: Inode, p: Place, root: int, ghost t: seq<Block>)
    returns (r: int, ino': Inode)
    requires Consistent(d) && t == d.Contents() && PlaceOk(p)
    requires Ready(d) ==> ListOk(t) && (1 <= root <= SuperOf(t).dataSize ==> root !in Free(t))
    modifies d.disk
    ensures Consistent(d)
    ensures !Ready(d) ==> r == DISC_UNINITIALIZED && ino' == ino && d.Contents() == t
    ensures Ready(d) ==> Removed(d.Contents(), ino', r) == FreeRoot(t, ino, p, root)
  {
    r := DataFree(d, root);
    if r != SUCCESS {
      return r, ino;
    }
    ino' := WithRoot(ino, p, 0);
  }

  /** `rm_nth_datablock` once the zone of n is known: both passes over the
      indirection blocks, then the zone root itself if it ended all zero. */
  method RmZone(d: Disk, ino: Inode, p: Place, ghost s: seq<Block>) returns (r: int, ino': Inode)
    requires Consistent(d) && s == d.Contents() && PlaceOk(p)
    requires Ready(d) ==> ZoneOk(s, ino, p)
    modifies d.disk
    ensures Consistent(d)
    ensures Removed(d.Contents(), ino', r) == RmAt(Ready(d), s, ino, p)
  {
    var root := SignedOf(Root(ino, p));
    if p.level >= 0 {
      var i: nat := p.level;
      var ret, cs, b, idx, addrs, O := Descend(d, root, p.off, i, s);
      if ret != SUCCESS {
        return ret, ino;
      }
      if cs <= i {
        var emptied;
        ret, emptied := Ascend(d, b, idx, addrs, cs, i, s, O, root, p.off);
        UpRoot(s, root, p.off, b, idx, addrs, O, cs, i);
        PruneKeeps(s, root, p.off, i);
        if ret != SUCCESS || !emptied {
          return ret, ino;
        }
      }
    }
    if root == 0 {
      return SUCCESS, ino;
    }
    r, ino' := FreeZoneRoot(d, ino, p, root, d.Contents());
  }

  /** `rm_nth_datablock(inod, n)`: logical block n of the file is no longer
      allocated. The inode is the caller's copy, returned updated. */
  method RmNth(d: Disk, ino: Inode, n: int) returns (r: int, ino': Inode)
    requires Consistent(d)
    requires Ready(d) ==> ListOk(d.Contents()) && PathClean(d.Contents(), ino, n) && PathDistinct(d.Contents(), ino, n)
    modifies d.disk
    ensures Consistent(d)
    ensures Removed(d.Contents(), ino', r) == RmSpec(Ready(d), old(d.Contents()), ino, n)
  {
    var p := PlaceOf(n);
    if p.None? {
      return INVALID_BLOCK, ino;
    }
    r, ino' := RmZone(d, ino, p.value, d.Contents());
  }
}
