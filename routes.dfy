// What `get_nth_datablock` with `create` (layer2.c) leaves of the route it
// completes: the route still meets no free block and no block twice, a
// block written where the route ends does not change where it leads, and a
// descent that allocated anything ends at a data block or with `DATA_FULL`,
// from what was a hole.
module Routes {
  import opened Globals
  import opened Codec
  import opened Layout
  import opened FreeList
  import opened DataBlocks
  import opened Tree
  import opened Indirect

  // ------------------------------------------------------- the lookup's end

  /** A lookup that ends at a data block ends on its route. */
  lemma {:induction false} WalkReaches(ns: seq<Node>, addr: int, off: nat, j: int)
    requires j >= -1 && (j >= 0 ==> off < Pow(P, j + 1))
    ensures 1 <= Tree.Walk(true, ns, addr, off, j) <= |ns| ==> Tree.Walk(true, ns, addr, off, j) in Reach(ns, addr, off, j)
    decreases j + 1
  {
    if j >= 0 && 1 <= addr <= |ns| {
      WalkReaches(ns, Entry(ns, addr, Digit(off, j)), Rest(off, j), j - 1);
    }
  }

  /** On a route that meets no block twice, the block the lookup ends at is
      not read on the way to it: changing it changes nothing on the way. */
  lemma {:induction false} LeafFrame(ns: seq<Node>, ns': seq<Node>, addr: int, off: nat, j: int)
    requires j >= -1 && (j >= 0 ==> off < Pow(P, j + 1)) && |ns'| == |ns|
    requires Distinct(ns, addr, off, j)
    requires forall a :: a in Reach(ns, addr, off, j) && a != Tree.Walk(true, ns, addr, off, j) ==> ns'[a - 1] == ns[a - 1]
    ensures Tree.Walk(true, ns', addr, off, j) == Tree.Walk(true, ns, addr, off, j)
    decreases j + 1
  {
    if j >= 0 && 1 <= addr <= |ns| {
      var c := Entry(ns, addr, Digit(off, j));
      WalkReaches(ns, c, Rest(off, j), j - 1);
      assert addr in Reach(ns, addr, off, j);
      assert ns'[addr - 1] == ns[addr - 1];
      LeafFrame(ns, ns', c, Rest(off, j), j - 1);
    }
  }

  /** Writing the block a lookup ends at leaves the lookup where it was. */
  lemma LeafWrite(ns: seq<Node>, addr: int, off: nat, j: int, w: Node)
    requires j >= -1 && (j >= 0 ==> off < Pow(P, j + 1)) && Distinct(ns, addr, off, j)
    requires 1 <= Tree.Walk(true, ns, addr, off, j) <= |ns|
    ensures Tree.Walk(true, ns[Tree.Walk(true, ns, addr, off, j) - 1 := w], addr, off, j) == Tree.Walk(true, ns, addr, off, j)
  {
    LeafFrame(ns, ns[Tree.Walk(true, ns, addr, off, j) - 1 := w], addr, off, j);
  }

  // ------------------------------------------------ the route after Create

  /** After a descent from addr the route is still clean and meets no block
      twice, and it meets only blocks it met before and blocks that were
      free. */
  ghost predicate Rerouted(s: seq<Block>, g: Got, addr: int, off: nat, j: int)
    requires ListOk(s) && j >= -1 && (j >= 0 ==> off < Pow(P, j + 1))
  {
    && Keeps(s, g.disk)
    && Clean(g.disk, addr, off, j)
    && Distinct(Nodes(g.disk), addr, off, j)
    && Reach(Nodes(g.disk), addr, off, j) <= Reach(Nodes(s), addr, off, j) + Free(s)
  }

  lemma {:induction false} CreateRoutes(s: seq<Block>, addr: int, off: nat, j: int, created: bool)
    requires ListOk(s) && addr != 0 && j >= -1 && (j >= 0 ==> off < Pow(P, j + 1))
    requires Clean(s, addr, off, j) && Distinct(Nodes(s), addr, off, j)
    ensures Rerouted(s, Create(s, addr, off, j, created), addr, off, j)
    decreases j + 1, 2
  {
    if j >= 0 && 1 <= addr <= SuperOf(s).dataSize {
      if Nodes(s)[addr - 1][Digit(off, j)] != 0 {
        RoutesDown(s, addr, off, j, created);
      } else if Head(s) != INVALID_DATA {
        var t := Grow(s, addr, Digit(off, j));
        CreateGrows(s, addr, off, j, created, t.0, t.1);
        GrowLinked(s, addr, Digit(off, j), t.0, t.1);
        RoutesBelow(s, addr, off, j, t.0, t.1);
      } else {
        assert Create(s, addr, off, j, created).disk == s;
      }
    } else {
      assert Create(s, addr, off, j, created).disk == s;
    }
  }

  /** A non-zero entry: the descent goes on below it and addr is untouched. */
  lemma {:induction false} RoutesDown(s: seq<Block>, addr: int, off: nat, j: nat, created: bool)
    requires ListOk(s) && 1 <= addr <= SuperOf(s).dataSize && off < Pow(P, j + 1)
    requires Clean(s, addr, off, j) && Distinct(Nodes(s), addr, off, j)
    requires Nodes(s)[addr - 1][Digit(off, j)] != 0
    ensures Rerouted(s, Create(s, addr, off, j, created), addr, off, j)
    decreases j + 1, 1
  {
    CreateDown(s, addr, off, j, created);
    var c := Entry(Nodes(s), addr, Digit(off, j));
    CreateRoutes(s, c, Rest(off, j), j - 1, created);
    CreateFrame(s, c, Rest(off, j), j - 1, created);
    RoutesUp(s, addr, off, j, Create(s, c, Rest(off, j), j - 1, created));
  }

  /** Block addr, untouched, heads a rerouted route when the route below it
      is one. */
  lemma RoutesUp(s: seq<Block>, addr: int, off: nat, j: nat, g: Got)
    requires ListOk(s) && 1 <= addr <= SuperOf(s).dataSize && off < Pow(P, j + 1)
    requires Clean(s, addr, off, j) && Distinct(Nodes(s), addr, off, j)
    requires var c := Entry(Nodes(s), addr, Digit(off, j));
      && Rerouted(s, g, c, Rest(off, j), j - 1)
      && OnlyChanged(s, g.disk, Free(s) + Reach(Nodes(s), c, Rest(off, j), j - 1))
    ensures Rerouted(s, g, addr, off, j)
  {
    var c := Entry(Nodes(s), addr, Digit(off, j));
    var F := Free(s) + Reach(Nodes(s), c, Rest(off, j), j - 1);
    assert addr !in F;
    NodeKept(s, g.disk, F, addr);
    assert Entry(Nodes(g.disk), addr, Digit(off, j)) == c;
  }

  /** A zero entry: block b, taken and linked in, leads a route of blocks
      that were free. */
  lemma {:induction false} RoutesBelow(s: seq<Block>, addr: int, off: nat, j: nat, s2: seq<Block>, b: Word)
    requires ListOk(s) && 1 <= addr <= SuperOf(s).dataSize && off < Pow(P, j + 1) && addr !in Free(s)
    requires Linked(s, addr, Digit(off, j), s2, b) && SignedOf(b) != 0
    requires Clean(s2, SignedOf(b), Rest(off, j), j - 1)
    ensures Rerouted(s, Create(s2, SignedOf(b), Rest(off, j), j - 1, true), addr, off, j)
    decreases j + 1, 0
  {
    NewReach(Nodes(s2), b, Rest(off, j), j - 1);
    CreateRoutes(s2, SignedOf(b), Rest(off, j), j - 1, true);
    CreateFrame(s2, SignedOf(b), Rest(off, j), j - 1, true);
    RoutesLink(s, addr, off, j, s2, b, Create(s2, SignedOf(b), Rest(off, j), j - 1, true));
  }

  /** Block addr, with block b linked in, heads a rerouted route when the
      route below b is one. */
  lemma RoutesLink(s: seq<Block>, addr: int, off: nat, j: nat, s2: seq<Block>, b: Word, g: Got)
    requires ListOk(s) && 1 <= addr <= SuperOf(s).dataSize && off < Pow(P, j + 1) && addr !in Free(s)
    requires Linked(s, addr, Digit(off, j), s2, b) && SignedOf(b) != 0
    requires Reach(Nodes(s2), SignedOf(b), Rest(off, j), j - 1) <= {b}
    requires Rerouted(s2, g, SignedOf(b), Rest(off, j), j - 1)
    requires OnlyChanged(s2, g.disk, Free(s2) + Reach(Nodes(s2), SignedOf(b), Rest(off, j), j - 1))
    ensures Rerouted(s, g, addr, off, j)
  {
    KeepsLink(s, addr, Digit(off, j), s2, b, g.disk);
    var F := Free(s2) + Reach(Nodes(s2), SignedOf(b), Rest(off, j), j - 1);
    assert addr !in F;
    NodeKept(s2, g.disk, F, addr);
    assert Nodes(g.disk)[addr - 1][Digit(off, j)] == b;
    assert Entry(Nodes(g.disk), addr, Digit(off, j)) == SignedOf(b);
  }

  /** `get_nth_datablock` with `create` leaves logical block n's route clean
      and meeting no block twice, when it was so before. */
  lemma GetRoutes(s: seq<Block>, ino: Inode, n: int, created: bool)
    requires ListOk(s) && PathClean(s, ino, n) && PathDistinct(s, ino, n)
    ensures var f := GetSpec(true, s, ino, n, created);
      && ListOk(f.disk) && PathClean(f.disk, f.ino, n) && PathDistinct(f.disk, f.ino, n)
  {
    match PlaceOf(n)
    case None =>
    case Some(p) =>
      var root := SignedOf(Root(ino, p));
      if root == 0 {
        if Head(s) != INVALID_DATA {
          var t := AllocSpec(s, ZeroBlock());
          Taken(s, t.0, t.1);
          RootClean(s, t.0, t.1, p.off, p.level);
          NewReach(Nodes(t.0), t.1, p.off, p.level);
          CreateRoutes(t.0, SignedOf(t.1), p.off, p.level, true);
        }
      } else if p.level >= 0 {
        CreateRoutes(s, root, p.off, p.level, created);
      }
  }

  // ------------------------------------------------- what Create allocates

  /** Below a block of zeros every entry is taken in turn: the descent ends
      at a data block, or with `DATA_FULL`. */
  lemma {:induction false} FreshEnds(s: seq<Block>, b: int, off: nat, j: int, created: bool)
    requires ListOk(s) && SuperOf(s).dataSize < 0x8000_0000 && 1 <= b <= SuperOf(s).dataSize
    requires Nodes(s)[b - 1] == Zeros(WORDS_PER_BLOCK)
    requires j >= -1 && (j >= 0 ==> off < Pow(P, j + 1)) && Clean(s, b, off, j)
    ensures var g := Create(s, b, off, j, created);
      g.r == DATA_FULL || 1 <= g.r <= SuperOf(s).dataSize
    decreases j + 1, 1
  {
    if j >= 0 {
      if Head(s) != INVALID_DATA {
        FreshGrow(s, b, off, j, created);
      } else {
        assert Nodes(s)[b - 1][Digit(off, j)] == 0;
        assert Create(s, b, off, j, created) == Got(s, DATA_FULL, created);
      }
    }
  }

  lemma {:induction false} FreshGrow(s: seq<Block>, b: int, off: nat, j: nat, created: bool)
    requires ListOk(s) && SuperOf(s).dataSize < 0x8000_0000 && 1 <= b <= SuperOf(s).dataSize
    requires Nodes(s)[b - 1] == Zeros(WORDS_PER_BLOCK) && Head(s) != INVALID_DATA
    requires off < Pow(P, j + 1) && Clean(s, b, off, j)
    ensures var g := Create(s, b, off, j, created);
      g.r == DATA_FULL || 1 <= g.r <= SuperOf(s).dataSize
    decreases j + 1, 0
  {
    assert Nodes(s)[b - 1][Digit(off, j)] == 0;
    var t := Grow(s, b, Digit(off, j));
    CreateGrows(s, b, off, j, created, t.0, t.1);
    GrowLinked(s, b, Digit(off, j), t.0, t.1);
    FreshBelow(s, b, off, j, t.0, t.1);
  }

  /** The descent below block b2, just linked in from a. */
  lemma {:induction false} FreshBelow(s: seq<Block>, a: int, off: nat, j: nat, s2: seq<Block>, b2: Word)
    requires ListOk(s) && SuperOf(s).dataSize < 0x8000_0000 && 1 <= a <= SuperOf(s).dataSize && off < Pow(P, j + 1)
    requires Linked(s, a, Digit(off, j), s2, b2) && Clean(s2, SignedOf(b2), Rest(off, j), j - 1)
    ensures var g := Create(s2, SignedOf(b2), Rest(off, j), j - 1, true);
      g.r == DATA_FULL || 1 <= g.r <= SuperOf(s).dataSize
    decreases j, 2
  {
    FreshEnds(s2, SignedOf(b2), Rest(off, j), j - 1, true);
  }

  /** A descent that sets `created` started from a hole, and ends at a data
      block or with `DATA_FULL`. */
  ghost predicate Allocated(s: seq<Block>, g: Got, addr: int, off: nat, j: int)
    requires Mounted(s) && j >= -1 && (j >= 0 ==> off < Pow(P, j + 1))
  {
    g.created ==> Tree.Walk(true, Nodes(s), addr, off, j) == 0 && (g.r == DATA_FULL || 1 <= g.r <= SuperOf(s).dataSize)
  }

  lemma {:induction false} CreateEnds(s: seq<Block>, addr: int, off: nat, j: int)
    requires ListOk(s) && SuperOf(s).dataSize < 0x8000_0000
    requires addr != 0 && j >= -1 && (j >= 0 ==> off < Pow(P, j + 1)) && Clean(s, addr, off, j)
    ensures Allocated(s, Create(s, addr, off, j, false), addr, off, j)
    decreases j + 1, 1
  {
    if j >= 0 && 1 <= addr <= SuperOf(s).dataSize {
      if Nodes(s)[addr - 1][Digit(off, j)] != 0 {
        EndsDown(s, addr, off, j);
      } else if Head(s) != INVALID_DATA {
        EndsGrow(s, addr, off, j);
      } else {
        assert Create(s, addr, off, j, false) == Got(s, DATA_FULL, false);
      }
    } else {
      var r := if j < 0 then addr else INVALID_BLOCK;
      assert Create(s, addr, off, j, false) == Got(s, r, false);
    }
  }

  lemma {:induction false} EndsDown(s: seq<Block>, addr: int, off: nat, j: nat)
    requires ListOk(s) && SuperOf(s).dataSize < 0x8000_0000
    requires 1 <= addr <= SuperOf(s).dataSize && off < Pow(P, j + 1) && Clean(s, addr, off, j)
    requires Nodes(s)[addr - 1][Digit(off, j)] != 0
    ensures Allocated(s, Create(s, addr, off, j, false), addr, off, j)
    decreases j + 1, 0
  {
    CreateDown(s, addr, off, j, false);
    CreateEnds(s, Entry(Nodes(s), addr, Digit(off, j)), Rest(off, j), j - 1);
  }

  lemma EndsGrow(s: seq<Block>, addr: int, off: nat, j: nat)
    requires ListOk(s) && SuperOf(s).dataSize < 0x8000_0000
    requires 1 <= addr <= SuperOf(s).dataSize && off < Pow(P, j + 1) && Clean(s, addr, off, j)
    requires Nodes(s)[addr - 1][Digit(off, j)] == 0 && Head(s) != INVALID_DATA
    ensures Allocated(s, Create(s, addr, off, j, false), addr, off, j)
  {
    var t := Grow(s, addr, Digit(off, j));
    CreateGrows(s, addr, off, j, false, t.0, t.1);
    GrowLinked(s, addr, Digit(off, j), t.0, t.1);
    FreshBelow(s, addr, off, j, t.0, t.1);
    assert Entry(Nodes(s), addr, Digit(off, j)) == 0;
  }

  /** A zone root just allocated leads to a data block or `DATA_FULL`. */
  lemma RootEnds(s: seq<Block>, p: Place, s1: seq<Block>, b: int)
    requires ListOk(s) && SuperOf(s).dataSize < 0x8000_0000 && Head(s) != INVALID_DATA
    requires PlaceOk(p) && (s1, b) == AllocSpec(s, ZeroBlock())
    ensures ListOk(s1) && 1 <= b < 0x1_0000_0000 && SignedOf(b) != 0 && Clean(s1, SignedOf(b), p.off, p.level)
    ensures var g := Create(s1, SignedOf(b), p.off, p.level, true);
      g.r == DATA_FULL || 1 <= g.r <= SuperOf(s).dataSize
  {
    Taken(s, s1, b);
    RootClean(s, s1, b, p.off, p.level);
    FreshEnds(s1, b, p.off, p.level, true);
  }

  /** `get_nth_datablock` with `create`, called with `*created` clear: when
      it sets `*created`, logical block n was a hole, and the result is a
      data block or `DATA_FULL`. */
  lemma GetEnds(s: seq<Block>, ino: Inode, n: int)
    requires ListOk(s) && PathClean(s, ino, n) && SuperOf(s).dataSize < 0x8000_0000
    ensures var f := GetSpec(true, s, ino, n, false);
      f.created ==> Lookup(true, Nodes(s), ino, n) == 0 && (f.r == DATA_FULL || 1 <= f.r <= SuperOf(s).dataSize)
  {
    match PlaceOf(n)
    case None =>
    case Some(p) =>
      var root := SignedOf(Root(ino, p));
      if root == 0 {
        if Head(s) != INVALID_DATA {
          var t := AllocSpec(s, ZeroBlock());
          RootEnds(s, p, t.0, t.1);
        }
      } else if p.level >= 0 {
        CreateEnds(s, root, p.off, p.level);
      }
  }
}
