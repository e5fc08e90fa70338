// What `rm_nth_datablock` and `get_nth_datablock` (layer2.c) leave alone:
// removing or creating logical block n of a file does not change where any
// other logical block m of the same file is found. The C code touches only
// the indirection blocks on n's route, and in each of them only the entry
// the route takes; it frees only blocks left holding zeros, and a new
// block starts as zeros. This holds on a file whose blocks form a tree:
// m's route shares with n's only the blocks above the level where their
// indices part (`Apart`).
module Frames {
  import opened Globals
  import opened Codec
  import opened Layout
  import opened FreeList
  import opened DataBlocks
  import opened Tree
  import opened Indirect
  import opened Remove

  // ---------------------------------------------------- routes that part

  /** From block a at level j the routes to off and om take the same
      entries down to some level, and from the first entry where they
      differ, the route to om meets no block of R. */
  ghost predicate Fork(ns: seq<Node>, a: int, off: nat, om: nat, j: int, R: set<int>)
    requires j >= -1 && (j >= 0 ==> off < Pow(P, j + 1) && om < Pow(P, j + 1))
    decreases j + 1
  {
    a < 1 || a > |ns| || j < 0 ||
      if Digit(off, j) == Digit(om, j) then
        Fork(ns, Entry(ns, a, Digit(off, j)), Rest(off, j), Rest(om, j), j - 1, R)
      else
        Reach(ns, Entry(ns, a, Digit(om, j)), Rest(om, j), j - 1) !! R
  }

  /** Logical blocks n and m of the file with inode ino share no block
      below the point where their routes part; a direct block m has no
      route to share. */
  ghost predicate Apart(s: seq<Block>, ino: Inode, n: int, m: int)
    requires Mounted(s)
  {
    match PlaceOf(n)
    case None => true
    case Some(p) =>
      match PlaceOf(m)
      case None => true
      case Some(q) =>
        var root := SignedOf(Root(ino, q));
        q.level < 0 ||
          if p.level == q.level then Fork(Nodes(s), root, p.off, q.off, q.level, PathReach(s, ino, n))
          else Reach(Nodes(s), root, q.off, q.level) !! PathReach(s, ino, n)
  }

  /** The route to om from addr is clean and parts from the route to off
      as `Fork` says, held as one fact that the lemmas below unfold one
      level at a time. */
  ghost predicate Beside(s: seq<Block>, addr: int, off: nat, om: nat, j: nat, R: set<int>)
    requires ChainOk(s) && off < Pow(P, j + 1) && om < Pow(P, j + 1)
  {
    BesideDef(s, addr, off, om, j, R, false)
  }

  ghost predicate BesideDef(s: seq<Block>, addr: int, off: nat, om: nat, j: nat, R: set<int>, deep: bool)
    requires ChainOk(s) && off < Pow(P, j + 1) && om < Pow(P, j + 1)
    decreases !deep
  {
    if !deep then BesideDef(s, addr, off, om, j, R, true)
    else Clean(s, addr, om, j) && Fork(Nodes(s), addr, off, om, j, R)
  }

  lemma BesideIntro(s: seq<Block>, addr: int, off: nat, om: nat, j: nat, R: set<int>)
    requires ChainOk(s) && off < Pow(P, j + 1) && om < Pow(P, j + 1)
    requires Clean(s, addr, om, j) && Fork(Nodes(s), addr, off, om, j, R)
    ensures Beside(s, addr, off, om, j, R)
  {
    assert BesideDef(s, addr, off, om, j, R, true);
  }

  /** Where the two routes take the same entry, they are `Beside` one
      level down. */
  lemma BesideSame(s: seq<Block>, addr: int, off: nat, om: nat, j: nat, R: set<int>)
    requires ListOk(s) && 1 <= addr <= SuperOf(s).dataSize && j > 0 && off < Pow(P, j + 1) && om < Pow(P, j + 1)
    requires Digit(off, j) == Digit(om, j) && Beside(s, addr, off, om, j, R)
    ensures Beside(s, Entry(Nodes(s), addr, Digit(off, j)), Rest(off, j), Rest(om, j), j - 1, R)
  {
    assert BesideDef(s, addr, off, om, j, R, true);
    BesideIntro(s, Entry(Nodes(s), addr, Digit(off, j)), Rest(off, j), Rest(om, j), j - 1, R);
  }

  /** Where the routes part, om's route below meets neither R nor a free
      block. */
  lemma BesideApart(s: seq<Block>, addr: int, off: nat, om: nat, j: nat, R: set<int>)
    requires ListOk(s) && 1 <= addr <= SuperOf(s).dataSize && j > 0 && off < Pow(P, j + 1) && om < Pow(P, j + 1)
    requires Digit(off, j) != Digit(om, j) && Beside(s, addr, off, om, j, R)
    ensures Reach(Nodes(s), Entry(Nodes(s), addr, Digit(om, j)), Rest(om, j), j - 1) !! Free(s) + R
  {
    assert BesideDef(s, addr, off, om, j, R, true);
    CleanFree(s, Entry(Nodes(s), addr, Digit(om, j)), Rest(om, j), j - 1);
  }

  // ------------------------------------------------------------- helpers

  /** A clean route meets no free block. */
  lemma {:induction false} CleanFree(s: seq<Block>, a: int, off: nat, j: int)
    requires ChainOk(s) && j >= -1 && (j >= 0 ==> off < Pow(P, j + 1)) && Clean(s, a, off, j)
    ensures Reach(Nodes(s), a, off, j) !! Free(s)
    decreases j + 1
  {
    if 1 <= a <= SuperOf(s).dataSize && j >= 0 {
      CleanFree(s, Entry(Nodes(s), a, Digit(off, j)), Rest(off, j), j - 1);
    }
  }

  /** A lookup whose route avoids every block that changed finds what it
      found before. */
  lemma RouteKept(s: seq<Block>, s': seq<Block>, F: set<int>, a: int, off: nat, j: int)
    requires Mounted(s) && Mounted(s') && OnlyChanged(s, s', F)
    requires SuperOf(s').dataOffset == SuperOf(s).dataOffset && SuperOf(s').dataSize == SuperOf(s).dataSize
    requires j >= -1 && (j >= 0 ==> off < Pow(P, j + 1)) && Reach(Nodes(s), a, off, j) !! F
    ensures Tree.Walk(true, Nodes(s'), a, off, j) == Tree.Walk(true, Nodes(s), a, off, j)
  {
    NodesKept(s, s', F);
    WalkFrame(true, Nodes(s), Nodes(s'), a, off, j);
  }

  /** Two offsets of a zone differ in their digit at level 0, or in what
      is left below a digit they share. */
  lemma DigitsPart(off: nat, om: nat, j: nat)
    requires off < Pow(P, j + 1) && om < Pow(P, j + 1) && off != om
    ensures j == 0 ==> Digit(off, j) != Digit(om, j)
    ensures Digit(off, j) == Digit(om, j) ==> Rest(off, j) != Rest(om, j)
  {
    PowPositive(P, j);
    var x := Pow(P, j);
    assert off == (off / x) * x + off % x;
    assert om == (om / x) * x + om % x;
  }

  /** Only the place p itself names the inode field it hangs from. */
  lemma RootOther(ino: Inode, p: Place, q: Place, v: Word)
    requires PlaceOk(p) && PlaceOk(q) && (p.level != q.level || (p.level < 0 && p.off != q.off))
    ensures Root(WithRoot(ino, p, v), q) == Root(ino, q)
  {
  }

  /** A block left all zero by clearing the route to off held nothing on
      any other route. */
  lemma {:induction false} EmptiedOther(ns: seq<Node>, a: int, off: nat, om: nat, j: nat)
    requires 1 <= a <= |ns| && off < Pow(P, j + 1) && om < Pow(P, j + 1) && off != om
    requires Emptied(ns, a, off, j)
    ensures Tree.Walk(true, ns, a, om, j) == 0
    decreases j
  {
    DigitsPart(off, om, j);
    var k, km := Digit(off, j), Digit(om, j);
    if km != k {
      assert ns[a - 1][k := 0][km] == 0;
    } else {
      var c := Entry(ns, a, k);
      if c != 0 {
        EmptiedOther(ns, c, Rest(off, j), Rest(om, j), j - 1);
      }
    }
  }

  // ---------------------------------------------------- rm_nth_datablock

  /** Pruning the route to off from addr leaves the lookup of om from addr
      as it was, unless addr itself ends all zero and is freed. */
  lemma {:induction false} PruneOther(s: seq<Block>, addr: int, off: nat, om: nat, j: nat, R: set<int>)
    requires ListOk(s) && addr != 0 && off < Pow(P, j + 1) && om < Pow(P, j + 1) && off != om
    requires Clean(s, addr, off, j) && Distinct(Nodes(s), addr, off, j)
    requires Reach(Nodes(s), addr, off, j) <= R && Beside(s, addr, off, om, j, R)
    ensures Mounted(Prune(s, addr, off, j).disk)
    ensures var g := Prune(s, addr, off, j);
      g.r == SUCCESS && !g.empty ==> Tree.Walk(true, Nodes(g.disk), addr, om, j) == Tree.Walk(true, Nodes(s), addr, om, j)
    decreases j, 3
  {
    PruneKeeps(s, addr, off, j);
    if 1 <= addr <= SuperOf(s).dataSize {
      var c := Entry(Nodes(s), addr, Digit(off, j));
      if c != 0 && j == 0 {
        OtherLeaf(s, addr, off, om, j);
      } else if c != 0 {
        OtherUp(s, addr, off, om, j, R);
      }
    }
  }

  /** At level 0 only the entry of off is cleared. */
  lemma OtherLeaf(s: seq<Block>, addr: int, off: nat, om: nat, j: nat)
    requires ListOk(s) && 1 <= addr <= SuperOf(s).dataSize && j == 0
    requires off < Pow(P, j + 1) && om < Pow(P, j + 1) && off != om
    requires Clean(s, addr, off, j) && Distinct(Nodes(s), addr, off, j)
    requires Entry(Nodes(s), addr, Digit(off, j)) != 0
    ensures Mounted(Prune(s, addr, off, j).disk)
    ensures var g := Prune(s, addr, off, j);
      g.r == SUCCESS ==> Tree.Walk(true, Nodes(g.disk), addr, om, j) == Tree.Walk(true, Nodes(s), addr, om, j)
  {
    PruneKeeps(s, addr, off, j);
    var w := Nodes(s)[addr - 1];
    var k := Digit(off, j);
    var c := Entry(Nodes(s), addr, k);
    if 1 <= c <= SuperOf(s).dataSize {
      var g := Prune(s, addr, off, j);
      assert g == Drop(s, addr, w, k, c);
      assert c in Reach(Nodes(s), c, Rest(off, j), j - 1);
      DropOk(s, addr, w, k, c, g);
      DigitsPart(off, om, j);
      assert Entry(Nodes(g.disk), addr, Digit(om, j)) == Entry(Nodes(s), addr, Digit(om, j));
    }
  }

  /** Above level 0: the route below is pruned first. */
  lemma {:induction false} OtherUp(s: seq<Block>, addr: int, off: nat, om: nat, j: nat, R: set<int>)
    requires ListOk(s) && 1 <= addr <= SuperOf(s).dataSize && j > 0
    requires off < Pow(P, j + 1) && om < Pow(P, j + 1) && off != om
    requires Clean(s, addr, off, j) && Distinct(Nodes(s), addr, off, j)
    requires Reach(Nodes(s), addr, off, j) <= R && Beside(s, addr, off, om, j, R)
    requires Entry(Nodes(s), addr, Digit(off, j)) != 0
    ensures Mounted(Prune(s, addr, off, j).disk)
    ensures var g := Prune(s, addr, off, j);
      g.r == SUCCESS && !g.empty ==> Tree.Walk(true, Nodes(g.disk), addr, om, j) == Tree.Walk(true, Nodes(s), addr, om, j)
    decreases j, 2
  {
    PruneKeeps(s, addr, off, j);
    if Digit(off, j) == Digit(om, j) {
      OtherSame(s, addr, off, om, j, R);
    } else {
      OtherApart(s, addr, off, om, j, R);
    }
  }

  /** The two routes take the same entry of addr: the route below is
      pruned with om still beside it, and if it ends all zero, the entry
      both take is cleared, where om found 0 already. */
  lemma {:induction false} OtherSame(s: seq<Block>, addr: int, off: nat, om: nat, j: nat, R: set<int>)
    requires ListOk(s) && 1 <= addr <= SuperOf(s).dataSize && j > 0
    requires off < Pow(P, j + 1) && om < Pow(P, j + 1) && off != om && Digit(off, j) == Digit(om, j)
    requires Clean(s, addr, off, j) && Distinct(Nodes(s), addr, off, j)
    requires Reach(Nodes(s), addr, off, j) <= R && Beside(s, addr, off, om, j, R)
    requires Entry(Nodes(s), addr, Digit(off, j)) != 0
    ensures Mounted(Prune(s, addr, off, j).disk)
    ensures var g := Prune(s, addr, off, j);
      g.r == SUCCESS && !g.empty ==> Tree.Walk(true, Nodes(g.disk), addr, om, j) == Tree.Walk(true, Nodes(s), addr, om, j)
    decreases j, 1
  {
    KeptStep(s, addr, off, j);
    SameBelow(s, addr, off, om, j, R);
    SameCut(s, addr, off, om, j);
  }

  /** The route below the shared entry ended all zero: the entry both
      routes take is cleared, and om found 0 there before and after. */
  lemma SameCut(s: seq<Block>, addr: int, off: nat, om: nat, j: nat)
    requires ListOk(s) && 1 <= addr <= SuperOf(s).dataSize && j > 0
    requires off < Pow(P, j + 1) && om < Pow(P, j + 1) && off != om && Digit(off, j) == Digit(om, j)
    requires Clean(s, addr, off, j) && Distinct(Nodes(s), addr, off, j)
    requires var c := Entry(Nodes(s), addr, Digit(off, j));
      c != 0 && Clean(s, c, Rest(off, j), j - 1) && Distinct(Nodes(s), c, Rest(off, j), j - 1)
    ensures var below := Prune(s, Entry(Nodes(s), addr, Digit(off, j)), Rest(off, j), j - 1);
      below.r == SUCCESS && below.empty ==>
        && Mounted(Prune(s, addr, off, j).disk)
        && Tree.Walk(true, Nodes(Prune(s, addr, off, j).disk), addr, om, j) == 0
        && Tree.Walk(true, Nodes(s), addr, om, j) == 0
  {
    DigitsPart(off, om, j);
    var c := Entry(Nodes(s), addr, Digit(off, j));
    var below := Prune(s, c, Rest(off, j), j - 1);
    CutStep(s, addr, off, j);
    CutEmptied(s, c, Rest(off, j), j - 1);
    if below.r == SUCCESS && below.empty {
      SameDrop(s, addr, off, om, j, below.disk, Prune(s, addr, off, j));
    }
  }

  /** The route below the shared entry was pruned with om still beside
      it; if it still holds something, addr is untouched and om's lookup
      from addr is as it was. */
  lemma {:induction false} SameBelow(s: seq<Block>, addr: int, off: nat, om: nat, j: nat, R: set<int>)
    requires ListOk(s) && 1 <= addr <= SuperOf(s).dataSize && j > 0
    requires off < Pow(P, j + 1) && om < Pow(P, j + 1) && off != om && Digit(off, j) == Digit(om, j)
    requires Clean(s, addr, off, j) && Distinct(Nodes(s), addr, off, j)
    requires Reach(Nodes(s), addr, off, j) <= R && Beside(s, addr, off, om, j, R)
    requires var c := Entry(Nodes(s), addr, Digit(off, j));
      c != 0 && Clean(s, c, Rest(off, j), j - 1) && Distinct(Nodes(s), c, Rest(off, j), j - 1)
    ensures var below := Prune(s, Entry(Nodes(s), addr, Digit(off, j)), Rest(off, j), j - 1);
      && Mounted(below.disk)
      && (below.r == SUCCESS && !below.empty ==>
          Tree.Walk(true, Nodes(below.disk), addr, om, j) == Tree.Walk(true, Nodes(s), addr, om, j))
    decreases j, 0
  {
    DigitsPart(off, om, j);
    Down(s, addr, off, j);
    BesideSame(s, addr, off, om, j, R);
    var c := Entry(Nodes(s), addr, Digit(off, j));
    PruneKeeps(s, c, Rest(off, j), j - 1);
    PruneOther(s, c, Rest(off, j), Rest(om, j), j - 1, R);
    var below := Prune(s, c, Rest(off, j), j - 1);
    if below.r == SUCCESS && !below.empty {
      SameKept(s, addr, off, om, j, below);
    }
  }

  /** The route below the entry of addr ended all zero: the step at addr
      is the `Drop` of that block, which is in range, is not addr, and had
      been used; the pruned disk keeps both off the free list. */
  lemma CutStep(s: seq<Block>, addr: int, off: nat, j: nat)
    requires ListOk(s) && 1 <= addr <= SuperOf(s).dataSize && j > 0 && off < Pow(P, j + 1)
    requires Clean(s, addr, off, j) && Distinct(Nodes(s), addr, off, j)
    requires var c := Entry(Nodes(s), addr, Digit(off, j));
      c != 0 && Clean(s, c, Rest(off, j), j - 1) && Distinct(Nodes(s), c, Rest(off, j), j - 1)
    ensures var c := Entry(Nodes(s), addr, Digit(off, j));
      var below := Prune(s, c, Rest(off, j), j - 1);
      below.r == SUCCESS && below.empty ==>
      && ListOk(below.disk) && SuperOf(below.disk).dataSize == SuperOf(s).dataSize
      && 1 <= c <= SuperOf(s).dataSize && c != addr && addr !in Free(below.disk) && c !in Free(below.disk)
      && Prune(s, addr, off, j) == Drop(below.disk, addr, Nodes(s)[addr - 1], Digit(off, j), c)
  {
    var c := Entry(Nodes(s), addr, Digit(off, j));
    PruneKeeps(s, c, Rest(off, j), j - 1);
    var below := Prune(s, c, Rest(off, j), j - 1);
    if below.r == SUCCESS && below.empty {
      KeepsPass(s, addr, off, j, below.disk);
      NotSelf(Nodes(s), addr, off, j);
    }
  }

  /** A `Prune` that succeeds and reports its block empty found that block
      all zero once the route was cleared. */
  lemma CutEmptied(s: seq<Block>, addr: int, off: nat, j: nat)
    requires ListOk(s) && addr != 0 && off < Pow(P, j + 1)
    requires Clean(s, addr, off, j) && Distinct(Nodes(s), addr, off, j)
    ensures Prune(s, addr, off, j).r == SUCCESS && Prune(s, addr, off, j).empty ==>
      1 <= addr <= |Nodes(s)| && Emptied(Nodes(s), addr, off, j)
  {
    PruneClears(s, addr, off, j);
  }

  /** One level down the route to off from addr: the block the entry
      names leads a clean route that meets no block twice, and addr is
      neither free nor on it. */
  lemma Down(s: seq<Block>, addr: int, off: nat, j: nat)
    requires ListOk(s) && 1 <= addr <= SuperOf(s).dataSize && j > 0 && off < Pow(P, j + 1)
    requires Clean(s, addr, off, j) && Distinct(Nodes(s), addr, off, j)
    ensures var c := Entry(Nodes(s), addr, Digit(off, j));
      && Clean(s, c, Rest(off, j), j - 1) && Distinct(Nodes(s), c, Rest(off, j), j - 1)
      && addr !in Free(s) && addr !in Reach(Nodes(s), c, Rest(off, j), j - 1)
      && Reach(Nodes(s), addr, off, j) == {addr} + Reach(Nodes(s), c, Rest(off, j), j - 1)
  {
  }

  /** A step of `Prune` above level 0 whose route below did not end all
      zero returns what the route below returned. */
  lemma KeptStep(s: seq<Block>, addr: int, off: nat, j: nat)
    requires ListOk(s) && 1 <= addr <= SuperOf(s).dataSize && j > 0 && off < Pow(P, j + 1)
    requires Clean(s, addr, off, j) && Distinct(Nodes(s), addr, off, j)
    requires Entry(Nodes(s), addr, Digit(off, j)) != 0
    ensures var c := Entry(Nodes(s), addr, Digit(off, j));
      Clean(s, c, Rest(off, j), j - 1) && Distinct(Nodes(s), c, Rest(off, j), j - 1)
    ensures Mounted(Prune(s, Entry(Nodes(s), addr, Digit(off, j)), Rest(off, j), j - 1).disk)
    ensures var below := Prune(s, Entry(Nodes(s), addr, Digit(off, j)), Rest(off, j), j - 1);
      && SuperOf(below.disk).dataSize == SuperOf(s).dataSize
      && (below.r != SUCCESS || !below.empty ==> Prune(s, addr, off, j) == below)
      && Nodes(below.disk)[addr - 1] == Nodes(s)[addr - 1]
  {
    var c := Entry(Nodes(s), addr, Digit(off, j));
    PruneKeeps(s, c, Rest(off, j), j - 1);
    AddrKept(s, addr, off, j, Prune(s, c, Rest(off, j), j - 1).disk);
  }

  /** The block below ended all zero: it is freed and the shared entry
      cleared, and om's lookup found 0 before and after. */
  lemma SameDrop(s: seq<Block>, addr: int, off: nat, om: nat, j: nat, s1: seq<Block>, g: Cut)
    requires ListOk(s) && 1 <= addr <= SuperOf(s).dataSize && j > 0
    requires off < Pow(P, j + 1) && om < Pow(P, j + 1) && Digit(off, j) == Digit(om, j) && Rest(off, j) != Rest(om, j)
    requires ListOk(s1) && SuperOf(s1).dataSize == SuperOf(s).dataSize && addr !in Free(s1)
    requires var c := Entry(Nodes(s), addr, Digit(off, j));
      && 1 <= c <= SuperOf(s).dataSize && c != addr && c !in Free(s1) && Emptied(Nodes(s), c, Rest(off, j), j - 1)
      && g == Drop(s1, addr, Nodes(s)[addr - 1], Digit(off, j), c)
    ensures Mounted(g.disk)
    ensures Tree.Walk(true, Nodes(g.disk), addr, om, j) == 0 && Tree.Walk(true, Nodes(s), addr, om, j) == 0
  {
    DropOk(s1, addr, Nodes(s)[addr - 1], Digit(off, j), Entry(Nodes(s), addr, Digit(off, j)), g);
    BelowEmptied(Nodes(s), addr, off, om, j);
    assert Entry(Nodes(g.disk), addr, Digit(om, j)) == 0;
  }

  /** The block the shared entry names is left all zero once off's entry
      is cleared, so om's route through it meets 0. */
  lemma BelowEmptied(ns: seq<Node>, a: int, off: nat, om: nat, j: nat)
    requires 1 <= a <= |ns| && j > 0 && off < Pow(P, j + 1) && om < Pow(P, j + 1)
    requires Digit(off, j) == Digit(om, j) && Rest(off, j) != Rest(om, j)
    requires var c := Entry(ns, a, Digit(off, j)); 1 <= c <= |ns| && Emptied(ns, c, Rest(off, j), j - 1)
    ensures Tree.Walk(true, ns, a, om, j) == 0
  {
    EmptiedOther(ns, Entry(ns, a, Digit(off, j)), Rest(off, j), Rest(om, j), j - 1);
  }

  /** The block below still holds something: addr is untouched, and om's
      lookup below it is as it was. */
  lemma SameKept(s: seq<Block>, addr: int, off: nat, om: nat, j: nat, below: Cut)
    requires ListOk(s) && 1 <= addr <= SuperOf(s).dataSize && j > 0
    requires off < Pow(P, j + 1) && om < Pow(P, j + 1) && Digit(off, j) == Digit(om, j)
    requires Clean(s, addr, off, j) && Distinct(Nodes(s), addr, off, j)
    requires var c := Entry(Nodes(s), addr, Digit(off, j));
      && c != 0 && Pruned(s, c, Rest(off, j), j - 1, below.disk)
      && Tree.Walk(true, Nodes(below.disk), c, Rest(om, j), j - 1) == Tree.Walk(true, Nodes(s), c, Rest(om, j), j - 1)
    ensures Tree.Walk(true, Nodes(below.disk), addr, om, j) == Tree.Walk(true, Nodes(s), addr, om, j)
  {
    var c := Entry(Nodes(s), addr, Digit(off, j));
    AddrKept(s, addr, off, j, below.disk);
    assert Entry(Nodes(below.disk), addr, Digit(om, j)) == c;
  }

  /** The routes part at addr: everything written is on n's route or was
      free, and om's route below addr meets neither. */
  lemma OtherApart(s: seq<Block>, addr: int, off: nat, om: nat, j: nat, R: set<int>)
    requires ListOk(s) && 1 <= addr <= SuperOf(s).dataSize && j > 0
    requires off < Pow(P, j + 1) && om < Pow(P, j + 1) && Digit(off, j) != Digit(om, j)
    requires Clean(s, addr, off, j) && Distinct(Nodes(s), addr, off, j)
    requires Reach(Nodes(s), addr, off, j) <= R && Beside(s, addr, off, om, j, R)
    requires Entry(Nodes(s), addr, Digit(off, j)) != 0
    ensures Mounted(Prune(s, addr, off, j).disk)
    ensures var g := Prune(s, addr, off, j);
      g.r == SUCCESS ==> Tree.Walk(true, Nodes(g.disk), addr, om, j) == Tree.Walk(true, Nodes(s), addr, om, j)
  {
    PruneKeeps(s, addr, off, j);
    var km := Digit(om, j);
    var cm := Entry(Nodes(s), addr, km);
    BesideApart(s, addr, off, om, j, R);
    PruneEntry(s, addr, off, j, km);
    var g := Prune(s, addr, off, j);
    if g.r == SUCCESS {
      ApartKept(s, g.disk, addr, off, om, j, R);
    }
  }

  /** Only blocks on the route to off, or free ones, changed, and addr's
      entry for om did not: om's lookup is as it was. */
  lemma ApartKept(s: seq<Block>, s1: seq<Block>, addr: int, off: nat, om: nat, j: nat, R: set<int>)
    requires ListOk(s) && Mounted(s1) && 1 <= addr <= SuperOf(s).dataSize && j > 0
    requires off < Pow(P, j + 1) && om < Pow(P, j + 1)
    requires SuperOf(s1).dataOffset == SuperOf(s).dataOffset && SuperOf(s1).dataSize == SuperOf(s).dataSize
    requires OnlyChanged(s, s1, Free(s) + Reach(Nodes(s), addr, off, j)) && Reach(Nodes(s), addr, off, j) <= R
    requires Reach(Nodes(s), Entry(Nodes(s), addr, Digit(om, j)), Rest(om, j), j - 1) !! Free(s) + R
    requires Entry(Nodes(s1), addr, Digit(om, j)) == Entry(Nodes(s), addr, Digit(om, j))
    ensures Tree.Walk(true, Nodes(s1), addr, om, j) == Tree.Walk(true, Nodes(s), addr, om, j)
  {
    Widen(s, s1, Free(s) + Reach(Nodes(s), addr, off, j), Free(s) + R);
    RouteKept(s, s1, Free(s) + R, Entry(Nodes(s), addr, Digit(om, j)), Rest(om, j), j - 1);
    WalkStep(Nodes(s), Nodes(s1), addr, om, j);
  }

  /** A lookup through a that takes the same entry of a as before, and
      finds below it what it found before, finds the same block. */
  lemma WalkStep(ns: seq<Node>, ns': seq<Node>, a: int, om: nat, j: nat)
    requires 1 <= a <= |ns| == |ns'| && j > 0 && om < Pow(P, j + 1)
    requires Entry(ns', a, Digit(om, j)) == Entry(ns, a, Digit(om, j))
    requires var c := Entry(ns, a, Digit(om, j));
      Tree.Walk(true, ns', c, Rest(om, j), j - 1) == Tree.Walk(true, ns, c, Rest(om, j), j - 1)
    ensures Tree.Walk(true, ns', a, om, j) == Tree.Walk(true, ns, a, om, j)
  {
  }

  /** Above level 0, a successful prune leaves every entry of addr but
      the route's own. */
  lemma PruneEntry(s: seq<Block>, addr: int, off: nat, j: nat, i: nat)
    requires ListOk(s) && 1 <= addr <= SuperOf(s).dataSize && j > 0 && off < Pow(P, j + 1)
    requires Clean(s, addr, off, j) && Distinct(Nodes(s), addr, off, j)
    requires Entry(Nodes(s), addr, Digit(off, j)) != 0 && i < P && i != Digit(off, j)
    ensures Mounted(Prune(s, addr, off, j).disk) && SuperOf(Prune(s, addr, off, j).disk).dataSize == SuperOf(s).dataSize
    ensures var g := Prune(s, addr, off, j);
      g.r == SUCCESS ==> Entry(Nodes(g.disk), addr, i) == Entry(Nodes(s), addr, i)
  {
    var w := Nodes(s)[addr - 1];
    var k := Digit(off, j);
    var c := Entry(Nodes(s), addr, k);
    Down(s, addr, off, j);
    PruneKeeps(s, c, Rest(off, j), j - 1);
    var below := Prune(s, c, Rest(off, j), j - 1);
    var g := Prune(s, addr, off, j);
    KeepsPass(s, addr, off, j, below.disk);
    AddrKept(s, addr, off, j, below.disk);
    if below.r == SUCCESS && below.empty {
      assert 1 <= c <= SuperOf(s).dataSize;
      assert g == Drop(below.disk, addr, w, k, c);
      DropEntry(s, addr, off, j, i, below.disk, g);
    } else {
      assert g == below;
    }
  }

  /** The block below was freed and the route's entry of addr cleared:
      every other entry of addr is as it was. */
  lemma DropEntry(s: seq<Block>, addr: int, off: nat, j: nat, i: nat, s1: seq<Block>, g: Cut)
    requires ListOk(s) && 1 <= addr <= SuperOf(s).dataSize && j > 0 && off < Pow(P, j + 1)
    requires Clean(s, addr, off, j) && Distinct(Nodes(s), addr, off, j)
    requires i < P && i != Digit(off, j)
    requires var c := Entry(Nodes(s), addr, Digit(off, j));
      && ListOk(s1) && SuperOf(s1).dataSize == SuperOf(s).dataSize && 1 <= c <= SuperOf(s).dataSize
      && addr !in Free(s1) && c !in Free(s1) && Nodes(s1)[addr - 1] == Nodes(s)[addr - 1]
      && g == Drop(s1, addr, Nodes(s)[addr - 1], Digit(off, j), c)
    ensures Mounted(g.disk) && SuperOf(g.disk).dataSize == SuperOf(s).dataSize
    ensures Entry(Nodes(g.disk), addr, i) == Entry(Nodes(s), addr, i)
  {
    NotSelf(Nodes(s), addr, off, j);
    DropOk(s1, addr, Nodes(s)[addr - 1], Digit(off, j), Entry(Nodes(s), addr, Digit(off, j)), g);
  }

  /** Pruning below addr leaves addr as it was. */
  lemma AddrKept(s: seq<Block>, addr: int, off: nat, j: nat, s1: seq<Block>)
    requires ListOk(s) && 1 <= addr <= SuperOf(s).dataSize && j > 0 && off < Pow(P, j + 1)
    requires Clean(s, addr, off, j) && Distinct(Nodes(s), addr, off, j)
    requires Pruned(s, Entry(Nodes(s), addr, Digit(off, j)), Rest(off, j), j - 1, s1)
    ensures Nodes(s1)[addr - 1] == Nodes(s)[addr - 1]
  {
    NodeKept(s, s1, Free(s) + Reach(Nodes(s), Entry(Nodes(s), addr, Digit(off, j)), Rest(off, j), j - 1), addr);
  }

  /** `rm_nth_datablock` in the zone of p, seen from another place q of
      the same zone. */
  lemma RmSameZone(s: seq<Block>, ino: Inode, p: Place, q: Place)
    requires PlaceOk(p) && PlaceOk(q) && p.level == q.level >= 0 && p.off != q.off && ZoneOk(s, ino, p)
    requires var root := SignedOf(Root(ino, p));
      Clean(s, root, q.off, q.level) && Fork(Nodes(s), root, p.off, q.off, q.level, Reach(Nodes(s), root, p.off, p.level))
    ensures Mounted(RmAt(true, s, ino, p).disk)
    ensures var f := RmAt(true, s, ino, p);
      Tree.Walk(true, Nodes(f.disk), SignedOf(Root(f.ino, q)), q.off, q.level)
        == Tree.Walk(true, Nodes(s), SignedOf(Root(ino, q)), q.off, q.level)
  {
    KeepsAt(s, ino, p);
    var root := SignedOf(Root(ino, p));
    if root != 0 {
      PruneKeeps(s, root, p.off, p.level);
      PruneClears(s, root, p.off, p.level);
      PruneResult(s, root, p.off, p.level);
      BesideIntro(s, root, p.off, q.off, p.level, Reach(Nodes(s), root, p.off, p.level));
      PruneOther(s, root, p.off, q.off, p.level, Reach(Nodes(s), root, p.off, p.level));
      var g := Prune(s, root, p.off, p.level);
      if g.r == SUCCESS && g.empty {
        EmptiedOther(Nodes(s), root, p.off, q.off, p.level);
      }
    }
  }

  /** Removing logical block n leaves every other logical block m where it
      was found, on a file where the two routes are `Apart` and m's route
      meets no free block. */
  lemma RmFrame(s: seq<Block>, ino: Inode, n: int, m: int)
    requires ListOk(s) && PathClean(s, ino, n) && PathDistinct(s, ino, n)
    requires PathClean(s, ino, m) && m != n && Apart(s, ino, n, m)
    ensures Mounted(RmSpec(true, s, ino, n).disk)
    ensures var f := RmSpec(true, s, ino, n);
      Lookup(true, Nodes(f.disk), f.ino, m) == Lookup(true, Nodes(s), ino, m)
  {
    RmKeeps(s, ino, n);
    RmResult(s, ino, n);
    var f := RmSpec(true, s, ino, n);
    if PlaceOf(n).Some? && PlaceOf(m).Some? && f.r == SUCCESS {
      var p, q := PlaceOf(n).value, PlaceOf(m).value;
      var root := SignedOf(Root(ino, q));
      if p.level == q.level && q.level >= 0 {
        RmSameZone(s, ino, p, q);
      } else {
        RoutesDiffer(n, m);
        RootOther(ino, p, q, 0);
        if q.level >= 0 {
          CleanFree(s, root, q.off, q.level);
          RouteKept(s, f.disk, Free(s) + PathReach(s, ino, n), root, q.off, q.level);
        }
      }
    }
  }

  // --------------------------------------------------- get_nth_datablock

  /** A step of `Create` at a zero entry with a block to take: the entry
      names the block b taken from the free list, which holds zeros, and
      nothing else of addr changes on the way down. */
  lemma GrowAt(s: seq<Block>, addr: int, off: nat, j: nat, created: bool, s2: seq<Block>, b: Word)
    requires ListOk(s) && 1 <= addr <= SuperOf(s).dataSize && off < Pow(P, j + 1)
    requires Clean(s, addr, off, j) && Nodes(s)[addr - 1][Digit(off, j)] == 0 && Head(s) != INVALID_DATA
    requires (s2, b) == Grow(s, addr, Digit(off, j))
    ensures Linked(s, addr, Digit(off, j), s2, b)
    ensures var g := Create(s, addr, off, j, created);
      && Mounted(g.disk) && SuperOf(g.disk).dataSize == SuperOf(s).dataSize
      && Nodes(g.disk)[addr - 1] == Nodes(s)[addr - 1][Digit(off, j) := b]
  {
    CreateGrows(s, addr, off, j, created, s2, b);
    GrowLinked(s, addr, Digit(off, j), s2, b);
    var c := SignedOf(b);
    NewReach(Nodes(s2), b, Rest(off, j), j - 1);
    CreateKeeps(s2, c, Rest(off, j), j - 1, true);
    CreateFrame(s2, c, Rest(off, j), j - 1, true);
    LinkKept(s, addr, Digit(off, j), s2, b, Create(s2, c, Rest(off, j), j - 1, true).disk, Reach(Nodes(s2), c, Rest(off, j), j - 1));
  }

  /** Block b linked in below addr, then only free blocks and blocks of
      R <= {b} written: addr holds what the link left there. */
  lemma LinkKept(s: seq<Block>, addr: int, k: nat, s2: seq<Block>, b: Word, s3: seq<Block>, R: set<int>)
    requires ListOk(s) && 1 <= addr <= SuperOf(s).dataSize && k < P && addr !in Free(s)
    requires Linked(s, addr, k, s2, b) && Keeps(s2, s3) && R <= {b} && OnlyChanged(s2, s3, Free(s2) + R)
    ensures Mounted(s3) && SuperOf(s3).dataSize == SuperOf(s).dataSize
    ensures Nodes(s3)[addr - 1] == Nodes(s)[addr - 1][k := b]
  {
    NodeKept(s2, s3, Free(s2) + R, addr);
  }

  /** From a block b of zeros, the descent to off leaves om's lookup from b
      finding 0. */
  lemma {:induction false} FreshOther(s: seq<Block>, b: int, off: nat, om: nat, j: nat, created: bool)
    requires ListOk(s) && SuperOf(s).dataSize < 0x8000_0000 && 1 <= b <= SuperOf(s).dataSize && b !in Free(s)
    requires Nodes(s)[b - 1] == Zeros(WORDS_PER_BLOCK)
    requires off < Pow(P, j + 1) && om < Pow(P, j + 1) && off != om
    ensures Clean(s, b, off, j)
    ensures Mounted(Create(s, b, off, j, created).disk)
    ensures Tree.Walk(true, Nodes(Create(s, b, off, j, created).disk), b, om, j) == 0
    decreases j, 2
  {
    ZeroRoute(s, b, off, j);
    CreateKeeps(s, b, off, j, created);
    DigitsPart(off, om, j);
    assert Nodes(s)[b - 1][Digit(off, j)] == 0;
    if Head(s) == INVALID_DATA {
      assert Create(s, b, off, j, created).disk == s;
      assert Entry(Nodes(s), b, Digit(om, j)) == 0;
    } else if Digit(off, j) == Digit(om, j) {
      GrowSame(s, b, off, om, j, created);
    } else {
      var t := Grow(s, b, Digit(off, j));
      GrowAt(s, b, off, j, created, t.0, t.1);
      assert Entry(Nodes(Create(s, b, off, j, created).disk), b, Digit(om, j)) == 0;
    }
  }

  /** The routes to off and om take the same zero entry of addr, so om
      found 0; the entry now names a new block of zeros, where om finds 0
      again. */
  lemma {:induction false} GrowSame(s: seq<Block>, addr: int, off: nat, om: nat, j: nat, created: bool)
    requires ListOk(s) && SuperOf(s).dataSize < 0x8000_0000 && 1 <= addr <= SuperOf(s).dataSize
    requires off < Pow(P, j + 1) && om < Pow(P, j + 1) && off != om && Digit(off, j) == Digit(om, j)
    requires Clean(s, addr, off, j) && Nodes(s)[addr - 1][Digit(off, j)] == 0 && Head(s) != INVALID_DATA
    ensures Mounted(Create(s, addr, off, j, created).disk)
    ensures Tree.Walk(true, Nodes(Create(s, addr, off, j, created).disk), addr, om, j) == 0
    decreases j, 1
  {
    DigitsPart(off, om, j);
    var t := Grow(s, addr, Digit(off, j));
    GrowFacts(s, addr, off, j, t.0, t.1);
    GrowOn(s, addr, off, j, created, t.0, t.1);
    SameZeros(s, addr, off, om, j, created, t.0, t.1);
  }

  /** The block b a step of `Grow` links, on a disk of fewer than 2^31
      blocks: a used block of zeros whose number reads back as itself. */
  lemma GrowFacts(s: seq<Block>, addr: int, off: nat, j: nat, s2: seq<Block>, b: Word)
    requires ListOk(s) && SuperOf(s).dataSize < 0x8000_0000 && 1 <= addr <= SuperOf(s).dataSize && off < Pow(P, j + 1)
    requires addr !in Free(s) && Nodes(s)[addr - 1][Digit(off, j)] == 0 && Head(s) != INVALID_DATA
    requires (s2, b) == Grow(s, addr, Digit(off, j))
    ensures ListOk(s2) && SuperOf(s2).dataSize < 0x8000_0000 && 1 <= b as int <= SuperOf(s2).dataSize && b as int !in Free(s2)
    ensures Nodes(s2)[b - 1] == Zeros(WORDS_PER_BLOCK) && SignedOf(b) == b as int
  {
    GrowLinked(s, addr, Digit(off, j), s2, b);
    Fresh(s, addr, Digit(off, j), s2, b);
  }

  /** `GrowAt` with b reading back as itself: the descent goes on from b,
      which the entry of addr now names. */
  lemma GrowOn(s: seq<Block>, addr: int, off: nat, j: nat, created: bool, s2: seq<Block>, b: Word)
    requires ListOk(s) && 1 <= addr <= SuperOf(s).dataSize && off < Pow(P, j + 1)
    requires Clean(s, addr, off, j) && Nodes(s)[addr - 1][Digit(off, j)] == 0 && Head(s) != INVALID_DATA
    requires (s2, b) == Grow(s, addr, Digit(off, j)) && SignedOf(b) == b as int
    ensures ListOk(s2) && Clean(s2, b, Rest(off, j), j - 1)
    ensures Create(s, addr, off, j, created) == Create(s2, b, Rest(off, j), j - 1, true)
    ensures var g := Create(s, addr, off, j, created);
      Mounted(g.disk) && 1 <= addr <= |Nodes(g.disk)| && Nodes(g.disk)[addr - 1][Digit(off, j)] == b
  {
    CreateGrows(s, addr, off, j, created, s2, b);
    GrowAt(s, addr, off, j, created, s2, b);
  }

  /** A lookup that meets a zero entry finds 0. */
  lemma HoleWalk(ns: seq<Node>, a: int, om: nat, j: nat)
    requires 1 <= a <= |ns| && om < Pow(P, j + 1) && ns[a - 1][Digit(om, j)] == 0
    ensures Tree.Walk(true, ns, a, om, j) == 0
  {
    assert Entry(ns, a, Digit(om, j)) == 0;
  }

  /** The shared entry of addr now names b, a used block of zeros, and the
      descent below goes on from b: om finds 0 from b, so from addr. */
  lemma {:induction false} SameZeros(s: seq<Block>, addr: int, off: nat, om: nat, j: nat, created: bool, s2: seq<Block>, b: Word)
    requires ListOk(s) && 1 <= addr <= SuperOf(s).dataSize && j > 0 && off < Pow(P, j + 1) && om < Pow(P, j + 1)
    requires Digit(off, j) == Digit(om, j) && Rest(off, j) != Rest(om, j) && Clean(s, addr, off, j)
    requires ListOk(s2) && SuperOf(s2).dataSize < 0x8000_0000 && 1 <= b as int <= SuperOf(s2).dataSize && b as int !in Free(s2)
    requires Nodes(s2)[b - 1] == Zeros(WORDS_PER_BLOCK) && Clean(s2, b, Rest(off, j), j - 1)
    requires Create(s, addr, off, j, created) == Create(s2, b, Rest(off, j), j - 1, true)
    requires var g := Create(s, addr, off, j, created);
      Mounted(g.disk) && 1 <= addr <= |Nodes(g.disk)| && Nodes(g.disk)[addr - 1][Digit(off, j)] == b
    ensures Tree.Walk(true, Nodes(Create(s, addr, off, j, created).disk), addr, om, j) == 0
    decreases j, 0
  {
    FreshOther(s2, b, Rest(off, j), Rest(om, j), j - 1, true);
    WalkZero(Nodes(Create(s, addr, off, j, created).disk), addr, om, j, b);
  }

  /** The block a step of `Grow` linked is a used block of zeros, whose
      number reads back as itself on a disk of fewer than 2^31 blocks. */
  lemma Fresh(s: seq<Block>, a: int, k: nat, s2: seq<Block>, b: Word)
    requires ListOk(s) && 1 <= a <= SuperOf(s).dataSize && k < P && SuperOf(s).dataSize < 0x8000_0000
    requires Linked(s, a, k, s2, b)
    ensures ListOk(s2) && SuperOf(s2).dataSize == SuperOf(s).dataSize
    ensures 1 <= b as int <= SuperOf(s2).dataSize && b as int !in Free(s2) && SignedOf(b) == b as int
    ensures Nodes(s2)[b - 1] == Zeros(WORDS_PER_BLOCK)
  {
  }

  /** A lookup through a that takes an entry naming b, where it finds 0,
      finds 0. */
  lemma WalkZero(ns: seq<Node>, a: int, om: nat, j: nat, b: int)
    requires 1 <= a <= |ns| && j > 0 && om < Pow(P, j + 1)
    requires Entry(ns, a, Digit(om, j)) == b && Tree.Walk(true, ns, b, Rest(om, j), j - 1) == 0
    ensures Tree.Walk(true, ns, a, om, j) == 0
  {
  }

  /** `Create` from addr leaves every entry of addr but the route's own. */
  lemma CreateEntry(s: seq<Block>, addr: int, off: nat, j: nat, created: bool, i: nat)
    requires ListOk(s) && 1 <= addr <= SuperOf(s).dataSize && off < Pow(P, j + 1)
    requires Clean(s, addr, off, j) && Distinct(Nodes(s), addr, off, j) && i < P && i != Digit(off, j)
    ensures Mounted(Create(s, addr, off, j, created).disk)
    ensures SuperOf(Create(s, addr, off, j, created).disk).dataSize == SuperOf(s).dataSize
    ensures Entry(Nodes(Create(s, addr, off, j, created).disk), addr, i) == Entry(Nodes(s), addr, i)
  {
    CreateKeeps(s, addr, off, j, created);
    if Nodes(s)[addr - 1][Digit(off, j)] != 0 {
      DownKept(s, addr, off, j, created);
    } else if Head(s) != INVALID_DATA {
      var t := Grow(s, addr, Digit(off, j));
      GrowAt(s, addr, off, j, created, t.0, t.1);
    } else {
      assert Create(s, addr, off, j, created).disk == s;
    }
  }

  /** `Create` at a non-zero entry leaves addr as it was. */
  lemma DownKept(s: seq<Block>, addr: int, off: nat, j: nat, created: bool)
    requires ListOk(s) && 1 <= addr <= SuperOf(s).dataSize && off < Pow(P, j + 1)
    requires Clean(s, addr, off, j) && Distinct(Nodes(s), addr, off, j) && Nodes(s)[addr - 1][Digit(off, j)] != 0
    ensures Keeps(s, Create(s, addr, off, j, created).disk)
    ensures Nodes(Create(s, addr, off, j, created).disk)[addr - 1] == Nodes(s)[addr - 1]
  {
    CreateKeeps(s, addr, off, j, created);
    CreateDown(s, addr, off, j, created);
    if j > 0 {
      Down(s, addr, off, j);
      var c := Entry(Nodes(s), addr, Digit(off, j));
      CreateFrame(s, c, Rest(off, j), j - 1, created);
      NodeKept(s, Create(s, c, Rest(off, j), j - 1, created).disk, Free(s) + Reach(Nodes(s), c, Rest(off, j), j - 1), addr);
    } else {
      assert Create(s, addr, off, j, created).disk == s;
    }
  }

  /** The descent to off from addr, creating blocks, leaves the lookup of
      om from addr as it was. */
  lemma {:induction false} CreateOther(s: seq<Block>, addr: int, off: nat, om: nat, j: nat, R: set<int>, created: bool)
    requires ListOk(s) && SuperOf(s).dataSize < 0x8000_0000 && addr != 0
    requires off < Pow(P, j + 1) && om < Pow(P, j + 1) && off != om
    requires Clean(s, addr, off, j) && Distinct(Nodes(s), addr, off, j)
    requires Reach(Nodes(s), addr, off, j) <= R && Beside(s, addr, off, om, j, R)
    ensures Mounted(Create(s, addr, off, j, created).disk)
    ensures Tree.Walk(true, Nodes(Create(s, addr, off, j, created).disk), addr, om, j) == Tree.Walk(true, Nodes(s), addr, om, j)
    decreases j, 2
  {
    CreateKeeps(s, addr, off, j, created);
    if 1 <= addr <= SuperOf(s).dataSize {
      if Digit(off, j) != Digit(om, j) {
        CreateApart(s, addr, off, om, j, R, created);
      } else if Nodes(s)[addr - 1][Digit(off, j)] != 0 {
        CreateSame(s, addr, off, om, j, R, created);
      } else if Head(s) != INVALID_DATA {
        GrowSame(s, addr, off, om, j, created);
        HoleWalk(Nodes(s), addr, om, j);
      } else {
        assert Create(s, addr, off, j, created).disk == s;
      }
    } else {
      assert Create(s, addr, off, j, created).disk == s;
    }
  }

  /** The routes part at addr: om's entry of addr is kept, and below it
      nothing was written. */
  lemma CreateApart(s: seq<Block>, addr: int, off: nat, om: nat, j: nat, R: set<int>, created: bool)
    requires ListOk(s) && 1 <= addr <= SuperOf(s).dataSize
    requires off < Pow(P, j + 1) && om < Pow(P, j + 1) && Digit(off, j) != Digit(om, j)
    requires Clean(s, addr, off, j) && Distinct(Nodes(s), addr, off, j)
    requires Reach(Nodes(s), addr, off, j) <= R && Beside(s, addr, off, om, j, R)
    ensures Mounted(Create(s, addr, off, j, created).disk)
    ensures Tree.Walk(true, Nodes(Create(s, addr, off, j, created).disk), addr, om, j) == Tree.Walk(true, Nodes(s), addr, om, j)
  {
    CreateEntry(s, addr, off, j, created, Digit(om, j));
    CreateKeeps(s, addr, off, j, created);
    if j > 0 {
      CreateFrame(s, addr, off, j, created);
      BesideApart(s, addr, off, om, j, R);
      ApartKept(s, Create(s, addr, off, j, created).disk, addr, off, om, j, R);
    }
  }

  /** The routes take the same non-zero entry of addr: addr is kept and the
      step is one level down. */
  lemma {:induction false} CreateSame(s: seq<Block>, addr: int, off: nat, om: nat, j: nat, R: set<int>, created: bool)
    requires ListOk(s) && SuperOf(s).dataSize < 0x8000_0000 && 1 <= addr <= SuperOf(s).dataSize
    requires off < Pow(P, j + 1) && om < Pow(P, j + 1) && off != om && Digit(off, j) == Digit(om, j)
    requires Clean(s, addr, off, j) && Distinct(Nodes(s), addr, off, j)
    requires Reach(Nodes(s), addr, off, j) <= R && Beside(s, addr, off, om, j, R)
    requires Nodes(s)[addr - 1][Digit(off, j)] != 0
    ensures Mounted(Create(s, addr, off, j, created).disk)
    ensures Tree.Walk(true, Nodes(Create(s, addr, off, j, created).disk), addr, om, j) == Tree.Walk(true, Nodes(s), addr, om, j)
    decreases j, 1
  {
    DigitsPart(off, om, j);
    CreateDown(s, addr, off, j, created);
    Down(s, addr, off, j);
    BesideSame(s, addr, off, om, j, R);
    var c := Entry(Nodes(s), addr, Digit(off, j));
    CreateOther(s, c, Rest(off, j), Rest(om, j), j - 1, R, created);
    CreateKeeps(s, c, Rest(off, j), j - 1, created);
    CreateFrame(s, c, Rest(off, j), j - 1, created);
    var g := Create(s, c, Rest(off, j), j - 1, created);
    NodeKept(s, g.disk, Free(s) + Reach(Nodes(s), c, Rest(off, j), j - 1), addr);
    WalkStep(Nodes(s), Nodes(g.disk), addr, om, j);
  }

  /** `get_nth_datablock` with `create` for n, seen from another logical
      block m of the same zone. */
  lemma GetSameZone(s: seq<Block>, ino: Inode, n: int, m: int, created: bool)
    requires ListOk(s) && SuperOf(s).dataSize < 0x8000_0000 && PathClean(s, ino, n) && PathDistinct(s, ino, n)
    requires PathClean(s, ino, m) && m != n && Apart(s, ino, n, m)
    requires PlaceOf(n).Some? && PlaceOf(m).Some? && PlaceOf(n).value.level == PlaceOf(m).value.level >= 0
    ensures Mounted(GetSpec(true, s, ino, n, created).disk)
    ensures var f := GetSpec(true, s, ino, n, created);
      Lookup(true, Nodes(f.disk), f.ino, m) == Lookup(true, Nodes(s), ino, m)
  {
    GetKeeps(s, ino, n, created);
    var p, q := PlaceOf(n).value, PlaceOf(m).value;
    var root := SignedOf(Root(ino, p));
    assert p.off != q.off;
    if root == 0 {
      if Head(s) != INVALID_DATA {
        GetFresh(s, ino, n, m, created);
      }
    } else {
      var R := Reach(Nodes(s), root, p.off, p.level);
      BesideIntro(s, root, p.off, q.off, p.level, R);
      CreateOther(s, root, p.off, q.off, p.level, R, created);
    }
  }

  /** n's zone had no root block yet: a zeroed block is taken as the
      root, and m, in the same zone, finds 0 through it as it found 0
      before. */
  lemma GetFresh(s: seq<Block>, ino: Inode, n: int, m: int, created: bool)
    requires ListOk(s) && SuperOf(s).dataSize < 0x8000_0000 && PathClean(s, ino, n) && PathDistinct(s, ino, n)
    requires PathClean(s, ino, m) && m != n && Apart(s, ino, n, m)
    requires PlaceOf(n).Some? && PlaceOf(m).Some? && PlaceOf(n).value.level == PlaceOf(m).value.level >= 0
    requires SignedOf(Root(ino, PlaceOf(n).value)) == 0 && Head(s) != INVALID_DATA
    ensures Mounted(GetSpec(true, s, ino, n, created).disk)
    ensures var f := GetSpec(true, s, ino, n, created);
      Lookup(true, Nodes(f.disk), f.ino, m) == Lookup(true, Nodes(s), ino, m)
  {
    var p, q := PlaceOf(n).value, PlaceOf(m).value;
    assert p.off != q.off;
    var t := AllocSpec(s, ZeroBlock());
    Taken(s, t.0, t.1);
    FreshOther(t.0, t.1, p.off, q.off, p.level, true);
  }

  /** Creating logical block n leaves every other logical block m where
      it was found, on a file where the two routes are `Apart` and m's
      route meets no free block. */
  lemma GetFrame(s: seq<Block>, ino: Inode, n: int, m: int, created: bool)
    requires ListOk(s) && SuperOf(s).dataSize < 0x8000_0000 && PathClean(s, ino, n) && PathDistinct(s, ino, n)
    requires PathClean(s, ino, m) && m != n && Apart(s, ino, n, m)
    ensures Mounted(GetSpec(true, s, ino, n, created).disk)
    ensures var f := GetSpec(true, s, ino, n, created);
      Lookup(true, Nodes(f.disk), f.ino, m) == Lookup(true, Nodes(s), ino, m)
  {
    GetKeeps(s, ino, n, created);
    GetInode(true, s, ino, n, created);
    var f := GetSpec(true, s, ino, n, created);
    if PlaceOf(n).Some? && PlaceOf(m).Some? {
      var p, q := PlaceOf(n).value, PlaceOf(m).value;
      if p.level == q.level && q.level >= 0 {
        GetSameZone(s, ino, n, m, created);
      } else {
        RoutesDiffer(n, m);
        RootOther(ino, p, q, Root(f.ino, p));
        var root := SignedOf(Root(ino, q));
        if q.level >= 0 {
          CleanFree(s, root, q.off, q.level);
          RouteKept(s, f.disk, Free(s) + PathReach(s, ino, n), root, q.off, q.level);
        }
      }
    }
  }
}
