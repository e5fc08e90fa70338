// The addressing of a file's blocks (layer2.c): logical block n of a file
// is found through one of the inode's ten direct slots, or through a tree
// of indirection blocks one, two or three levels deep hanging from the
// `indirect`, `double_indirect` and `triple_indirect` fields. Within a
// zone the block's number is written in base P, one digit per level,
// most significant first; each digit picks an entry of an indirection
// block.
//
// This module holds that arithmetic and the lookup it defines over the
// word view of the data region (block k, counted from 1, is `ns[k - 1]`).
module Tree {
  import opened Globals
  import opened Codec
  import opened Layout
  import opened FreeList

  /** `ADDRESSES_PER_BLOCK`: the 32-bit block numbers one block holds. */
  const P: nat := WORDS_PER_BLOCK

  function Pow(x: int, y: nat): int {
    if y == 0 then 1 else x * Pow(x, y - 1)
  }

  lemma {:induction false} PowPositive(x: int, y: nat)
    requires x >= 1
    ensures Pow(x, y) >= 1
  {
    if y > 0 {
      PowPositive(x, y - 1);
    }
  }

  /** x^(a+b) == x^a * x^b. */
  lemma {:induction false} PowAdd(x: int, a: nat, b: nat)
    ensures Pow(x, a + b) == Pow(x, a) * Pow(x, b)
  {
    if a > 0 {
      PowAdd(x, a - 1, b);
      assert Pow(x, a + b) == x * Pow(x, a - 1 + b);
    }
  }

  lemma PowP()
    ensures Pow(P, 1) == 1024 && Pow(P, 2) == 1024 * 1024 && Pow(P, 3) == 1024 * 1024 * 1024
  {
    assert Pow(P, 0) == 1;
  }

  // ------------------------------------------------------------------ zones

  /** The ends of the direct slots and of the single, double and triple
      indirect zones (`num_direct`, `single_indirect`, `double_indirect` and
      `triple_indirect` in layer2.c). */
  const SINGLE_END: nat := NUM_DIRECT + P
  const DOUBLE_END: nat := SINGLE_END + P * P
  const TRIPLE_END: nat := DOUBLE_END + P * P * P

  /** The first logical block of each zone; level -1 is the direct slots. */
  function ZoneStart(level: int): nat
    requires -1 <= level <= 3
  {
    if level == -1 then 0
    else if level == 0 then NUM_DIRECT
    else if level == 1 then SINGLE_END
    else if level == 2 then DOUBLE_END
    else TRIPLE_END
  }

  /** How many logical blocks zone `level` holds: a tree `level + 1` deep
      reaches P^(level+1) blocks. */
  function Span(level: int): nat
    requires -1 <= level <= 2
  {
    if level == -1 then NUM_DIRECT else PowPositive(P, level + 1); Pow(P, level + 1)
  }

  /** Each zone starts where the one before it ends. */
  lemma ZonesAdjoin(level: int)
    requires -1 <= level <= 2
    ensures ZoneStart(level + 1) == ZoneStart(level) + Span(level)
  {
    PowP();
  }

  /** Where a logical block lives: its zone (`level` -1 for a direct slot,
      else the depth of the tree below the inode field) and its number
      within that zone. */
  datatype Place = Place(level: int, off: nat)

  predicate PlaceOk(p: Place) {
    -1 <= p.level <= 2 && p.off < Span(p.level)
  }

  /** The zone search at the start of `get_nth_datablock` and
      `rm_nth_datablock`: None for the block numbers both reject. */
  function PlaceOf(n: int): (p: Option<Place>)
    ensures p.None? <==> n < 0 || n >= TRIPLE_END
    ensures p.Some? ==> PlaceOk(p.value)
    ensures p.Some? ==> ZoneStart(p.value.level) <= n < ZoneStart(p.value.level + 1)
    ensures p.Some? ==> p.value.off == n - ZoneStart(p.value.level)
  {
    PowP();
    if n < 0 then None
    else if n < NUM_DIRECT then Some(Place(-1, n))
    else if n < SINGLE_END then Some(Place(0, n - NUM_DIRECT))
    else if n < DOUBLE_END then Some(Place(1, n - SINGLE_END))
    else if n < TRIPLE_END then Some(Place(2, n - DOUBLE_END))
    else None
  }

  // ----------------------------------------------------------------- digits

  /** The entry taken at level j: `offset / intPow(ADDRESSES_PER_BLOCK, j)`. */
  function Digit(off: nat, j: nat): (k: nat)
    requires off < Pow(P, j + 1)
    ensures k < P
  {
    PowPositive(P, j);
    DivBelow(off, Pow(P, j), P);
    off / Pow(P, j)
  }

  /** The offset carried to the level below: `offset % intPow(ADDRESSES_PER_BLOCK, j)`. */
  function Rest(off: nat, j: nat): (r: nat)
    ensures r < Pow(P, j)
  {
    PowPositive(P, j);
    off % Pow(P, j)
  }

  /** The entries the descent takes, from level j down to level 0. */
  function Indices(off: nat, j: int): seq<nat>
    requires j >= 0 ==> off < Pow(P, j + 1)
    decreases j + 1
  {
    if j < 0 then [] else [Digit(off, j)] + Indices(Rest(off, j), j - 1)
  }

  /** The value of base-P digits, most significant first. */
  function Value(ds: seq<nat>): nat {
    if ds == [] then 0 else PowPositive(P, |ds| - 1); ds[0] * Pow(P, |ds| - 1) + Value(ds[1..])
  }

  /** The indices are j + 1 base-P digits of the offset. */
  lemma {:induction false} IndicesDigits(off: nat, j: int)
    requires j >= -1 && (j >= 0 ==> off < Pow(P, j + 1))
    ensures |Indices(off, j)| == j + 1
    ensures forall k :: 0 <= k < |Indices(off, j)| ==> Indices(off, j)[k] < P
    ensures j >= 0 ==> Value(Indices(off, j)) == off
    decreases j + 1
  {
    if j >= 0 {
      var ds := Indices(off, j);
      IndicesDigits(Rest(off, j), j - 1);
      assert ds[1..] == Indices(Rest(off, j), j - 1);
      if j > 0 {
        assert Value(ds[1..]) == Rest(off, j);
      } else {
        assert Rest(off, j) == 0;
      }
      assert Value(ds) == Digit(off, j) * Pow(P, j) + Rest(off, j);
    }
  }

  /** Offsets with the same indices are equal. */
  lemma IndicesInjective(off: nat, off': nat, j: int)
    requires 0 <= j && off < Pow(P, j + 1) && off' < Pow(P, j + 1)
    requires Indices(off, j) == Indices(off', j)
    ensures off == off'
  {
    IndicesDigits(off, j);
    IndicesDigits(off', j);
  }

  /** Distinct logical blocks take distinct routes: another zone, another
      direct slot, or other indices. */
  lemma RoutesDiffer(n: int, m: int)
    requires 0 <= n < TRIPLE_END && 0 <= m < TRIPLE_END && n != m
    ensures var p, q := PlaceOf(n).value, PlaceOf(m).value;
      p.level != q.level || (p.level < 0 && p.off != q.off) ||
      (p.level >= 0 && Indices(p.off, p.level) != Indices(q.off, q.level))
  {
    var p, q := PlaceOf(n).value, PlaceOf(m).value;
    if p.level == q.level && p.level >= 0 && Indices(p.off, p.level) == Indices(q.off, q.level) {
      IndicesInjective(p.off, q.off, p.level);
    }
  }

  // ------------------------------------------------------------ the inode

  /** The inode field the zone hangs from (`from_pointer`). */
  function Root(ino: Inode, p: Place): Word
    requires PlaceOk(p)
  {
    if p.level == -1 then ino.direct[p.off]
    else if p.level == 0 then ino.indirect
    else if p.level == 1 then ino.doubleIndirect
    else ino.tripleIndirect
  }

  /** The inode with `*from_pointer` set to v. */
  function WithRoot(ino: Inode, p: Place, v: Word): (ino': Inode)
    requires PlaceOk(p)
    ensures Root(ino', p) == v
  {
    if p.level == -1 then ino.(direct := ino.direct[p.off := v])
    else if p.level == 0 then ino.(indirect := v)
    else if p.level == 1 then ino.(doubleIndirect := v)
    else ino.(tripleIndirect := v)
  }

  // ------------------------------------------------------------- the lookup

  /** A 32-bit block number read into an `int`, as two's complement. */
  function SignedOf(w: Word): Int32 {
    if w < 0x8000_0000 then w else w - 0x1_0000_0000
  }

  /** Entry k of indirection block a. */
  function Entry(ns: seq<Node>, a: int, k: nat): Int32
    requires 1 <= a <= |ns| && k < P
  {
    SignedOf(ns[a - 1][k])
  }

  /** The descent of `get_nth_datablock` without `create`, from block addr at
      level j: 0 as soon as an entry is 0, the error of a failed read, or
      the number found at level -1. */
  function Walk(ready: bool, ns: seq<Node>, addr: int, off: nat, j: int): int
    requires j >= -1 && (j >= 0 ==> off < Pow(P, j + 1))
    decreases j + 1
  {
    if j < 0 then addr
    else if addr == 0 then 0
    else if !ready then DISC_UNINITIALIZED
    else if addr < 0 || addr > |ns| then INVALID_BLOCK
    else Walk(ready, ns, Entry(ns, addr, Digit(off, j)), Rest(off, j), j - 1)
  }

  /** The data block holding logical block n of the file with inode ino (0
      for a hole), or an error. */
  function Lookup(ready: bool, ns: seq<Node>, ino: Inode, n: int): int {
    match PlaceOf(n)
    case None => INVALID_BLOCK
    case Some(p) => Walk(ready, ns, SignedOf(Root(ino, p)), p.off, p.level)
  }

  /** The data blocks on the route from addr at level j: every block number
      met that names a data block, down to and including the leaf. */
  function Reach(ns: seq<Node>, addr: int, off: nat, j: int): (r: set<int>)
    requires j >= -1 && (j >= 0 ==> off < Pow(P, j + 1))
    ensures forall a :: a in r ==> 1 <= a <= |ns|
    decreases j + 1
  {
    if addr < 1 || addr > |ns| then {}
    else if j < 0 then {addr}
    else {addr} + Reach(ns, Entry(ns, addr, Digit(off, j)), Rest(off, j), j - 1)
  }

  /** No block appears twice on the route. */
  predicate Distinct(ns: seq<Node>, addr: int, off: nat, j: int)
    requires j >= -1 && (j >= 0 ==> off < Pow(P, j + 1))
    decreases j + 1
  {
    addr < 1 || addr > |ns| || j < 0 ||
      (addr !in Reach(ns, Entry(ns, addr, Digit(off, j)), Rest(off, j), j - 1)
       && Distinct(ns, Entry(ns, addr, Digit(off, j)), Rest(off, j), j - 1))
  }

  /** The route of a lookup depends only on the blocks it meets. */
  lemma {:induction false} WalkFrame(ready: bool, ns: seq<Node>, ns': seq<Node>, addr: int, off: nat, j: int)
    requires j >= -1 && (j >= 0 ==> off < Pow(P, j + 1)) && |ns'| == |ns|
    requires forall a :: a in Reach(ns, addr, off, j) ==> ns'[a - 1] == ns[a - 1]
    ensures Walk(ready, ns', addr, off, j) == Walk(ready, ns, addr, off, j)
    ensures Reach(ns', addr, off, j) == Reach(ns, addr, off, j)
    ensures Distinct(ns', addr, off, j) == Distinct(ns, addr, off, j)
    decreases j + 1
  {
    if 1 <= addr <= |ns| && j >= 0 {
      assert addr in Reach(ns, addr, off, j);
      WalkFrame(ready, ns, ns', Entry(ns, addr, Digit(off, j)), Rest(off, j), j - 1);
    }
  }
}
