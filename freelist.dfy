// The intrusive free list of data blocks, as a specification over the data
// region `dd` (data block k, counted from 1, is `dd[k - 1]`).
//
// A node is a free data block whose first word is the number of the next
// node (0 ends the chain) and whose other ADDR_PER_NODE words are slots,
// each either 0 (`INVALID_DATA`) or the number of another free block. The
// free blocks are the nodes of the chain together with their non-zero slots.
module FreeList {
  import opened Globals
  import opened Codec
  import opened Layout

  // ------------------------------------------------------------------ nodes

  /** The word view of one data block. */
  type Node = w: seq<Word> | |w| == WORDS_PER_BLOCK witness seq(1024, _ => 0)

  /** The word view of the data region. */
  function View(dd: seq<Block>): (v: seq<Node>)
    ensures |v| == |dd|
  {
    if dd == [] then [] else [BlockWords(dd[0])] + View(dd[1..])
  }

  /** Node k of the view is the word view of data block k. */
  lemma {:induction false} ViewAt(dd: seq<Block>, k: nat)
    requires k < |dd|
    ensures View(dd)[k] == BlockWords(dd[k])
  {
    if k > 0 {
      ViewAt(dd[1..], k - 1);
    }
  }

  /** Writing one block changes one node of the view. */
  lemma {:induction false} ViewUpdate(dd: seq<Block>, k: nat, b: Block)
    requires k < |dd|
    ensures View(dd[k := b]) == View(dd)[k := BlockWords(b)]
  {
    if k > 0 {
      assert dd[k := b][1..] == dd[1..][k - 1 := b];
      ViewUpdate(dd[1..], k - 1, b);
    } else {
      assert dd[k := b][1..] == dd[1..];
    }
  }

  function NodeNext(w: Node): Word {
    w[0]
  }

  function NodeSlots(w: Node): (a: seq<Word>)
    ensures |a| == ADDR_PER_NODE
  {
    w[1..]
  }

  /** The node with the given `next` and slots. */
  function NodeOf(next: Word, slots: seq<Word>): Node
    requires |slots| == ADDR_PER_NODE
  {
    [next] + slots
  }

  lemma NodeFields(next: Word, slots: seq<Word>)
    requires |slots| == ADDR_PER_NODE
    ensures NodeNext(NodeOf(next, slots)) == next
    ensures NodeSlots(NodeOf(next, slots)) == slots
  {
    assert NodeOf(next, slots)[1..] == slots;
  }

  /** The node a slot update leaves: the same `next`, slot i replaced. */
  function WithSlot(w: Node, i: nat, v: Word): Node
    requires i < ADDR_PER_NODE
  {
    NodeOf(NodeNext(w), NodeSlots(w)[i := v])
  }

  /** 1 when the slot value v names block x, otherwise 0. */
  function Hit(v: int, x: int): nat {
    if v != INVALID_DATA && v == x then 1 else 0
  }

  /** How many of the slots a name block x. */
  function SlotCount(a: seq<Word>, x: int): nat {
    if a == [] then 0 else Hit(a[0], x) + SlotCount(a[1..], x)
  }

  /** The index of the first slot whose value is (`zero`) or is not (`!zero`)
      `INVALID_DATA`, or |a| if there is none. */
  function FirstSlot(a: seq<Word>, zero: bool): (i: nat)
    ensures i <= |a|
    ensures i < |a| ==> (a[i] == INVALID_DATA) == zero
    ensures forall j :: 0 <= j < i ==> (a[j] == INVALID_DATA) != zero
  {
    if a == [] then 0
    else if (a[0] == INVALID_DATA) == zero then 0
    else 1 + FirstSlot(a[1..], zero)
  }

  // ------------------------------------------------------------------ chain

  predicate InRange(dd: seq<Node>, ns: seq<int>) {
    forall i :: 0 <= i < |ns| ==> 1 <= ns[i] <= |dd|
  }

  /** The node numbers met when following `next` from x, or None when the walk
      leaves the data region or takes more than `fuel` steps. */
  function ChainFrom(dd: seq<Node>, x: int, fuel: nat): (c: Option<seq<int>>)
    ensures c.Some? ==> |c.value| <= fuel && InRange(dd, c.value)
    decreases fuel
  {
    if x == INVALID_DATA then Some([])
    else if fuel == 0 || x < 1 || x > |dd| then None
    else match ChainFrom(dd, NodeNext(dd[x - 1]), fuel - 1)
      case None => None
      case Some(rest) => Some([x] + rest)
  }

  /** The chain from the head; a chain of distinct nodes is never longer than
      the data region. */
  function Chain(dd: seq<Node>, head: int): Option<seq<int>> {
    ChainFrom(dd, head, |dd|)
  }

  /** How many times the nodes ns record block x, as a node or in a slot. */
  function Count(dd: seq<Node>, ns: seq<int>, x: int): nat
    requires InRange(dd, ns)
  {
    if ns == [] then 0
    else (if ns[0] == x then 1 else 0) + SlotCount(NodeSlots(dd[ns[0] - 1]), x) + Count(dd, ns[1..], x)
  }

  /** Every block the nodes record is a data block, recorded exactly once. */
  ghost predicate Once(dd: seq<Node>, ns: seq<int>)
    requires InRange(dd, ns)
  {
    forall x :: Count(dd, ns, x) > 0 ==> Count(dd, ns, x) == 1 && 1 <= x <= |dd|
  }

  ghost function Recorded(dd: seq<Node>, ns: seq<int>): set<int>
    requires InRange(dd, ns)
  {
    set x | 1 <= x <= |dd| && Count(dd, ns, x) > 0
  }

  /** A well-formed free list: the chain from the head ends, and every block it
      records is a data block recorded exactly once. */
  ghost predicate FreeListOk(dd: seq<Node>, head: int) {
    Chain(dd, head).Some? && Once(dd, Chain(dd, head).value)
  }

  /** The free data blocks the list records. */
  ghost function FreeSet(dd: seq<Node>, head: int): set<int>
    requires Chain(dd, head).Some?
  {
    Recorded(dd, Chain(dd, head).value)
  }

  predicate NoDup(ns: seq<int>) {
    forall j, k :: 0 <= j < k < |ns| ==> ns[j] != ns[k]
  }

  /** The block numbers 1..n. */
  function Blocks(n: int): (s: set<int>)
    ensures forall x :: x in s <==> 1 <= x <= n
    ensures |s| == if n < 0 then 0 else n
  {
    if n <= 0 then {} else Blocks(n - 1) + {n}
  }

  /** The first node of ns, in chain order, with an empty slot, and the
      first empty slot in it. */
  function FirstSpace(dd: seq<Node>, ns: seq<int>): (p: Option<(int, nat)>)
    requires InRange(dd, ns)
    ensures p.Some? ==>
      && p.value.0 in ns && 1 <= p.value.0 <= |dd|
      && p.value.1 == FirstSlot(NodeSlots(dd[p.value.0 - 1]), true) < ADDR_PER_NODE
    ensures p.None? ==>
      forall j :: 0 <= j < |ns| ==> FirstSlot(NodeSlots(dd[ns[j] - 1]), true) == ADDR_PER_NODE
  {
    if ns == [] then None
    else
      var i := FirstSlot(NodeSlots(dd[ns[0] - 1]), true);
      if i < ADDR_PER_NODE then Some((ns[0], i)) else FirstSpace(dd, ns[1..])
  }

  // ---------------------------------------------------------- basic lemmas

  lemma {:induction false} SlotCountIn(a: seq<Word>, x: int)
    ensures SlotCount(a, x) > 0 <==> x != INVALID_DATA && x in a
  {
    if a != [] {
      SlotCountIn(a[1..], x);
      assert x in a <==> x == a[0] || x in a[1..] by {
        assert a == [a[0]] + a[1..];
      }
    }
  }

  /** Replacing one slot changes the count of x by exactly that slot. */
  lemma {:induction false} SlotCountUpdate(a: seq<Word>, i: nat, v: Word, x: int)
    requires i < |a|
    ensures SlotCount(a[i := v], x) + Hit(a[i], x) == SlotCount(a, x) + Hit(v, x)
  {
    if i == 0 {
      assert a[i := v][1..] == a[1..];
    } else {
      assert a[i := v][1..] == a[1..][i - 1 := v];
      SlotCountUpdate(a[1..], i - 1, v, x);
    }
  }

  lemma {:induction false} SlotCountZero(a: seq<Word>, x: int)
    requires AllZeroWords(a)
    ensures SlotCount(a, x) == 0
  {
    if a != [] {
      assert AllZeroWords(a[1..]) by {
        forall k | 0 <= k < |a[1..]| ensures a[1..][k] == 0 {
          assert a[1..][k] == a[k + 1];
        }
      }
      SlotCountZero(a[1..], x);
    }
  }

  /** The chain only depends on the `next` words of its own nodes. */
  lemma {:induction false} ChainFrame(dd: seq<Node>, dd': seq<Node>, x: int, fuel: nat)
    requires ChainFrom(dd, x, fuel).Some? && |dd'| == |dd|
    requires forall i :: 0 <= i < |ChainFrom(dd, x, fuel).value| ==>
      NodeNext(dd'[ChainFrom(dd, x, fuel).value[i] - 1]) == NodeNext(dd[ChainFrom(dd, x, fuel).value[i] - 1])
    ensures ChainFrom(dd', x, fuel) == ChainFrom(dd, x, fuel)
    decreases fuel
  {
    if x != INVALID_DATA {
      var ns := ChainFrom(dd, x, fuel).value;
      assert ns[0] == x;
      var rest := ChainFrom(dd, NodeNext(dd[x - 1]), fuel - 1).value;
      assert ns == [x] + rest;
      forall i | 0 <= i < |rest|
        ensures NodeNext(dd'[rest[i] - 1]) == NodeNext(dd[rest[i] - 1])
      {
        assert rest[i] == ns[i + 1];
      }
      ChainFrame(dd, dd', NodeNext(dd[x - 1]), fuel - 1);
    }
  }

  /** Each node's `next` is the node after it, and the last one's is 0. */
  lemma {:induction false} ChainNext(dd: seq<Node>, x: int, fuel: nat, k: nat)
    requires ChainFrom(dd, x, fuel).Some? && k < |ChainFrom(dd, x, fuel).value|
    ensures var ns := ChainFrom(dd, x, fuel).value;
      NodeNext(dd[ns[k] - 1]) == if k + 1 < |ns| then ns[k + 1] else INVALID_DATA
    decreases fuel
  {
    var ns := ChainFrom(dd, x, fuel).value;
    var rest := ChainFrom(dd, NodeNext(dd[x - 1]), fuel - 1).value;
    assert ns == [x] + rest;
    if k == 0 {
      if rest != [] {
        assert rest[0] == NodeNext(dd[x - 1]);
      }
    } else {
      ChainNext(dd, NodeNext(dd[x - 1]), fuel - 1, k - 1);
    }
  }

  /** The search from node k on stops at node k when it has an empty slot. */
  lemma SpaceAt(dd: seq<Node>, ns: seq<int>, k: nat, i: nat)
    requires InRange(dd, ns) && k < |ns|
    requires i == FirstSlot(NodeSlots(dd[ns[k] - 1]), true) < ADDR_PER_NODE
    ensures FirstSpace(dd, ns[k..]) == Some((ns[k], i))
  {
    assert ns[k..][0] == ns[k];
  }

  /** A node with every slot full is passed over. */
  lemma SpaceStep(dd: seq<Node>, ns: seq<int>, k: nat)
    requires InRange(dd, ns) && k < |ns|
    requires FirstSlot(NodeSlots(dd[ns[k] - 1]), true) == ADDR_PER_NODE
    ensures FirstSpace(dd, ns[k..]) == FirstSpace(dd, ns[k + 1..])
  {
    assert ns[k..][0] == ns[k];
    assert ns[k..][1..] == ns[k + 1..];
  }

  /** What the walk of `data_free` learns about the chain ns node by node:
      fs[j] is the first empty slot of node ns[j] (ADDR_PER_NODE when it has
      none) and nx[j] is its `next` word, which is the node after it or 0
      after the last one. */
  ghost predicate Trail(dd: seq<Node>, ns: seq<int>, fs: seq<int>, nx: seq<int>) {
    InRange(dd, ns) && Links(dd, ns, fs, nx)
  }

  ghost predicate Links(dd: seq<Node>, ns: seq<int>, fs: seq<int>, nx: seq<int>)
    decreases |ns|
  {
    && |fs| == |ns| && |nx| == |ns|
    && (ns != [] ==>
      && 1 <= ns[0] <= |dd|
      && fs[0] == FirstSlot(NodeSlots(dd[ns[0] - 1]), true)
      && nx[0] == NodeNext(dd[ns[0] - 1])
      && nx[0] == (if |ns| > 1 then ns[1] else INVALID_DATA)
      && Links(dd, ns[1..], fs[1..], nx[1..]))
  }

  /** The entries of a trail at position k. */
  lemma {:induction false} TrailAt(dd: seq<Node>, ns: seq<int>, fs: seq<int>, nx: seq<int>, k: nat)
    requires Links(dd, ns, fs, nx) && k < |ns|
    ensures 1 <= ns[k] <= |dd|
    ensures fs[k] == FirstSlot(NodeSlots(dd[ns[k] - 1]), true)
    ensures nx[k] == NodeNext(dd[ns[k] - 1])
    ensures nx[k] == if k + 1 < |ns| then ns[k + 1] else INVALID_DATA
  {
    if k > 0 {
      TrailAt(dd, ns[1..], fs[1..], nx[1..], k - 1);
    }
  }

  /** The chain from x has a trail; it is empty exactly when x is 0, and
      starts at x otherwise. */
  lemma {:induction false} TrailOfChain(dd: seq<Node>, x: int, fuel: nat) returns (fs: seq<int>, nx: seq<int>)
    requires ChainFrom(dd, x, fuel).Some?
    ensures var ns := ChainFrom(dd, x, fuel).value;
      && Trail(dd, ns, fs, nx)
      && (ns == [] <==> x == INVALID_DATA)
      && (ns != [] ==> ns[0] == x)
    decreases fuel
  {
    if x == INVALID_DATA {
      fs, nx := [], [];
    } else {
      var next := NodeNext(dd[x - 1]);
      var fs', nx' := TrailOfChain(dd, next, fuel - 1);
      var rest := ChainFrom(dd, next, fuel - 1).value;
      fs := [FirstSlot(NodeSlots(dd[x - 1]), true)] + fs';
      nx := [next] + nx';
      var ns := [x] + rest;
      assert ChainFrom(dd, x, fuel).value == ns;
      assert ns[1..] == rest && fs[1..] == fs' && nx[1..] == nx';
    }
  }

  /** Where the walk stops: when no node before k has an empty slot, the
      search finds the slot of node k, or nothing once k is past the end. */
  lemma {:induction false} SpaceResult(dd: seq<Node>, ns: seq<int>, fs: seq<int>, nx: seq<int>, k: nat)
    requires Trail(dd, ns, fs, nx) && k <= |ns|
    requires forall j :: 0 <= j < k ==> fs[j] == ADDR_PER_NODE
    requires k < |ns| ==> fs[k] < ADDR_PER_NODE
    ensures FirstSpace(dd, ns) == if k < |ns| then Some((ns[k], fs[k])) else None
  {
    SpaceSkip(dd, ns, fs, nx, k);
    if k < |ns| {
      TrailAt(dd, ns, fs, nx, k);
      SpaceAt(dd, ns, k, fs[k]);
    } else {
      assert ns[k..] == [];
    }
  }

  lemma {:induction false} SpaceSkip(dd: seq<Node>, ns: seq<int>, fs: seq<int>, nx: seq<int>, k: nat)
    requires Trail(dd, ns, fs, nx) && k <= |ns|
    requires forall j :: 0 <= j < k ==> fs[j] == ADDR_PER_NODE
    ensures FirstSpace(dd, ns) == FirstSpace(dd, ns[k..])
  {
    if k > 0 {
      SpaceSkip(dd, ns, fs, nx, k - 1);
      TrailAt(dd, ns, fs, nx, k - 1);
      SpaceStep(dd, ns, k - 1);
    } else {
      assert ns[0..] == ns;
    }
  }

  /** More fuel than the chain needs gives the same chain. */
  lemma {:induction false} ChainFuel(dd: seq<Node>, x: int, fuel: nat, fuel': nat)
    requires ChainFrom(dd, x, fuel).Some? && fuel' >= |ChainFrom(dd, x, fuel).value|
    ensures ChainFrom(dd, x, fuel') == ChainFrom(dd, x, fuel)
    decreases fuel
  {
    if x != INVALID_DATA {
      ChainFuel(dd, NodeNext(dd[x - 1]), fuel - 1, fuel' - 1);
    }
  }

  /** The counts only depend on the slots of the nodes. */
  lemma {:induction false} CountFrame(dd: seq<Node>, dd': seq<Node>, ns: seq<int>, x: int)
    requires InRange(dd, ns) && |dd'| == |dd|
    requires forall i :: 0 <= i < |ns| ==> NodeSlots(dd'[ns[i] - 1]) == NodeSlots(dd[ns[i] - 1])
    ensures Count(dd', ns, x) == Count(dd, ns, x)
  {
    if ns != [] {
      CountFrame(dd, dd', ns[1..], x);
    }
  }

  /** Changing the block of one node changes the counts by that node's slots. */
  lemma {:induction false} CountUpdate(dd: seq<Node>, ns: seq<int>, n: int, blk: Node, x: int)
    requires InRange(dd, ns) && NoDup(ns) && n in ns
    ensures Count(dd[n - 1 := blk], ns, x) + SlotCount(NodeSlots(dd[n - 1]), x)
         == Count(dd, ns, x) + SlotCount(NodeSlots(blk), x)
  {
    var dd' := dd[n - 1 := blk];
    var rest := ns[1..];
    if ns[0] == n {
      forall i | 0 <= i < |rest| ensures NodeSlots(dd'[rest[i] - 1]) == NodeSlots(dd[rest[i] - 1]) {
        assert rest[i] == ns[i + 1];
      }
      CountFrame(dd, dd', rest, x);
    } else {
      assert n in rest by {
        var j :| 0 <= j < |ns| && ns[j] == n;
        assert rest[j - 1] == n;
      }
      assert NoDup(rest) by {
        forall j, k | 0 <= j < k < |rest| ensures rest[j] != rest[k] {
          assert rest[j] == ns[j + 1] && rest[k] == ns[k + 1];
        }
      }
      CountUpdate(dd, rest, n, blk, x);
    }
  }

  /** Node j and its slots are counted. */
  lemma {:induction false} NodeCounted(dd: seq<Node>, ns: seq<int>, j: nat, x: int)
    requires InRange(dd, ns) && j < |ns|
    ensures Count(dd, ns, x) >= (if ns[j] == x then 1 else 0) + SlotCount(NodeSlots(dd[ns[j] - 1]), x)
  {
    if j > 0 {
      NodeCounted(dd, ns[1..], j - 1, x);
    }
  }

  /** A block that is two nodes is counted twice. */
  lemma {:induction false} TwoNodes(dd: seq<Node>, ns: seq<int>, j: nat, k: nat)
    requires InRange(dd, ns) && j < k < |ns| && ns[j] == ns[k]
    ensures Count(dd, ns, ns[j]) >= 2
  {
    if j == 0 {
      NodeCounted(dd, ns[1..], k - 1, ns[j]);
    } else {
      TwoNodes(dd, ns[1..], j - 1, k - 1);
    }
  }

  /** A chain that records nothing twice has distinct nodes. */
  lemma OnceNoDup(dd: seq<Node>, ns: seq<int>)
    requires InRange(dd, ns) && Once(dd, ns)
    ensures NoDup(ns)
  {
    forall j, k | 0 <= j < k < |ns| ensures ns[j] != ns[k] {
      if ns[j] == ns[k] {
        TwoNodes(dd, ns, j, k);
      }
    }
  }

  /** A block that is both a node and named in the first node's slots is
      counted twice. */
  lemma SlotAndNode(dd: seq<Node>, ns: seq<int>, x: int)
    requires InRange(dd, ns) && ns != [] && x in ns
    requires SlotCount(NodeSlots(dd[ns[0] - 1]), x) > 0
    ensures Count(dd, ns, x) >= 2
  {
    var j :| 0 <= j < |ns| && ns[j] == x;
    if j > 0 {
      NodeCounted(dd, ns[1..], j - 1, x);
    }
  }

  /** Distinct members of a set are no more than its size. */
  lemma {:induction false} NoDupBound(ns: seq<int>, S: set<int>)
    requires NoDup(ns) && forall j :: 0 <= j < |ns| ==> ns[j] in S
    ensures |ns| <= |S|
  {
    if ns != [] {
      var rest := ns[1..];
      forall j | 0 <= j < |rest| ensures rest[j] in S - {ns[0]} {
        assert rest[j] == ns[j + 1];
      }
      assert NoDup(rest) by {
        forall j, k | 0 <= j < k < |rest| ensures rest[j] != rest[k] {
          assert rest[j] == ns[j + 1] && rest[k] == ns[k + 1];
        }
      }
      NoDupBound(rest, S - {ns[0]});
      assert S == (S - {ns[0]}) + {ns[0]};
    }
  }

  /** Removing one recorded block from a free list that records each block once. */
  lemma ListMinus(dd: seq<Node>, head: int, dd': seq<Node>, head': int, r: int)
    requires FreeListOk(dd, head) && Chain(dd', head').Some? && |dd'| == |dd|
    requires r in FreeSet(dd, head)
    requires forall x :: Count(dd', Chain(dd', head').value, x) + (if x == r then 1 else 0)
                      == Count(dd, Chain(dd, head).value, x)
    ensures FreeListOk(dd', head') && FreeSet(dd', head') == FreeSet(dd, head) - {r}
  {
  }

  /** Adding one block that the free list did not record. */
  lemma ListPlus(dd: seq<Node>, head: int, dd': seq<Node>, head': int, b: int)
    requires FreeListOk(dd, head) && Chain(dd', head').Some? && |dd'| == |dd|
    requires 1 <= b <= |dd| && b !in FreeSet(dd, head)
    requires forall x :: Count(dd', Chain(dd', head').value, x)
                      == Count(dd, Chain(dd, head).value, x) + (if x == b then 1 else 0)
    ensures FreeListOk(dd', head') && FreeSet(dd', head') == FreeSet(dd, head) + {b}
  {
  }

  // ---------------------------------------------------- the three operations

  /** Writing a block that is not a node leaves every node as it was. */
  lemma Untouched(dd: seq<Node>, ns: seq<int>, b: int, w: Node)
    requires InRange(dd, ns) && 1 <= b <= |dd| && b !in ns
    ensures forall j :: 0 <= j < |ns| ==> dd[b - 1 := w][ns[j] - 1] == dd[ns[j] - 1]
  {
    forall j | 0 <= j < |ns| ensures dd[b - 1 := w][ns[j] - 1] == dd[ns[j] - 1] {
      assert ns[j] in ns;
    }
  }

  /** Every node of the chain is a free block. */
  lemma NodeIsFree(dd: seq<Node>, head: int, n: int)
    requires FreeListOk(dd, head) && n in Chain(dd, head).value
    ensures n in FreeSet(dd, head)
  {
    var ns := Chain(dd, head).value;
    var j :| 0 <= j < |ns| && ns[j] == n;
    NodeCounted(dd, ns, j, n);
  }

  /** The block named by a non-empty slot of the head node is a free data
      block other than the head. */
  lemma HeadSlot(dd: seq<Node>, head: int, i: nat)
    requires FreeListOk(dd, head) && head != INVALID_DATA
    requires i < ADDR_PER_NODE && NodeSlots(dd[head - 1])[i] != INVALID_DATA
    ensures var r := NodeSlots(dd[head - 1])[i] as int;
      1 <= r <= |dd| && r != head && r !in Chain(dd, head).value && r in FreeSet(dd, head)
  {
    var ns := Chain(dd, head).value;
    var r := NodeSlots(dd[head - 1])[i] as int;
    assert ns[0] == head;
    SlotCountIn(NodeSlots(dd[head - 1]), r);
    NodeCounted(dd, ns, 0, r);
    if r in ns {
      SlotAndNode(dd, ns, r);
    }
  }

  /** Clearing the first node's slot i and overwriting the block r it named
      drops r from the counts. */
  lemma TakeSlotCount(dd: seq<Node>, ns: seq<int>, i: nat, r: int, data: Node, x: int)
    requires InRange(dd, ns) && NoDup(ns) && ns != [] && i < ADDR_PER_NODE
    requires r == NodeSlots(dd[ns[0] - 1])[i] && 1 <= r <= |dd| && r !in ns
    ensures var h := ns[0];
      Count(dd[h - 1 := WithSlot(dd[h - 1], i, INVALID_DATA)][r - 1 := data], ns, x) + Hit(r, x)
        == Count(dd, ns, x)
  {
    var h := ns[0];
    var slots := NodeSlots(dd[h - 1]);
    var blk := WithSlot(dd[h - 1], i, INVALID_DATA);
    var dd1 := dd[h - 1 := blk];
    NodeFields(NodeNext(dd[h - 1]), slots[i := INVALID_DATA]);
    Untouched(dd1, ns, r, data);
    CountFrame(dd1, dd1[r - 1 := data], ns, x);
    assert h in ns;
    CountUpdate(dd, ns, h, blk, x);
    SlotCountUpdate(slots, i, INVALID_DATA, x);
  }

  /** The free list that allocating the head's slot i leaves, where the
      block r it named is overwritten: the same nodes, the slot cleared, and r
      no longer free. */
  lemma TakeSlot(dd: seq<Node>, head: int, i: nat, r: int, data: Node, dd': seq<Node>)
    requires FreeListOk(dd, head) && head != INVALID_DATA
    requires i < ADDR_PER_NODE && r == NodeSlots(dd[head - 1])[i] != INVALID_DATA && r <= |dd|
    requires dd' == dd[head - 1 := WithSlot(dd[head - 1], i, INVALID_DATA)][r - 1 := data]
    ensures FreeListOk(dd', head) && Chain(dd', head) == Chain(dd, head)
    ensures FreeSet(dd', head) == FreeSet(dd, head) - {r}
  {
    var ns := Chain(dd, head).value;
    var slots := NodeSlots(dd[head - 1]);
    HeadSlot(dd, head, i);
    assert ns[0] == head;
    // the chain keeps its nodes
    NodeFields(NodeNext(dd[head - 1]), slots[i := INVALID_DATA]);
    var dd1 := dd[head - 1 := WithSlot(dd[head - 1], i, INVALID_DATA)];
    Untouched(dd1, ns, r, data);
    ChainFrame(dd, dd', head, |dd|);
    // the counts lose r
    OnceNoDup(dd, ns);
    forall x ensures Count(dd', ns, x) + (if x == r then 1 else 0) == Count(dd, ns, x) {
      TakeSlotCount(dd, ns, i, r, data, x);
    }
    ListMinus(dd, head, dd', head, r);
  }

  /** Allocating the head node itself, once its slots are all empty: the chain
      then starts at the head's `next`. */
  lemma TakeHead(dd: seq<Node>, head: int, data: Node, dd': seq<Node>)
    requires FreeListOk(dd, head) && head != INVALID_DATA
    requires AllZeroWords(NodeSlots(dd[head - 1]))
    requires dd' == dd[head - 1 := data]
    ensures var next := NodeNext(dd[head - 1]) as int;
      && FreeListOk(dd', next)
      && FreeSet(dd', next) == FreeSet(dd, head) - {head}
  {
    var ns := Chain(dd, head).value;
    var next := NodeNext(dd[head - 1]) as int;
    var rest := ChainFrom(dd, next, |dd| - 1).value;
    assert ns == [head] + rest;
    OnceNoDup(dd, ns);
    assert head !in rest by {
      forall j | 0 <= j < |rest| ensures rest[j] != head {
        assert rest[j] == ns[j + 1] && ns[0] == head;
      }
    }
    Untouched(dd, rest, head, data);
    ChainFuel(dd, next, |dd| - 1, |dd|);
    ChainFrame(dd, dd', next, |dd|);
    assert Chain(dd', next) == Some(rest);
    forall x ensures Count(dd', rest, x) + (if x == head then 1 else 0) == Count(dd, ns, x) {
      SlotCountZero(NodeSlots(dd[head - 1]), x);
      CountFrame(dd, dd', rest, x);
    }
    NodeCounted(dd, ns, 0, head);
    ListMinus(dd, head, dd', next, head);
  }

  /** Recording a block that is not free in an empty slot of node n of the chain. */
  lemma PutSlot(dd: seq<Node>, head: int, n: int, i: nat, b: Word, dd': seq<Node>)
    requires FreeListOk(dd, head) && n in Chain(dd, head).value
    requires i < ADDR_PER_NODE && NodeSlots(dd[n - 1])[i] == INVALID_DATA
    requires 1 <= b <= |dd| && b !in FreeSet(dd, head)
    requires dd' == dd[n - 1 := WithSlot(dd[n - 1], i, b)]
    ensures FreeListOk(dd', head) && Chain(dd', head) == Chain(dd, head)
    ensures FreeSet(dd', head) == FreeSet(dd, head) + {b}
  {
    var ns := Chain(dd, head).value;
    var slots := NodeSlots(dd[n - 1]);
    var blk := WithSlot(dd[n - 1], i, b);
    NodeFields(NodeNext(dd[n - 1]), slots[i := b]);
    forall j | 0 <= j < |ns| ensures NodeNext(dd'[ns[j] - 1]) == NodeNext(dd[ns[j] - 1]) {
    }
    ChainFrame(dd, dd', head, |dd|);
    OnceNoDup(dd, ns);
    forall x ensures Count(dd', ns, x) == Count(dd, ns, x) + (if x == b then 1 else 0) {
      CountUpdate(dd, ns, n, blk, x);
      SlotCountUpdate(slots, i, b, x);
    }
    ListPlus(dd, head, dd', head, b);
  }

  /** A block the list does not record is not one of its nodes. */
  lemma NotFreeNotNode(dd: seq<Node>, head: int, b: int)
    requires FreeListOk(dd, head) && 1 <= b <= |dd| && b !in FreeSet(dd, head)
    ensures b !in Chain(dd, head).value
  {
    var ns := Chain(dd, head).value;
    if b in ns {
      var j :| 0 <= j < |ns| && ns[j] == b;
      NodeCounted(dd, ns, j, b);
    }
  }

  /** Distinct nodes that leave out one data block are fewer than the blocks. */
  lemma ChainShort(dd: seq<Node>, ns: seq<int>, b: int)
    requires InRange(dd, ns) && Once(dd, ns) && 1 <= b <= |dd| && b !in ns
    ensures |ns| <= |dd| - 1
  {
    OnceNoDup(dd, ns);
    NoDupBound(ns, Blocks(|dd|) - {b});
    assert Blocks(|dd|) == (Blocks(|dd|) - {b}) + {b};
  }

  /** The chain from a block that is not free, made a node whose `next` is
      the old head. */
  lemma PushChain(dd: seq<Node>, head: Word, b: Word, dd': seq<Node>)
    requires FreeListOk(dd, head)
    requires 1 <= b <= |dd| && b !in FreeSet(dd, head)
    requires dd' == dd[b - 1 := NodeOf(head, Zeros(ADDR_PER_NODE))]
    ensures b !in Chain(dd, head).value
    ensures Chain(dd', b) == Some([b] + Chain(dd, head).value)
  {
    var ns := Chain(dd, head).value;
    NotFreeNotNode(dd, head, b);
    ChainShort(dd, ns, b);
    ChainFuel(dd, head, |dd|, |dd| - 1);
    Untouched(dd, ns, b, NodeOf(head, Zeros(ADDR_PER_NODE)));
    ChainFrame(dd, dd', head, |dd| - 1);
    NodeFields(head, Zeros(ADDR_PER_NODE));
    assert NodeNext(dd'[b - 1]) == head;
  }

  /** Making a block that is not free the new head node, with no slots and
      the old head as its `next`. */
  lemma PushNode(dd: seq<Node>, head: Word, b: Word, dd': seq<Node>)
    requires FreeListOk(dd, head)
    requires 1 <= b <= |dd| && b !in FreeSet(dd, head)
    requires dd' == dd[b - 1 := NodeOf(head, Zeros(ADDR_PER_NODE))]
    ensures FreeListOk(dd', b) && Chain(dd', b) == Some([b] + Chain(dd, head).value)
    ensures FreeSet(dd', b) == FreeSet(dd, head) + {b}
  {
    var ns := Chain(dd, head).value;
    PushChain(dd, head, b, dd');
    NodeFields(head, Zeros(ADDR_PER_NODE));
    Untouched(dd, ns, b, NodeOf(head, Zeros(ADDR_PER_NODE)));
    assert ([b] + ns)[1..] == ns;
    forall x ensures Count(dd', [b] + ns, x) == Count(dd, ns, x) + (if x == b then 1 else 0) {
      SlotCountZero(Zeros(ADDR_PER_NODE), x);
      CountFrame(dd, dd', ns, x);
    }
    ListPlus(dd, head, dd', b, b);
  }
}
