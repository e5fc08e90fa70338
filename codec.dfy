// Blocks of bytes and their little-endian 32-bit word view.
//
// Every on-disk structure of the filesystem (the superblock, an inode,
// a free-list node, an indirection block) is a packed run of `uint32_t`
// fields, so one codec between bytes and 32-bit words gives each of them
// a typed view of a block.
module Codec {
  const BLOCK_SIZE: nat := 4096
  /** Number of 32-bit words in one block. */
  const WORDS_PER_BLOCK: nat := 1024

  type byte = x: int | 0 <= x < 0x100
  type Word = x: int | 0 <= x < 0x1_0000_0000
  /** A C `int`. */
  type Int32 = x: int | -0x8000_0000 <= x < 0x8000_0000

  /** The 32-bit pattern of an `int` stored into an unsigned or four-byte field. */
  function WordOfInt(x: Int32): (w: Word)
    ensures x >= 0 ==> w == x
    ensures x < 0 ==> w == x + 0x1_0000_0000
  {
    x % 0x1_0000_0000
  }

  /** One block of the disk: exactly BLOCK_SIZE bytes. */
  type Block = b: seq<byte> | |b| == BLOCK_SIZE witness seq(4096, _ => 0)

  function ZeroBlock(): Block { seq(4096, _ => 0) }

  predicate IsZero(b: seq<byte>) {
    forall i :: 0 <= i < |b| ==> b[i] == 0
  }

  predicate AllZeroWords(ws: seq<Word>) {
    forall k :: 0 <= k < |ws| ==> ws[k] == 0
  }

  function Zeros(n: nat): (ws: seq<Word>)
    ensures |ws| == n && AllZeroWords(ws)
  {
    seq(n, _ => 0)
  }

  /** The word whose little-endian bytes are the first four of b. */
  function WordOf(b: seq<byte>): Word
    requires |b| >= 4
  {
    b[0] as int + 0x100 * b[1] as int + 0x1_0000 * b[2] as int + 0x100_0000 * b[3] as int
  }

  /** Byte j (least significant first) of a word. */
  function ByteOf(w: Word, j: nat): byte
    requires j < 4
  {
    if j == 0 then w % 0x100 else ByteOf(w / 0x100, j - 1)
  }

  /** The four bytes of a word, least significant first. */
  function WordBytes(w: Word): (b: seq<byte>)
    ensures |b| == 4
  {
    [ByteOf(w, 0), ByteOf(w, 1), ByteOf(w, 2), ByteOf(w, 3)]
  }

  /** The words stored in a run of bytes, four bytes per word. */
  function Words(b: seq<byte>): (ws: seq<Word>)
    requires |b| % 4 == 0
    ensures |ws| == |b| / 4
    decreases |b|
  {
    if |b| == 0 then [] else [WordOf(b)] + Words(b[4..])
  }

  /** The bytes that store a run of words. */
  function FromWords(ws: seq<Word>): (b: seq<byte>)
    ensures |b| == 4 * |ws|
  {
    if ws == [] then [] else WordBytes(ws[0]) + FromWords(ws[1..])
  }

  /** The block that stores exactly WORDS_PER_BLOCK words. */
  function BlockOf(ws: seq<Word>): (b: Block)
    requires |ws| == WORDS_PER_BLOCK
    ensures Words(b) == ws
  {
    WordsFromWords(ws);
    FromWords(ws)
  }

  function BlockWords(b: Block): (ws: seq<Word>)
    ensures |ws| == WORDS_PER_BLOCK
  {
    Words(b)
  }

  /** Division by 256 undoes multiplication by 256 plus a byte. */
  lemma DivMod256(x: int, q: int, r: byte)
    requires x == 0x100 * q + r
    ensures x / 0x100 == q && x % 0x100 == r
  {}

  lemma WordOfByteOf(w: Word)
    ensures WordOf(WordBytes(w)) == w
  {
    var q1 := w / 0x100;
    var q2 := q1 / 0x100;
    var q3 := q2 / 0x100;
    assert ByteOf(w, 1) == q1 % 0x100;
    assert ByteOf(w, 2) == ByteOf(q1, 1) == q2 % 0x100;
    assert ByteOf(w, 3) == ByteOf(q1, 2) == ByteOf(q2, 1) == q3 % 0x100;
    assert w == 0x100 * q1 + w % 0x100;
    assert q1 == 0x100 * q2 + q1 % 0x100;
    assert q2 == 0x100 * q3 + q2 % 0x100;
    assert q3 < 0x100;
  }

  lemma ByteOfWordOf(b: seq<byte>)
    requires |b| >= 4
    ensures WordBytes(WordOf(b)) == b[..4]
  {
    var b0: int, b1: int, b2: int, b3: int := b[0], b[1], b[2], b[3];
    var w := WordOf(b);
    var q1: int := b1 + 0x100 * b2 + 0x1_0000 * b3;
    var q2: int := b2 + 0x100 * b3;
    DivMod256(w, q1, b0);
    DivMod256(q1, q2, b1);
    DivMod256(q2, b3, b2);
    assert ByteOf(w, 1) == ByteOf(q1, 0);
    assert ByteOf(w, 2) == ByteOf(q1, 1) == ByteOf(q2, 0);
    assert ByteOf(w, 3) == ByteOf(q1, 2) == ByteOf(q2, 1) == ByteOf(b3, 0);
  }

  /** Decoding the bytes of a run of words gives the words back. */
  lemma {:induction false} WordsFromWords(ws: seq<Word>)
    ensures Words(FromWords(ws)) == ws
  {
    if ws != [] {
      var b := FromWords(ws);
      assert b[4..] == FromWords(ws[1..]);
      WordsFromWords(ws[1..]);
      WordOfByteOf(ws[0]);
    }
  }

  /** Encoding the words of a run of bytes gives the bytes back. */
  lemma {:induction false} FromWordsWords(b: seq<byte>)
    requires |b| % 4 == 0
    ensures FromWords(Words(b)) == b
    decreases |b|
  {
    if |b| != 0 {
      var ws := Words(b);
      assert ws[1..] == Words(b[4..]);
      FromWordsWords(b[4..]);
      ByteOfWordOf(b);
      assert b == b[..4] + b[4..];
    }
  }

  /** Word k of a run of bytes is made of bytes 4k to 4k + 3. */
  lemma {:induction false} WordAt(b: seq<byte>, k: nat)
    requires |b| % 4 == 0 && k < |b| / 4
    ensures Words(b)[k] == WordOf(b[4 * k..])
  {
    if k > 0 {
      WordAt(b[4..], k - 1);
    }
  }

  /** The word view of two runs of bytes placed one after the other. */
  lemma {:induction false} WordsAppend(x: seq<byte>, y: seq<byte>)
    requires |x| % 4 == 0 && |y| % 4 == 0
    ensures Words(x + y) == Words(x) + Words(y)
    decreases |x|
  {
    if |x| != 0 {
      var xy := x + y;
      assert xy[4..] == x[4..] + y;
      assert xy[0] == x[0] && xy[1] == x[1] && xy[2] == x[2] && xy[3] == x[3];
      WordsAppend(x[4..], y);
      var w := [WordOf(x)];
      assert WordOf(xy) == WordOf(x);
      assert Words(xy) == w + Words(x[4..] + y);
      assert Words(x) == w + Words(x[4..]);
      assert w + (Words(x[4..]) + Words(y)) == (w + Words(x[4..])) + Words(y);
    } else {
      assert x + y == y;
    }
  }

  /** A block is determined by its words. */
  lemma WordsInjective(a: Block, b: Block)
    requires Words(a) == Words(b)
    ensures a == b
  {
    FromWordsWords(a);
    FromWordsWords(b);
  }

  /** A run of bytes is all zero exactly when all of its words are zero. */
  lemma ZeroIffZeroWords(b: seq<byte>)
    requires |b| % 4 == 0
    ensures IsZero(b) <==> AllZeroWords(Words(b))
  {
    if IsZero(b) {
      ZeroBytesZeroWords(b);
    }
    if AllZeroWords(Words(b)) {
      ZeroWordsZeroBytes(b);
    }
  }

  lemma ZeroBytesZeroWords(b: seq<byte>)
    requires |b| % 4 == 0 && IsZero(b)
    ensures AllZeroWords(Words(b))
  {
    forall k | 0 <= k < |b| / 4 ensures Words(b)[k] == 0 {
      WordAt(b, k);
    }
  }

  lemma ZeroWordsZeroBytes(b: seq<byte>)
    requires |b| % 4 == 0 && AllZeroWords(Words(b))
    ensures IsZero(b)
  {
    var n := |b| / 4;
    assert Words(b) == Zeros(n);
    FromWordsWords(b);
    FromWordsZeros(n);
  }

  lemma {:induction false} FromWordsZeros(n: nat)
    ensures IsZero(FromWords(Zeros(n)))
  {
    if n > 0 {
      FromWordsZeros(n - 1);
      assert Zeros(n)[1..] == Zeros(n - 1);
      var b := FromWords(Zeros(n));
      assert b == WordBytes(0) + FromWords(Zeros(n - 1));
      forall i | 0 <= i < |b| ensures b[i] == 0 {
        if i < 4 {
          ByteOfZero(i);
        } else {
          assert b[i] == FromWords(Zeros(n - 1))[i - 4];
        }
      }
    }
  }

  lemma {:induction false} ByteOfZero(j: nat)
    requires j < 4
    ensures ByteOf(0, j) == 0
  {
    if j > 0 {
      ByteOfZero(j - 1);
    }
  }

  lemma ZeroBlockWords()
    ensures Words(ZeroBlock()) == Zeros(WORDS_PER_BLOCK)
  {
    assert IsZero(ZeroBlock());
    ZeroIffZeroWords(ZeroBlock());
  }
}
