/** Disk blocks, the 32-bit words stored in them, and sequences of block writes. */
module Blocks {
  const BSIZE := 1024
  const WORDS := 256  // words per block
  const WORD := 0x1_0000_0000

  type Byte = b: int | 0 <= b < 256
  type Word = w: int | 0 <= w < WORD
  type Block = s: seq<Byte> | |s| == 1024 witness seq(1024, _ => 0)

  /** The i-th little-endian word of a block. */
  function GetWord(b: Block, i: nat): (w: Word)
    requires i < WORDS
  {
    b[4 * i] as int + 0x100 * (b[4 * i + 1] as int) +
    0x10000 * (b[4 * i + 2] as int) + 0x1000000 * (b[4 * i + 3] as int)
  }

  function PutWord(b: Block, i: nat, w: Word): (r: Block)
    requires i < WORDS
  {
    b[4 * i := w % 0x100][4 * i + 1 := w / 0x100 % 0x100]
     [4 * i + 2 := w / 0x10000 % 0x100][4 * i + 3 := w / 0x1000000]
  }

  lemma WordBytes(w: Word)
    ensures 0 <= w / 0x1000000 < 0x100
    ensures w % 0x100 + 0x100 * (w / 0x100 % 0x100) + 0x10000 * (w / 0x10000 % 0x100) + 0x1000000 * (w / 0x1000000) == w
  {
    ByteOff(w);
    ByteOff(w / 0x100);
    ByteOff(w / 0x10000);
    Shifts(w);
  }

  lemma ByteOff(x: nat)
    ensures x == 0x100 * (x / 0x100) + x % 0x100
  {
  }

  lemma Shifts(w: nat)
    ensures w / 0x10000 == w / 0x100 / 0x100 && w / 0x1000000 == w / 0x10000 / 0x100
  {
  }

  lemma GetPut(b: Block, i: nat, w: Word, j: nat)
    requires i < WORDS && j < WORDS
    ensures GetWord(PutWord(b, i, w), j) == if i == j then w else GetWord(b, j)
  {
    WordBytes(w);
  }

  /** Words are little-endian: byte k of a word is its k-th digit to the base 256. */
  lemma WordDigits(b: Block, i: nat)
    requires i < WORDS
    ensures GetWord(b, i) % 256 == b[4 * i] && GetWord(b, i) / 256 % 256 == b[4 * i + 1]
    ensures GetWord(b, i) / 65536 % 256 == b[4 * i + 2] && GetWord(b, i) / 16777216 == b[4 * i + 3]
  {
    var (x, y, z, t) := (b[4 * i] as int, b[4 * i + 1] as int, b[4 * i + 2] as int, b[4 * i + 3] as int);
    var w := GetWord(b, i);
    assert w == x + 256 * (y + 256 * (z + 256 * t));
    hide GetWord;
    Shifts(w);
    Digit(w, x, y + 256 * (z + 256 * t));
    Digit(w / 256, y, z + 256 * t);
    Digit(w / 65536, z, t);
  }

  lemma Digit(w: nat, lo: nat, hi: nat)
    requires lo < 256 && w == lo + 256 * hi
    ensures w % 256 == lo && w / 256 == hi
  {
  }

  // ----- writes to a disk

  datatype Write = Write(bno: nat, data: Block)

  function Do(d: seq<Block>, w: Write): (r: seq<Block>)
    ensures |r| == |d|
  {
    if w.bno < |d| then d[w.bno := w.data] else d
  }

  /** The disk after the writes ws, in order. */
  function DoAll(d: seq<Block>, ws: seq<Write>): (r: seq<Block>)
    ensures |r| == |d|
  {
    if ws == [] then d else Do(DoAll(d, ws[..|ws| - 1]), ws[|ws| - 1])
  }

  lemma {:induction false} DoAllConcat(d: seq<Block>, a: seq<Write>, b: seq<Write>)
    ensures DoAll(d, a + b) == DoAll(DoAll(d, a), b)
  {
    if b == [] {
      assert a + b == a;
    } else {
      var b' := b[..|b| - 1];
      assert (a + b)[..|a + b| - 1] == a + b';
      DoAllConcat(d, a, b');
    }
  }
}
