/**
  Disk blocks as the kernel sees them: BSIZE bytes, which the log header and
  the indirect blocks reinterpret as an array of 32-bit little-endian words.
 */
module Blocks {

  const BSIZE := 512
  const WORDS := 128
  const MAXOPBLOCKS := 10   // the most blocks one operation may log

  type Byte = x: int | 0 <= x < 0x100
  type Word = x: int | 0 <= x < 0x1_0000_0000

  type Block = s: seq<Byte> | |s| == BSIZE witness seq(BSIZE, _ => 0)

  const ZERO_BLOCK: Block := seq(BSIZE, _ => 0)

  function GetWord(b: Block, i: nat): (w: Word)
    requires i < WORDS
  {
    var b0: int, b1: int, b2: int, b3: int := b[4 * i], b[4 * i + 1], b[4 * i + 2], b[4 * i + 3];
    b0 + 0x100 * b1 + 0x1_0000 * b2 + 0x100_0000 * b3
  }

  function SetWord(b: Block, i: nat, w: Word): (r: Block)
    requires i < WORDS
  {
    b[4 * i := w % 0x100][4 * i + 1 := w / 0x100 % 0x100]
     [4 * i + 2 := w / 0x1_0000 % 0x100][4 * i + 3 := w / 0x100_0000]
  }

  lemma SplitByte(x: nat)
    ensures x == x % 0x100 + 0x100 * (x / 0x100)
  {
  }

  lemma ShiftByte(x: nat)
    ensures x / 0x1_0000 == x / 0x100 / 0x100
  {
  }

  lemma ShiftThree(x: nat)
    ensures x / 0x100_0000 == x / 0x1_0000 / 0x100
  {
  }

  // A word is the sum of its four bytes.
  lemma WordBytes(w: Word)
    ensures w == w % 0x100 + 0x100 * (w / 0x100 % 0x100)
                 + 0x1_0000 * (w / 0x1_0000 % 0x100) + 0x100_0000 * (w / 0x100_0000)
  {
    ShiftByte(w);
    ShiftThree(w);
    var w1: nat, w2: nat, w3: nat := w / 0x100, w / 0x1_0000, w / 0x100_0000;
    assert w == w % 0x100 + 0x100 * w1 by {
      SplitByte(w);
    }
    assert w1 == w1 % 0x100 + 0x100 * w2 by {
      SplitByte(w1);
    }
    assert w2 == w2 % 0x100 + 0x100 * w3 by {
      SplitByte(w2);
    }
  }

  /** A word store is read back, and no other word of the block moves. */
  lemma SetGetWord(b: Block, i: nat, w: Word)
    requires i < WORDS
    ensures GetWord(SetWord(b, i, w), i) == w
    ensures forall j: nat | j < WORDS && j != i :: GetWord(SetWord(b, i, w), j) == GetWord(b, j)
  {
    WordBytes(w);
  }

  lemma ZeroWords()
    ensures forall j: nat | j < WORDS :: GetWord(ZERO_BLOCK, j) == 0
  {
  }
}
