// Disk blocks: BSIZE bytes, read either as bytes or, as the kernel does by
// casting b->data, as BSIZE/4 little-endian unsigned words.
module Blocks {
  import opened Common

  const BSIZE := 512
  const NWORDS := 128 // BSIZE / sizeof(uint)

  type Byte = x: int | 0 <= x < 0x100
  type Block = b: seq<Byte> | |b| == BSIZE witness seq(BSIZE, i => 0)

  // Blocks by number; a disk changes one whole block at a time.
  type Disk = seq<Block>

  // A block of zero bytes.
  function ZeroBlock(): (b: Block)
    ensures forall j :: 0 <= j < BSIZE ==> b[j] == 0
    ensures forall i :: 0 <= i < NWORDS ==> GetWord(b, i) == 0
  {
    seq(BSIZE, i => 0)
  }

  // Word i of a block.
  function GetWord(b: Block, i: nat): (w: Word)
    requires i < NWORDS
  {
    var b0: int, b1: int, b2: int, b3: int := b[4 * i], b[4 * i + 1], b[4 * i + 2], b[4 * i + 3];
    b0 + 0x100 * b1 + 0x1_0000 * b2 + 0x100_0000 * b3
  }

  // The little-endian bytes of a word.
  function LowByte(w: Word): Byte { w % 0x100 }
  function HighPart(w: Word): (h: Word)
    ensures w == LowByte(w) + 0x100 * h
  { w / 0x100 }

  // A block after w was stored in word i.
  function PutWord(b: Block, i: nat, w: Word): (r: Block)
    requires i < NWORDS
    ensures GetWord(r, i) == w
    ensures forall j :: 0 <= j < NWORDS && j != i ==> GetWord(r, j) == GetWord(b, j)
  {
    var h1, h2, h3 := HighPart(w), HighPart(HighPart(w)), HighPart(HighPart(HighPart(w)));
    b[4 * i := LowByte(w)][4 * i + 1 := LowByte(h1)][4 * i + 2 := LowByte(h2)][4 * i + 3 := h3]
  }
}
