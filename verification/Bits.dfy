// The free bitmap: bit i of a block is bit i % 8 of byte i / 8.
module Bits {
  import opened Blocks

  const BPB := 4096 // BSIZE * 8

  // (x & (1 << k)) != 0
  predicate Bit(x: nat, k: nat) {
    if k == 0 then x % 2 == 1 else Bit(x / 2, k - 1)
  }

  // x | (1 << k) or, with on false, x & ~(1 << k)
  function WithBit(x: nat, k: nat, on: bool): (r: nat) {
    if k == 0 then 2 * (x / 2) + (if on then 1 else 0)
    else 2 * WithBit(x / 2, k - 1, on) + x % 2
  }

  lemma {:induction false} WithBitBits(x: nat, k: nat, on: bool, j: nat)
    ensures Bit(WithBit(x, k, on), j) == if j == k then on else Bit(x, j)
  {
    if k > 0 && j > 0 {
      WithBitBits(x / 2, k - 1, on, j - 1);
    }
  }

  function Pow2(n: nat): (p: nat)
    ensures p > 0
  {
    if n == 0 then 1 else 2 * Pow2(n - 1)
  }

  lemma {:induction false} WithBitBound(x: nat, k: nat, on: bool, n: nat)
    requires x < Pow2(n) && k < n
    ensures WithBit(x, k, on) < Pow2(n)
  {
    if k > 0 {
      WithBitBound(x / 2, k - 1, on, n - 1);
    }
  }

  predicate TestBit(b: Block, i: nat)
    requires i < BPB
  {
    Bit(b[i / 8], i % 8)
  }

  function PutBit(b: Block, i: nat, on: bool): (r: Block)
    requires i < BPB
    ensures forall j :: 0 <= j < BPB ==> TestBit(r, j) == if j == i then on else TestBit(b, j)
  {
    PutBitByte(b[i / 8], i % 8, on);
    var r := b[i / 8 := WithBit(b[i / 8], i % 8, on)];
    PutBitBits(b, i, on);
    r
  }

  lemma PutBitByte(x: Byte, k: nat, on: bool)
    requires k < 8
    ensures WithBit(x, k, on) < 256
  {
    assert Pow2(8) == 256;
    WithBitBound(x, k, on, 8);
  }

  lemma PutBitBits(b: Block, i: nat, on: bool)
    requires i < BPB && WithBit(b[i / 8], i % 8, on) < 256
    ensures var r: Block := b[i / 8 := WithBit(b[i / 8], i % 8, on)];
            forall j :: 0 <= j < BPB ==> TestBit(r, j) == if j == i then on else TestBit(b, j)
  {
    var r: Block := b[i / 8 := WithBit(b[i / 8], i % 8, on)];
    forall j | 0 <= j < BPB
      ensures TestBit(r, j) == if j == i then on else TestBit(b, j)
    {
      WithBitBits(b[i / 8], i % 8, on, j % 8);
    }
  }
}
