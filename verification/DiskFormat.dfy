// The bytes on disk, as fs.h and log.c declare them: what the readers and writers
// of the other modules mean by a word, a bit, a dinode, the superblock and the log
// header.
module DiskFormat {
  import opened Common
  import opened Blocks
  import opened Bits
  import opened FileTree
  import opened FileContent
  import opened Mount
  import opened RedoLog

  // Words are little-endian, and a store changes the four bytes of its word.
  lemma WordBytes(b: Block, i: nat, w: Word)
    requires i < NWORDS
    ensures GetWord(b, i) as int == b[4 * i] as int + 0x100 * b[4 * i + 1] as int + 0x1_0000 * b[4 * i + 2] as int +
                                    0x100_0000 * b[4 * i + 3] as int
    ensures forall j :: 0 <= j < BSIZE && j / 4 != i ==> PutWord(b, i, w)[j] == b[j]
  {
  }

  // Bit k counts for 2^k.
  lemma {:induction false} BitIs(x: nat, k: nat)
    ensures Bit(x, k) <==> x / Pow2(k) % 2 == 1
  {
    if k > 0 {
      BitIs(x / 2, k - 1);
      assert x / 2 / Pow2(k - 1) == x / (2 * Pow2(k - 1)) by { DivDiv(x, Pow2(k - 1)); }
    }
  }

  lemma DivDiv(x: nat, p: nat)
    requires p > 0
    ensures x / 2 / p == x / (2 * p)
  {
    var q, r := x / (2 * p), x % (2 * p);
    assert x == 2 * (p * q) + r;
    assert x / 2 == p * q + r / 2 && 0 <= r / 2 < p;
    DivUnique(x / 2, p, q, r / 2);
  }

  lemma DivUnique(x: nat, p: nat, q: nat, r: nat)
    requires p > 0 && x == p * q + r && r < p
    ensures x / p == q
  {
    var d := x / p - q;
    assert x == p * (x / p) + x % p;
    assert p * d == p * (x / p) - p * q;
    assert d >= 1 ==> p * d >= p;
    assert d <= -1 ==> p * d + p <= 0;
  }

  // Block b is in use iff bit b % 8 of byte b % 4096 / 8 of bitmap block b / 4096
  // is set.
  lemma UsedIs(disk: Disk, sb: Super, b: nat)
    requires sb.bmapstart + b / 4096 < |disk|
    ensures Used(disk, sb, b) <==> disk[sb.bmapstart + b / 4096][b % 4096 / 8] / Pow2(b % 8) % 2 == 1
  {
    hide Bit, Pow2;
    assert b % 4096 % 8 == b % 8;
    BitIs(disk[sb.bmapstart + b / 4096][b % 4096 / 8], b % 8);
  }

  // Setting or clearing a bit changes one byte, by that power of two.
  lemma PutBitByteIs(b: Block, i: nat, on: bool)
    requires i < BPB
    ensures forall j :: 0 <= j < BSIZE && j != i / 8 ==> PutBit(b, i, on)[j] == b[j]
    ensures PutBit(b, i, on)[i / 8] ==
              b[i / 8] + (if on then Pow2(i % 8) else 0) - (if TestBit(b, i) then Pow2(i % 8) else 0)
  {
    WithBitValue(b[i / 8], i % 8, on);
  }

  lemma {:induction false} WithBitValue(x: nat, k: nat, on: bool)
    ensures WithBit(x, k, on) == x + (if on then Pow2(k) else 0) - (if Bit(x, k) then Pow2(k) else 0)
  {
    if k > 0 {
      WithBitValue(x / 2, k - 1, on);
    }
  }

  // struct dinode i is 64 bytes in block inodestart + i / 8: type and major, minor
  // and nlink, size, and the thirteen addrs.
  lemma FlushedIs(mem: seq<Inode>, disk: Disk, sb: Super, i: nat)
    requires i < |mem| && sb.inodestart + i / 8 < |disk|
    ensures Flushed(mem, disk, sb, i) <==>
            var b, w := disk[sb.inodestart + i / 8], 16 * (i % 8);
            && GetWord(b, w) == mem[i].kind && GetWord(b, w + 1) == mem[i].links && GetWord(b, w + 2) == mem[i].size
            && forall k :: 0 <= k < 13 ==> GetWord(b, w + 3 + k) == mem[i].addrs[k]
  {
    var b, w := disk[sb.inodestart + i / 8], 16 * (i % 8);
    var ino := GetInode(b, i % IPB);
    if forall k :: 0 <= k < 13 ==> GetWord(b, w + 3 + k) == mem[i].addrs[k] {
      assert ino.addrs == mem[i].addrs;
    }
  }

  // struct superblock: size, nblocks, ninodes, nlog, logstart, inodestart,
  // bmapstart.
  lemma SuperIs(sb: Super)
    requires sb.inodestart <= sb.bmapstart <= sb.DataStart() <= sb.size < WORD && sb.ninodes < WORD && sb.nlog < WORD
    ensures var b := SuperBlock(sb);
            && GetWord(b, 0) == sb.size && GetWord(b, 1) == sb.size - sb.DataStart() && GetWord(b, 2) == sb.ninodes
            && GetWord(b, 3) == sb.nlog && GetWord(b, 4) == 2 && GetWord(b, 5) == sb.inodestart
            && GetWord(b, 6) == sb.bmapstart
  {
  }

  // struct logheader: n, and the block numbers.
  lemma HeaderIs(h: Block, bs: seq<Word>)
    requires |bs| <= LOGSIZE
    ensures var r := PutHeader(h, bs);
            GetWord(r, 0) == |bs| && forall i :: 0 <= i < |bs| ==> GetWord(r, i + 1) == bs[i]
    ensures GetWord(h, 0) <= LOGSIZE ==>
              && |HeaderOf(h)| == GetWord(h, 0)
              && forall i :: 0 <= i < GetWord(h, 0) ==> HeaderOf(h)[i] == GetWord(h, i + 1)
  {
  }
}
