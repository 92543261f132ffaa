// What a file holds: the bytes its block tree names, and the inode as stored
// in its inode block.
module FileContent {
  import opened Common
  import opened Blocks
  import opened FileTree

  const MAXBYTES := 8459776 // MAXFILE * BSIZE

  // Byte x of file i; a block that was never allocated reads as zero, which is
  // what bmap would allocate.
  ghost function ByteAt(mem: seq<Inode>, disk: Disk, i: nat, x: nat): (c: Byte)
    requires i < |mem| && x < MAXBYTES
  {
    var b := Ptr(mem, disk, Leaf(i, x / BSIZE));
    if b == 0 || b >= |disk| then 0 else disk[b][x % BSIZE]
  }

  // Byte x of file i, from addrs and the words of its index blocks.
  lemma ByteAtIs(mem: seq<Inode>, disk: Disk, i: nat, x: nat)
    requires i < |mem| && x < MAXBYTES
    ensures var addrs, bn := mem[i].addrs, x / BSIZE;
            var b := if bn < NDIRECT then addrs[bn]
                     else if bn < NDIRECT + NINDIRECT then WordAt(disk, addrs[NDIRECT], bn - NDIRECT)
                     else var m := bn - NDIRECT - NINDIRECT;
                       WordAt(disk, WordAt(disk, addrs[NDIRECT + 1], m / NINDIRECT), m % NINDIRECT);
            ByteAt(mem, disk, i, x) == if b == 0 || b >= |disk| then 0 else disk[b][x % BSIZE]
  {
    hide Leaf, Ptr;
    LeafPtr(mem, disk, i, x / BSIZE);
  }

  ghost predicate SizesOk(mem: seq<Inode>) {
    forall i :: 0 <= i < |mem| ==> mem[i].size <= MAXBYTES
  }

  // The contents of file i.
  ghost function Content(mem: seq<Inode>, disk: Disk, i: nat): (c: seq<Byte>)
    requires i < |mem| && mem[i].size <= MAXBYTES
    ensures |c| == mem[i].size
  {
    seq(mem[i].size, x requires 0 <= x < mem[i].size => ByteAt(mem, disk, i, x))
  }

  // Every block below the size is allocated.
  ghost predicate Dense(mem: seq<Inode>, disk: Disk, i: nat)
    requires i < |mem| && mem[i].size <= MAXBYTES
  {
    forall bn :: 0 <= bn < MAXFILE && bn * BSIZE < mem[i].size ==> Ptr(mem, disk, Leaf(i, bn)) != 0
  }

  // s with bytes put at offset off, growing as needed (off <= |s|).
  function Splice(s: seq<Byte>, off: nat, bytes: seq<Byte>): (r: seq<Byte>)
    requires off <= |s|
    ensures |r| == if off + |bytes| > |s| then off + |bytes| else |s|
  {
    s[..off] + bytes + (if off + |bytes| < |s| then s[off + |bytes|..] else [])
  }

  // A block after bytes were copied into it at o.
  function Patch(b: Block, o: nat, bytes: seq<Byte>): (r: Block)
    requires o + |bytes| <= BSIZE
    ensures forall j :: 0 <= j < BSIZE ==> r[j] == if o <= j < o + |bytes| then bytes[j - o] else b[j]
  {
    b[..o] + bytes + b[o + |bytes|..]
  }

  // Allocating blocks changes no byte of any file.
  lemma ExtendsByteAt(i: nat, m: seq<Inode>, d: Disk, o: map<nat, Role>, m': seq<Inode>, d': Disk, o': map<nat, Role>,
                      sb: Super, f: nat, x: nat)
    requires Extends(i, m, d, o, m', d', o', sb) && Owned(m, d, sb, o) && Owned(m', d', sb, o')
    requires f < |m| && x < MAXBYTES
    ensures ByteAt(m', d', f, x) == ByteAt(m, d, f, x)
  {
    var r := Leaf(f, x / BSIZE);
    if Ptr(m, d, r) != 0 || f != i {
      ExtendsStable(i, m, d, o, m', d', o', sb, r);
    } else if Ptr(m', d', r) != 0 {
      assert o'[Ptr(m', d', r)] == r;
    }
  }

  // Writing into a data block changes the bytes of that block of that file,
  // and no other byte of any file.
  lemma PatchByteAt(m: seq<Inode>, d: Disk, o: map<nat, Role>, sb: Super, i: nat, bn: nat, at: nat, bytes: seq<Byte>,
                    f: nat, x: nat)
    requires Owned(m, d, sb, o) && i < |m| && bn < MAXFILE && f < |m| && x < MAXBYTES && at + |bytes| <= BSIZE
    requires 0 != Ptr(m, d, Leaf(i, bn)) < |d|
    ensures var b := Ptr(m, d, Leaf(i, bn));
            var d' := d[b := Patch(d[b], at, bytes)];
            ByteAt(m, d', f, x) ==
              if f == i && bn * BSIZE + at <= x < bn * BSIZE + at + |bytes| then bytes[x - bn * BSIZE - at]
              else ByteAt(m, d, f, x)
  {
    hide Owned, Ptr, Leaf;
    var b := Ptr(m, d, Leaf(i, bn));
    var d' := d[b := Patch(d[b], at, bytes)];
    var r := Leaf(f, x / BSIZE);
    DataWriteOwned(m, d, d', sb, o, b, Leaf(i, bn));
    if Ptr(m, d, r) == b {
      PtrInjective(m, d, sb, o, r, Leaf(i, bn));
      LeafInjective(i, f, bn, x / BSIZE);
    }
  }

  lemma DataWriteOwned(m: seq<Inode>, d: Disk, d': Disk, sb: Super, o: map<nat, Role>, b: nat, r: Role)
    requires Owned(m, d, sb, o) && Shape(r, |m|) && Height(r) == 0 && Ptr(m, d, r) == b && b != 0
    requires |d'| == |d| && forall x :: 0 <= x < |d| && x != b ==> d'[x] == d[x]
    ensures b in o && o[b] == r && sb.DataStart() <= b < |d|
    ensures Owned(m, d', sb, o)
    ensures forall s :: Shape(s, |m|) ==> Ptr(m, d', s) == Ptr(m, d, s)
  {
    SameOwned(m, d, d', sb, o);
  }

  // Words ws stored from word base on.
  function PutWords(b: Block, base: nat, ws: seq<Word>): (r: Block)
    requires base + |ws| <= NWORDS
    ensures forall j :: 0 <= j < NWORDS ==>
              GetWord(r, j) == if base <= j < base + |ws| then ws[j - base] else GetWord(b, j)
  {
    if ws == [] then b else PutWord(PutWords(b, base, ws[..|ws| - 1]), base + |ws| - 1, ws[|ws| - 1])
  }

  function GetWords(b: Block, base: nat, n: nat): (ws: seq<Word>)
    requires base + n <= NWORDS
    ensures |ws| == n && forall j :: 0 <= j < n ==> ws[j] == GetWord(b, base + j)
  {
    if n == 0 then [] else GetWords(b, base, n - 1) + [GetWord(b, base + n - 1)]
  }

  // struct dinode number slot of an inode block: 16 words each.
  function GetInode(b: Block, slot: nat): (ino: Inode)
    requires slot < IPB
  {
    Inode(GetWord(b, 16 * slot), GetWord(b, 16 * slot + 1), GetWord(b, 16 * slot + 2),
          GetWords(b, 16 * slot + 3, NDIRECT + 2))
  }

  // The stores of iupdate.
  function PutInode(b: Block, slot: nat, ino: Inode): (r: Block)
    requires slot < IPB
    ensures GetInode(r, slot) == ino
    ensures forall s :: 0 <= s < IPB && s != slot ==> GetInode(r, s) == GetInode(b, s)
  {
    PutWords(b, 16 * slot, [ino.kind, ino.links, ino.size] + ino.addrs)
  }

  // The inode block of inode i.
  function Iblock(sb: Super, i: nat): nat { sb.inodestart + i / IPB }

  // The inode on disk is the inode in memory.
  predicate Flushed(mem: seq<Inode>, disk: Disk, sb: Super, i: nat)
    requires i < |mem| && Iblock(sb, i) < |disk|
  {
    GetInode(disk[Iblock(sb, i)], i % IPB) == mem[i]
  }

  // The state of writei after tot bytes of src, started in state m0, d0.
  ghost predicate Progress(sb: Super, i: nat, off: nat, src: seq<Byte>, tot: nat, m0: seq<Inode>, d0: Disk,
                           m: seq<Inode>, d: Disk)
  {
    && i < |m0| == |m| && |d0| == |d| && tot <= |src| && off + |src| <= MAXBYTES
    && (forall f :: 0 <= f < |m| && f != i ==> m[f] == m0[f])
    && m[i] == m0[i].(addrs := m[i].addrs)
    && (forall f, x :: 0 <= f < |m| && 0 <= x < MAXBYTES ==>
          ByteAt(m, d, f, x) == if f == i && off <= x < off + tot then src[x - off] else ByteAt(m0, d0, f, x))
    && (forall f, bn :: 0 <= f < |m| && 0 <= bn < MAXFILE && Ptr(m0, d0, Leaf(f, bn)) != 0 ==>
        Ptr(m, d, Leaf(f, bn)) != 0)
    && (tot > 0 ==> Present(m, d, i, off, off + tot))
    && (forall b :: 0 <= b < |d| && b < sb.bmapstart ==> d[b] == d0[b])
    && (tot == 0 || RootsPresent(m0, i, off, off + |src|) ==> m == m0)
  }

  // The blocks of bytes lo..hi of file i are allocated.
  ghost predicate Present(m: seq<Inode>, d: Disk, i: nat, lo: nat, hi: nat)
    requires i < |m|
  {
    forall bn :: lo / BSIZE <= bn < MAXFILE && bn * BSIZE < hi ==> Ptr(m, d, Leaf(i, bn)) != 0
  }

  // The slots of addrs on the way to those blocks are in use.
  ghost predicate RootsPresent(m: seq<Inode>, i: nat, lo: nat, hi: nat)
    requires i < |m|
  {
    forall bn :: lo / BSIZE <= bn < MAXFILE && bn * BSIZE < hi ==> m[i].addrs[RootSlot(bn)] != 0
  }

  lemma ProgressStart(sb: Super, i: nat, off: nat, src: seq<Byte>, m: seq<Inode>, d: Disk)
    requires i < |m| && off + |src| <= MAXBYTES
    ensures Progress(sb, i, off, src, 0, m, d, m, d)
  {
  }

  // bmap, then memmove of `bytes` at `at` into the block: on the bytes ...
  lemma StepBytes(sb: Super, i: nat, m: seq<Inode>, d: Disk, o: map<nat, Role>, m1: seq<Inode>, d1: Disk,
                  o1: map<nat, Role>, bn: nat, at: nat, bytes: seq<Byte>, d2: Disk)
    requires Owned(m, d, sb, o) && Owned(m1, d1, sb, o1) && Extends(i, m, d, o, m1, d1, o1, sb)
    requires bn < MAXFILE && at + |bytes| <= BSIZE && 0 != Ptr(m1, d1, Leaf(i, bn)) < |d1|
    requires var b := Ptr(m1, d1, Leaf(i, bn)); d2 == d1[b := Patch(d1[b], at, bytes)]
    ensures forall f, x :: 0 <= f < |m| && 0 <= x < MAXBYTES ==>
              ByteAt(m1, d2, f, x) == if f == i && bn * BSIZE + at <= x < bn * BSIZE + at + |bytes|
                                      then bytes[x - bn * BSIZE - at] else ByteAt(m, d, f, x)
  {
    forall f, x | 0 <= f < |m| && 0 <= x < MAXBYTES
      ensures ByteAt(m1, d2, f, x) == if f == i && bn * BSIZE + at <= x < bn * BSIZE + at + |bytes|
                                      then bytes[x - bn * BSIZE - at] else ByteAt(m, d, f, x)
    {
      hide Owned, Extends, ByteAt, Leaf, Ptr;
      ExtendsByteAt(i, m, d, o, m1, d1, o1, sb, f, x);
      PatchByteAt(m1, d1, o1, sb, i, bn, at, bytes, f, x);
    }
  }

  // ... and on the pointers.
  lemma StepPtrs(sb: Super, i: nat, m: seq<Inode>, d: Disk, o: map<nat, Role>, m1: seq<Inode>, d1: Disk,
                 o1: map<nat, Role>, bn: nat, d2: Disk)
    requires Owned(m, d, sb, o) && Owned(m1, d1, sb, o1) && Extends(i, m, d, o, m1, d1, o1, sb)
    requires i < |m| == |m1| && bn < MAXFILE && 0 != Ptr(m1, d1, Leaf(i, bn)) < |d1| == |d2|
    requires forall x :: 0 <= x < |d1| && x != Ptr(m1, d1, Leaf(i, bn)) ==> d2[x] == d1[x]
    ensures Owned(m1, d2, sb, o1) && Ptr(m1, d2, Leaf(i, bn)) == Ptr(m1, d1, Leaf(i, bn))
    ensures forall f, n :: 0 <= f < |m| && 0 <= n < MAXFILE && Ptr(m, d, Leaf(f, n)) != 0 ==>
              Ptr(m1, d2, Leaf(f, n)) == Ptr(m, d, Leaf(f, n))
  {
    hide Owned, Extends, Leaf, Ptr;
    DataWriteOwned(m1, d1, d2, sb, o1, Ptr(m1, d1, Leaf(i, bn)), Leaf(i, bn));
    forall f, n | 0 <= f < |m| && 0 <= n < MAXFILE && Ptr(m, d, Leaf(f, n)) != 0
      ensures Ptr(m1, d2, Leaf(f, n)) == Ptr(m, d, Leaf(f, n))
    {
      ExtendsStable(i, m, d, o, m1, d1, o1, sb, Leaf(f, n));
    }
  }

  lemma ProgressStep(sb: Super, i: nat, off: nat, src: seq<Byte>, tot: nat, n: nat, m0: seq<Inode>, d0: Disk,
                     m: seq<Inode>, d: Disk, o: map<nat, Role>, m1: seq<Inode>, d1: Disk, o1: map<nat, Role>, d2: Disk)
    requires Progress(sb, i, off, src, tot, m0, d0, m, d)
    requires Owned(m, d, sb, o) && Owned(m1, d1, sb, o1) && Extends(i, m, d, o, m1, d1, o1, sb)
    requires 0 < n && tot + n <= |src| && (off + tot) % BSIZE + n <= BSIZE
    requires var bn := (off + tot) / BSIZE;
             var b := Ptr(m1, d1, Leaf(i, bn));
             && 0 != b < |d1| && d2 == d1[b := Patch(d1[b], (off + tot) % BSIZE, src[tot..tot + n])] &&
                 sb.DataStart() <= b
             && (m[i].addrs[RootSlot(bn)] != 0 ==> m1 == m)
    ensures Progress(sb, i, off, src, tot + n, m0, d0, m1, d2) && Owned(m1, d2, sb, o1)
  {
    hide Owned, ByteAt, Leaf, Ptr, Extends, Present;
    var x0 := off + tot;
    var bn, at := x0 / BSIZE, x0 % BSIZE;
    ExtendsMem(i, m, d, o, m1, d1, o1, sb);
    StepPtrs(sb, i, m, d, o, m1, d1, o1, bn, d2);
    StepBytes(sb, i, m, d, o, m1, d1, o1, bn, at, src[tot..tot + n], d2);
    PresentStep(i, off, tot, n, m, d, m1, d2);
  }

  lemma PresentStep(i: nat, off: nat, tot: nat, n: nat, m: seq<Inode>, d: Disk, m1: seq<Inode>, d2: Disk)
    requires i < |m| == |m1| && 0 < n && (off + tot) % BSIZE + n <= BSIZE && off + tot + n <= MAXBYTES
    requires tot > 0 ==> Present(m, d, i, off, off + tot)
    requires Ptr(m1, d2, Leaf(i, (off + tot) / BSIZE)) != 0
    requires forall f, b :: 0 <= f < |m| && 0 <= b < MAXFILE && Ptr(m, d, Leaf(f, b)) != 0 ==>
              Ptr(m1, d2, Leaf(f, b)) == Ptr(m, d, Leaf(f, b))
    ensures Present(m1, d2, i, off, off + tot + n)
  {
    hide Leaf, Ptr;
    forall b | off / BSIZE <= b < MAXFILE && b * BSIZE < off + tot + n
      ensures Ptr(m1, d2, Leaf(i, b)) != 0
    {
      if b < (off + tot) / BSIZE {
        assert b * BSIZE < off + tot;
        assert Ptr(m, d, Leaf(i, b)) != 0;
      }
    }
  }

  lemma ExtendsMem(i: nat, m: seq<Inode>, d: Disk, o: map<nat, Role>, m': seq<Inode>, d': Disk, o': map<nat, Role>,
                   sb: Super)
    requires Extends(i, m, d, o, m', d', o', sb)
    ensures i < |m| == |m'| && |d'| == |d| && m'[i] == m[i].(addrs := m'[i].addrs)
    ensures forall f :: 0 <= f < |m| && f != i ==> m'[f] == m[f]
    ensures forall b :: 0 <= b < |d| && b < sb.bmapstart ==> d'[b] == d[b]
  {
  }

  // Changing an inode's size, or an inode block on disk, moves no pointer and
  // changes no byte.
  lemma {:induction false} SameAddrsPtr(m: seq<Inode>, m': seq<Inode>, d: Disk, r: Role)
    requires |m| == |m'| && (forall f :: 0 <= f < |m| ==> m'[f].addrs == m[f].addrs) && Shape(r, |m|)
    ensures Ptr(m', d, r) == Ptr(m, d, r)
  {
    if r.Child? {
      SameAddrsPtr(m, m', d, r.parent);
    }
  }

  lemma MetaChange(m: seq<Inode>, d: Disk, m': seq<Inode>, d': Disk, sb: Super, o: map<nat, Role>)
    requires Owned(m, d, sb, o) && |m| == |m'| && |d| == |d'|
    requires forall f :: 0 <= f < |m| ==> m'[f].addrs == m[f].addrs
    requires forall x :: sb.DataStart() <= x < |d| ==> d'[x] == d[x]
    ensures Owned(m', d', sb, o)
    ensures forall r :: Shape(r, |m|) ==> Ptr(m', d', r) == Ptr(m, d, r)
    ensures forall f, x :: 0 <= f < |m| && 0 <= x < MAXBYTES ==> ByteAt(m', d', f, x) == ByteAt(m, d, f, x)
  {
    SameOwned(m, d, d', sb, o);
    forall r | Shape(r, |m|)
      ensures Ptr(m', d', r) == Ptr(m, d, r)
    {
      SameAddrsPtr(m, m', d', r);
    }
    forall f, x | 0 <= f < |m| && 0 <= x < MAXBYTES
      ensures ByteAt(m', d', f, x) == ByteAt(m, d, f, x)
    {
      assert Ptr(m, d, Leaf(f, x / BSIZE)) != 0 ==> Ptr(m, d, Leaf(f, x / BSIZE)) in o;
    }
  }

  // A finished write, with the size it leaves, has spliced src into the file
  // and left the other files alone.
  lemma WriteSplices(sb: Super, i: nat, off: nat, src: seq<Byte>, m0: seq<Inode>, d0: Disk, m: seq<Inode>, d: Disk,
                     m': seq<Inode>, d': Disk)
    requires Progress(sb, i, off, src, |src|, m0, d0, m, d) && SizesOk(m0) && off <= m0[i].size
    requires |m'| == |m| && |d'| == |d|
    requires forall f, x :: 0 <= f < |m| && 0 <= x < MAXBYTES ==> ByteAt(m', d', f, x) == ByteAt(m, d, f, x)
    requires forall f :: 0 <= f < |m| && f != i ==> m'[f] == m[f]
    requires m'[i].size == if off + |src| > m0[i].size then off + |src| else m0[i].size
    ensures SizesOk(m')
    ensures Content(m', d', i) == Splice(Content(m0, d0, i), off, src)
    ensures forall f :: 0 <= f < |m0| && f != i ==> m'[f].size == m0[f].size && Content(m', d', f) == Content(m0, d0, f)
  {
    hide ByteAt, Present, RootsPresent;
    var c := Splice(Content(m0, d0, i), off, src);
    forall x | 0 <= x < m'[i].size
      ensures Content(m', d', i)[x] == c[x]
    {
      assert ByteAt(m', d', i, x) == if off <= x < off + |src| then src[x - off] else ByteAt(m0, d0, i, x);
    }
    forall f | 0 <= f < |m0| && f != i
      ensures m'[f].size == m0[f].size && Content(m', d', f) == Content(m0, d0, f)
    {
      assert m'[f] == m[f] == m0[f];
    }
  }

  // A dense file stays dense.
  lemma WriteDense(sb: Super, i: nat, off: nat, src: seq<Byte>, m0: seq<Inode>, d0: Disk, m: seq<Inode>, d: Disk,
                   m': seq<Inode>, d': Disk, f: nat)
    requires Progress(sb, i, off, src, |src|, m0, d0, m, d) && SizesOk(m0) && SizesOk(m') && off <= m0[i].size
    requires |m'| == |m| && forall r :: Shape(r, |m|) ==> Ptr(m', d', r) == Ptr(m, d, r)
    requires forall g :: 0 <= g < |m| && g != i ==> m'[g] == m[g]
    requires m'[i].size == if off + |src| > m0[i].size then off + |src| else m0[i].size
    requires f < |m0| && Dense(m0, d0, f)
    ensures Dense(m', d', f)
  {
    hide ByteAt, Ptr, Leaf;
    forall bn | 0 <= bn < MAXFILE && bn * BSIZE < m'[f].size
      ensures Ptr(m', d', Leaf(f, bn)) != 0
    {
      if bn * BSIZE < m0[f].size {
        assert Ptr(m0, d0, Leaf(f, bn)) != 0;
      } else {
        assert f == i && off / BSIZE <= bn;
      }
      assert Ptr(m, d, Leaf(f, bn)) != 0;
    }
  }

  // After the loop of writei, and before iupdate, the inode on disk is behind
  // exactly when a slot of addrs had to be filled.
  lemma StaleExactly(sb: Super, i: nat, off: nat, src: seq<Byte>, m0: seq<Inode>, d0: Disk, m: seq<Inode>, d: Disk,
                     o: map<nat, Role>)
    requires Progress(sb, i, off, src, |src|, m0, d0, m, d) && Owned(m, d, sb, o)
    requires Iblock(sb, i) < sb.bmapstart && Iblock(sb, i) < |d| && Flushed(m0, d0, sb, i)
    ensures Flushed(m, d, sb, i) <==> |src| == 0 || RootsPresent(m0, i, off, off + |src|)
  {
    hide ByteAt, GetInode, Owned;
    if |src| != 0 && !RootsPresent(m0, i, off, off + |src|) {
      var bn :| off / BSIZE <= bn < MAXFILE && bn * BSIZE < off + |src| && m0[i].addrs[RootSlot(bn)] == 0;
      PathAllocated(m, d, sb, o, i, bn);
      assert m[i].addrs[RootSlot(bn)] != m0[i].addrs[RootSlot(bn)];
    }
  }

  // Below the size of a dense file every slot is filled.
  lemma DenseRoots(m: seq<Inode>, d: Disk, sb: Super, o: map<nat, Role>, i: nat, lo: nat, hi: nat)
    requires Owned(m, d, sb, o) && i < |m| && m[i].size <= MAXBYTES && Dense(m, d, i) && hi <= m[i].size
    ensures RootsPresent(m, i, lo, hi) && Present(m, d, i, lo, hi)
  {
    hide Owned, Ptr, Leaf, RootSlot;
    forall bn | lo / BSIZE <= bn < MAXFILE && bn * BSIZE < hi
      ensures m[i].addrs[RootSlot(bn)] != 0
    {
      PathAllocated(m, d, sb, o, i, bn);
    }
  }
}
