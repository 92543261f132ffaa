// mkfs.c: the first file system image. Blocks are handed out by a counter, and
// the bitmap is written once, at the end.
module Mkfs {
  import opened Common
  import opened Blocks
  import opened Bits
  import opened FileTree
  import opened FileContent
  import opened Filling
  import opened FileSystem
  import opened Mount

  // The largest file iappend can make.
  const SMALL := 71168 // (NDIRECT + NINDIRECT) * BSIZE

  // Blocks DataStart..free are in use, and the rest of the disk is zero.
  ghost predicate Fresh(sb: Super, disk: Disk, owner: map<nat, Role>, free: nat) {
    && sb.Ok(disk) && sb.DataStart() <= free <= sb.size
    && (forall b :: b in owner <==> sb.DataStart() <= b < free)
    && (forall b :: free <= b < |disk| ==> disk[b] == ZeroBlock())
    && (forall b :: sb.bmapstart <= b < sb.DataStart() ==> disk[b] == ZeroBlock())
  }

  lemma FreshNext(sb: Super, disk: Disk, owner: map<nat, Role>, free: nat, r: Role)
    requires Fresh(sb, disk, owner, free) && free < sb.size
    ensures free !in owner && disk[free] == ZeroBlock() && Fresh(sb, disk, owner[free := r], free + 1)
  {
  }

  lemma FreshWrite(sb: Super, disk: Disk, owner: map<nat, Role>, free: nat, b: nat, x: Block)
    requires Fresh(sb, disk, owner, free) && (b in owner || b < sb.bmapstart)
    ensures b < |disk| && Fresh(sb, disk[b := x], owner, free)
  {
  }

  lemma FreshSize(sb: Super, disk: Disk, owner: map<nat, Role>, free: nat)
    requires Fresh(sb, disk, owner, free)
    ensures sb.Ok(disk) && sb.DataStart() <= free <= sb.size == |disk|
  {
  }

  lemma {:induction false} ZeroPtr(mem: seq<Inode>, disk: Disk, r: Role)
    requires Shape(r, |mem|) && forall i, k :: 0 <= i < |mem| && 0 <= k < NDIRECT + 2 ==> mem[i].addrs[k] == 0
    ensures Ptr(mem, disk, r) == 0
  {
    if r.Child? {
      ZeroPtr(mem, disk, r.parent);
    }
  }

  // The layout main computes for FSSIZE 20000, NINODES 200 and LOGSIZE 30.
  const LAYOUT := Super(20000, 200, 30, 32, 58)

  // nmeta == 2 + nlog + ninodeblocks + nbitmap blocks come before the data.
  lemma LayoutOk(disk: Disk)
    requires |disk| == LAYOUT.size
    ensures LAYOUT.Ok(disk) && LAYOUT.DataStart() == 2 + LOGSIZE + (200 / IPB + 1) + (20000 / BPB + 1)
    ensures LAYOUT.HeaderLimit() == LOGSIZE - 1 && LAYOUT.inodestart == LOGSTART + LAYOUT.nlog
  {
  }

  // A dinode that ialloc has not used.
  function NoInode(): Inode { Inode(0, 0, 0, seq(NDIRECT + 2, k => 0)) }

  lemma NoInodeRead(slot: nat)
    requires slot < IPB
    ensures GetInode(ZeroBlock(), slot) == NoInode()
  {
    var ino := GetInode(ZeroBlock(), slot);
    assert ino.addrs == NoInode().addrs;
  }

  // Exactly the blocks below the size are allocated.
  ghost predicate Exact(mem: seq<Inode>, disk: Disk, f: nat)
    requires f < |mem|
  {
    forall bn :: 0 <= bn < MAXFILE ==> (Ptr(mem, disk, Leaf(f, bn)) != 0 <==> bn * BSIZE < mem[f].size)
  }

  // Of the blocks of all files, only block fbn of file i may be new.
  ghost predicate OneLeaf(m0: seq<Inode>, d0: Disk, m: seq<Inode>, d: Disk, i: nat, fbn: nat) {
    && |m| == |m0|
    && forall f, bn :: 0 <= f < |m| && 0 <= bn < MAXFILE ==>
         (Ptr(m, d, Leaf(f, bn)) != 0 <==> Ptr(m0, d0, Leaf(f, bn)) != 0 || (f == i && bn == fbn))
  }

  lemma OneLeafIs(m0: seq<Inode>, d0: Disk, m: seq<Inode>, d: Disk, i: nat, fbn: nat)
    requires |m| == |m0| && i < |m| && fbn < MAXFILE && Ptr(m, d, Leaf(i, fbn)) != 0
    requires forall r :: Shape(r, |m|) && Height(r) == 0 && r != Leaf(i, fbn) ==> Ptr(m, d, r) == Ptr(m0, d0, r)
    ensures OneLeaf(m0, d0, m, d, i, fbn)
  {
    hide Ptr, Leaf;
    forall f, bn | 0 <= f < |m| && 0 <= bn < MAXFILE
      ensures Ptr(m, d, Leaf(f, bn)) != 0 <==> Ptr(m0, d0, Leaf(f, bn)) != 0 || (f == i && bn == fbn)
    {
      if Leaf(f, bn) == Leaf(i, fbn) {
        LeafInjective(f, i, bn, fbn);
      }
    }
  }

  // Bytes start..start+tot of file i got their blocks.
  ghost predicate Reached(m0: seq<Inode>, d0: Disk, m: seq<Inode>, d: Disk, i: nat, start: nat, tot: nat) {
    && |m| == |m0|
    && forall f, bn :: 0 <= f < |m| && 0 <= bn < MAXFILE ==>
         (Ptr(m, d, Leaf(f, bn)) != 0 <==> Ptr(m0, d0, Leaf(f, bn)) != 0 || (f == i && Visited(start, tot, bn)))
  }

  predicate Visited(start: nat, tot: nat, bn: nat) { tot > 0 && start / BSIZE <= bn && bn * BSIZE < start + tot }

  lemma VisitedNext(start: nat, tot: nat, n: nat, bn: nat)
    requires 0 < n && (start + tot) % BSIZE + n <= BSIZE
    ensures Visited(start, tot + n, bn) <==> Visited(start, tot, bn) || bn == (start + tot) / BSIZE
  {
  }

  lemma ReachedNext(m0: seq<Inode>, d0: Disk, m1: seq<Inode>, d1: Disk, m: seq<Inode>, d: Disk, i: nat, start: nat,
                    tot: nat, n: nat)
    requires Reached(m0, d0, m1, d1, i, start, tot) && OneLeaf(m1, d1, m, d, i, (start + tot) / BSIZE)
    requires 0 < n && (start + tot) % BSIZE + n <= BSIZE
    ensures Reached(m0, d0, m, d, i, start, tot + n)
  {
    hide Ptr, Leaf, Visited;
    forall f, bn | 0 <= f < |m| && 0 <= bn < MAXFILE
      ensures Ptr(m, d, Leaf(f, bn)) != 0 <==> Ptr(m0, d0, Leaf(f, bn)) != 0 || (f == i && Visited(start, tot + n, bn))
    {
      VisitedNext(start, tot, n, bn);
    }
  }

  lemma ReachedNone(m: seq<Inode>, d: Disk, i: nat, start: nat)
    ensures Reached(m, d, m, d, i, start, 0)
  {
  }

  lemma OneLeafSame(m0: seq<Inode>, d0: Disk, m: seq<Inode>, d1: Disk, d: Disk, i: nat, fbn: nat)
    requires OneLeaf(m0, d0, m, d1, i, fbn) && forall r :: Shape(r, |m|) ==> Ptr(m, d, r) == Ptr(m, d1, r)
    ensures OneLeaf(m0, d0, m, d, i, fbn)
  {
    hide Ptr, Leaf;
  }

  // Appending at the end of a file whose blocks are exactly those below its
  // size leaves such a file.
  lemma ReachedExact(m0: seq<Inode>, d0: Disk, m: seq<Inode>, d: Disk, m': seq<Inode>, d': Disk, i: nat, n: nat, f: nat)
    requires i < |m0| == |m| == |m'| && f < |m| && Exact(m0, d0, f) && Reached(m0, d0, m, d, i, m0[i].size, n)
    requires forall r :: Shape(r, |m|) ==> Ptr(m', d', r) == Ptr(m, d, r)
    requires m'[f].size == if f == i then m0[i].size + n else m0[f].size
    ensures Exact(m', d', f)
  {
    hide Ptr, Leaf;
    forall bn | 0 <= bn < MAXFILE
      ensures Ptr(m', d', Leaf(f, bn)) != 0 <==> bn * BSIZE < m'[f].size
    {
      assert Ptr(m', d', Leaf(f, bn)) == Ptr(m, d, Leaf(f, bn));
    }
  }

  class Image {
    const sb: Super
    var disk: Disk
    // The dinodes, by number.
    var mem: seq<Inode>
    var freeinode: nat
    var freeblock: nat
    ghost var owner: map<nat, Role>

    // The block trees, whatever the dinodes on disk.
    ghost predicate Trees()
      reads this
    {
      && Owned(mem, disk, sb, owner) && Fresh(sb, disk, owner, freeblock) && |mem| == sb.ninodes && SizesOk(mem)
      && LOGSTART + sb.nlog <= sb.inodestart && ReadSuper(disk[1]) == sb
    }

    ghost predicate Valid()
      reads this
    {
      && Trees() && 1 <= freeinode
      && (forall i :: 0 <= i < |mem| ==> Flushed(mem, disk, sb, i) && Exact(mem, disk, i))
      && (forall i :: freeinode <= i < |mem| ==> mem[i] == NoInode())
    }

    // main up to wsect(1, buf).
    constructor (sb: Super)
      requires LOGSTART + sb.nlog <= sb.inodestart && sb.inodestart + sb.ninodes / IPB < sb.bmapstart
      requires sb.nlog < 0x8000_0000
      requires sb.DataStart() <= sb.size < WORD && sb.ninodes < WORD
      ensures Valid() && this.sb == sb && freeinode == 1 && freeblock == sb.DataStart()
    {
      var blocks := seq(sb.size, b => ZeroBlock());
      this.sb, disk, freeblock, owner := sb, blocks[1 := SuperBlock(sb)], sb.DataStart(), map[];
      freeinode, mem := 1, seq(sb.ninodes, i => NoInode());
      new;
      forall r | Shape(r, |mem|)
        ensures Ptr(mem, disk, r) == 0
      {
        ZeroPtr(mem, disk, r);
      }
      forall i | 0 <= i < |mem|
        ensures Flushed(mem, disk, sb, i)
      {
        assert disk[Iblock(sb, i)] == ZeroBlock();
        NoInodeRead(i % IPB);
      }
    }

    // winode
    method WriteInode(i: nat)
      requires Trees() && i < |mem|
      modifies this`disk
      ensures Trees() && Flushed(mem, disk, sb, i)
      ensures |disk| == |old(disk)| && forall b :: 0 <= b < |disk| && b != Iblock(sb, i) ==> disk[b] == old(disk)[b]
      ensures forall f :: 0 <= f < |mem| && f != i ==> (Flushed(mem, disk, sb, f) <==> Flushed(mem, old(disk), sb, f))
    {
      hide Owned, Fresh, PutInode, GetInode;
      FreshSize(sb, disk, owner, freeblock);
      var b := Iblock(sb, i);
      FreshWrite(sb, disk, owner, freeblock, b, PutInode(disk[b], i % IPB, mem[i]));
      ghost var d := disk;
      disk := disk[b := PutInode(disk[b], i % IPB, mem[i])];
      MetaChange(mem, d, mem, disk, sb, owner);
    }

    // ialloc
    method Ialloc(kind: Word) returns (inum: nat)
      requires Valid() && freeinode < |mem|
      modifies this`disk, this`mem, this`freeinode
      ensures Valid() && inum == old(freeinode) && freeinode == inum + 1
      ensures mem == old(mem)[inum := NoInode().(kind := kind, links := 0x1_0000)]
      ensures forall f :: 0 <= f < |mem| ==> Content(mem, disk, f) == Content(old(mem), old(disk), f)
    {
      hide Owned, Fresh, GetInode, Ptr, Leaf, ByteAt, Content, Exact;
      ghost var m, d := mem, disk;
      inum := freeinode;
      freeinode := freeinode + 1;
      mem := mem[inum := NoInode().(kind := kind, links := 0x1_0000)];
      FreshSize(sb, disk, owner, freeblock);
      MetaChange(m, d, mem, d, sb, owner);
      FlushedOthers(sb, m, mem, d, inum);
      WriteInode(inum);
      BeyondInodes();
      MetaChange(m, d, mem, disk, sb, owner);
      SameFiles(m, d, mem, disk);
    }

    // The block in slot k of addrs, the next one of the disk if it is empty.
    method RootBlock(i: nat, k: nat) returns (ok: bool, addr: nat)
      requires Trees() && i < |mem| && k < NDIRECT + 2
      modifies this`mem, this`freeblock, this`owner
      ensures freeblock <= old(freeblock) + 1 && (!ok ==> freeblock == sb.size)
      ensures ok ==> Trees() && |mem| == |old(mem)| && addr != 0 && addr == Ptr(mem, disk, Root(i, k))
      ensures ok ==> Extends(i, old(mem), disk, old(owner), mem, disk, owner, sb)
      ensures ok && old(mem)[i].addrs[k] != 0 ==> mem == old(mem)
      ensures ok ==> forall r :: Shape(r, |mem|) && r != Root(i, k) ==> Ptr(mem, disk, r) == Ptr(old(mem), disk, r)
    {
      hide Owned, Fresh, Extends;
      addr := mem[i].addrs[k];
      if addr != 0 {
        ExtendsSelf(i, mem, disk, owner, sb);
        return true, addr;
      }
      FreshSize(sb, disk, owner, freeblock);
      if freeblock == sb.size {
        return false, 0;
      }
      ghost var m, o := mem, owner;
      addr := freeblock;
      FreshNext(sb, disk, owner, freeblock, Root(i, k));
      PutRootOwned(mem, disk, sb, owner, i, k, addr);
      mem := mem[i := mem[i].(addrs := mem[i].addrs[k := addr])];
      owner := owner[addr := Root(i, k)];
      freeblock := freeblock + 1;
      ExtendsOne(i, m, disk, o, mem, disk, sb, addr, Root(i, k));
      ok := true;
    }

    // The same for word j of the indirect block, which is written back.
    method ChildBlock(i: nat, q: nat, j: nat) returns (ok: bool, addr: nat)
      requires Trees() && i < |mem| && j < NINDIRECT && q == Ptr(mem, disk, Root(i, NDIRECT)) != 0
      modifies this`disk, this`freeblock, this`owner
      ensures ok ==> Trees() && addr != 0 && addr == Ptr(mem, disk, Child(Root(i, NDIRECT), j))
      ensures ok ==> Extends(i, mem, old(disk), old(owner), mem, disk, owner, sb)
      ensures ok ==> forall r :: Shape(r, |mem|) && r != Child(Root(i, NDIRECT), j) ==>
                Ptr(mem, disk, r) == Ptr(mem, old(disk), r)
      ensures freeblock <= old(freeblock) + 1 && (!ok ==> freeblock == sb.size)
    {
      hide Owned, Fresh, Extends;
      ghost var p := Root(i, NDIRECT);
      OwnedPlace(mem, disk, sb, owner, p);
      OwnedBounds(mem, disk, sb, owner);
      addr := GetWord(disk[q], j);
      if addr != 0 {
        ExtendsSelf(i, mem, disk, owner, sb);
        return true, addr;
      }
      FreshSize(sb, disk, owner, freeblock);
      if freeblock == sb.size {
        return false, 0;
      }
      ghost var d, o := disk, owner;
      addr := freeblock;
      FreshNext(sb, disk, owner, freeblock, Child(p, j));
      PutChildOwned(mem, disk, sb, owner, p, j, addr);
      owner := owner[addr := Child(p, j)];
      freeblock := freeblock + 1;
      FreshWrite(sb, disk, owner, freeblock, q, PutWord(disk[q], j, addr));
      disk := disk[q := PutWord(disk[q], j, addr)];
      OnlyIndex(mem, d, sb, o, q, p);
      ExtendsOne(i, mem, d, o, mem, disk, sb, addr, Child(p, j));
      ok := true;
    }

    // The block of fbn, direct or through the indirect block.
    method BlockFor(i: nat, fbn: nat) returns (ok: bool, addr: nat)
      requires Trees() && i < |mem| && fbn < NDIRECT + NINDIRECT
      modifies this`disk, this`mem, this`freeblock, this`owner
      ensures ok ==> Trees() && |mem| == |old(mem)| && addr != 0 && addr == Ptr(mem, disk, Leaf(i, fbn))
      ensures ok ==> Extends(i, old(mem), old(disk), old(owner), mem, disk, owner, sb)
      ensures ok && old(mem)[i].addrs[RootSlot(fbn)] != 0 ==> mem == old(mem)
      ensures ok ==> OneLeaf(old(mem), old(disk), mem, disk, i, fbn)
      ensures freeblock <= old(freeblock) + 2 && (!ok ==> freeblock == sb.size)
    {
      hide Owned, Fresh, Extends, OneLeaf;
      FreshSize(sb, disk, owner, freeblock);
      if fbn < NDIRECT {
        ok, addr := RootBlock(i, fbn);
        if ok {
          OneLeafIs(old(mem), old(disk), mem, disk, i, fbn);
        }
        return;
      }
      ghost var m, d, o := mem, disk, owner;
      ok, addr := RootBlock(i, NDIRECT);
      if !ok {
        return;
      }
      ghost var m1, d1, o1 := mem, disk, owner;
      ok, addr := ChildBlock(i, addr, fbn - NDIRECT);
      if ok {
        ExtendsTrans(i, m, d, o, m1, d1, o1, mem, disk, owner, sb);
        OneLeafIs(m, d, mem, disk, i, fbn);
      }
    }

    // The loop of iappend; false when the image is full.
    method AppendBlocks(i: nat, start: nat, src: seq<Byte>) returns (ok: bool)
      requires Trees() && i < |mem| && start + |src| <= SMALL
      modifies this`disk, this`mem, this`freeblock, this`owner
      ensures ok ==> Trees() && Progress(sb, i, start, src, |src|, old(mem), old(disk), mem, disk)
      ensures ok ==> Reached(old(mem), old(disk), mem, disk, i, start, |src|)
      ensures freeblock <= old(freeblock) + 2 * |src| && (!ok ==> freeblock == sb.size)
    {
      hide Owned, Fresh, Extends, Progress, Leaf, Ptr, Reached, OneLeaf;
      var tot, off := 0, start;
      ProgressStart(sb, i, start, src, mem, disk);
      ReachedNone(mem, disk, i, start);
      while tot < |src|
        invariant 0 <= tot <= |src| && off == start + tot && i < |mem| == |old(mem)| && Trees()
        invariant Progress(sb, i, start, src, tot, old(mem), old(disk), mem, disk)
        invariant Reached(old(mem), old(disk), mem, disk, i, start, tot)
        invariant freeblock <= old(freeblock) + 2 * tot
      {
        ghost var m, d, o := mem, disk, owner;
        var x;
        var fbn := off / BSIZE;
        ok, x := BlockFor(i, fbn);
        if !ok {
          return;
        }
        var n1 := if |src| - tot < BSIZE - off % BSIZE then |src| - tot else BSIZE - off % BSIZE;
        OwnedPlace(mem, disk, sb, owner, Leaf(i, fbn));
        ghost var d1 := disk;
        FreshWrite(sb, disk, owner, freeblock, x, Patch(disk[x], off % BSIZE, src[tot..tot + n1]));
        FreshSize(sb, disk, owner, freeblock);
        disk := disk[x := Patch(disk[x], off % BSIZE, src[tot..tot + n1])];
        DataWriteOwned(mem, d1, disk, sb, owner, x, Leaf(i, fbn));
        OneLeafSame(m, d, mem, d1, disk, i, fbn);
        ReachedNext(old(mem), old(disk), m, d, mem, disk, i, start, tot, n1);
        ProgressStep(sb, i, start, src, tot, n1, old(mem), old(disk), m, d, o, mem, d1, owner, disk);
        tot, off := tot + n1, off + n1;
      }
      ok := true;
    }

    // iappend: src at the end of file i. false is an image that is full.
    method Iappend(i: nat, src: seq<Byte>) returns (ok: bool)
      requires Valid() && i < freeinode && i < |mem| && mem[i].size + |src| <= SMALL
      modifies this`disk, this`mem, this`freeblock, this`owner
      ensures ok ==> Valid() && |mem| == |old(mem)|
      ensures ok ==> mem[i] == old(mem)[i].(size := old(mem)[i].size + |src|, addrs := mem[i].addrs)
      ensures ok ==> Content(mem, disk, i) == Content(old(mem), old(disk), i) + src
      ensures ok ==> forall f :: 0 <= f < |mem| && f != i ==>
                mem[f] == old(mem)[f] && Content(mem, disk, f) == Content(old(mem), old(disk), f)
      ensures freeblock <= old(freeblock) + 2 * |src| && (!ok ==> freeblock == sb.size)
    {
      hide Owned, Fresh, Progress, ByteAt, Leaf, Ptr, GetInode, Content, Exact, Reached;
      ghost var m0, d0 := mem, disk;
      FreshSize(sb, disk, owner, freeblock);
      var off := mem[i].size;
      ok := AppendBlocks(i, off, src);
      if !ok {
        return;
      }
      ghost var m, d := mem, disk;
      ProgressMem(sb, i, off, src, |src|, m0, d0, m, d);
      StillFlushed(sb, i, off, src, m0, d0, m, d) by { FreshSize(sb, disk, owner, freeblock); }
      mem := mem[i := mem[i].(size := off + |src|)];
      MetaChange(m, d, mem, disk, sb, owner);
      FlushedOthers(sb, m, mem, d, i) by { FreshSize(sb, disk, owner, freeblock); }
      WriteInode(i);
      BeyondInodes();
      AppendDone(sb, i, src, m0, d0, m, d, mem, disk, owner);
    }

    lemma BeyondInodes()
      requires Trees()
      ensures forall i :: 0 <= i < |mem| ==> Iblock(sb, i) < sb.DataStart()
    {
    }

    // The bits of the first `used` blocks; mkfs asserts that one block of the
    // bitmap holds them.
    method Balloc(used: nat) returns (buf: Block)
      requires used <= BPB
      ensures forall b :: 0 <= b < BPB ==> (TestBit(buf, b) <==> b < used)
    {
      buf := ZeroBlock();
      forall b | 0 <= b < BPB
        ensures !TestBit(buf, b)
      {
        ZeroBit(b % 8);
      }
      for i := 0 to used
        invariant forall b :: 0 <= b < BPB ==> (TestBit(buf, b) <==> b < i)
      {
        buf := PutBit(buf, i, true);
      }
    }

    // The end of main: the size of the root directory is rounded up, and the
    // bitmap written. What is on the disk is then a consistent file system. The
    // rounding leaves a hole exactly when the size was a multiple of BSIZE.
    method Finish(root: nat) returns (ok: bool)
      requires Valid() && root < |mem| && mem[root].size <= SMALL
      modifies this`mem, this`disk
      ensures ok <==> freeblock < BPB
      ensures ok ==> Consistent(sb, disk, mem, owner) && |mem| == |old(mem)|
      ensures ok ==> forall f :: 0 <= f < |mem| && f != root ==>
                mem[f] == old(mem)[f] && Dense(mem, disk, f) && Content(mem, disk, f) == Content(old(mem), old(disk), f)
      ensures ok ==> mem[root] == old(mem)[root].(size := (old(mem)[root].size / BSIZE + 1) * BSIZE)
      ensures ok ==> forall bn :: 0 <= bn < MAXFILE ==>
                (Ptr(mem, disk, Leaf(root, bn)) != 0 <==> bn * BSIZE < old(mem)[root].size)
      ensures ok ==> (Dense(mem, disk, root) <==> old(mem)[root].size % BSIZE != 0)
      ensures ok ==> forall b :: freeblock <= b < sb.size ==> b in FreeBlocks(disk, sb)
    {
      hide Owned, Fresh, ByteAt, Leaf, Ptr, GetInode, TestBit, Content, Dense, Exact, Used, FreeBlocks;
      ghost var m, d := mem, disk;
      var off := mem[root].size;
      off := (off / BSIZE + 1) * BSIZE;
      mem := mem[root := mem[root].(size := off)];
      FreshSize(sb, disk, owner, freeblock);
      MetaChange(m, d, mem, disk, sb, owner);
      FlushedOthers(sb, m, mem, d, root);
      WriteInode(root);
      if freeblock >= BPB {
        return false;
      }
      ghost var d1 := disk;
      var buf := Balloc(freeblock);
      BitmapWritten(sb, disk, owner, freeblock, buf, disk[sb.bmapstart := buf]);
      BeyondInodes();
      disk := disk[sb.bmapstart := buf];
      MetaChange(m, d, mem, disk, sb, owner);
      FlushedKept(sb, mem, d1, disk);
      OthersSame(m, d, mem, disk, root);
      RootRounded(m, d, mem, disk, root);
      ok := true;
    }
  }

  lemma SameFiles(m: seq<Inode>, d: Disk, m': seq<Inode>, d': Disk)
    requires |m'| == |m| && SizesOk(m) && forall f :: 0 <= f < |m| ==> m'[f].size == m[f].size
    requires forall f, x :: 0 <= f < |m| && 0 <= x < MAXBYTES ==> ByteAt(m', d', f, x) == ByteAt(m, d, f, x)
    requires forall r :: Shape(r, |m|) ==> Ptr(m', d', r) == Ptr(m, d, r)
    ensures forall f :: 0 <= f < |m| ==> Content(m', d', f) == Content(m, d, f)
    ensures forall f :: 0 <= f < |m| && Exact(m, d, f) ==> Exact(m', d', f)
  {
    hide ByteAt, Ptr, Leaf;
    forall f | 0 <= f < |m| && Exact(m, d, f)
      ensures Exact(m', d', f)
    {
      assert forall bn :: 0 <= bn < MAXFILE ==> Ptr(m', d', Leaf(f, bn)) == Ptr(m, d, Leaf(f, bn));
    }
  }

  // The size set, src is at the end of the file.
  lemma AppendDone(sb: Super, i: nat, src: seq<Byte>, m0: seq<Inode>, d0: Disk, m: seq<Inode>, d: Disk, m': seq<Inode>,
                   d': Disk, o: map<nat, Role>)
    requires i < |m0| == |m| && SizesOk(m0) && forall f :: 0 <= f < |m0| ==> Exact(m0, d0, f)
    requires Progress(sb, i, m0[i].size, src, |src|, m0, d0, m, d) && Reached(m0, d0, m, d, i, m0[i].size, |src|)
    requires Owned(m, d, sb, o) && m0[i].size + |src| <= SMALL
    requires m' == m[i := m[i].(size := m0[i].size + |src|)]
    requires |d'| == |d| && forall x :: sb.DataStart() <= x < |d| ==> d'[x] == d[x]
    ensures Content(m', d', i) == Content(m0, d0, i) + src
    ensures forall f :: 0 <= f < |m'| ==> Exact(m', d', f)
    ensures forall f :: 0 <= f < |m'| && f != i ==> Content(m', d', f) == Content(m0, d0, f)
  {
    hide Owned, Progress, ByteAt, Leaf, Ptr, Content, Exact, Reached;
    ProgressMem(sb, i, m0[i].size, src, |src|, m0, d0, m, d);
    MetaChange(m, d, m', d', sb, o);
    WriteSplices(sb, i, m0[i].size, src, m0, d0, m, d, m', d');
    SpliceAtEnd(Content(m0, d0, i), src);
    forall f | 0 <= f < |m'|
      ensures Exact(m', d', f)
    {
      ReachedExact(m0, d0, m, d, m', d', i, |src|, f);
    }
  }

  // The loop of iappend does not touch the dinodes on disk.
  lemma StillFlushed(sb: Super, i: nat, off: nat, src: seq<Byte>, m0: seq<Inode>, d0: Disk, m: seq<Inode>, d: Disk)
    requires Progress(sb, i, off, src, |src|, m0, d0, m, d) && sb.Ok(d0) && |m0| == sb.ninodes
    requires forall f :: 0 <= f < |m0| ==> Flushed(m0, d0, sb, f)
    ensures |m| == |m0| && sb.Ok(d) && forall f :: 0 <= f < |m| && f != i ==> Flushed(m, d, sb, f)
  {
    hide ByteAt, GetInode, Ptr, Leaf, Present, RootsPresent;
    forall f | 0 <= f < |m| && f != i
      ensures Flushed(m, d, sb, f)
    {
      assert Flushed(m0, d0, sb, f) && d[Iblock(sb, f)] == d0[Iblock(sb, f)];
    }
  }

  lemma FlushedOthers(sb: Super, m: seq<Inode>, m': seq<Inode>, d: Disk, i: nat)
    requires sb.Ok(d) && |m'| == |m| == sb.ninodes && forall f :: 0 <= f < |m| && f != i ==> m'[f] == m[f]
    requires forall f :: 0 <= f < |m| && f != i ==> Flushed(m, d, sb, f)
    ensures forall f :: 0 <= f < |m| && f != i ==> Flushed(m', d, sb, f)
  {
    hide GetInode;
    forall f | 0 <= f < |m| && f != i
      ensures Flushed(m', d, sb, f)
    {
      assert Flushed(m, d, sb, f);
    }
  }

  lemma FlushedKept(sb: Super, m: seq<Inode>, d: Disk, d': Disk)
    requires sb.Ok(d) && |d'| == |d| && |m| == sb.ninodes && forall b :: 0 <= b < sb.bmapstart ==> d'[b] == d[b]
    requires forall f :: 0 <= f < |m| ==> Flushed(m, d, sb, f)
    ensures forall f :: 0 <= f < |m| ==> Flushed(m, d', sb, f)
  {
    hide GetInode;
    forall f | 0 <= f < |m|
      ensures Flushed(m, d', sb, f)
    {
      assert Flushed(m, d, sb, f);
    }
  }

  lemma ZeroBit(k: nat)
    ensures !Bit(0, k)
  {
  }

  lemma BitmapWritten(sb: Super, disk: Disk, owner: map<nat, Role>, free: nat, buf: Block, d: Disk)
    requires Fresh(sb, disk, owner, free) && free < BPB && forall b :: 0 <= b < BPB ==> (TestBit(buf, b) <==> b < free)
    requires d == disk[sb.bmapstart := buf]
    ensures sb.Ok(d) && BitmapOk(d, sb, owner, {}) && forall b :: free <= b < sb.size ==> b in FreeBlocks(d, sb)
  {
    forall b | 0 <= b < sb.size
      ensures Used(d, sb, b) <==> b < sb.DataStart() || b in owner
    {
      if b >= BPB {
        assert d[sb.bmapstart + b / BPB] == ZeroBlock();
        ZeroBit(b % BPB % 8);
      }
    }
    hide Used;
    forall b | free <= b < sb.size
      ensures b in FreeBlocks(d, sb)
    {
      assert b !in owner && sb.DataStart() <= b;
    }
  }

  // Files other than the root are as they were, and dense.
  lemma OthersSame(m: seq<Inode>, d: Disk, m': seq<Inode>, d': Disk, root: nat)
    requires |m'| == |m| && root < |m| && SizesOk(m) && forall f :: 0 <= f < |m| && f != root ==> m'[f] == m[f]
    requires forall f, x :: 0 <= f < |m| && 0 <= x < MAXBYTES ==> ByteAt(m', d', f, x) == ByteAt(m, d, f, x)
    requires forall r :: Shape(r, |m|) ==> Ptr(m', d', r) == Ptr(m, d, r)
    requires forall f :: 0 <= f < |m| ==> Exact(m, d, f)
    ensures forall f :: 0 <= f < |m| && f != root ==> Content(m', d', f) == Content(m, d, f) && Dense(m', d', f)
  {
    hide ByteAt, Ptr, Leaf;
    forall f | 0 <= f < |m| && f != root
      ensures Dense(m', d', f)
    {
      assert Exact(m, d, f);
      forall bn | 0 <= bn < MAXFILE && bn * BSIZE < m'[f].size
        ensures Ptr(m', d', Leaf(f, bn)) != 0
      {
        assert Ptr(m', d', Leaf(f, bn)) == Ptr(m, d, Leaf(f, bn));
      }
    }
  }

  // Rounding adds the block at the old size when that was a multiple of BSIZE.
  lemma RootRounded(m: seq<Inode>, d: Disk, m': seq<Inode>, d': Disk, root: nat)
    requires |m'| == |m| && root < |m| && m[root].size <= SMALL && m'[root].size == (m[root].size / BSIZE + 1) * BSIZE
    requires forall r :: Shape(r, |m|) ==> Ptr(m', d', r) == Ptr(m, d, r)
    requires Exact(m, d, root)
    ensures forall bn :: 0 <= bn < MAXFILE ==> (Ptr(m', d', Leaf(root, bn)) != 0 <==> bn * BSIZE < m[root].size)
    ensures Dense(m', d', root) <==> m[root].size % BSIZE != 0
  {
    hide Ptr, Leaf;
    var last := m[root].size / BSIZE;
    forall bn | 0 <= bn < MAXFILE
      ensures Ptr(m', d', Leaf(root, bn)) != 0 <==> bn * BSIZE < m[root].size
    {
      assert Ptr(m', d', Leaf(root, bn)) == Ptr(m, d, Leaf(root, bn));
    }
    assert last < MAXFILE && last * BSIZE < m'[root].size;
    assert Ptr(m', d', Leaf(root, last)) != 0 <==> last * BSIZE < m[root].size;
    forall bn | 0 <= bn < MAXFILE && bn * BSIZE < m'[root].size && bn != last
      ensures bn * BSIZE < m[root].size
    {
    }
  }

  lemma OnlyIndex(mem: seq<Inode>, disk: Disk, sb: Super, owner: map<nat, Role>, q: nat, p: Role)
    requires Owned(mem, disk, sb, owner) && Shape(p, |mem|) && Height(p) > 0 && Ptr(mem, disk, p) == q && q != 0
    ensures forall x :: x in owner && Height(owner[x]) == 0 ==> x != q
  {
  }

  lemma SpliceAtEnd(c: seq<Byte>, src: seq<Byte>)
    ensures Splice(c, |c|, src) == c + src
  {
  }
}
