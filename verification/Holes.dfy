// The hole mkfs leaves in a root directory whose size is a multiple of BSIZE,
// and what readi and writei do there.
module Holes {
  import opened Common
  import opened Blocks
  import opened Bits
  import opened FileTree
  import opened FileContent
  import opened Filling
  import opened LogRoom
  import opened FileSystem
  import opened Mount
  import opened Mkfs

  const DIRENT := 16 // sizeof(struct dirent)
  const T_DIR := 1

  // mkfs with 32 entries in the root directory leaves such a directory.
  method RootOf32(entries: seq<seq<Byte>>) returns (img: Image)
    requires |entries| == 32 && forall k :: 0 <= k < 32 ==> |entries[k]| == DIRENT
    ensures fresh(img) && img.Valid() && img.sb == LAYOUT && img.freeblock < BPB
    ensures ROOTINO < |img.mem| && img.mem[ROOTINO].size == BSIZE && img.mem[ROOTINO].kind == T_DIR
  {
    hide Image.Valid, GetInode, Owned, Exact, Ptr, Content;
    img := new Image(LAYOUT);
    InodeCount(img);
    var root := img.Ialloc(T_DIR);
    for k := 0 to 32
      invariant fresh(img) && img.Valid() && img.sb == LAYOUT && img.freeinode == 2 && |img.mem| == LAYOUT.ninodes
      invariant root == ROOTINO && img.mem[root].size == k * DIRENT && img.freeblock <= 63 + 2 * k * DIRENT
      invariant img.mem[root].kind == T_DIR
    {
      var _ := img.Iappend(root, entries[k]);
    }
  }

  lemma InodeCount(img: Image)
    requires img.Valid()
    ensures |img.mem| == img.sb.ninodes
  {
  }

  // The end of mkfs and the start of the kernel on its image.
  method Boot(img: Image, root: nat) returns (fs: FileSys)
    requires img.Valid() && root < |img.mem| && img.mem[root].size <= SMALL && img.freeblock < BPB <= img.sb.size
    modifies img`mem, img`disk
    ensures fresh(fs) && fs.Valid() && fs.loose == {} && fs.outstanding == 0 && fs.sb == img.sb
    ensures root < |fs.mem| && SizesOk(fs.mem) && Flushed(fs.mem, fs.disk, fs.sb, root)
    ensures fs.mem[root].size == (old(img.mem)[root].size / BSIZE + 1) * BSIZE
    ensures forall bn :: 0 <= bn < MAXFILE ==>
              (Ptr(fs.mem, fs.disk, Leaf(root, bn)) != 0 <==> bn * BSIZE < old(img.mem)[root].size)
    ensures img.freeblock in FreeBlocks(fs.disk, fs.sb) && fs.logged == {}
  {
    hide Owned, BitmapOk, Ptr, Leaf, GetInode, Dense, FreeBlocks;
    var _ := img.Finish(root);
    fs := Start(img.disk, img.sb, img.mem, img.owner);
  }

  // Block off / BSIZE of file i is absent, and so is its slot.
  lemma AbsentAt(m: seq<Inode>, d: Disk, i: nat, off: nat, n: nat)
    requires i < |m| && off % BSIZE == 0 && off <= SMALL - BSIZE && 0 < n && off + n <= MAXBYTES
    requires forall bn :: 0 <= bn < MAXFILE ==> (Ptr(m, d, Leaf(i, bn)) != 0 <==> bn * BSIZE < off)
    ensures !Present(m, d, i, off, off + n)
    ensures off < NDIRECT * BSIZE ==> !RootsPresent(m, i, off, off + n)
  {
    hide Ptr, Leaf;
    var bn := off / BSIZE;
    assert bn * BSIZE == off && Ptr(m, d, Leaf(i, bn)) == 0;
    if bn < NDIRECT {
      DirectSlot(m, d, i, bn);
    }
  }

  lemma DirectSlot(m: seq<Inode>, d: Disk, i: nat, bn: nat)
    requires i < |m| && bn < NDIRECT
    ensures RootSlot(bn) == bn && Ptr(m, d, Leaf(i, bn)) == m[i].addrs[bn]
  {
  }

  // Reading the hole as fileread does, outside of a transaction, panics although
  // there are free blocks.
  method ReadHole(img: Image, root: nat, count: Word) returns (panic: bool, ghost free: set<nat>)
    requires img.Valid() && root < |img.mem| && img.mem[root].size <= SMALL - BSIZE &&
             img.freeblock < BPB <= img.sb.size
    requires img.mem[root].size % BSIZE == 0 && 0 < count <= BSIZE
    modifies img`mem, img`disk
    ensures panic && img.freeblock in free
  {
    hide Owned, BitmapOk, Ptr, Leaf, GetInode, Content, Filled, Covered, Empties, PathsIn, CanMap, FreeBlocks,
      Present, RootsPresent;
    var off := img.mem[root].size;
    var fs := Boot(img, root);
    free := FreeBlocks(fs.disk, fs.sb);
    AbsentAt(fs.mem, fs.disk, root, off, count);
    var r, dst;
    panic, r, dst := fs.Readi(root, off, count);
  }

  // Inside of a transaction the read fills the hole, and the inode on disk falls
  // behind.
  method ReadInTransaction(img: Image, root: nat, count: Word) returns (fs: FileSys, panic: bool)
    requires img.Valid() && root < |img.mem| && img.mem[root].size < NDIRECT * BSIZE &&
             img.freeblock < BPB <= img.sb.size
    requires img.mem[root].size % BSIZE == 0 && 0 < count <= BSIZE && img.sb.HeaderLimit() > 2
    modifies img`mem, img`disk
    ensures !panic && fs.Valid() && root < |fs.mem| && !Flushed(fs.mem, fs.disk, fs.sb, root)
  {
    hide FileSys.Valid, Image.Valid, Ptr, Leaf, GetInode, Content, Filled, Covered, FreeBlocks, Present, RootsPresent,
      CanMap, CanSplice;
    var off := img.mem[root].size;
    fs := Boot(img, root);
    var _ := fs.BeginOp();
    AbsentAt(fs.mem, fs.disk, root, off, count);
    OneToFill(fs, root, off, count);
    var r, dst;
    panic, r, dst := fs.Readi(root, off, count);
  }

  // So does a write of a directory entry into the hole.
  method WriteHole(img: Image, root: nat, src: seq<Byte>) returns (fs: FileSys, panic: bool)
    requires img.Valid() && root < |img.mem| && img.mem[root].size < NDIRECT * BSIZE &&
             img.freeblock < BPB <= img.sb.size
    requires img.mem[root].size % BSIZE == 0 && 0 < |src| <= BSIZE && img.sb.HeaderLimit() > 2
    modifies img`mem, img`disk
    ensures !panic && fs.Valid() && root < |fs.mem| && !Flushed(fs.mem, fs.disk, fs.sb, root)
  {
    hide FileSys.Valid, Image.Valid, Ptr, Leaf, GetInode, Filled, Covered, FreeBlocks, RootsPresent, CanMap, CanSplice,
      Spliced;
    var off := img.mem[root].size;
    fs := Boot(img, root);
    fs.DiskOk();
    ghost var s := fs.Now();
    var _ := fs.BeginOp();
    AbsentAt(fs.mem, fs.disk, root, off, |src|);
    OneToFill(fs, root, off, |src|);
    var r;
    panic, r := fs.Writei(root, src, off);
    SplicedStale(fs.sb, root, off, src, s, fs.Now());
  }

  lemma SplicedStale(sb: Super, i: nat, off: nat, src: seq<Byte>, s0: Snap, s: Snap)
    requires Spliced(sb, i, off, src, s0, s) && sb.Ok(s0.disk) && |s0.mem| == sb.ninodes
    requires Flushed(s0.mem, s0.disk, sb, i) && 0 < |src| && off + |src| <= s0.mem[i].size
    requires !RootsPresent(s0.mem, i, off, off + |src|)
    ensures i < |s.mem| && Iblock(sb, i) < |s.disk| && !Flushed(s.mem, s.disk, sb, i)
  {
    hide Content, Dense, Splice, GetInode, RootsPresent, DinodesKept;
  }

  // One direct block is to be filled, and there is a free one and room in the
  // log for it and its bitmap block.
  lemma OneToFill(fs: FileSys, i: nat, off: nat, n: nat)
    requires fs.Valid() && i < |fs.mem| && FreeBlocks(fs.disk, fs.sb) != {} && fs.outstanding > 0 && fs.logged == {}
    requires fs.sb.HeaderLimit() > 2 && off % BSIZE == 0 && off < NDIRECT * BSIZE && 0 < n <= BSIZE
    ensures CanMap(fs.sb, fs.outstanding, fs.Now(), i, off / BSIZE, EndBlock(off, n))
    ensures At(fs.Now(), Leaf(i, off / BSIZE)) == 0 ==>
              CanSplice(fs.sb, fs.outstanding, fs.Now(), i, off, n, false)
  {
    hide FileSys.Valid, FreeBlocks, CanLog, Wrote;
    var bn, s := off / BSIZE, fs.Now();
    fs.DiskOk();
    assert EndBlock(off, n) == bn + 1 && bn < NDIRECT;
    assert PathsIn(i, bn, bn) == {} && PathsIn(i, bn, bn + 1) == {Root(i, bn)} && LeavesIn(i, bn, bn) == {};
    if At(s, Root(i, bn)) == 0 {
      var rs := Empties(s, {Root(i, bn)});
      assert rs == {Root(i, bn)} && rs - {Root(i, bn)} == {} && Parents({}) == {} && Parents(rs) + {} == {};
      assert |FreeBlocks(s.disk, fs.sb)| > 0;
      RoomForOne(fs.sb, fs.outstanding, s);
    }
  }

  lemma RoomForOne(sb: Super, outstanding: nat, s: Snap)
    requires sb.Ok(s.disk) && |FreeBlocks(s.disk, sb)| > 0 && outstanding > 0 && s.logged == {} && sb.HeaderLimit() > 2
    ensures Fits(sb, outstanding, s, 1, 0, {}) && Fits(sb, outstanding, s, 1, 1, {})
  {
    hide FreeBlocks, Wrote;
    var free := FreeBlocks(s.disk, sb);
    assert free != {};
    var b := Least(free);
    TakeOne(sb, outstanding, s, b, sb.bmapstart + b / BPB);
    assert |s.logged + {sb.bmapstart + b / BPB}| <= 1;
    UnionCount(s.logged + {sb.bmapstart + b / BPB}, {b});
  }

  // The read and the write, on the image with 32 entries.
  method RootOf32Fails(entries: seq<seq<Byte>>, entry: seq<Byte>) returns (readPanics: bool, stale: FileSys)
    requires |entries| == 32 && (forall k :: 0 <= k < 32 ==> |entries[k]| == DIRENT) && |entry| == DIRENT
    ensures readPanics
    ensures stale.Valid() && ROOTINO < |stale.mem| && !Flushed(stale.mem, stale.disk, stale.sb, ROOTINO)
  {
    hide Image.Valid, FileSys.Valid, GetInode;
    var img := RootOf32(entries);
    ghost var free;
    readPanics, free := ReadHole(img, ROOTINO, DIRENT);
    img := RootOf32(entries);
    var panic;
    stale, panic := WriteHole(img, ROOTINO, entry);
  }
}
