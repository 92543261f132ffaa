// From the blocks of a disk to a running file system: readsb and ilock.
module Mount {
  import opened Common
  import opened Blocks
  import opened FileTree
  import opened FileContent
  import opened Filling
  import opened FileSystem

  const ROOTINO := 1
  const LOGSTART := 2

  // struct superblock as mkfs stores it.
  function SuperBlock(sb: Super): (b: Block)
    requires sb.inodestart <= sb.bmapstart <= sb.DataStart() <= sb.size < WORD && sb.ninodes < WORD && sb.nlog < WORD
    ensures ReadSuper(b) == sb
  {
    PutWords(ZeroBlock(), 0, [sb.size, sb.size - sb.DataStart(), sb.ninodes, sb.nlog, LOGSTART, sb.inodestart,
                              sb.bmapstart])
  }

  // readsb
  function ReadSuper(b: Block): Super {
    Super(GetWord(b, 0), GetWord(b, 2), GetWord(b, 3), GetWord(b, 5), GetWord(b, 6))
  }

  // The inodes and the blocks in use are as the disk says, and consistent. The
  // log is between the superblock and the inode blocks.
  ghost predicate Consistent(sb: Super, disk: Disk, mem: seq<Inode>, owner: map<nat, Role>) {
    && sb.Ok(disk) && LOGSTART + sb.nlog <= sb.inodestart && ReadSuper(disk[1]) == sb
    && |mem| == sb.ninodes && SizesOk(mem)
    && Owned(mem, disk, sb, owner) && BitmapOk(disk, sb, owner, {})
    && forall i :: 0 <= i < |mem| ==> Flushed(mem, disk, sb, i)
  }

  // ... and no file has a hole below its size.
  ghost predicate Sound(sb: Super, s: Snap) {
    Consistent(sb, s.disk, s.mem, s.owner) && forall f :: 0 <= f < |s.mem| ==> Dense(s.mem, s.disk, f)
  }

  lemma SoundIs(sb: Super, s: Snap)
    requires Sound(sb, s)
    ensures Consistent(sb, s.disk, s.mem, s.owner)
  {
  }

  // writei keeps it so: the inode that it does not write back has no slot to
  // lose.
  lemma SplicedSound(sb: Super, i: nat, off: nat, src: seq<Byte>, s0: Snap, s: Snap)
    requires Sound(sb, s0) && Good(sb, s) && Spliced(sb, i, off, src, s0, s)
    ensures Sound(sb, s)
  {
    hide Owned, BitmapOk, Content, Splice, Dense, GetInode, RootsPresent, ReadSuper;
    if off + |src| <= s0.mem[i].size {
      DenseRoots(s0.mem, s0.disk, sb, s0.owner, i, off, off + |src|);
    }
    forall f | 0 <= f < |s.mem|
      ensures Flushed(s.mem, s.disk, sb, f)
    {
      assert Flushed(s0.mem, s0.disk, sb, f);
    }
  }

  // A file system started from a consistent disk has the inodes of the disk.
  method Start(disk: Disk, ghost sb: Super, ghost mem: seq<Inode>, ghost owner: map<nat, Role>) returns (fs: FileSys)
    requires Consistent(sb, disk, mem, owner)
    ensures fresh(fs) && fs.Valid() && fs.loose == {} && fs.outstanding == 0 && fs.logged == {}
    ensures fs.sb == sb && fs.disk == disk && fs.mem == mem && fs.owner == owner
  {
    hide Owned, BitmapOk, GetInode;
    var super := ReadSuper(disk[1]);
    var inodes := [];
    while |inodes| < super.ninodes
      invariant |inodes| <= |mem| && inodes == mem[..|inodes|]
    {
      var i := |inodes|;
      assert Flushed(mem, disk, sb, i);
      inodes := inodes + [GetInode(disk[Iblock(super, i)], i % IPB)]; // ilock
    }
    assert inodes == mem;
    fs := new FileSys(super, disk, inodes, owner);
  }
}
