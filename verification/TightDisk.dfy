// A consistent file system of mkfs's own layout in which one transaction of
// filewrite logs more than MAXOPBLOCKS blocks: one file fills the disk up to
// its fourth bitmap block, but for one block in each of the first three.
module TightDisk {
  import opened Common
  import opened Blocks
  import opened Bits
  import opened FileTree
  import opened FileContent
  import opened Filling
  import opened LogRoom
  import opened FileSystem
  import opened FileWrite
  import opened Mount
  import opened Mkfs

  // The file, and its size in blocks: all of 94 double-indirect index blocks
  // but the last word.
  const INO := 2
  const BLOCKS := 12170 // NDIRECT + NINDIRECT + 94 * NINDIRECT - 1
  const USED := 12266   // with index blocks
  const ROOTBLOCK := 63 // LAYOUT.DataStart(): the root directory
  const FIRST := 64     // the first block of the file
  const END := 12333    // FIRST + USED + 3

  predicate Hole(b: nat) { b == 4095 || b == 8191 || b == 12287 }

  // The blocks of the file in the order of its tree, and where each lies.
  function Addr(e: nat): (b: nat)
    ensures !Hole(b)
    ensures FIRST <= b <= FIRST + e + 3 && (e < USED ==> b < END)
  {
    if e < 4031 then FIRST + e
    else if e < 8126 then FIRST + e + 1
    else if e < 12221 then FIRST + e + 2
    else FIRST + e + 3
  }

  function Number(b: nat): (e: nat)
    requires FIRST <= b && !Hole(b)
    ensures Addr(e) == b && (b < END ==> e < USED)
  {
    if b < 4095 then b - FIRST
    else if b < 8191 then b - FIRST - 1
    else if b < 12287 then b - FIRST - 2
    else b - FIRST - 3
  }

  // The place of block e.
  function RoleOf(e: nat): (r: Role) {
    if e <= 11 then Root(INO, e)
    else if e < 140 then Child(Root(INO, 11), e - 12)
    else if e == 140 then Root(INO, 12)
    else if (e - 141) % 129 == 0 then Child(Root(INO, 12), (e - 141) / 129)
    else Child(Child(Root(INO, 12), (e - 141) / 129), (e - 141) % 129 - 1)
  }

  // The places of the file that are in use.
  predicate Planned(r: Role) {
    match r
    case Root(i, _) => i == INO
    case Child(Root(i, k), j) => i == INO && (k == 12 ==> j < 94)
    case Child(Child(p, k), j) => p == Root(INO, 12) && 128 * k + j < 12031
  }

  // The block in a place.
  function Place(r: Role): (e: nat) {
    match r
    case Root(_, k) => if k == 12 then 140 else k
    case Child(Root(_, k), j) => if k == 12 then 141 + 129 * j else 12 + j
    case Child(Child(_, k), j) => 142 + 129 * k + j
  }

  lemma PlaceRole(r: Role)
    requires Shape(r, LAYOUT.ninodes) && Planned(r)
    ensures Place(r) < USED && RoleOf(Place(r)) == r
  {
  }

  lemma RolePlace(e: nat)
    requires e < USED
    ensures Shape(RoleOf(e), LAYOUT.ninodes) && Planned(RoleOf(e)) && Place(RoleOf(e)) == e
  {
  }

  // Word j of index block e.
  function IndexWord(e: nat, j: nat): (w: Word)
    requires e < USED && j < NINDIRECT
  {
    var r := Child(RoleOf(e), j);
    if Height(RoleOf(e)) > 0 && Planned(r) then Addr(Place(r)) else 0
  }

  // The index block e.
  function IndexBlock(e: nat): (b: Block)
    requires e < USED
    ensures forall j :: 0 <= j < NINDIRECT ==> GetWord(b, j) == IndexWord(e, j)
  {
    PutWords(ZeroBlock(), 0, seq(NINDIRECT, j requires 0 <= j < NINDIRECT => IndexWord(e, j)))
  }

  predicate InUse(b: nat) { b < END && !Hole(b) }

  // A bitmap block for the blocks from base on, as far as its first n bits.
  function Bitmap(base: nat, n: nat): (r: Block)
    requires n <= BPB
    ensures forall j :: 0 <= j < BPB ==> TestBit(r, j) == (j < n && InUse(base + j))
  {
    if n == 0 then
      assert forall j :: 0 <= j < BPB ==> !TestBit(ZeroBlock(), j) by { NoBits(); }
      ZeroBlock()
    else PutBit(Bitmap(base, n - 1), n - 1, InUse(base + n - 1))
  }

  lemma NoBits()
    ensures forall j :: 0 <= j < BPB ==> !TestBit(ZeroBlock(), j)
  {
    forall j | 0 <= j < BPB
      ensures !TestBit(ZeroBlock(), j)
    {
      ZeroBit(j % 8);
    }
  }

  function Slot(k: nat): Word
    requires k < NDIRECT + 2
  {
    Addr(if k == 12 then 140 else k)
  }

  function File(): (f: Inode)
    ensures f.size == 6231040 // BLOCKS * BSIZE
  {
    var addrs: seq<Word> := seq(NDIRECT + 2, k requires 0 <= k < NDIRECT + 2 => Slot(k));
    Inode(2, 0x1_0000, BLOCKS * BSIZE, addrs)
  }

  // The root directory, of one block.
  function Directory(): Inode {
    Inode(1, 0x1_0000, BSIZE, NoInode().addrs[0 := ROOTBLOCK])
  }

  // Its entries: ".", ".." and "f".
  function Entries(): Block {
    ZeroBlock()[0 := 1][2 := 46][16 := 1][18 := 46][19 := 46][32 := 2][34 := 102]
  }

  function Inodes(): (m: seq<Inode>)
    ensures |m| == LAYOUT.ninodes && m[INO] == File() && m[ROOTINO] == Directory() && SizesOk(m)
    ensures forall i :: 0 <= i < |m| && i != INO && i != ROOTINO ==> m[i] == NoInode()
  {
    seq(LAYOUT.ninodes, i => if i == INO then File() else if i == ROOTINO then Directory() else NoInode())
  }

  function BlockAt(b: nat): Block {
    if b == 1 then SuperBlock(LAYOUT)
    else if b == LAYOUT.inodestart then PutInode(PutInode(ZeroBlock(), ROOTINO, Directory()), INO, File())
    else if b < LAYOUT.bmapstart || b >= END || Hole(b) then ZeroBlock()
    else if b < ROOTBLOCK then Bitmap((b - LAYOUT.bmapstart) * BPB, BPB)
    else if b == ROOTBLOCK then Entries()
    else if Height(RoleOf(Number(b))) > 0 then IndexBlock(Number(b)) else ZeroBlock()
  }

  function Tight(): (d: Disk)
    ensures LAYOUT.Ok(d)
  {
    seq(LAYOUT.size, b requires 0 <= b < LAYOUT.size => BlockAt(b))
  }

  ghost function Owners(): map<nat, Role> {
    map b | ROOTBLOCK <= b < END && !Hole(b) :: if b == ROOTBLOCK then Root(ROOTINO, 0) else RoleOf(Number(b))
  }

  // The pointers of the trees are the addresses of their blocks.
  lemma {:induction false} TightPtr(r: Role)
    requires Shape(r, |Inodes()|)
    ensures Ptr(Inodes(), Tight(), r) ==
              if Planned(r) then Addr(Place(r)) else if r == Root(ROOTINO, 0) then ROOTBLOCK else 0
  {
    if r.Child? {
      hide Number, Addr, BlockAt, IndexBlock, Inodes;
      var p := r.parent;
      TightPtr(p);
      if Planned(p) {
        PlaceRole(p);
        AtAddr(Place(p));
        assert Tight()[Addr(Place(p))] == IndexBlock(Place(p));
      }
    }
  }

  lemma AtAddr(e: nat)
    requires e < USED
    ensures Addr(e) < END && Number(Addr(e)) == e
    ensures BlockAt(Addr(e)) == if Height(RoleOf(e)) > 0 then IndexBlock(e) else ZeroBlock()
  {
  }

  lemma TightOwned()
    ensures Owned(Inodes(), Tight(), LAYOUT, Owners())
  {
    hide Addr, Number, RoleOf, Place, Planned, Inodes, Tight, Ptr;
    var m, d, o := Inodes(), Tight(), Owners();
    forall r | Shape(r, |m|) && Ptr(m, d, r) != 0
      ensures Ptr(m, d, r) in o && o[Ptr(m, d, r)] == r
    {
      TightPtr(r);
      if Planned(r) {
        PlaceRole(r);
        AtAddr(Place(r));
      }
    }
    forall b | b in o
      ensures ROOTBLOCK <= b < |d| && Shape(o[b], |m|) && Ptr(m, d, o[b]) == b
    {
      TightPtr(Root(ROOTINO, 0));
      NotPlanned();
      if b != ROOTBLOCK {
        RolePlace(Number(b));
        TightPtr(o[b]);
      }
    }
  }

  lemma NotPlanned()
    ensures !Planned(Root(ROOTINO, 0))
  {
  }

  lemma TightBitmap()
    ensures BitmapOk(Tight(), LAYOUT, Owners(), {})
  {
    hide Used, Tight, Number, RoleOf;
    forall b | 0 <= b < LAYOUT.size
      ensures Used(Tight(), LAYOUT, b) <==> InUse(b)
    {
      TightUsed(b);
    }
  }

  lemma TightUsed(b: nat)
    requires b < LAYOUT.size
    ensures Used(Tight(), LAYOUT, b) <==> InUse(b)
  {
    hide TestBit;
    var x := LAYOUT.bmapstart + b / BPB;
    assert Tight()[x] == BlockAt(x) == Bitmap(b / BPB * BPB, BPB);
    assert b / BPB * BPB + b % BPB == b;
  }

  // Every inode of the disk is as stated.
  lemma TightInodes()
    ensures forall i :: 0 <= i < |Inodes()| ==> Flushed(Inodes(), Tight(), LAYOUT, i)
  {
    forall i | 0 <= i < |Inodes()|
      ensures Flushed(Inodes(), Tight(), LAYOUT, i)
    {
      hide PutInode, GetInode, Bitmap, IndexBlock, File, Directory, NoInode;
      assert Tight()[Iblock(LAYOUT, i)] == BlockAt(Iblock(LAYOUT, i));
      NoInodeRead(i % IPB);
    }
  }

  // The disk is one a kernel can be started on.
  lemma TightConsistent()
    ensures Consistent(LAYOUT, Tight(), Inodes(), Owners())
  {
    hide Owned, BitmapOk, Flushed, Inodes, Owners, Bitmap, IndexBlock;
    TightOwned();
    TightBitmap();
    TightInodes();
    assert Tight()[1] == BlockAt(1);
  }

  // No file has a hole below its size.
  lemma TightDense(i: nat)
    requires i < |Inodes()|
    ensures Dense(Inodes(), Tight(), i)
  {
    hide Addr, Place, Ptr, Tight;
    forall bn | 0 <= bn < MAXFILE && bn * BSIZE < Inodes()[i].size
      ensures Ptr(Inodes(), Tight(), Leaf(i, bn)) != 0
    {
      TightPtr(Leaf(i, bn));
    }
  }

  lemma TightSound()
    ensures Sound(LAYOUT, Start0())
  {
    hide Consistent, Dense, Inodes, Tight, Owners;
    TightConsistent();
    forall i | 0 <= i < |Inodes()|
      ensures Dense(Inodes(), Tight(), i)
    {
      TightDense(i);
    }
  }

  // The three blocks that a chunk at the end of the file visits, and the new
  // index block of the last two.
  function Place0(): Role { Child(Child(Root(INO, 12), 93), 127) }
  function Index(): Role { Child(Root(INO, 12), 94) }
  function Place1(): Role { Child(Index(), 0) }
  function Place2(): Role { Child(Index(), 1) }

  ghost function Start0(): Snap { Snap(Inodes(), Tight(), Owners(), {}) }

  lemma PathsAre()
    ensures PathsIn(INO, BLOCKS, BLOCKS + 3) ==
              {Root(INO, 12), Child(Root(INO, 12), 93), Place0(), Index(), Place1(), Place2()}
  {
    assert PathsIn(INO, BLOCKS, BLOCKS) == {};
    assert PathRoles(INO, BLOCKS) == {Root(INO, 12), Child(Root(INO, 12), 93), Place0()};
    assert PathRoles(INO, BLOCKS + 1) == {Root(INO, 12), Index(), Place1()};
    assert PathRoles(INO, BLOCKS + 2) == {Root(INO, 12), Index(), Place2()};
    assert PathsIn(INO, BLOCKS, BLOCKS + 1) == PathsIn(INO, BLOCKS, BLOCKS) + PathRoles(INO, BLOCKS);
    assert PathsIn(INO, BLOCKS, BLOCKS + 2) == PathsIn(INO, BLOCKS, BLOCKS + 1) + PathRoles(INO, BLOCKS + 1);
    assert PathsIn(INO, BLOCKS, BLOCKS + 3) == PathsIn(INO, BLOCKS, BLOCKS + 2) + PathRoles(INO, BLOCKS + 2);
  }

  // Four places are empty, and three index blocks are new or gain a word.
  lemma FourToFill()
    ensures ToFill(Start0(), INO, BLOCKS * BSIZE, CHUNK) == {Place0(), Index(), Place1(), Place2()}
    ensures |ToFill(Start0(), INO, BLOCKS * BSIZE, CHUNK)| == 4
    ensures |IndexTouched(Start0(), INO, BLOCKS * BSIZE, CHUNK)| == 3
  {
    hide Inodes, Tight, Owners, Addr, PathsIn, Ptr;
    var rs := ToFill(Start0(), INO, BLOCKS * BSIZE, CHUNK);
    assert EndBlock(BLOCKS * BSIZE, CHUNK) == BLOCKS + 3;
    PathsAre();
    forall r | r in PathsIn(INO, BLOCKS, BLOCKS + 3)
      ensures Shape(r, LAYOUT.ninodes) && (At(Start0(), r) == 0 <==> !Planned(r))
    {
      TightPtr(r);
    }
    assert rs == {Place0(), Index(), Place1(), Place2()};
    assert Parents(rs) == {Child(Root(INO, 12), 93), Root(INO, 12), Index()} by { ParentsAre(rs); }
    assert IndexTouched(Start0(), INO, BLOCKS * BSIZE, CHUNK) == {Child(Root(INO, 12), 93), Root(INO, 12), Index()};
  }

  lemma ParentsAre(rs: set<Role>)
    requires rs == {Place0(), Index(), Place1(), Place2()}
    ensures Parents(rs) == {Child(Root(INO, 12), 93), Root(INO, 12), Index()}
  {
    assert Place0().parent in Parents(rs) && Index().parent in Parents(rs) && Place1().parent in Parents(rs);
  }

  // The four lowest free blocks are in four bitmap blocks.
  lemma FourMaps()
    ensures 4 <= |FreeBlocks(Tight(), LAYOUT)|
    ensures |MapBlocks(LAYOUT, FirstOf(FreeBlocks(Tight(), LAYOUT), 4))| == 4
  {
    hide Tight, Used, FirstOf;
    var free, t := FreeBlocks(Tight(), LAYOUT), {4095, 8191, 12287, END};
    forall b | 0 <= b < LAYOUT.size
      ensures b in free <==> !InUse(b)
    {
      TightUsed(b);
    }
    assert Below(free, t);
    FirstOfIs(free, t);
    assert |t| == 4;
    assert LAYOUT.bmapstart + 4095 / BPB == 58 && LAYOUT.bmapstart + 8191 / BPB == 59;
    assert LAYOUT.bmapstart + 12287 / BPB == 60 && LAYOUT.bmapstart + END / BPB == 61;
    FourMapsAre(t);
  }

  lemma FourMapsAre(t: set<nat>)
    requires t == {4095, 8191, 12287, END}
    ensures MapBlocks(LAYOUT, t) == {58, 59, 60, 61}
  {
    assert 4095 in t && 8191 in t && 12287 in t && END in t;
    assert 58 == LAYOUT.bmapstart + 4095 / BPB;
    assert 59 == LAYOUT.bmapstart + 8191 / BPB;
    assert 60 == LAYOUT.bmapstart + 12287 / BPB;
    assert 61 == LAYOUT.bmapstart + END / BPB;
  }

  // Three data blocks, three index blocks, four bitmap blocks and the inode.
  lemma Eleven()
    ensures |ToFill(Start0(), INO, BLOCKS * BSIZE, CHUNK)| <= |FreeBlocks(Tight(), LAYOUT)|
    ensures LogSize(LAYOUT, Start0(), INO, BLOCKS * BSIZE, CHUNK) == 11
  {
    hide Tight, Inodes, ToFill, IndexTouched, FreeBlocks, FirstOf, MapBlocks, LogSize;
    FourToFill();
    FourMaps();
    LogSizeParts(LAYOUT, Start0(), INO, BLOCKS * BSIZE, CHUNK);
  }

  lemma StepStarts(src: seq<Byte>, ss: seq<Snap>, gaves: seq<set<nat>>, k: nat)
    requires Steps(LAYOUT, INO, BLOCKS * BSIZE, src, ss, gaves) && k < |gaves|
    ensures k * CHUNK < |src|
  {
    hide Transaction, LogsExactly, Writing;
  }

  lemma OneStep(src: seq<Byte>, ss: seq<Snap>, gaves: seq<set<nat>>)
    requires Steps(LAYOUT, INO, BLOCKS * BSIZE, src, ss, gaves) && |src| == CHUNK == Upto(CHUNK, |gaves|)
    ensures |gaves| == 1 && |ss| == 2
  {
    hide Transaction, LogsExactly, Writing;
    if |gaves| > 1 {
      StepStarts(src, ss, gaves, 1);
    }
  }

  lemma OneChunk(src: seq<Byte>, ss: seq<Snap>, gaves: seq<set<nat>>)
    requires Steps(LAYOUT, INO, BLOCKS * BSIZE, src, ss, gaves) && |gaves| == 1 && ss[0] == Start0() && |src| == CHUNK
    ensures |gaves[0]| == 11 && Sound(LAYOUT, ss[1])
  {
    hide Tight, Inodes, Owners, ToFill, FreeBlocks, LogSize, MapsTouched, Writing, Sound, Covered;
    Eleven();
    TightSound();
    assert LogsExactly(LAYOUT, INO, BLOCKS * BSIZE + 0 * CHUNK, ChunkSize(CHUNK, 0 * CHUNK), ss[0], |gaves[0]|);
    assert Transaction(LAYOUT, ss[0], ss[1], gaves[0]);
  }

  lemma FileSize()
    ensures Inodes()[INO].size == BLOCKS * BSIZE && Accepted(BLOCKS * BSIZE, CHUNK) == CHUNK
  {
  }

  // The kernel started on this disk, and the largest chunk of filewrite at the
  // end of the file: it succeeds and leaves a sound file system, but logs more
  // than begin_op reserved for it.
  method Overrun(src: seq<Byte>) returns (e: Ended, ghost gaves: seq<set<nat>>, ghost s: Snap)
    requires |src| == CHUNK
    ensures e == Returns(CHUNK) && |gaves| == 1 && |gaves[0]| == 11 > MAXOPBLOCKS && Sound(LAYOUT, s)
  {
    hide Tight, Inodes, Owners, ToFill, FreeBlocks, LogSize, Content, Splice, FileSys.Valid, Flushed, Steps, Sound;
    TightConsistent();
    FileSize();
    var fs := Start(Tight(), LAYOUT, Inodes(), Owners());
    Eleven();
    var done;
    ghost var ss;
    e, done, ss, gaves := Filewrite(fs, INO, src, BLOCKS * BSIZE);
    OneStep(src, ss, gaves);
    OneChunk(src, ss, gaves);
    s := ss[1];
  }
}
