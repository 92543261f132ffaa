// filewrite (file.c): a write cut into transactions, and how many blocks each
// of them logs.
module FileWrite {
  import opened Common
  import opened Blocks
  import opened Bits
  import opened FileTree
  import opened FileContent
  import opened Filling
  import opened LogRoom
  import opened FileSystem
  import opened Mount

  const CHUNK := 1536 // ((MAXOPBLOCKS-1-1-2) / 2) * 512

  // With this many entries in the log header a chunk always has room. mkfs makes
  // a log of LOGSIZE blocks, which is LOGSIZE - 1 entries.
  const ROOMY := 25

  // How a system call ends: asleep in begin_op, in a panic, or with a result.
  datatype Ended = Waits | Panics | Returns(r: int)

  // The empty places on the paths to bytes off..off+n of file i: what the write
  // has to allocate.
  ghost function ToFill(s: Snap, i: nat, off: nat, n: nat): set<Role>
    requires off + n <= MAXBYTES
  {
    Empties(s, PathsIn(i, off / BSIZE, EndBlock(off, n)))
  }

  // The places of the tree blocks it logs: those, the index blocks that gain a
  // word, and the data blocks.
  ghost function Touched(s: Snap, i: nat, off: nat, n: nat): set<Role>
    requires off + n <= MAXBYTES
  {
    var rs := ToFill(s, i, off, n);
    rs + Parents(rs) + LeavesIn(i, off / BSIZE, EndBlock(off, n))
  }

  // The bitmap blocks it logs: those with the bits of the lowest free blocks.
  ghost function MapsTouched(sb: Super, s: Snap, i: nat, off: nat, n: nat): set<nat>
    requires off + n <= MAXBYTES && sb.Ok(s.disk) && |ToFill(s, i, off, n)| <= |FreeBlocks(s.disk, sb)|
  {
    MapBlocks(sb, FirstOf(FreeBlocks(s.disk, sb), |ToFill(s, i, off, n)|))
  }

  // How many blocks writei of n bytes at off logs, from the state before it.
  ghost function LogSize(sb: Super, s: Snap, i: nat, off: nat, n: nat): nat
    requires i < |s.mem| && off + n <= MAXBYTES && sb.Ok(s.disk)
    requires |ToFill(s, i, off, n)| <= |FreeBlocks(s.disk, sb)|
  {
    |Touched(s, i, off, n)| + |MapsTouched(sb, s, i, off, n)| + |InodeLogged(sb, i, s.mem[i].size, off, n)|
  }

  // The blocks it gives to log_write, s being the state after it.
  ghost function Given(sb: Super, s0: Snap, s: Snap, i: nat, off: nat, n: nat): set<nat>
    requires i < |s0.mem| && off + n <= MAXBYTES
  {
    MapBlocks(sb, BlocksIn(s.owner, ToFill(s0, i, off, n))) + BlocksIn(s.owner, Touched(s0, i, off, n)) +
      InodeLogged(sb, i, s0.mem[i].size, off, n)
  }

  // writei gives exactly that many blocks to log_write.
  lemma LogSizeExact(sb: Super, s0: Snap, s: Snap, i: nat, off: nat, n: nat)
    requires Good(sb, s0) && Good(sb, s) && i < |s0.mem| == sb.ninodes && off + n <= MAXBYTES
    requires Filled(sb, s0, s, ToFill(s0, i, off, n), LeavesIn(i, off / BSIZE, EndBlock(off, n)),
                    InodeLogged(sb, i, s0.mem[i].size, off, n))
    ensures |ToFill(s0, i, off, n)| <= |FreeBlocks(s0.disk, sb)| && s.logged == s0.logged + Given(sb, s0, s, i, off, n)
    ensures |Given(sb, s0, s, i, off, n)| == LogSize(sb, s0, i, off, n)
  {
    hide Good, Filled, ToFill, Parents, LeavesIn, EndBlock, BlocksIn, MapBlocks, FreeBlocks, FirstOf;
    var rs, leaves := ToFill(s0, i, off, n), LeavesIn(i, off / BSIZE, EndBlock(off, n));
    var meta := InodeLogged(sb, i, s0.mem[i].size, off, n);
    GoodOwned(sb, s0);
    GoodOwned(sb, s);
    FilledGrown(sb, s0, s, rs, leaves, meta);
    TakenAre(sb, s0, s, rs);
    TouchedFilled(sb, s0, s, rs, leaves, meta);
    CountBlocks(sb, s, rs + Parents(rs) + leaves);
    PartsApart(sb, s, i, rs, rs + Parents(rs) + leaves, meta);
    LogsApart(sb, s0, s, rs, leaves, meta);
  }

  lemma LogsApart(sb: Super, s0: Snap, s: Snap, rs: set<Role>, data: set<Role>, meta: set<nat>)
    requires Filled(sb, s0, s, rs, data, meta)
    ensures s.logged ==
              s0.logged + (MapBlocks(sb, BlocksIn(s.owner, rs)) + BlocksIn(s.owner, rs + Parents(rs) + data) + meta)
  {
    hide Grown, BlocksIn, MapBlocks, Parents;
  }

  // All of them are inode, bitmap and data blocks.
  lemma GivenHome(sb: Super, s0: Snap, s: Snap, i: nat, off: nat, n: nat)
    requires Good(sb, s) && i < |s0.mem| == sb.ninodes && off + n <= MAXBYTES
    ensures forall b :: b in Given(sb, s0, s, i, off, n) ==> sb.inodestart <= b < sb.size
  {
    hide BitmapOk, Ptr, ToFill, Touched;
    forall b | b in MapBlocks(sb, BlocksIn(s.owner, ToFill(s0, i, off, n)))
      ensures sb.bmapstart <= b < sb.DataStart()
    {
      var x :| x in s.owner && b == sb.bmapstart + x / BPB;
      assert x < sb.size;
    }
  }

  lemma TouchedFilled(sb: Super, s0: Snap, s: Snap, rs: set<Role>, data: set<Role>, meta: set<nat>)
    requires Filled(sb, s0, s, rs, data, meta)
    ensures forall r :: r in rs + Parents(rs) + data ==> Shape(r, |s.mem|) && At(s, r) != 0
  {
    hide BlocksIn, FreeBlocks, Super.Ok;
    ParentsFilled(s, rs);
  }

  // Bitmap, tree and inode blocks are different blocks.
  lemma PartsApart(sb: Super, s: Snap, i: nat, rs: set<Role>, touched: set<Role>, meta: set<nat>)
    requires Good(sb, s) && i < sb.ninodes && meta <= {Iblock(sb, i)}
    ensures var maps, tree := MapBlocks(sb, BlocksIn(s.owner, rs)), BlocksIn(s.owner, touched);
            |maps + tree + meta| == |maps| + |tree| + |meta|
  {
    hide BitmapOk, Ptr;
    var maps, tree := MapBlocks(sb, BlocksIn(s.owner, rs)), BlocksIn(s.owner, touched);
    assert forall b :: b in maps ==> sb.bmapstart <= b < sb.DataStart();
    assert forall b :: b in tree ==> sb.DataStart() <= b;
    assert forall b :: b in meta ==> b < sb.bmapstart;
    assert maps !! tree && (maps + tree) !! meta;
  }

  // The index blocks on the path to block bn.
  ghost function IndexRoles(i: nat, bn: nat): (rs: set<Role>)
    requires bn < MAXFILE
    ensures rs + {Leaf(i, bn)} == PathRoles(i, bn)
    ensures forall r :: r in rs ==> Height(r) > 0
  {
    if bn < NDIRECT then {}
    else if bn < NDIRECT + NINDIRECT then {Root(i, NDIRECT)}
    else {Root(i, NDIRECT + 1), Child(Root(i, NDIRECT + 1), (bn - NDIRECT - NINDIRECT) / NINDIRECT)}
  }

  // Between two blocks less than NINDIRECT apart there is at most one boundary
  // between index blocks.
  lemma IndexBetween(i: nat, lo: nat, bn: nat, hi: nat)
    requires lo <= bn <= hi < MAXFILE && hi - lo <= 3
    ensures IndexRoles(i, bn) <= IndexRoles(i, lo) + IndexRoles(i, hi)
  {
    if lo >= NDIRECT + NINDIRECT {
      var m := lo - NDIRECT - NINDIRECT;
      assert (bn - NDIRECT - NINDIRECT) / NINDIRECT in {m / NINDIRECT, (hi - NDIRECT - NINDIRECT) / NINDIRECT};
    } else if bn >= NDIRECT + NINDIRECT {
      assert (bn - NDIRECT - NINDIRECT) / NINDIRECT == 0 == (hi - NDIRECT - NINDIRECT) / NINDIRECT;
    }
  }

  lemma IndexCount(i: nat, lo: nat, hi: nat)
    requires lo <= hi < MAXFILE && hi - lo <= 3
    ensures |IndexRoles(i, lo) + IndexRoles(i, hi)| <= 3
  {
    var rs := IndexRoles(i, lo) + IndexRoles(i, hi);
    if lo >= NDIRECT + NINDIRECT {
      var root := Root(i, NDIRECT + 1);
      assert rs == {root} + {Child(root, (lo - NDIRECT - NINDIRECT) / NINDIRECT)}
                          + {Child(root, (hi - NDIRECT - NINDIRECT) / NINDIRECT)};
    } else if lo >= NDIRECT {
      assert rs == {Root(i, NDIRECT)} + IndexRoles(i, hi);
    } else {
      assert rs == IndexRoles(i, hi);
    }
  }

  // The places on the paths to blocks lo..hi are the blocks and their index
  // blocks.
  lemma {:induction false} PathsCover(i: nat, lo: nat, mid: nat, hi: nat)
    requires lo < mid <= hi <= MAXFILE && hi - lo <= 4
    ensures PathsIn(i, lo, mid) <= LeavesIn(i, lo, mid) + (IndexRoles(i, lo) + IndexRoles(i, hi - 1))
    decreases mid
  {
    hide Leaf, PathRoles, IndexRoles;
    IndexBetween(i, lo, mid - 1, hi - 1);
    if mid > lo + 1 {
      PathsCover(i, lo, mid - 1, hi);
    } else {
      assert PathsIn(i, lo, lo) == {};
    }
  }

  lemma {:induction false} LeafCount(i: nat, lo: nat, hi: nat)
    requires lo <= hi <= MAXFILE
    ensures |LeavesIn(i, lo, hi)| <= hi - lo
    decreases hi
  {
    hide Leaf;
    if lo < hi {
      LeafCount(i, lo, hi - 1);
    }
  }

  // A parent of a place on a path is on the path.
  lemma {:induction false} ParentsOnPaths(i: nat, lo: nat, hi: nat, rs: set<Role>)
    requires hi <= MAXFILE && rs <= PathsIn(i, lo, hi)
    ensures Parents(rs) <= PathsIn(i, lo, hi)
    decreases hi
  {
    if lo < hi {
      hide Leaf, PathRoles;
      ParentsOnPaths(i, lo, hi - 1, rs * PathsIn(i, lo, hi - 1));
      forall p | p in Parents(rs)
        ensures p in PathsIn(i, lo, hi)
      {
        var r :| r in rs && r.Child? && r.parent == p;
        if r in PathsIn(i, lo, hi - 1) {
          assert p in Parents(rs * PathsIn(i, lo, hi - 1));
        } else {
          ParentOnPath(i, hi - 1, r);
        }
      }
    }
  }

  lemma ParentOnPath(i: nat, bn: nat, r: Role)
    requires bn < MAXFILE && r in PathRoles(i, bn) && r.Child?
    ensures r.parent in PathRoles(i, bn)
  {
  }

  lemma {:induction false} LeavesOnPaths(i: nat, lo: nat, hi: nat)
    requires hi <= MAXFILE
    ensures LeavesIn(i, lo, hi) <= PathsIn(i, lo, hi)
    decreases hi
  {
    if lo < hi {
      LeavesOnPaths(i, lo, hi - 1);
    }
  }

  lemma TouchedCount(s: Snap, i: nat, off: nat, n: nat)
    requires 0 < n <= CHUNK && off + n <= MAXBYTES
    ensures |Touched(s, i, off, n)| <= 7
  {
    hide PathsIn, LeavesIn, Parents, ToFill;
    var lo, hi := off / BSIZE, EndBlock(off, n);
    ToFillOnPaths(s, i, off, n);
    ParentsOnPaths(i, lo, hi, ToFill(s, i, off, n));
    LeavesOnPaths(i, lo, hi);
    SubsetCount(Touched(s, i, off, n), PathsIn(i, lo, hi));
    PathsCount(i, lo, hi);
  }

  lemma PathsCount(i: nat, lo: nat, hi: nat)
    requires lo < hi <= MAXFILE && hi - lo <= 4
    ensures |PathsIn(i, lo, hi)| <= hi - lo + 3
  {
    hide PathsIn, LeavesIn, IndexRoles;
    var leaves, index := LeavesIn(i, lo, hi), IndexRoles(i, lo) + IndexRoles(i, hi - 1);
    PathsCover(i, lo, hi, hi);
    LeafCount(i, lo, hi);
    IndexCount(i, lo, hi - 1);
    CoverCount(PathsIn(i, lo, hi), leaves, index);
  }

  lemma CoverCount<T>(s: set<T>, a: set<T>, b: set<T>)
    requires s <= a + b
    ensures |s| <= |a| + |b|
  {
    SubsetCount(s, a + b);
    UnionCount(a, b);
  }

  lemma ToFillOnPaths(s: Snap, i: nat, off: nat, n: nat)
    requires off + n <= MAXBYTES
    ensures ToFill(s, i, off, n) <= PathsIn(i, off / BSIZE, EndBlock(off, n))
  {
  }

  // One transaction of filewrite logs at most four data blocks, three index
  // blocks, the inode block, and the bitmap blocks of the lowest free blocks,
  // of which it takes at most seven.
  lemma TransactionSize(sb: Super, s: Snap, i: nat, off: nat, n: nat)
    requires sb.Ok(s.disk) && i < |s.mem| && 0 < n <= CHUNK && off + n <= MAXBYTES
    requires |ToFill(s, i, off, n)| <= |FreeBlocks(s.disk, sb)|
    ensures LogSize(sb, s, i, off, n) <= 8 + |MapsTouched(sb, s, i, off, n)|
    ensures |MapsTouched(sb, s, i, off, n)| <= sb.size / BPB + 1
    ensures |MapsTouched(sb, s, i, off, n)| <= |ToFill(s, i, off, n)| <= 7
  {
    hide Touched, ToFill, FreeBlocks, MapBlocks, FirstOf;
    TouchedCount(s, i, off, n);
    ToFillCount(s, i, off, n);
    FreeBelow(sb, s);
    MapCount(sb, FirstOf(FreeBlocks(s.disk, sb), |ToFill(s, i, off, n)|));
    MapsAtMost(sb, FirstOf(FreeBlocks(s.disk, sb), |ToFill(s, i, off, n)|));
  }

  lemma ToFillCount(s: Snap, i: nat, off: nat, n: nat)
    requires 0 < n <= CHUNK && off + n <= MAXBYTES
    ensures |ToFill(s, i, off, n)| <= |Touched(s, i, off, n)| <= 7
  {
    hide ToFill, Parents, LeavesIn;
    TouchedCount(s, i, off, n);
    SubsetCount(ToFill(s, i, off, n), Touched(s, i, off, n));
  }

  lemma NoMaps(sb: Super)
    ensures MapBlocks(sb, {}) == {}
  {
  }

  lemma {:induction false} MapsAtMost(sb: Super, bs: set<nat>)
    ensures |MapBlocks(sb, bs)| <= |bs|
  {
    hide MapBlocks;
    if bs == {} {
      NoMaps(sb);
    } else {
      var b :| b in bs;
      var rest := bs - {b};
      MapsAtMost(sb, rest);
      assert bs == rest + {b};
      MapsUnion(sb, rest, {b});
      MapOne(sb, b);
      UnionCount(MapBlocks(sb, rest), {sb.bmapstart + b / BPB});
    }
  }

  // Places hold at most one block each.
  lemma {:induction false} BlocksAtMost(sb: Super, s: Snap, rs: set<Role>)
    requires Owned(s.mem, s.disk, sb, s.owner)
    ensures |BlocksIn(s.owner, rs)| <= |rs|
  {
    hide Ptr;
    if rs == {} {
      assert BlocksIn(s.owner, rs) == {};
    } else {
      var r :| r in rs;
      BlocksAtMost(sb, s, rs - {r});
      var bs, one := BlocksIn(s.owner, rs - {r}), BlocksIn(s.owner, {r});
      assert rs == rs - {r} + {r} && BlocksIn(s.owner, rs) == bs + one;
      if b :| b in one {
        assert Ptr(s.mem, s.disk, r) == b;
        assert forall x :: x in one ==> Ptr(s.mem, s.disk, r) == x;
        assert one == {b};
      } else {
        assert one == {};
      }
    }
  }

  // How many blocks are in the log before the last log_write of a chunk.
  lemma WroteCount(sb: Super, s: Snap, i: nat, off: nat, n: nat, data: set<Role>)
    requires Good(sb, s) && sb.Ok(s.disk) && 0 < n <= CHUNK && off + n <= MAXBYTES
    requires |ToFill(s, i, off, n)| <= |FreeBlocks(s.disk, sb)|
    requires data <= LeavesIn(i, off / BSIZE, EndBlock(off, n))
    ensures var rs := ToFill(s, i, off, n);
            |Wrote(sb, s, |rs|, |rs|, Parents(rs) + data)| <= |s.logged| + 14
  {
    hide Good, ToFill, FreeBlocks, MapBlocks, FirstOf, BlocksIn, Parents, LeavesIn, EndBlock;
    var rs, free := ToFill(s, i, off, n), FreeBlocks(s.disk, sb);
    var ps, maps, taken := Parents(rs) + data, MapBlocks(sb, FirstOf(free, |rs|)), FirstOf(free, |rs|);
    ToFillCount(s, i, off, n);
    MapsAtMost(sb, taken);
    GoodOwned(sb, s);
    EmptyHaveNone(sb, s, i, off, n, ps);
    BlocksAtMost(sb, s, ps - rs);
    SubsetCount(rs + (ps - rs), Touched(s, i, off, n));
    assert |rs + (ps - rs)| == |rs| + |ps - rs|;
    UnionCount(s.logged, maps);
    UnionCount(s.logged + maps, taken);
    UnionCount(s.logged + maps + taken, BlocksIn(s.owner, ps));
  }

  lemma EmptyHaveNone(sb: Super, s: Snap, i: nat, off: nat, n: nat, ps: set<Role>)
    requires Owned(s.mem, s.disk, sb, s.owner) && off + n <= MAXBYTES
    ensures BlocksIn(s.owner, ps) == BlocksIn(s.owner, ps - ToFill(s, i, off, n))
  {
    hide PathsIn, EndBlock, Ptr;
  }

  // A chunk that begin_op lets in, while the others log nothing, never finds the
  // log header full: it fails only for want of blocks.
  lemma ChunkFits(sb: Super, outstanding: nat, s: Snap, i: nat, off: nat, n: nat, inode: bool)
    requires Good(sb, s) && sb.Ok(s.disk) && 0 < n <= CHUNK && off + n <= MAXBYTES
    requires Admits(outstanding, s.logged) && HeaderOk(sb, outstanding, s.logged) && sb.HeaderLimit() >= ROOMY
    ensures CanSplice(sb, outstanding + 1, s, i, off, n, inode) <==>
            |ToFill(s, i, off, n)| <= |FreeBlocks(s.disk, sb)|
  {
    hide Good, Empties, FreeBlocks, Wrote, Parents, LeavesIn, PathsIn, EndBlock;
    var lo, hi := off / BSIZE, EndBlock(off, n);
    EndPositive(off, n);
    var data := LeavesIn(i, lo, if inode then hi else hi - 1);
    LeavesMore(i, lo, hi - 1, hi);
    if |ToFill(s, i, off, n)| <= |FreeBlocks(s.disk, sb)| {
      WroteCount(sb, s, i, off, n, data);
      assert |s.logged| <= 10 && (outstanding == 0 ==> s.logged == {});
    }
  }

  lemma EndPositive(off: nat, n: nat)
    requires n > 0
    ensures EndBlock(off, n) > off / BSIZE
  {
  }

  lemma FreeBelow(sb: Super, s: Snap)
    requires sb.Ok(s.disk)
    ensures forall b :: b in FreeBlocks(s.disk, sb) ==> b < sb.size
  {
  }

  // Consecutive writes are one write.
  lemma SpliceTwice(c: seq<Byte>, off: nat, a: seq<Byte>, b: seq<Byte>)
    requires off <= |c|
    ensures Splice(Splice(c, off, a), off + |a|, b) == Splice(c, off, a + b)
  {
  }

  lemma SpliceNext(c: seq<Byte>, off: nat, src: seq<Byte>, i: nat, n: nat)
    requires off <= |c| && i + n <= |src|
    ensures Splice(Splice(c, off, src[..i]), off + i, src[i..i + n]) == Splice(c, off, src[..i + n])
  {
    SpliceTwice(c, off, src[..i], src[i..i + n]);
    assert src[..i] + src[i..i + n] == src[..i + n];
  }

  // The data blocks of a range are as many as its block numbers.
  lemma {:induction false} LeavesExactly(i: nat, lo: nat, hi: nat)
    requires lo <= hi <= MAXFILE
    ensures |LeavesIn(i, lo, hi)| == hi - lo && forall r :: r in LeavesIn(i, lo, hi) ==> Height(r) == 0
    ensures forall bn :: hi <= bn < MAXFILE ==> Leaf(i, bn) !in LeavesIn(i, lo, hi)
    decreases hi
  {
    if lo < hi {
      LeavesExactly(i, lo, hi - 1);
      forall bn | hi <= bn < MAXFILE
        ensures Leaf(i, bn) != Leaf(i, hi - 1)
      {
        if Leaf(i, bn) == Leaf(i, hi - 1) {
          LeafInjective(i, i, bn, hi - 1);
        }
      }
    }
  }

  lemma {:induction false} FlatIsLeaf(i: nat, lo: nat, hi: nat, r: Role)
    requires hi <= MAXFILE && r in PathsIn(i, lo, hi) && Height(r) == 0
    ensures r in LeavesIn(i, lo, hi)
    decreases hi
  {
    hide Leaf, PathRoles;
    if lo < hi && r !in PathsIn(i, lo, hi - 1) {
      assert r in IndexRoles(i, hi - 1) + {Leaf(i, hi - 1)};
    } else if lo < hi {
      FlatIsLeaf(i, lo, hi - 1, r);
    }
  }

  // The index blocks that are new or gain a word.
  ghost function IndexTouched(s: Snap, i: nat, off: nat, n: nat): set<Role>
    requires off + n <= MAXBYTES
  {
    var rs := ToFill(s, i, off, n);
    set r | r in rs + Parents(rs) && Height(r) > 0
  }

  // The parts of that number: data blocks visited, index blocks that are new or
  // gain a word, bitmap blocks of the lowest free blocks, and the inode block
  // if the file grows.
  lemma LogSizeParts(sb: Super, s: Snap, i: nat, off: nat, n: nat)
    requires i < |s.mem| && off + n <= MAXBYTES && sb.Ok(s.disk)
    requires |ToFill(s, i, off, n)| <= |FreeBlocks(s.disk, sb)|
    ensures LogSize(sb, s, i, off, n) ==
              (EndBlock(off, n) - off / BSIZE) + |IndexTouched(s, i, off, n)| + |MapsTouched(sb, s, i, off, n)| +
              (if n > 0 && off + n > s.mem[i].size then 1 else 0)
  {
    hide Leaf, PathRoles, PathsIn, LeavesIn, FreeBlocks, FirstOf, MapBlocks, Empties, Height;
    var lo, hi := off / BSIZE, EndBlock(off, n);
    var rs, leaves, index := ToFill(s, i, off, n), LeavesIn(i, lo, hi), IndexTouched(s, i, off, n);
    assert rs <= PathsIn(i, lo, hi) by { ToFillOnPaths(s, i, off, n); }
    ParentsOnPaths(i, lo, hi, rs);
    LeavesExactly(i, lo, hi);
    forall r | r in rs + Parents(rs)
      ensures r in index || r in leaves
    {
      HeightOnPath(i, lo, hi, r);
      if Height(r) == 0 {
        FlatIsLeaf(i, lo, hi, r);
      }
    }
    assert Touched(s, i, off, n) == index + leaves && index !! leaves;
  }

  // When writei logs more than was reserved for its operation, in terms of the
  // state before.
  lemma OverrunExactly(sb: Super, s0: Snap, s: Snap, i: nat, off: nat, n: nat)
    requires Good(sb, s0) && Good(sb, s) && i < |s0.mem| == sb.ninodes && off + n <= MAXBYTES
    requires Filled(sb, s0, s, ToFill(s0, i, off, n), LeavesIn(i, off / BSIZE, EndBlock(off, n)),
                    InodeLogged(sb, i, s0.mem[i].size, off, n))
    ensures |ToFill(s0, i, off, n)| <= |FreeBlocks(s0.disk, sb)|
    ensures |Given(sb, s0, s, i, off, n)| > MAXOPBLOCKS <==>
            (EndBlock(off, n) - off / BSIZE) + |IndexTouched(s0, i, off, n)| + |MapsTouched(sb, s0, i, off, n)| +
            (if n > 0 && off + n > s0.mem[i].size then 1 else 0) > MAXOPBLOCKS
  {
    hide Good, Filled, ToFill, LeavesIn, EndBlock, LogSize, IndexTouched, MapsTouched, FreeBlocks, Given;
    LogSizeExact(sb, s0, s, i, off, n);
    GoodOwned(sb, s0);
    LogSizeParts(sb, s0, i, off, n);
  }

  lemma {:induction false} HeightOnPath(i: nat, lo: nat, hi: nat, r: Role)
    requires hi <= MAXFILE && r in PathsIn(i, lo, hi)
    ensures Height(r) >= 0
    decreases hi
  {
    hide Leaf, PathRoles;
    if lo < hi && r !in PathsIn(i, lo, hi - 1) {
      assert r in IndexRoles(i, hi - 1) + {Leaf(i, hi - 1)};
    } else if lo < hi {
      HeightOnPath(i, lo, hi - 1, r);
    }
  }

  // How many of n bytes at off filewrite does not refuse.
  function Accepted(off: nat, n: nat): (a: nat)
    requires off <= MAXBYTES
    ensures a <= n && off + a <= MAXBYTES
  {
    if off + n <= MAXBYTES then n else (MAXBYTES - off) / CHUNK * CHUNK
  }

  function ChunkSize(n: nat, done: nat): nat
    requires done <= n
  {
    if n - done > CHUNK then CHUNK else n - done
  }

  lemma NextChunk(off: nat, n: nat, done: nat)
    requires off <= MAXBYTES && done < n && done % CHUNK == 0 && done <= Accepted(off, n)
    ensures var n1 := ChunkSize(n, done);
            && 0 < n1 && done + n1 <= n && (done + n1 == n || (done + n1) % CHUNK == 0)
            && (off + done + n1 <= MAXBYTES <==> done + n1 <= Accepted(off, n))
            && (off + done + n1 > MAXBYTES ==> done == Accepted(off, n))
  {
  }

  lemma {:induction false} PathsJoin(i: nat, lo: nat, mid: nat, mid': nat, hi: nat)
    requires lo <= mid <= mid' <= hi <= MAXFILE
    ensures PathsIn(i, lo, mid') + PathsIn(i, mid, hi) == PathsIn(i, lo, hi)
    decreases hi
  {
    hide PathRoles;
    if mid' < hi {
      PathsJoin(i, lo, mid, mid', hi - 1);
    } else {
      PathsTail(i, lo, mid, hi);
    }
  }

  lemma {:induction false} PathsTail(i: nat, lo: nat, mid: nat, hi: nat)
    requires lo <= mid <= hi <= MAXFILE
    ensures PathsIn(i, mid, hi) <= PathsIn(i, lo, hi)
    decreases hi
  {
    hide PathRoles;
    if mid < hi {
      PathsTail(i, lo, mid, hi - 1);
    }
  }

  // The bytes done and the next n1 together.
  lemma ToFillJoin(s: Snap, i: nat, off: nat, done: nat, n1: nat)
    requires off + done + n1 <= MAXBYTES && n1 > 0
    ensures var lo, mid, hi := off / BSIZE, (off + done) / BSIZE, EndBlock(off, done + n1);
            && EndBlock(off + done, n1) == hi
            && PathsIn(i, lo, EndBlock(off, done)) + PathsIn(i, mid, hi) == PathsIn(i, lo, hi)
  {
    hide PathsIn;
    var mid' := EndBlock(off, done);
    assert off / BSIZE <= (off + done) / BSIZE <= EndBlock(off, done + n1);
    if (off + done) / BSIZE <= mid' {
      PathsJoin(i, off / BSIZE, (off + done) / BSIZE, mid', EndBlock(off, done + n1));
    }
  }

  // Whether end_op commits or not, the files are the same.
  lemma LogAside(sb: Super, s0: Snap, s: Snap, l: set<nat>, rs: set<Role>)
    ensures Grown(sb, s0, s.(logged := l), rs) <==> Grown(sb, s0, s, rs)
    ensures Good(sb, s.(logged := l)) <==> Good(sb, s)
  {
    hide Owned, BitmapOk, Super.Ok, FreeBlocks, BlocksIn, Ptr;
    assert forall r :: Shape(r, |s.mem|) ==> At(s.(logged := l), r) == At(s, r);
  }

  lemma SplicedAside(sb: Super, i: nat, off: nat, src: seq<Byte>, s0: Snap, s: Snap, l: set<nat>)
    requires Spliced(sb, i, off, src, s0, s)
    ensures Spliced(sb, i, off, src, s0, s.(logged := l))
  {
    hide Content, Splice, Dense, GetInode, RootsPresent, Super.Ok;
  }

  // From s to s' an operation that gave the blocks of `gave` to log_write: it
  // keeps a sound file system sound, every block it changed is in the log, and
  // the log can hold them.
  ghost predicate Transaction(sb: Super, s: Snap, s': Snap, gave: set<nat>) {
    && (Sound(sb, s) ==> Sound(sb, s')) && Covered(s.disk, s.logged, s'.disk, s.logged + gave)
    && (forall b :: b in gave ==> sb.inodestart <= b < sb.size)
    && (s.logged + gave == {} || |s.logged + gave| <= sb.HeaderLimit())
  }

  lemma WriteTransaction(sb: Super, outstanding: nat, i: nat, off: nat, src: seq<Byte>, s0: Snap, s: Snap, l: set<nat>)
    requires Good(sb, s) && Spliced(sb, i, off, src, s0, s) && Covered(s0.disk, s0.logged, s.disk, s.logged)
    requires off + |src| <= MAXBYTES && HeaderOk(sb, outstanding, s.logged)
    requires i < |s0.mem| && s.logged == s0.logged + Given(sb, s0, s, i, off, |src|)
    ensures Transaction(sb, s0, s.(logged := l), Given(sb, s0, s, i, off, |src|))
  {
    hide Spliced, Covered, Sound, Good, Given;
    SplicedAside(sb, i, off, src, s0, s, l);
    LogAside(sb, s0, s, l, {});
    if Sound(sb, s0) {
      SplicedSound(sb, i, off, src, s0, s.(logged := l));
    }
    SplicedAt(sb, i, off, src, s0, s);
    GivenHome(sb, s0, s, i, off, |src|);
  }

  lemma SplicedAt(sb: Super, i: nat, off: nat, src: seq<Byte>, s0: Snap, s: Snap)
    requires Spliced(sb, i, off, src, s0, s)
    ensures i < |s0.mem| == |s.mem| == sb.ninodes
  {
    hide Content, Splice, Dense, GetInode, RootsPresent;
  }

  // begin_op, ilock, writei, iunlock, end_op. gave are the blocks given to
  // log_write; end_op commits them if no other operation is outstanding.
  method WriteChunk(fs: FileSys, i: nat, bytes: seq<Byte>, off: Word) returns (e: Ended, ghost gave: set<nat>)
    requires fs.Valid() && fs.loose == {} && i < |fs.mem| && SizesOk(fs.mem) && |bytes| < 0x1_0000_0000
    modifies fs
    ensures e.Waits? <==> !Admits(old(fs.outstanding), old(fs.logged))
    ensures !e.Panics? ==> fs.Valid() && fs.loose == {} && |fs.mem| == |old(fs.mem)| && SizesOk(fs.mem)
    ensures !e.Panics? ==> fs.outstanding == old(fs.outstanding)
    ensures !e.Waits? && Refused(old(fs.mem)[i].size, off, |bytes|) ==> e == Returns(-1)
    ensures e.Waits? || e == Returns(-1) ==> fs.Now() == old(fs.Now())
    ensures !e.Waits? && !Refused(old(fs.mem)[i].size, off, |bytes|) ==>
              var s, grows := old(fs.Now()), off + |bytes| > old(fs.mem)[i].size;
              e == if |bytes| == 0 || CanSplice(fs.sb, old(fs.outstanding) + 1, s, i, off, |bytes|, grows)
                   then Returns(|bytes|) else Panics
    ensures e.Returns? && e.r >= 0 ==> off + |bytes| <= MAXBYTES && var s := old(fs.Now());
              && |ToFill(s, i, off, |bytes|)| <= |FreeBlocks(s.disk, fs.sb)|
              && |gave| == LogSize(fs.sb, s, i, off, |bytes|) && Grown(fs.sb, s, fs.Now(), ToFill(s, i, off, |bytes|))
              && Spliced(fs.sb, i, off, bytes, s, fs.Now()) && Transaction(fs.sb, s, fs.Now(), gave)
    ensures e.Returns? && e.r >= 0 ==> fs.logged == if fs.outstanding == 0 then {} else old(fs.logged) + gave
  {
    hide Owned, BitmapOk, Covered, FreeBlocks, Empties, PathsIn, LogSize, Grown, Spliced, Transaction, CanSplice,
      Filled, Given, HeaderOk, CanLog, Admits, LeavesIn, EndBlock;
    ghost var s := fs.Now();
    gave := {};
    fs.FilledGood();
    fs.AloneClean();
    var admitted := fs.BeginOp();
    if !admitted {
      return Waits, {};
    }
    var panic, r := fs.Writei(i, bytes, off);
    if panic {
      return Panics, {};
    }
    fs.FilledGood();
    ghost var s1 := fs.Now();
    fs.EndOp();
    if r >= 0 {
      LogSizeExact(fs.sb, s, s1, i, off, |bytes|);
      gave := Given(fs.sb, s, s1, i, off, |bytes|);
      FilledGrown(fs.sb, s, s1, ToFill(s, i, off, |bytes|), LeavesIn(i, off / BSIZE, EndBlock(off, |bytes|)),
                  InodeLogged(fs.sb, i, s.mem[i].size, off, |bytes|));
      LogAside(fs.sb, s, s1, fs.logged, ToFill(s, i, off, |bytes|));
      SplicedAside(fs.sb, i, off, bytes, s, s1, fs.logged);
      WriteTransaction(fs.sb, fs.outstanding + 1, i, off, bytes, s, s1, fs.logged);
    }
    e := Returns(r);
  }

  // A write over more blocks than the log header has entries panics, whatever
  // is free.
  lemma LongWritePanics(sb: Super, outstanding: nat, s: Snap, i: nat, off: nat, n: nat, inode: bool)
    requires Good(sb, s) && sb.Ok(s.disk) && i < |s.mem| && n > 0 && off + n <= MAXBYTES
    requires EndBlock(off, n) - off / BSIZE > sb.HeaderLimit()
    ensures !CanSplice(sb, outstanding, s, i, off, n, inode)
  {
    hide Good, FreeBlocks, FirstOf, Wrote, Parents, EndBlock, Empties, BlocksIn, PathsIn, LeavesIn, ToFill;
    var lo, hi := off / BSIZE, EndBlock(off, n);
    var rs := Empties(s, PathsIn(i, lo, hi));
    EndPositive(off, n);
    SpliceLess(sb, outstanding, s, i, off, n);
    if |rs| <= |FreeBlocks(s.disk, sb)| {
      LeavesExactly(i, lo, hi - 1);
      LeavesLogged(sb, s, i, lo, hi, LeavesIn(i, lo, hi - 1));
    }
  }

  lemma LeavesLogged(sb: Super, s: Snap, i: nat, lo: nat, hi: nat, data: set<Role>)
    requires Good(sb, s) && sb.Ok(s.disk) && i < |s.mem| && lo < hi <= MAXFILE && data == LeavesIn(i, lo, hi - 1)
    requires |Empties(s, PathsIn(i, lo, hi))| <= |FreeBlocks(s.disk, sb)|
    ensures var rs := Empties(s, PathsIn(i, lo, hi));
            |Wrote(sb, s, |rs|, |rs|, Parents(rs) + data)| >= |data|
  {
    hide Good, FreeBlocks, FirstOf, Parents, BlocksIn, PathsIn, LeavesIn, MapBlocks, Ptr;
    var rs, taken := Empties(s, PathsIn(i, lo, hi)), FirstOf(FreeBlocks(s.disk, sb), |Empties(s, PathsIn(i, lo, hi))|);
    GoodOwned(sb, s);
    LeavesOnPaths(i, lo, hi - 1);
    PathsMore(i, lo, hi - 1, hi);
    LeavesShape(s, i, lo, hi - 1);
    CountBlocks(sb, s, data - rs);
    SubsetCount(data * rs, rs);
    OwnedUsed(sb, s);
    BlocksMore(s.owner, data - rs, Parents(rs) + data);
    var here := BlocksIn(s.owner, data - rs);
    assert data == (data - rs) + (data * rs);
    assert taken !! here by { InOwner(s.owner, data - rs); }
    SubsetCount(taken + here, Wrote(sb, s, |rs|, |rs|, Parents(rs) + data));
  }

  lemma {:induction false} LeavesShape(s: Snap, i: nat, lo: nat, hi: nat)
    requires i < |s.mem| && hi <= MAXFILE
    ensures forall r :: r in LeavesIn(i, lo, hi) ==> Shape(r, |s.mem|)
    decreases hi
  {
    hide Leaf;
    if lo < hi {
      LeavesShape(s, i, lo, hi - 1);
    }
  }

  lemma BlocksMore(o: map<nat, Role>, a: set<Role>, b: set<Role>)
    requires a <= b
    ensures BlocksIn(o, a) <= BlocksIn(o, b)
  {
  }

  lemma InOwner(o: map<nat, Role>, a: set<Role>)
    ensures forall b :: b in BlocksIn(o, a) ==> b in o
  {
  }

  // The writes so far, and the next one.
  lemma NextGrown(sb: Super, s0: Snap, s1: Snap, s2: Snap, i: nat, off: nat, done: nat, n1: nat)
    requires Good(sb, s1) && Good(sb, s2) && off + done + n1 <= MAXBYTES && n1 > 0
    requires Grown(sb, s0, s1, ToFill(s0, i, off, done)) && Grown(sb, s1, s2, ToFill(s1, i, off + done, n1))
    ensures Grown(sb, s0, s2, ToFill(s0, i, off, done + n1))
  {
    hide Good, Grown, Empties, PathsIn, EndBlock;
    GrownTrans(sb, s0, s1, s2, ToFill(s0, i, off, done), ToFill(s1, i, off + done, n1));
    ToFillJoin(s0, i, off, done, n1);
    EmptiesAfter(sb, s0, s1, PathsIn(i, off / BSIZE, EndBlock(off, done)),
                 PathsIn(i, (off + done) / BSIZE, EndBlock(off + done, n1)));
  }

  // The next write finds its blocks iff all together would have at the start.
  lemma NextFits(sb: Super, s0: Snap, s1: Snap, i: nat, off: nat, done: nat, n1: nat)
    requires Good(sb, s1) && off + done + n1 <= MAXBYTES && n1 > 0 && sb.Ok(s0.disk)
    requires Grown(sb, s0, s1, ToFill(s0, i, off, done))
    ensures |ToFill(s1, i, off + done, n1)| <= |FreeBlocks(s1.disk, sb)| <==>
            |ToFill(s0, i, off, done + n1)| <= |FreeBlocks(s0.disk, sb)|
  {
    hide Owned, BitmapOk, Grown, Empties, PathsIn, EndBlock, FreeBlocks;
    ToFillJoin(s0, i, off, done, n1);
    EmptiesAfter(sb, s0, s1, PathsIn(i, off / BSIZE, EndBlock(off, done)),
                 PathsIn(i, (off + done) / BSIZE, EndBlock(off + done, n1)));
    GrownCount(sb, s0, s1, ToFill(s0, i, off, done));
  }

  lemma ToFillMore(s: Snap, i: nat, off: nat, n: nat, m: nat)
    requires n <= m && off + m <= MAXBYTES
    ensures |ToFill(s, i, off, n)| <= |ToFill(s, i, off, m)|
  {
    hide PathsIn;
    PathsMore(i, off / BSIZE, EndBlock(off, n), EndBlock(off, m));
    SubsetCount(ToFill(s, i, off, n), ToFill(s, i, off, m));
  }

  // A write of n bytes at off in state s logs `count` blocks: as many as the
  // state says, at most fifteen, and with at most two bitmap blocks no more than
  // MAXOPBLOCKS.
  ghost predicate LogsExactly(sb: Super, i: nat, off: nat, n: nat, s: Snap, count: nat) {
    && i < |s.mem| && sb.Ok(s.disk) && 0 < n <= CHUNK && off + n <= MAXBYTES
    && |ToFill(s, i, off, n)| <= |FreeBlocks(s.disk, sb)|
    && count == LogSize(sb, s, i, off, n) <= 8 + |MapsTouched(sb, s, i, off, n)| <= 15
    && |MapsTouched(sb, s, i, off, n)| <= 1 + sb.size / BPB
  }

  // How many of n bytes k transactions have written.
  function Upto(n: nat, k: nat): nat { if k * CHUNK < n then k * CHUNK else n }

  // The states between the transactions of a write of src at off, and the blocks
  // that the transactions log: each takes the next chunk.
  ghost predicate Steps(sb: Super, i: nat, off: nat, src: seq<Byte>, ss: seq<Snap>, gaves: seq<set<nat>>) {
    && |ss| == |gaves| + 1
    && (forall k :: 0 <= k < |gaves| ==>
          && k * CHUNK < |src| && Transaction(sb, ss[k], ss[k + 1], gaves[k])
          && LogsExactly(sb, i, off + k * CHUNK, ChunkSize(|src|, k * CHUNK), ss[k], |gaves[k]|))
    && (gaves != [] ==> forall k :: 0 <= k < |ss| ==> Writing(sb, ss[0], ss[k], i, off, src, Upto(|src|, k)))
  }

  lemma NoSteps(sb: Super, i: nat, off: nat, src: seq<Byte>, s: Snap)
    ensures Steps(sb, i, off, src, [s], [])
  {
  }

  lemma StepsNext(sb: Super, i: nat, off: nat, src: seq<Byte>, ss: seq<Snap>, gaves: seq<set<nat>>, s: Snap, s': Snap,
                  gave: set<nat>, done: nat, n1: nat)
    requires |ss| == |gaves| + 1 && s == ss[|gaves|] && i < |s.mem| && sb.Ok(s.disk)
    requires done == |gaves| * CHUNK < |src| && n1 == ChunkSize(|src|, done) && off + done + n1 <= MAXBYTES
    requires |ToFill(s, i, off + done, n1)| <= |FreeBlocks(s.disk, sb)|
    requires |gave| == LogSize(sb, s, i, off + done, n1) && Transaction(sb, s, s', gave)
    requires Writing(sb, ss[0], s, i, off, src, done) && Writing(sb, ss[0], s', i, off, src, done + n1)
    requires Steps(sb, i, off, src, ss, gaves)
    ensures Steps(sb, i, off, src, ss + [s'], gaves + [gave])
  {
    hide LogSize, ToFill, FreeBlocks, MapsTouched, Transaction, Writing;
    TransactionSize(sb, s, i, off + done, n1);
    var ss', gs := ss + [s'], gaves + [gave];
    forall k | 0 <= k < |ss'|
      ensures Writing(sb, ss'[0], ss'[k], i, off, src, Upto(|src|, k))
    {
      if k < |gaves| {
        assert ss'[k] == ss[k];
      }
    }
  }

  lemma ChunkIs(n: nat, done: nat)
    requires done < n
    ensures 0 < ChunkSize(n, done) <= n - done && ChunkSize(n, done) <= CHUNK
    ensures (done + ChunkSize(n, done) == n || ChunkSize(n, done) == CHUNK)
  {
  }

  lemma NoneDone(sb: Super, s: Snap, i: nat, off: nat, n: nat)
    requires sb.Ok(s.disk) && off <= MAXBYTES
    ensures ToFill(s, i, off, 0) == {} && Grown(sb, s, s, {}) && |ToFill(s, i, off, 0)| <= |FreeBlocks(s.disk, sb)|
    ensures 0 <= Accepted(off, n) && (n == 0 ==> Accepted(off, n) == 0)
  {
    GrownNone(sb, s);
  }

  lemma SpliceNone(c: seq<Byte>, off: nat, src: seq<Byte>)
    requires off <= |c|
    ensures Splice(c, off, src[..0]) == c
  {
  }

  lemma SpliceReads(c: seq<Byte>, off: nat, src: seq<Byte>)
    requires off <= |c|
    ensures Splice(c, off, src)[off..off + |src|] == src
  {
  }

  // What writei wrote readi returns.
  method WriteThenRead(fs: FileSys, i: nat, src: seq<Byte>, off: Word) returns (panic: bool, dst: seq<Byte>)
    requires fs.Valid() && fs.loose == {} && i < |fs.mem| && SizesOk(fs.mem) && !Refused(fs.mem[i].size, off, |src|)
    modifies fs
    ensures var grows := off + |src| > old(fs.mem)[i].size;
            panic <==> |src| > 0 && !CanSplice(fs.sb, fs.outstanding, old(fs.Now()), i, off, |src|, grows)
    ensures !panic ==> dst == src
  {
    hide Owned, BitmapOk, Covered, Filled, Spliced, Empties, FreeBlocks, PathsIn, LeavesIn, EndBlock, CanSplice, CanMap,
      HeaderOk, Content;
    ghost var s, c := fs.Now(), Content(fs.mem, fs.disk, i);
    dst := [];
    var r;
    panic, r := fs.Writei(i, src, off);
    if panic {
      return;
    }
    fs.FilledGood();
    SplicedContent(fs.sb, i, off, src, s, fs.Now());
    SpliceReads(c, off, src);
    NowPresent(fs.sb, fs.outstanding, s, fs.Now(), i, off, |src|);
    panic, r, dst := fs.Readi(i, off, |src|);
  }

  lemma SplicedContent(sb: Super, i: nat, off: nat, src: seq<Byte>, s0: Snap, s: Snap)
    requires Spliced(sb, i, off, src, s0, s)
    ensures i < |s0.mem| == |s.mem| && SizesOk(s.mem) && SizesOk(s0.mem) && off <= s0.mem[i].size
    ensures Content(s.mem, s.disk, i) == Splice(Content(s0.mem, s0.disk, i), off, src)
    ensures forall f :: 0 <= f < |s.mem| && f != i ==> Content(s.mem, s.disk, f) == Content(s0.mem, s0.disk, f)
  {
    hide Content, Splice, Dense, GetInode, RootsPresent;
  }

  // After the write every block of the range is there.
  lemma NowPresent(sb: Super, outstanding: nat, s0: Snap, s: Snap, i: nat, off: nat, n: nat)
    requires off + n <= MAXBYTES && i < |s0.mem| && sb.Ok(s.disk) && |s.mem| == |s0.mem|
    requires Filled(sb, s0, s, ToFill(s0, i, off, n), LeavesIn(i, off / BSIZE, EndBlock(off, n)),
                    InodeLogged(sb, i, s0.mem[i].size, off, n))
    ensures CanMap(sb, outstanding, s, i, off / BSIZE, EndBlock(off, n))
  {
    hide PathsIn, LeavesIn, EndBlock, FreeBlocks, Super.Ok, Logs;
    EmptiesAfter(sb, s0, s, PathsIn(i, off / BSIZE, EndBlock(off, n)), PathsIn(i, off / BSIZE, EndBlock(off, n)));
    var p := PathsIn(i, off / BSIZE, EndBlock(off, n));
    assert p + p == p;
    NoneAbsent(sb, outstanding, s, i, off / BSIZE, EndBlock(off, n));
  }

  lemma AbsentLeaf(s: Snap, i: nat, lo: nat, hi: nat)
    requires i < |s.mem| && lo < hi <= MAXFILE && At(s, Leaf(i, hi - 1)) == 0
    ensures Leaf(i, hi - 1) in Empties(s, PathsIn(i, lo, hi))
  {
    hide Leaf, PathRoles, Ptr;
    LeafOnPath(i, hi - 1);
  }

  lemma {:induction false} NoneAbsent(sb: Super, outstanding: nat, s: Snap, i: nat, lo: nat, hi: nat)
    requires sb.Ok(s.disk) && i < |s.mem| && hi <= MAXFILE && Empties(s, PathsIn(i, lo, hi)) == {}
    ensures CanMap(sb, outstanding, s, i, lo, hi)
    decreases hi
  {
    hide Leaf, PathRoles, Super.Ok, Ptr, CanFill;
    if lo < hi {
      if At(s, Leaf(i, hi - 1)) == 0 {
        AbsentLeaf(s, i, lo, hi);
      }
      assert Empties(s, PathsIn(i, lo, hi - 1)) <= Empties(s, PathsIn(i, lo, hi));
      NoneAbsent(sb, outstanding, s, i, lo, hi - 1);
    }
  }

  // From s0 to s, the first bytes of src were written.
  ghost predicate Writing(sb: Super, s0: Snap, s: Snap, i: nat, off: nat, src: seq<Byte>, done: nat) {
    && sb.Ok(s0.disk) && i < |s0.mem| == |s.mem| && SizesOk(s0.mem) && SizesOk(s.mem)
    && off <= s0.mem[i].size && done <= |src| && done <= Accepted(off, |src|) && off + done <= s.mem[i].size
    && Content(s.mem, s.disk, i) == Splice(Content(s0.mem, s0.disk, i), off, src[..done])
    && (forall f :: 0 <= f < |s.mem| && f != i ==> Content(s.mem, s.disk, f) == Content(s0.mem, s0.disk, f))
    && Grown(sb, s0, s, ToFill(s0, i, off, done)) && |ToFill(s0, i, off, done)| <= |FreeBlocks(s0.disk, sb)|
  }

  lemma WritingStart(sb: Super, s: Snap, i: nat, off: nat, src: seq<Byte>)
    requires sb.Ok(s.disk) && i < |s.mem| && off <= s.mem[i].size && SizesOk(s.mem)
    ensures Writing(sb, s, s, i, off, src, 0)
  {
    hide Content, Splice, Grown, ToFill, FreeBlocks;
    SpliceNone(Content(s.mem, s.disk, i), off, src);
    NoneDone(sb, s, i, off, |src|);
  }

  // When the next chunk is refused, and when it cannot get its blocks.
  lemma WritingChunk(sb: Super, s0: Snap, s: Snap, i: nat, off: nat, src: seq<Byte>, done: nat)
    requires Writing(sb, s0, s, i, off, src, done) && Good(sb, s) && done < |src| && done % CHUNK == 0
    ensures var n1 := ChunkSize(|src|, done);
            && i < |s.mem| && off + done <= s.mem[i].size
            && (off + done + n1 <= MAXBYTES <==> done + n1 <= Accepted(off, |src|))
            && (off + done + n1 > MAXBYTES ==> done == Accepted(off, |src|))
            && (off + done + n1 <= MAXBYTES && |ToFill(s, i, off + done, n1)| > |FreeBlocks(s.disk, sb)| ==>
                  |ToFill(s0, i, off, Accepted(off, |src|))| > |FreeBlocks(s0.disk, sb)|)
  {
    hide Content, Splice, Grown, ToFill, FreeBlocks, Owned, BitmapOk;
    var n1 := ChunkSize(|src|, done);
    NextChunk(off, |src|, done);
    if off + done + n1 <= MAXBYTES {
      NextFits(sb, s0, s, i, off, done, n1);
      ToFillMore(s0, i, off, done + n1, Accepted(off, |src|));
    }
  }

  lemma WritingNext(sb: Super, s0: Snap, s1: Snap, s2: Snap, i: nat, off: nat, src: seq<Byte>, done: nat, n1: nat)
    requires Writing(sb, s0, s1, i, off, src, done) && Good(sb, s1) && Good(sb, s2) && |s2.mem| == |s1.mem|
    requires 0 < n1 && done + n1 <= |src| && done + n1 <= Accepted(off, |src|) && off + done + n1 <= MAXBYTES
    requires |ToFill(s1, i, off + done, n1)| <= |FreeBlocks(s1.disk, sb)|
    requires Grown(sb, s1, s2, ToFill(s1, i, off + done, n1))
    requires Spliced(sb, i, off + done, src[done..done + n1], s1, s2)
    ensures Writing(sb, s0, s2, i, off, src, done + n1)
  {
    hide Content, Splice, Grown, ToFill, FreeBlocks, Owned, BitmapOk, Accepted, Spliced;
    SplicedContent(sb, i, off + done, src[done..done + n1], s1, s2);
    NextFits(sb, s0, s1, i, off, done, n1);
    NextGrown(sb, s0, s1, s2, i, off, done, n1);
    SpliceNext(Content(s0.mem, s0.disk, i), off, src, done, n1);
  }

  lemma WritingFacts(sb: Super, s0: Snap, s: Snap, i: nat, off: nat, src: seq<Byte>, done: nat)
    requires Writing(sb, s0, s, i, off, src, done)
    ensures off + done <= MAXBYTES && done <= Accepted(off, |src|) && i < |s0.mem| == |s.mem|
    ensures SizesOk(s0.mem) && SizesOk(s.mem) && off <= s0.mem[i].size && sb.Ok(s0.disk)
    ensures Content(s.mem, s.disk, i) == Splice(Content(s0.mem, s0.disk, i), off, src[..done])
    ensures forall f :: 0 <= f < |s.mem| && f != i ==> Content(s.mem, s.disk, f) == Content(s0.mem, s0.disk, f)
    ensures |ToFill(s0, i, off, done)| <= |FreeBlocks(s0.disk, sb)|
    ensures done == |src| ==> done == Accepted(off, |src|)
  {
    hide Content, Splice, Grown, ToFill, FreeBlocks;
  }

  // The next chunk, in a log with room.
  lemma ChunkMay(sb: Super, outstanding: nat, s: Snap, i: nat, off: nat, n: nat, inode: bool)
    requires Good(sb, s) && sb.Ok(s.disk) && 0 < n <= CHUNK && HeaderOk(sb, outstanding, s.logged)
    ensures off + n <= MAXBYTES && Admits(outstanding, s.logged) && sb.HeaderLimit() >= ROOMY ==>
              (CanSplice(sb, outstanding + 1, s, i, off, n, inode) <==>
                 |ToFill(s, i, off, n)| <= |FreeBlocks(s.disk, sb)|)
  {
    hide Good, CanSplice, ToFill, FreeBlocks, HeaderOk, Admits;
    if off + n <= MAXBYTES && Admits(outstanding, s.logged) && sb.HeaderLimit() >= ROOMY {
      ChunkFits(sb, outstanding, s, i, off, n, inode);
    }
  }

  // Alone, an operation does not have to wait.
  lemma AloneAdmitted(sb: Super, logged: set<nat>)
    requires HeaderOk(sb, 0, logged)
    ensures Admits(0, logged)
  {
  }

  // filewrite after `done` bytes, in state s, started in s0.
  ghost predicate Midway(sb: Super, outstanding: nat, s0: Snap, s: Snap, i: nat, off: nat, src: seq<Byte>, done: nat,
                         ss: seq<Snap>, gaves: seq<set<nat>>)
  {
    && i < |s0.mem| == |s.mem| && |ss| == |gaves| + 1 && ss[0] == s0 && ss[|gaves|] == s
    && done == Upto(|src|, |gaves|) && Steps(sb, i, off, src, ss, gaves)
    && (if off > s0.mem[i].size then done == 0 && s == s0 else Writing(sb, s0, s, i, off, src, done))
    && (outstanding == 0 ==> forall k :: 0 <= k < |ss| ==> ss[k].logged == {})
  }

  lemma MidwayStart(sb: Super, outstanding: nat, s: Snap, i: nat, off: nat, src: seq<Byte>)
    requires sb.Ok(s.disk) && i < |s.mem| && SizesOk(s.mem) && HeaderOk(sb, outstanding, s.logged)
    ensures Midway(sb, outstanding, s, s, i, off, src, 0, [s], [])
  {
    hide Steps, Writing, Super.Ok;
    NoSteps(sb, i, off, src, s);
    if off <= s.mem[i].size {
      WritingStart(sb, s, i, off, src);
    }
  }

  // What comes of the next chunk.
  lemma MidwayMay(sb: Super, outstanding: nat, s0: Snap, s: Snap, i: nat, off: Word, src: seq<Byte>, done: nat,
                  ss: seq<Snap>, gaves: seq<set<nat>>, n1: nat)
    requires Midway(sb, outstanding, s0, s, i, off, src, done, ss, gaves)
    requires done < |src| && n1 == ChunkSize(|src|, done)
    requires Good(sb, s) && HeaderOk(sb, outstanding, s.logged)
    ensures done + n1 <= |src| && i < |s.mem| && 0 < n1 <= CHUNK && sb.Ok(s.disk) && off + done < WORD
    ensures outstanding == 0 ==> Admits(outstanding, s.logged)
    ensures off > s0.mem[i].size ==> Refused(s.mem[i].size, off + done, n1)
    ensures off <= s0.mem[i].size <= MAXBYTES && Refused(s.mem[i].size, off + done, n1) ==> done == Accepted(off, |src|)
    ensures off <= s0.mem[i].size <= MAXBYTES && !Refused(s.mem[i].size, off + done, n1) &&
            Admits(outstanding, s.logged) && sb.HeaderLimit() >= ROOMY && sb.Ok(s0.disk) &&
            !CanSplice(sb, outstanding + 1, s, i, off + done, n1, off + done + n1 > s.mem[i].size) ==>
              |ToFill(s0, i, off, Accepted(off, |src|))| > |FreeBlocks(s0.disk, sb)|
  {
    hide Steps, Writing, Good, HeaderOk, Admits, CanSplice, ToFill, FreeBlocks, Accepted, Super.Ok;
    ChunkIs(|src|, done);
    GoodOwned(sb, s);
    if outstanding == 0 {
      AloneAdmitted(sb, s.logged);
    }
    if off <= s0.mem[i].size {
      WritingChunk(sb, s0, s, i, off, src, done);
      WritingFacts(sb, s0, s, i, off, src, done);
      ChunkMay(sb, outstanding, s, i, off + done, n1, off + done + n1 > s.mem[i].size);
    }
  }

  lemma MidwayNext(sb: Super, outstanding: nat, s0: Snap, s: Snap, s': Snap, i: nat, off: nat, src: seq<Byte>,
                   done: nat, ss: seq<Snap>, gaves: seq<set<nat>>, n1: nat, gave: set<nat>)
    requires done < |src| && n1 == ChunkSize(|src|, done) && off + done + n1 <= MAXBYTES && i < |s.mem| == |s'.mem|
    requires Good(sb, s) && Good(sb, s') && sb.Ok(s.disk) && (outstanding == 0 ==> s'.logged == {})
    requires |ToFill(s, i, off + done, n1)| <= |FreeBlocks(s.disk, sb)|
    requires |gave| == LogSize(sb, s, i, off + done, n1) && Transaction(sb, s, s', gave)
    requires Grown(sb, s, s', ToFill(s, i, off + done, n1)) && done + n1 <= |src|
    requires Spliced(sb, i, off + done, src[done..done + n1], s, s')
    requires Midway(sb, outstanding, s0, s, i, off, src, done, ss, gaves)
    ensures Midway(sb, outstanding, s0, s', i, off, src, done + n1, ss + [s'], gaves + [gave])
  {
    hide Steps, Writing, Good, ToFill, FreeBlocks, LogSize, Transaction, Grown, Spliced, Accepted, Super.Ok;
    ChunkIs(|src|, done);
    SplicedContent(sb, i, off + done, src[done..done + n1], s, s');
    WritingChunk(sb, s0, s, i, off, src, done);
    WritingNext(sb, s0, s, s', i, off, src, done, n1);
    StepsNext(sb, i, off, src, ss, gaves, s, s', gave, done, n1);
  }

  lemma MidwayEnd(sb: Super, outstanding: nat, s0: Snap, s: Snap, i: nat, off: nat, src: seq<Byte>, done: nat,
                  ss: seq<Snap>, gaves: seq<set<nat>>)
    requires Midway(sb, outstanding, s0, s, i, off, src, done, ss, gaves)
    ensures |ss| == |gaves| + 1 && ss[0] == s0 && ss[|gaves|] == s && done == Upto(|src|, |gaves|) <= |src|
    ensures Steps(sb, i, off, src, ss, gaves) && i < |s0.mem| == |s.mem|
    ensures outstanding == 0 ==> forall k :: 0 <= k < |ss| ==> ss[k].logged == {}
    ensures off > s0.mem[i].size ==> done == 0 && s == s0
    ensures off <= s0.mem[i].size ==>
              && SizesOk(s0.mem) && SizesOk(s.mem) && sb.Ok(s0.disk) && done <= Accepted(off, |src|)
              && Content(s.mem, s.disk, i) == Splice(Content(s0.mem, s0.disk, i), off, src[..done])
              && (forall f :: 0 <= f < |s.mem| && f != i ==> Content(s.mem, s.disk, f) == Content(s0.mem, s0.disk, f))
              && |ToFill(s0, i, off, done)| <= |FreeBlocks(s0.disk, sb)|
              && (done == |src| ==> done == Accepted(off, |src|))
  {
    hide Steps, Writing, ToFill, FreeBlocks, Accepted, Super.Ok, Content, Splice;
    if off <= s0.mem[i].size {
      WritingFacts(sb, s0, s, i, off, src, done);
    }
  }

  // filewrite on an inode, f->off == off. `done` is how far f->off moves, ss the
  // states between the transactions, and gaves the blocks they give to
  // log_write. It can be left waiting in begin_op for other operations to end.
  method Filewrite(fs: FileSys, i: nat, src: seq<Byte>, off: Word)
    returns (e: Ended, done: nat, ghost ss: seq<Snap>, ghost gaves: seq<set<nat>>)
    requires fs.Valid() && fs.loose == {} && i < |fs.mem| && SizesOk(fs.mem) && |src| < 0x8000_0000
    modifies fs
    ensures e.Waits? ==> old(fs.outstanding) > 0
    ensures done <= |src| && (!e.Panics? ==> fs.outstanding == old(fs.outstanding))
    ensures off > old(fs.mem)[i].size ==> !e.Panics? && done == 0 && fs.Now() == old(fs.Now())
    ensures off <= old(fs.mem)[i].size && fs.sb.HeaderLimit() >= ROOMY ==>
              var blocks := |ToFill(old(fs.Now()), i, off, Accepted(off, |src|))|;
              && (e.Panics? ==> blocks > |FreeBlocks(old(fs.disk), fs.sb)|)
              && (e.Returns? ==> blocks <= |FreeBlocks(old(fs.disk), fs.sb)|)
    ensures off <= old(fs.mem)[i].size && e.Returns? ==> done == Accepted(off, |src|)
    ensures e.Returns? ==> e.r == if done == |src| then |src| else -1
    ensures !e.Panics? ==> fs.Valid() && fs.loose == {} && |fs.mem| == |old(fs.mem)| && SizesOk(fs.mem)
    ensures !e.Panics? && off <= old(fs.mem)[i].size ==>
              Content(fs.mem, fs.disk, i) == Splice(Content(old(fs.mem), old(fs.disk), i), off, src[..done])
    ensures !e.Panics? ==> forall f :: 0 <= f < |fs.mem| && f != i ==>
              Content(fs.mem, fs.disk, f) == Content(old(fs.mem), old(fs.disk), f)
    ensures Steps(fs.sb, i, off, src, ss, gaves) && ss[0] == old(fs.Now())
    ensures !e.Panics? ==> ss[|gaves|] == fs.Now() && done == Upto(|src|, |gaves|)
    ensures old(fs.outstanding) == 0 ==> forall k :: 0 <= k < |ss| ==> ss[k].logged == {}
  {
    hide FileSys.Valid, Good, Content, Splice, FreeBlocks, ToFill, Accepted, LogSize, Spliced, Steps, Transaction,
      Grown, CanSplice, HeaderOk, Admits, Super.Ok, Midway;
    done, e, gaves := 0, Returns(0), [];
    ghost var s0 := fs.Now();
    ss := [s0];
    fs.FilledGood();
    fs.AloneClean();
    MidwayStart(fs.sb, fs.outstanding, s0, i, off, src);
    while done < |src|
      invariant done <= |src| && e.Returns? && fs.outstanding == old(fs.outstanding)
      invariant fs.Valid() && fs.loose == {} && i < |fs.mem| == |s0.mem| && SizesOk(fs.mem)
      invariant Midway(fs.sb, fs.outstanding, s0, fs.Now(), i, off, src, done, ss, gaves)
    {
      var n1 := ChunkSize(|src|, done);
      ghost var s1, gave := fs.Now(), {};
      fs.FilledGood();
      fs.AloneClean();
      MidwayMay(fs.sb, fs.outstanding, s0, s1, i, off, src, done, ss, gaves, n1);
      MidwayEnd(fs.sb, fs.outstanding, s0, s1, i, off, src, done, ss, gaves);
      e, gave := WriteChunk(fs, i, src[done..done + n1], off + done);
      if !e.Returns? {
        return;
      }
      if e.r < 0 {
        break;
      }
      fs.FilledGood();
      MidwayNext(fs.sb, fs.outstanding, s0, s1, fs.Now(), i, off, src, done, ss, gaves, n1, gave);
      ss, gaves := ss + [fs.Now()], gaves + [gave];
      done := done + e.r;
    }
    MidwayEnd(fs.sb, fs.outstanding, s0, fs.Now(), i, off, src, done, ss, gaves);
    e := Returns(if done == |src| then |src| else -1);
  }
}
