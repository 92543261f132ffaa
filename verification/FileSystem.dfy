// fs.c: block allocation, bmap, readi and writei, on the disk as the log layer
// shows it.
module FileSystem {
  import opened Common
  import opened Blocks
  import opened Bits
  import opened FileTree
  import opened FileContent
  import opened Filling
  import opened LogRoom

  // The disk after balloc took block b: its bit is set and it is zero.
  ghost function Taken(disk: Disk, sb: Super, b: nat, on: bool): (r: Disk)
    requires sb.Ok(disk) && b < sb.size
    ensures |r| == |disk|
  {
    var m := sb.bmapstart + b / BPB;
    disk[m := PutBit(disk[m], b % BPB, on)]
  }

  lemma TakenBits(disk: Disk, sb: Super, b: nat, on: bool, disk': Disk)
    requires sb.Ok(disk) && b < sb.size
    requires |disk'| == |disk| && forall x :: 0 <= x < sb.DataStart() ==> disk'[x] == Taken(disk, sb, b, on)[x]
    ensures forall x :: 0 <= x < sb.size ==> Used(disk', sb, x) == if x == b then on else Used(disk, sb, x)
  {
    forall x | 0 <= x < sb.size
      ensures Used(disk', sb, x) == if x == b then on else Used(disk, sb, x)
    {
      if x / BPB == b / BPB {
        assert x % BPB == b % BPB ==> x == b;
      }
    }
  }

  lemma OwnedBounds(mem: seq<Inode>, disk: Disk, sb: Super, owner: map<nat, Role>)
    requires Owned(mem, disk, sb, owner)
    ensures forall b :: b in owner ==> sb.DataStart() <= b < |disk|
  {
  }

  lemma BallocSameIndex(mem: seq<Inode>, disk: Disk, disk': Disk, sb: Super, owner: map<nat, Role>, b: nat)
    requires Owned(mem, disk, sb, owner) && b !in owner && |disk'| == |disk|
    requires forall x :: 0 <= x < |disk| && x != b && !InBitmap(sb, x) ==> disk'[x] == disk[x]
    ensures SameIndex(disk, disk', owner)
  {
  }

  lemma FreeBlock(disk: Disk, sb: Super, owner: map<nat, Role>, loose: set<nat>, b: nat)
    requires sb.Ok(disk) && BitmapOk(disk, sb, owner, loose) && b < sb.size && !Used(disk, sb, b)
    ensures sb.DataStart() <= b && b !in owner && b !in loose
  {
  }

  lemma BallocBitmap(disk: Disk, disk': Disk, sb: Super, owner: map<nat, Role>, loose: set<nat>, b: nat)
    requires sb.Ok(disk) && BitmapOk(disk, sb, owner, loose) && b < sb.size
    requires |disk'| == |disk| && forall x :: 0 <= x < sb.DataStart() ==> disk'[x] == Taken(disk, sb, b, true)[x]
    ensures BitmapOk(disk', sb, owner, loose + {b})
  {
    TakenBits(disk, sb, b, true, disk');
  }

  lemma BitmapBlock(sb: Super, d: Disk, b: nat)
    requires sb.Ok(d) && b < sb.size
    ensures b < |d| && sb.bmapstart + b / BPB < sb.DataStart() <= |d| <= WORD && |d| == sb.size
  {
  }

  // What balloc of the lowest free block does.
  lemma BallocDone(mem: seq<Inode>, d: Disk, d': Disk, sb: Super, owner: map<nat, Role>, loose: set<nat>, b: nat)
    requires sb.Ok(d) && Owned(mem, d, sb, owner) && BitmapOk(d, sb, owner, loose)
    requires b < sb.size && !Used(d, sb, b) && forall x :: x in FreeBlocks(d, sb) ==> b <= x
    requires d' == Taken(d, sb, b, true)[b := ZeroBlock()]
    ensures sb.DataStart() <= b && b !in owner && b !in loose && |d'| == |d| && sb.Ok(d')
    ensures Owned(mem, d', sb, owner) && BitmapOk(d', sb, owner, loose + {b})
    ensures FreeBlocks(d, sb) == FreeBlocks(d', sb) + {b} && forall y :: y in FreeBlocks(d', sb) ==> b < y
    ensures forall x :: 0 <= x < |d| && x != b && !InBitmap(sb, x) ==> d'[x] == d[x]
  {
    hide Owned, BitmapOk, SameIndex, TestBit, FreeBlocks;
    FreeBlock(d, sb, owner, loose, b);
    BallocBitmap(d, d', sb, owner, loose, b);
    TakenFree(d, sb, b, d');
    SameOwned(mem, d, d', sb, owner) by { BallocSameIndex(mem, d, d', sb, owner, b); }
  }

  // A place that is not empty points to a data block it owns.
  lemma OwnedPlace(mem: seq<Inode>, disk: Disk, sb: Super, owner: map<nat, Role>, r: Role)
    requires Owned(mem, disk, sb, owner) && Shape(r, |mem|) && Ptr(mem, disk, r) != 0
    ensures var b := Ptr(mem, disk, r); b in owner && owner[b] == r && sb.DataStart() <= b < |disk|
    ensures InodeOf(r) < |mem|
  {
    InodeInRange(r, |mem|);
  }

  lemma InodeInRange(r: Role, n: nat)
    requires Shape(r, n)
    ensures InodeOf(r) < n
  {
  }

  // Writing the index block q leaves the bitmap as it is.
  lemma IndexWrite(disk: Disk, disk': Disk, sb: Super, owner: map<nat, Role>, q: nat, b: nat)
    requires sb.Ok(disk) && BitmapOk(disk, sb, owner, {b}) && sb.DataStart() <= q < |disk|
    requires |disk'| == |disk| && forall x :: 0 <= x < |disk| && x != q ==> disk'[x] == disk[x]
    ensures BitmapOk(disk', sb, owner, {b})
  {
  }

  // The lowest free block, or none.
  lemma FirstFree(disk: Disk, sb: Super, f: nat)
    requires sb.Ok(disk) && f <= sb.size && (forall x :: 0 <= x < f ==> Used(disk, sb, x))
    requires f < sb.size ==> !Used(disk, sb, f)
    ensures if f == sb.size then FreeBlocks(disk, sb) == {} else f in FreeBlocks(disk, sb)
    ensures forall x :: x in FreeBlocks(disk, sb) ==> f <= x
  {
    assert f < sb.size ==> f in FreeBlocks(disk, sb);
  }

  lemma TakenFree(disk: Disk, sb: Super, b: nat, disk': Disk)
    requires sb.Ok(disk) && sb.Ok(disk') && b < sb.size && !Used(disk, sb, b)
    requires |disk'| == |disk| && forall x :: 0 <= x < sb.DataStart() ==> disk'[x] == Taken(disk, sb, b, true)[x]
    requires forall x :: x in FreeBlocks(disk, sb) ==> b <= x
    ensures FreeBlocks(disk, sb) == FreeBlocks(disk', sb) + {b}
    ensures forall y :: y in FreeBlocks(disk', sb) ==> b < y
  {
    hide TestBit;
    TakenBits(disk, sb, b, true, disk');
    assert b !in FreeBlocks(disk', sb);
    forall y | y in FreeBlocks(disk', sb)
      ensures b < y
    {
      assert y in FreeBlocks(disk, sb);
    }
  }

  lemma SameFree(disk: Disk, disk': Disk, sb: Super)
    requires sb.Ok(disk) && sb.Ok(disk') && forall b :: sb.bmapstart <= b < sb.DataStart() ==> disk'[b] == disk[b]
    ensures FreeBlocks(disk', sb) == FreeBlocks(disk, sb)
  {
  }

  lemma OneEmpty(s: Snap, r: Role)
    requires Shape(r, |s.mem|)
    ensures Empties(s, {r}) == if At(s, r) == 0 then {r} else {}
  {
  }

  lemma WordIs(mem: seq<Inode>, disk: Disk, p: Role, j: nat)
    requires Shape(Child(p, j), |mem|) && 0 != Ptr(mem, disk, p)
    ensures Ptr(mem, disk, p) < |disk| ==> Ptr(mem, disk, Child(p, j)) == GetWord(disk[Ptr(mem, disk, p)], j)
  {
  }

  // The two log_writes of balloc, and the one after it.
  lemma TakeOne(sb: Super, outstanding: nat, s: Snap, b: nat, m: nat)
    requires sb.Ok(s.disk) && b in FreeBlocks(s.disk, sb) && forall x :: x in FreeBlocks(s.disk, sb) ==> b <= x
    requires m == sb.bmapstart + b / BPB
    ensures CanLog(sb, outstanding, s.logged + {m}) ==> CanLog(sb, outstanding, s.logged)
    ensures Fits(sb, outstanding, s, 1, 0, {}) <==> CanLog(sb, outstanding, s.logged + {m})
    ensures Fits(sb, outstanding, s, 1, 1, {}) <==> CanLog(sb, outstanding, s.logged + {m} + {b})
  {
    hide FreeBlocks, FirstOf, Super.Ok, MapBlocks, BlocksIn;
    LowestOne(FreeBlocks(s.disk, sb), b);
    MapOne(sb, b);
    NoBlocks(s.owner);
    SubsetCount(s.logged, s.logged + {m});
    assert Wrote(sb, s, 1, 0, {}) == s.logged + {m} && Wrote(sb, s, 1, 1, {}) == s.logged + {m} + {b};
  }

  lemma NoneFits(sb: Super, outstanding: nat, s: Snap)
    requires sb.Ok(s.disk) && FreeBlocks(s.disk, sb) == {}
    ensures !Fits(sb, outstanding, s, 1, 0, {})
  {
  }

  lemma LowestOne(free: set<nat>, b: nat)
    requires b in free && forall x :: x in free ==> b <= x
    ensures 1 <= |free| && FirstOf(free, 1) == {b} && FirstOf(free, 0) == {}
  {
    hide FirstOf, Least;
    FirstOfIs(free, {b});
    assert |{b}| == 1;
  }

  lemma MapOne(sb: Super, b: nat)
    ensures MapBlocks(sb, {b}) == {sb.bmapstart + b / BPB}
  {
  }

  lemma NoBlocks(o: map<nat, Role>)
    ensures BlocksIn(o, {}) == {}
  {
  }

  lemma FillOne(sb: Super, outstanding: nat, s: Snap, r: Role)
    requires sb.Ok(s.disk)
    ensures CanFill(sb, outstanding, s, {r}, r) <==> Fits(sb, outstanding, s, 1, if r.Root? then 0 else 1, {})
  {
    hide Fits;
    assert {r} - {r} == {} && Parents({}) == {};
  }

  // After bmap the data block can be logged.
  lemma WriteNow(sb: Super, outstanding: nat, s0: Snap, s: Snap, rs: set<Role>, data: set<Role>)
    requires Good(sb, s0) && Good(sb, s) && Filled(sb, s0, s, rs, data, {}) && sb.Ok(s0.disk)
    ensures CanWrite(sb, outstanding, s0, rs, data) <==> CanLog(sb, outstanding, s.logged)
  {
    hide Good, Filled, Wrote;
    FilledLogged(sb, s0, s, rs, data, {});
  }

  lemma LeafOnPath(i: nat, bn: nat)
    requires bn < MAXFILE
    ensures Leaf(i, bn) in PathRoles(i, bn)
  {
  }

  lemma {:induction false} LeavesMore(i: nat, lo: nat, mid: nat, hi: nat)
    requires mid <= hi <= MAXFILE
    ensures LeavesIn(i, lo, mid) <= LeavesIn(i, lo, hi)
    decreases hi
  {
    hide Leaf;
    if mid < hi {
      LeavesMore(i, lo, mid, hi - 1);
    }
  }

  // Bytes off..off+n can be written, and the inode as well if it has to be.
  ghost predicate CanSplice(sb: Super, outstanding: nat, s: Snap, i: nat, off: nat, n: nat, inode: bool)
    requires sb.Ok(s.disk) && n > 0 && off + n <= MAXBYTES
  {
    var lo, hi := off / BSIZE, EndBlock(off, n);
    CanWrite(sb, outstanding, s, Empties(s, PathsIn(i, lo, hi)), LeavesIn(i, lo, if inode then hi else hi - 1))
  }

  lemma SpliceLess(sb: Super, outstanding: nat, s: Snap, i: nat, off: nat, n: nat)
    requires sb.Ok(s.disk) && off + n <= MAXBYTES
    ensures n > 0 ==>
              (CanSplice(sb, outstanding, s, i, off, n, true) ==> CanSplice(sb, outstanding, s, i, off, n, false))
  {
    hide Empties, PathsIn, LeavesIn, CanWrite;
    var lo, hi := off / BSIZE, EndBlock(off, n);
    if n > 0 {
      LeavesMore(i, lo, hi - 1, hi);
      WriteLess(sb, outstanding, s, PathsIn(i, lo, hi), LeavesIn(i, lo, hi - 1), PathsIn(i, lo, hi),
                LeavesIn(i, lo, hi));
    }
  }

  // After the loop of writei the inode block can be logged.
  lemma SpliceNow(sb: Super, outstanding: nat, s0: Snap, s: Snap, i: nat, off: nat, n: nat)
    requires Good(sb, s0) && Good(sb, s) && sb.Ok(s0.disk) && n > 0 && off + n <= MAXBYTES
    requires var lo, hi := off / BSIZE, EndBlock(off, n);
             Filled(sb, s0, s, Empties(s0, PathsIn(i, lo, hi)), LeavesIn(i, lo, hi), {})
    ensures CanSplice(sb, outstanding, s0, i, off, n, true) <==> CanLog(sb, outstanding, s.logged)
  {
    hide Good, Filled, CanWrite, EndBlock, Empties, PathsIn, LeavesIn;
    var lo, hi := off / BSIZE, EndBlock(off, n);
    WriteNow(sb, outstanding, s0, s, Empties(s0, PathsIn(i, lo, hi)), LeavesIn(i, lo, hi));
  }

  lemma MapNone(sb: Super, outstanding: nat, s: Snap, i: nat, lo: nat)
    requires sb.Ok(s.disk) && i < |s.mem| && lo <= MAXFILE
    ensures CanMap(sb, outstanding, s, i, lo, lo)
  {
  }

  lemma FilledNone(sb: Super, s: Snap)
    requires sb.Ok(s.disk)
    ensures Filled(sb, s, s, {}, {}, {})
  {
    GrownNone(sb, s);
    assert BlocksIn(s.owner, {}) == {} && BlocksIn(s.owner, {} + Parents({}) + {}) == {} && MapBlocks(sb, {}) == {};
  }

  // The empty places of a, and after that of b.
  lemma FilledThen(sb: Super, s0: Snap, s1: Snap, s: Snap, a: set<Role>, data: set<Role>, b: set<Role>,
                   data': set<Role>)
    requires Good(sb, s1) && Good(sb, s)
    requires Filled(sb, s0, s1, Empties(s0, a), data, {}) && Filled(sb, s1, s, Empties(s1, b), data', {})
    ensures Filled(sb, s0, s, Empties(s0, a + b), data + data', {})
    ensures data == {} && data' == {} ==> Filled(sb, s0, s, Empties(s0, a + b), {}, {})
  {
    hide Good, Logs, Empties;
    assert data == {} && data' == {} ==> data + data' == {};
    FilledTrans(sb, s0, s1, s, Empties(s0, a), data, {}, Empties(s1, b), data', {});
    EmptiesAfter(sb, s0, s1, a, b);
    var none: set<nat> := {};
    assert none + none == none;
  }

  lemma NoPaths(s: Snap, i: nat, lo: nat)
    requires lo <= MAXFILE
    ensures PathsIn(i, lo, lo) == {} && LeavesIn(i, lo, lo) == {} && Empties(s, {}) == {}
  {
  }

  lemma NextEnd(start: nat, tot: nat, n: nat, total: nat)
    requires tot < total && n == if total - tot < BSIZE - (start + tot) % BSIZE then total - tot
                                 else BSIZE - (start + tot) % BSIZE
    ensures EndBlock(start, tot + n) == (start + tot) / BSIZE + 1 <= EndBlock(start, total)
    ensures tot + n < total ==> (start + tot + n) / BSIZE == (start + tot) / BSIZE + 1
  {
  }

  lemma PathsNext(i: nat, lo: nat, bn: nat, hi: nat)
    requires lo <= bn < hi <= MAXFILE
    ensures PathsIn(i, lo, bn + 1) == PathsIn(i, lo, bn) + PathRoles(i, bn)
    ensures LeavesIn(i, lo, bn + 1) == LeavesIn(i, lo, bn) + {Leaf(i, bn)}
    ensures PathsIn(i, lo, bn + 1) <= PathsIn(i, lo, hi)
  {
    PathsMore(i, lo, bn + 1, hi);
  }

  // The state of writei after tot bytes of src, in state s1, started in s: the
  // bytes are there, the places on the way to them are filled, and there was
  // room for the log_writes.
  ghost predicate Splicing(sb: Super, outstanding: nat, i: nat, off: nat, src: seq<Byte>, tot: nat, s: Snap, s1: Snap)
  {
    && tot <= |src| && off + |src| <= MAXBYTES && sb.Ok(s.disk) && i < |s.mem| == |s1.mem|
    && Progress(sb, i, off, src, tot, s.mem, s.disk, s1.mem, s1.disk)
    && Covered(s.disk, s.logged, s1.disk, s1.logged)
    && (tot < |src| ==> EndBlock(off, tot) == (off + tot) / BSIZE)
    && var lo, hi := off / BSIZE, EndBlock(off, tot);
       && Filled(sb, s, s1, Empties(s, PathsIn(i, lo, hi)), LeavesIn(i, lo, hi), {})
       && (tot > 0 ==> CanSplice(sb, outstanding, s, i, off, tot, false))
  }

  lemma SplicingStart(sb: Super, outstanding: nat, i: nat, off: nat, src: seq<Byte>, s: Snap)
    requires off + |src| <= MAXBYTES && sb.Ok(s.disk) && i < |s.mem|
    ensures Splicing(sb, outstanding, i, off, src, 0, s, s)
  {
    hide Progress, Filled, Covered, Empties, PathsIn, LeavesIn;
    ProgressStart(sb, i, off, src, s.mem, s.disk);
    FilledNone(sb, s);
    NoPaths(s, i, off / BSIZE);
    CoveredSame(s.disk, s.logged);
  }

  // The next block can be written iff all so far and it can.
  lemma SplicingMay(sb: Super, outstanding: nat, i: nat, off: nat, src: seq<Byte>, tot: nat, n: nat, s: Snap, s1: Snap)
    requires Splicing(sb, outstanding, i, off, src, tot, s, s1) && Good(sb, s) && Good(sb, s1) && tot < |src|
    requires n == if |src| - tot < BSIZE - (off + tot) % BSIZE then |src| - tot else BSIZE - (off + tot) % BSIZE
    ensures (off + tot) / BSIZE < MAXFILE && off + tot + n <= MAXBYTES && 0 < n && sb.Ok(s1.disk)
    ensures var ok := CanWrite(sb, outstanding, s1, Empties(s1, PathRoles(i, (off + tot) / BSIZE)), {});
            && (ok <==> CanSplice(sb, outstanding, s, i, off, tot + n, false))
            && (!ok ==> !CanSplice(sb, outstanding, s, i, off, |src|, false))
  {
    hide Progress, Filled, Covered, Empties, PathsIn, LeavesIn, CanWrite, Good, PathRoles, EndBlock;
    var lo, bn, hi := off / BSIZE, (off + tot) / BSIZE, EndBlock(off, |src|);
    NextEnd(off, tot, n, |src|);
    PathsNext(i, lo, bn, hi);
    GoodOwned(sb, s1);
    WriteThen(sb, outstanding, s, s1, PathsIn(i, lo, bn), LeavesIn(i, lo, bn), PathRoles(i, bn));
    LeavesMore(i, lo, bn, hi - 1);
    WriteLess(sb, outstanding, s, PathsIn(i, lo, bn + 1), LeavesIn(i, lo, bn), PathsIn(i, lo, hi),
              LeavesIn(i, lo, hi - 1));
  }

  // It was written: bmap led to disk d1, memmove and log_write to s2.
  lemma SplicingNext(sb: Super, outstanding: nat, i: nat, off: nat, src: seq<Byte>, tot: nat, n: nat, s: Snap, s1: Snap,
                     d1: Disk, s2: Snap)
    requires Splicing(sb, outstanding, i, off, src, tot, s, s1) && Good(sb, s1) && Good(sb, s2) && tot < |src|
    requires n == if |src| - tot < BSIZE - (off + tot) % BSIZE then |src| - tot else BSIZE - (off + tot) % BSIZE
    requires off + tot + n <= MAXBYTES && 0 < n && CanSplice(sb, outstanding, s, i, off, tot + n, false)
    requires |s2.mem| == |s1.mem| && Owned(s2.mem, d1, sb, s2.owner) && (off + tot) / BSIZE < MAXFILE
    requires Extends(i, s1.mem, s1.disk, s1.owner, s2.mem, d1, s2.owner, sb)
    requires var bn := (off + tot) / BSIZE;
             var b := Ptr(s2.mem, d1, Leaf(i, bn));
             && 0 != b < |d1| && sb.DataStart() <= b
             && s2.disk == d1[b := Patch(d1[b], (off + tot) % BSIZE, src[tot..tot + n])]
             && (s1.mem[i].addrs[RootSlot(bn)] != 0 ==> s2.mem == s1.mem)
             && Filled(sb, s1, s2, Empties(s1, PathRoles(i, bn)), {Leaf(i, bn)}, {})
    requires Covered(s1.disk, s1.logged, s2.disk, s2.logged)
    ensures Splicing(sb, outstanding, i, off, src, tot + n, s, s2)
  {
    hide Owned, BitmapOk, Extends, Progress, Filled, Covered, Empties, PathsIn, LeavesIn, CanSplice, PathRoles,
      EndBlock, Leaf, Ptr, RootSlot;
    var lo, bn, hi := off / BSIZE, (off + tot) / BSIZE, EndBlock(off, |src|);
    NextEnd(off, tot, n, |src|);
    PathsNext(i, lo, bn, hi);
    FilledThen(sb, s, s1, s2, PathsIn(i, lo, bn), LeavesIn(i, lo, bn), PathRoles(i, bn), {Leaf(i, bn)});
    CoveredTrans(s.disk, s.logged, s1.disk, s1.logged, s2.disk, s2.logged);
    ProgressStep(sb, i, off, src, tot, n, s.mem, s.disk, s1.mem, s1.disk, s1.owner, s2.mem, d1, s2.owner, s2.disk);
  }

  lemma SplicingDone(sb: Super, outstanding: nat, i: nat, off: nat, src: seq<Byte>, s: Snap, s1: Snap)
    requires Splicing(sb, outstanding, i, off, src, |src|, s, s1)
    ensures Progress(sb, i, off, src, |src|, s.mem, s.disk, s1.mem, s1.disk) && sb.Ok(s.disk)
    ensures Covered(s.disk, s.logged, s1.disk, s1.logged)
    ensures var lo, hi := off / BSIZE, EndBlock(off, |src|);
            Filled(sb, s, s1, Empties(s, PathsIn(i, lo, hi)), LeavesIn(i, lo, hi), {})
    ensures |src| > 0 ==> CanSplice(sb, outstanding, s, i, off, |src|, false)
  {
    hide Progress, Filled, Covered, Empties, PathsIn, LeavesIn, CanSplice;
  }

  // The inode block, when writei has to log it.
  function InodeLogged(sb: Super, i: nat, size: nat, off: nat, n: nat): set<nat> {
    if n > 0 && off + n > size then {Iblock(sb, i)} else {}
  }

  lemma FilledEnd(sb: Super, s0: Snap, s1: Snap, s: Snap, rs: set<Role>, data: set<Role>, meta: set<nat>)
    requires Good(sb, s1) && Good(sb, s) && Filled(sb, s0, s1, rs, data, {}) && Filled(sb, s1, s, {}, {}, meta)
    ensures Filled(sb, s0, s, rs, data, meta)
  {
    hide Good, Filled;
    FilledTrans(sb, s0, s1, s, rs, data, {}, {}, {}, meta);
    assert rs + {} == rs && data + {} == data && {} + meta == meta;
  }

  // The block of a leaf was written and logged.
  lemma FilledData(sb: Super, s0: Snap, s1: Snap, s: Snap, rs: set<Role>, leaf: Role)
    requires Good(sb, s1) && Good(sb, s) && Filled(sb, s0, s1, rs, {}, {}) && |s.disk| == |s1.disk|
    requires s.mem == s1.mem && s.owner == s1.owner && Shape(leaf, |s.mem|) && At(s1, leaf) != 0
    requires s.logged == s1.logged + {At(s1, leaf)}
    requires forall x :: Shape(x, |s.mem|) ==> At(s, x) == At(s1, x)
    requires forall b :: 0 <= b < |s.disk| && InBitmap(sb, b) ==> s.disk[b] == s1.disk[b]
    ensures Filled(sb, s0, s, rs, {leaf}, {})
  {
    hide Filled, BitmapOk;
    LeafBlock(sb, s, leaf);
    FilledWrite(sb, s1, s, {leaf}, {});
    var none: set<Role>, nothing: set<nat> := {}, {};
    FilledTrans(sb, s0, s1, s, rs, none, nothing, none, {leaf}, nothing);
    assert rs + none == rs && none + {leaf} == {leaf} && nothing + nothing == nothing;
  }

  // The size set, a finished write has spliced src into the file and kept dense
  // files dense.
  lemma WriteDone(sb: Super, i: nat, off: nat, src: seq<Byte>, s0: Snap, s1: Snap, s: Snap)
    requires Progress(sb, i, off, src, |src|, s0.mem, s0.disk, s1.mem, s1.disk) && SizesOk(s0.mem)
    requires Owned(s1.mem, s1.disk, sb, s1.owner) && i < |s0.mem| == |s1.mem| && off <= s0.mem[i].size
    requires |s.disk| == |s1.disk| && forall x :: sb.DataStart() <= x < |s.disk| ==> s.disk[x] == s1.disk[x]
    requires var size := if |src| > 0 && off + |src| > s0.mem[i].size then off + |src| else s0.mem[i].size;
             s.mem == s1.mem[i := s1.mem[i].(size := size)]
    ensures SizesOk(s.mem) && |s.mem| == |s0.mem|
    ensures Content(s.mem, s.disk, i) == Splice(Content(s0.mem, s0.disk, i), off, src)
    ensures forall f :: 0 <= f < |s.mem| && f != i ==>
              s.mem[f].size == s0.mem[f].size && Content(s.mem, s.disk, f) == Content(s0.mem, s0.disk, f)
    ensures forall f :: 0 <= f < |s.mem| && Dense(s0.mem, s0.disk, f) ==> Dense(s.mem, s.disk, f)
  {
    hide Owned, Progress, ByteAt, Leaf, Ptr, Content, Dense, Splice;
    MetaChange(s1.mem, s1.disk, s.mem, s.disk, sb, s1.owner);
    ProgressMem(sb, i, off, src, |src|, s0.mem, s0.disk, s1.mem, s1.disk);
    WriteSplices(sb, i, off, src, s0.mem, s0.disk, s1.mem, s1.disk, s.mem, s.disk);
    forall f | 0 <= f < |s.mem| && Dense(s0.mem, s0.disk, f)
      ensures Dense(s.mem, s.disk, f)
    {
      WriteDense(sb, i, off, src, s0.mem, s0.disk, s1.mem, s1.disk, s.mem, s.disk, f);
    }
  }

  // The dinodes of all files but i.
  ghost predicate DinodesKept(sb: Super, i: nat, d0: Disk, d: Disk) {
    forall f :: 0 <= f < sb.ninodes && f != i && Iblock(sb, f) < |d| == |d0| ==>
      GetInode(d[Iblock(sb, f)], f % IPB) == GetInode(d0[Iblock(sb, f)], f % IPB)
  }

  // Besides file i, the inodes are as before, in memory and on disk, and so are
  // the blocks before the inode blocks.
  ghost predicate Aside(sb: Super, i: nat, s0: Snap, s: Snap) {
    && sb.Ok(s0.disk) && sb.Ok(s.disk) && |s.mem| == |s0.mem| == sb.ninodes
    && (forall f :: 0 <= f < |s.mem| && f != i ==> s.mem[f] == s0.mem[f])
    && DinodesKept(sb, i, s0.disk, s.disk)
    && (forall b :: 0 <= b < sb.inodestart ==> s.disk[b] == s0.disk[b])
  }

  lemma WriteAside(sb: Super, i: nat, off: nat, src: seq<Byte>, s0: Snap, s1: Snap, s: Snap)
    requires Progress(sb, i, off, src, |src|, s0.mem, s0.disk, s1.mem, s1.disk) && |s.mem| == |s1.mem| == sb.ninodes
    requires sb.Ok(s0.disk) && sb.Ok(s.disk) && |s.disk| == |s1.disk| && DinodesKept(sb, i, s1.disk, s.disk)
    requires forall f :: 0 <= f < |s.mem| && f != i ==> s.mem[f] == s1.mem[f]
    requires forall b :: 0 <= b < |s.disk| && b != Iblock(sb, i) ==> s.disk[b] == s1.disk[b]
    ensures Aside(sb, i, s0, s)
  {
    hide ByteAt, Leaf, Ptr, GetInode, Present, RootsPresent;
  }

  // From s0 to s, src was spliced into file i at off. The other files are as
  // they were and dense files are dense. The inode on disk falls behind exactly
  // when the file did not grow and a slot of addrs was empty.
  ghost predicate Spliced(sb: Super, i: nat, off: nat, src: seq<Byte>, s0: Snap, s: Snap) {
    && i < |s0.mem| && SizesOk(s0.mem) && SizesOk(s.mem) && off <= s0.mem[i].size && Aside(sb, i, s0, s)
    && Content(s.mem, s.disk, i) == Splice(Content(s0.mem, s0.disk, i), off, src)
    && (forall f :: 0 <= f < |s.mem| && f != i ==>
          Content(s.mem, s.disk, f) == Content(s0.mem, s0.disk, f))
    && (forall f :: 0 <= f < |s.mem| && Dense(s0.mem, s0.disk, f) ==> Dense(s.mem, s.disk, f))
    && (Flushed(s0.mem, s0.disk, sb, i) ==>
          (Flushed(s.mem, s.disk, sb, i) <==>
             |src| == 0 || off + |src| > s0.mem[i].size || RootsPresent(s0.mem, i, off, off + |src|)))
  }

  // The state after the loop of writei is s1, with the size set it is s.
  lemma WriteSpliced(sb: Super, i: nat, off: nat, src: seq<Byte>, s0: Snap, s1: Snap, s: Snap)
    requires Progress(sb, i, off, src, |src|, s0.mem, s0.disk, s1.mem, s1.disk) && SizesOk(s0.mem)
    requires Owned(s1.mem, s1.disk, sb, s1.owner) && i < |s0.mem| && off <= s0.mem[i].size && |s.mem| == sb.ninodes
    requires sb.Ok(s0.disk) && sb.Ok(s.disk) && |s.disk| == |s1.disk| && DinodesKept(sb, i, s1.disk, s.disk)
    requires forall b :: 0 <= b < |s.disk| && b != Iblock(sb, i) ==> s.disk[b] == s1.disk[b]
    requires if |src| > 0 && off + |src| > s0.mem[i].size
             then s.mem == s1.mem[i := s1.mem[i].(size := off + |src|)] && Flushed(s.mem, s.disk, sb, i)
             else s.mem == s1.mem && s.disk == s1.disk
    ensures Spliced(sb, i, off, src, s0, s)
  {
    hide Owned, Progress, Content, Dense, Splice, RootsPresent, GetInode, Aside, DinodesKept;
    ProgressMem(sb, i, off, src, |src|, s0.mem, s0.disk, s1.mem, s1.disk);
    assert Iblock(sb, i) < sb.bmapstart;
    WriteDone(sb, i, off, src, s0, s1, s);
    WriteAside(sb, i, off, src, s0, s1, s);
    AsideOk(sb, i, s0, s);
    if Flushed(s0.mem, s0.disk, sb, i) {
      StaleExactly(sb, i, off, src, s0.mem, s0.disk, s1.mem, s1.disk, s1.owner);
    }
  }

  lemma SplicedSizes(sb: Super, i: nat, off: nat, src: seq<Byte>, s0: Snap, s: Snap)
    requires Spliced(sb, i, off, src, s0, s)
    ensures SizesOk(s.mem) && |s.mem| == |s0.mem|
  {
    hide Content, Dense, Splice, GetInode;
  }

  lemma SameDinodes(sb: Super, i: nat, d: Disk)
    ensures DinodesKept(sb, i, d, d)
  {
  }

  lemma AsideOk(sb: Super, i: nat, s0: Snap, s: Snap)
    requires Aside(sb, i, s0, s)
    ensures sb.Ok(s0.disk) && sb.Ok(s.disk) && |s.mem| == |s0.mem| == sb.ninodes
  {
  }

  lemma RootAt(m: seq<Inode>, i: nat, lo: nat, hi: nat, bn: nat)
    requires i < |m| && lo / BSIZE <= bn < MAXFILE && bn * BSIZE < hi
    ensures RootsPresent(m, i, lo, hi) ==> m[i].addrs[RootSlot(bn)] != 0
  {
  }

  lemma HolesPanic(sb: Super, s: Snap, i: nat, off: nat, n: nat)
    requires sb.Ok(s.disk) && i < |s.mem| && off + n <= MAXBYTES
    ensures n > 0 ==> (CanMap(sb, 0, s, i, off / BSIZE, EndBlock(off, n)) <==> Present(s.mem, s.disk, i, off, off + n))
  {
    hide Leaf, Ptr;
    MapOutside(sb, s, i, off / BSIZE, EndBlock(off, n));
    if n > 0 {
      assert forall bn :: off / BSIZE <= bn < MAXFILE && bn * BSIZE < off + n <==> off / BSIZE <= bn < EndBlock(off, n);
    }
  }

  // readi does not write the inode back.
  lemma ReadStale(sb: Super, i: nat, off: nat, n: nat, dst: seq<Byte>, m0: seq<Inode>, d0: Disk, o0: map<nat, Role>,
                  m: seq<Inode>, d: Disk, o: map<nat, Role>)
    requires Reading(sb, i, off, n, dst, m0, d0, o0, m, d, o) && Owned(m, d, sb, o) && |dst| == n > 0
    requires Iblock(sb, i) < sb.bmapstart && Iblock(sb, i) < |d0| == |d| && Flushed(m0, d0, sb, i)
    requires RootsPresent(m0, i, off, off + n) ==> m == m0
    ensures Flushed(m, d, sb, i) <==> RootsPresent(m0, i, off, off + n)
  {
    hide ByteAt, GetInode, Owned, Leaf, Ptr;
    ExtendsMem(i, m0, d0, o0, m, d, o, sb);
    if !RootsPresent(m0, i, off, off + n) {
      var bn :| off / BSIZE <= bn < MAXFILE && bn * BSIZE < off + n && m0[i].addrs[RootSlot(bn)] == 0;
      PathAllocated(m, d, sb, o, i, bn);
      assert m[i].addrs[RootSlot(bn)] != m0[i].addrs[RootSlot(bn)];
    }
  }

  lemma AttachedBitmap(disk: Disk, sb: Super, owner: map<nat, Role>, b: nat, r: Role)
    requires sb.Ok(disk) && BitmapOk(disk, sb, owner, {b})
    ensures BitmapOk(disk, sb, owner[b := r], {})
  {
  }

  // balloc of b, from disk d to d1, and the store of b in the empty slot k of
  // inode i.
  lemma RootAttached(mem: seq<Inode>, d: Disk, d1: Disk, sb: Super, o: map<nat, Role>, i: nat, k: nat, b: Word)
    requires Owned(mem, d, sb, o) && i < |mem| && k < NDIRECT + 2 && mem[i].addrs[k] == 0
    requires sb.Ok(d) && |d1| == |d| && sb.DataStart() <= b < |d| && b !in o && d1[b] == ZeroBlock()
    requires BitmapOk(d1, sb, o, {b})
    requires forall x :: 0 <= x < |d| && x != b && !InBitmap(sb, x) ==> d1[x] == d[x]
    ensures var m := PutRoot(mem, i, k, b); var o' := o[b := Root(i, k)];
            && Owned(m, d1, sb, o') && BitmapOk(d1, sb, o', {}) && Extends(i, mem, d, o, m, d1, o', sb)
            && Ptr(m, d1, Root(i, k)) == b
            && forall r :: Shape(r, |mem|) && r != Root(i, k) ==> Ptr(m, d1, r) == Ptr(mem, d, r)
  {
    hide Owned, BitmapOk, Extends, SameIndex;
    OwnedBounds(mem, d, sb, o);
    SameOwned(mem, d, d1, sb, o) by { BallocSameIndex(mem, d, d1, sb, o, b); }
    PutRootOwned(mem, d1, sb, o, i, k, b);
    AttachedBitmap(d1, sb, o, b, Root(i, k));
    ExtendsOne(i, mem, d, o, PutRoot(mem, i, k, b), d1, sb, b, Root(i, k));
  }

  // balloc of b, from disk d to d1, and the store of b in the empty word j of
  // index block q.
  lemma ChildAttached(mem: seq<Inode>, d: Disk, d1: Disk, d2: Disk, sb: Super, o: map<nat, Role>, p: Role, q: nat,
                      j: nat, b: Word)
    requires Owned(mem, d, sb, o) && Shape(Child(p, j), |mem|) && q == Ptr(mem, d, p) != 0 &&
             Ptr(mem, d, Child(p, j)) == 0
    requires sb.Ok(d) && |d1| == |d| && sb.DataStart() <= b < |d| && b !in o && d1[b] == ZeroBlock() &&
             BitmapOk(d1, sb, o, {b})
    requires forall x :: 0 <= x < |d| && x != b && !InBitmap(sb, x) ==> d1[x] == d[x]
    requires q < |d| && d2 == d1[q := PutWord(d1[q], j, b)]
    ensures Owned(mem, d2, sb, o[b := Child(p, j)]) && BitmapOk(d2, sb, o[b := Child(p, j)], {})
    ensures Extends(InodeOf(p), mem, d, o, mem, d2, o[b := Child(p, j)], sb)
    ensures Ptr(mem, d2, Child(p, j)) == b
    ensures forall r :: Shape(r, |mem|) && r != Child(p, j) ==> Ptr(mem, d2, r) == Ptr(mem, d, r)
  {
    hide Owned, BitmapOk, Extends, SameIndex;
    OwnedPlace(mem, d, sb, o, p);
    OwnedBounds(mem, d, sb, o);
    SameOwned(mem, d, d1, sb, o) by { BallocSameIndex(mem, d, d1, sb, o, b); }
    PutChildOwned(mem, d1, sb, o, p, j, b);
    IndexWrite(d1, d2, sb, o, q, b);
    AttachedBitmap(d2, sb, o, b, Child(p, j));
    ExtendsOne(InodeOf(p), mem, d, o, mem, d2, sb, b, Child(p, j));
  }

  // A data block write leaves the bitmap as it is.
  lemma DataWriteBitmap(disk: Disk, disk': Disk, sb: Super, owner: map<nat, Role>)
    requires sb.Ok(disk) && BitmapOk(disk, sb, owner, {}) && |disk'| == |disk|
    requires forall x :: 0 <= x < sb.DataStart() ==> disk'[x] == disk[x]
    ensures BitmapOk(disk', sb, owner, {})
  {
  }

  // Changing sizes and inode blocks keeps the block trees and the bitmap.
  lemma InodeWrite(m: seq<Inode>, m': seq<Inode>, d: Disk, d': Disk, sb: Super, o: map<nat, Role>, loose: set<nat>)
    requires sb.Ok(d) && Owned(m, d, sb, o) && BitmapOk(d, sb, o, loose) && |d'| == |d| && |m'| == |m|
    requires forall f :: 0 <= f < |m| ==> m'[f].addrs == m[f].addrs
    requires forall x :: sb.bmapstart <= x < |d| ==> d'[x] == d[x]
    ensures Owned(m', d', sb, o) && BitmapOk(d', sb, o, loose)
  {
    hide Owned;
    MetaChange(m, d, m', d', sb, o);
  }

  lemma ProgressMem(sb: Super, i: nat, off: nat, src: seq<Byte>, tot: nat, m0: seq<Inode>, d0: Disk, m: seq<Inode>,
                    d: Disk)
    requires Progress(sb, i, off, src, tot, m0, d0, m, d)
    ensures i < |m| == |m0| && |d| == |d0| && m[i] == m0[i].(addrs := m[i].addrs)
    ensures forall f :: 0 <= f < |m| && f != i ==> m[f] == m0[f]
  {
  }

  // What the tests at the head of writei amount to, though the sum may wrap.
  predicate Refused(size: Word, off: Word, n: nat) { off > size || off + n > MAXBYTES }

  // The state of readi after tot of n bytes, started in state m0, d0, o0.
  ghost predicate Reading(sb: Super, i: nat, off: nat, n: nat, dst: seq<Byte>, m0: seq<Inode>, d0: Disk,
                          o0: map<nat, Role>, m: seq<Inode>, d: Disk, o: map<nat, Role>)
  {
    && Extends(i, m0, d0, o0, m, d, o, sb) && i < |m0| == |m| && |dst| <= n && off + n <= m0[i].size <= MAXBYTES
    && (forall j :: 0 <= j < |dst| ==> dst[j] == ByteAt(m0, d0, i, off + j))
    && (|dst| > 0 ==> Present(m, d, i, off, off + |dst|))
    && (Present(m0, d0, i, off, off + n) ==> m == m0 && d == d0 && o == o0)
  }

  lemma PresentAt(m: seq<Inode>, d: Disk, i: nat, lo: nat, hi: nat, x: nat)
    requires i < |m| && lo <= x < hi <= MAXBYTES && Present(m, d, i, lo, hi)
    ensures Ptr(m, d, Leaf(i, x / BSIZE)) != 0
  {
  }

  lemma ReadStart(sb: Super, i: nat, off: nat, n: nat, m: seq<Inode>, d: Disk, o: map<nat, Role>)
    requires i < |m| && off + n <= m[i].size <= MAXBYTES
    ensures Reading(sb, i, off, n, [], m, d, o, m, d, o)
  {
    ExtendsSelf(i, m, d, o, sb);
  }

  lemma ReadingExtends(sb: Super, i: nat, off: nat, n: nat, dst: seq<Byte>, m0: seq<Inode>, d0: Disk,
                       o0: map<nat, Role>, m: seq<Inode>, d: Disk, o: map<nat, Role>)
    requires Reading(sb, i, off, n, dst, m0, d0, o0, m, d, o)
    ensures Extends(i, m0, d0, o0, m, d, o, sb) && |m| == |m0|
  {
  }

  // The bytes found in a block are those the file had at the start.
  lemma PieceBytes(i: nat, m0: seq<Inode>, d0: Disk, o0: map<nat, Role>, m: seq<Inode>, d: Disk, o: map<nat, Role>,
                   sb: Super, x: nat, k: nat)
    requires Extends(i, m0, d0, o0, m, d, o, sb) && Owned(m0, d0, sb, o0) && Owned(m, d, sb, o)
    requires i < |m| == |m0| && x % BSIZE + k <= BSIZE && x + k <= MAXBYTES && 0 < k
    requires var b := Ptr(m, d, Leaf(i, x / BSIZE)); 0 != b < |d|
    ensures var b := Ptr(m, d, Leaf(i, x / BSIZE));
            forall y :: x <= y < x + k ==> d[b][x % BSIZE + y - x] == ByteAt(m0, d0, i, y)
  {
    hide Owned, Ptr, Leaf, Extends;
    forall y | x <= y < x + k
      ensures d[Ptr(m, d, Leaf(i, x / BSIZE))][x % BSIZE + y - x] == ByteAt(m0, d0, i, y)
    {
      assert y / BSIZE == x / BSIZE && y % BSIZE == x % BSIZE + y - x;
      ExtendsByteAt(i, m0, d0, o0, m, d, o, sb, i, y);
    }
  }

  lemma PiecePtrs(i: nat, m: seq<Inode>, d: Disk, o: map<nat, Role>, m': seq<Inode>, d': Disk, o': map<nat, Role>,
                  sb: Super)
    requires Extends(i, m, d, o, m', d', o', sb) && Owned(m, d, sb, o) && Owned(m', d', sb, o') && |m| == |m'|
    ensures forall f, b :: 0 <= f < |m| && 0 <= b < MAXFILE && Ptr(m, d, Leaf(f, b)) != 0 ==>
              Ptr(m', d', Leaf(f, b)) == Ptr(m, d, Leaf(f, b))
  {
    hide Owned, Ptr, Leaf, Extends;
    forall f, b | 0 <= f < |m| && 0 <= b < MAXFILE && Ptr(m, d, Leaf(f, b)) != 0
      ensures Ptr(m', d', Leaf(f, b)) == Ptr(m, d, Leaf(f, b))
    {
      ExtendsStable(i, m, d, o, m', d', o', sb, Leaf(f, b));
    }
  }

  lemma ReadStep(sb: Super, i: nat, off: nat, n: nat, dst: seq<Byte>, piece: seq<Byte>, m0: seq<Inode>, d0: Disk,
                 o0: map<nat, Role>, m: seq<Inode>, d: Disk, o: map<nat, Role>, m': seq<Inode>, d': Disk,
                 o': map<nat, Role>, bn: nat, b: nat)
    requires Reading(sb, i, off, n, dst, m0, d0, o0, m, d, o) && Extends(i, m, d, o, m', d', o', sb)
    requires Owned(m0, d0, sb, o0) && Owned(m, d, sb, o) && Owned(m', d', sb, o') && |m'| == |m|
    requires 0 < |piece| && |dst| + |piece| <= n && (off + |dst|) % BSIZE + |piece| <= BSIZE
    requires bn == (off + |dst|) / BSIZE && bn < MAXFILE && Ptr(m', d', Leaf(i, bn)) == b && 0 != b < |d'|
    requires Ptr(m, d, Leaf(i, bn)) != 0 ==> m' == m && d' == d && o' == o
    requires forall y :: off + |dst| <= y < off + |dst| + |piece| ==> piece[y - off - |dst|] == ByteAt(m0, d0, i, y)
    ensures Reading(sb, i, off, n, dst + piece, m0, d0, o0, m', d', o')
  {
    hide Owned, Ptr, Leaf, Extends, ByteAt, Present;
    ExtendsTrans(i, m0, d0, o0, m, d, o, m', d', o', sb);
    PiecePtrs(i, m, d, o, m', d', o', sb);
    PresentStep(i, off, |dst|, |piece|, m, d, m', d');
    if Present(m0, d0, i, off, off + n) {
      PresentAt(m0, d0, i, off, off + n, off + |dst|);
    }
  }

  // One round of the loop of readi.
  lemma ReadNext(sb: Super, i: nat, off: nat, n: nat, dst: seq<Byte>, piece: seq<Byte>, s0: Snap, s1: Snap, s: Snap,
                 bn: nat, b: nat)
    requires Reading(sb, i, off, n, dst, s0.mem, s0.disk, s0.owner, s1.mem, s1.disk, s1.owner)
    requires Extends(i, s1.mem, s1.disk, s1.owner, s.mem, s.disk, s.owner, sb) && |s.mem| == |s1.mem|
    requires Owned(s0.mem, s0.disk, sb, s0.owner) && Owned(s1.mem, s1.disk, sb, s1.owner)
    requires Owned(s.mem, s.disk, sb, s.owner) && i < |s.mem|
    requires 0 < |piece| && |dst| + |piece| <= n && (off + |dst|) % BSIZE + |piece| <= BSIZE && off + n <= MAXBYTES
    requires bn == (off + |dst|) / BSIZE && bn < MAXFILE && Ptr(s.mem, s.disk, Leaf(i, bn)) == b && 0 != b < |s.disk|
    requires Ptr(s1.mem, s1.disk, Leaf(i, bn)) != 0 ==> s.mem == s1.mem && s.disk == s1.disk && s.owner == s1.owner
    requires piece == s.disk[b][(off + |dst|) % BSIZE..(off + |dst|) % BSIZE + |piece|]
    ensures Reading(sb, i, off, n, dst + piece, s0.mem, s0.disk, s0.owner, s.mem, s.disk, s.owner)
  {
    hide Owned, Ptr, Leaf, Extends, ByteAt, Present, Reading;
    ReadingExtends(sb, i, off, n, dst, s0.mem, s0.disk, s0.owner, s1.mem, s1.disk, s1.owner);
    ExtendsTrans(i, s0.mem, s0.disk, s0.owner, s1.mem, s1.disk, s1.owner, s.mem, s.disk, s.owner, sb);
    PieceBytes(i, s0.mem, s0.disk, s0.owner, s.mem, s.disk, s.owner, sb, off + |dst|, |piece|);
    ReadStep(sb, i, off, n, dst, piece, s0.mem, s0.disk, s0.owner, s1.mem, s1.disk, s1.owner, s.mem, s.disk, s.owner,
             bn, b);
  }

  // The state of readi with dst read, in state s1, started in s.
  ghost predicate Fetching(sb: Super, outstanding: nat, i: nat, off: nat, n: nat, dst: seq<Byte>, s: Snap, s1: Snap) {
    && |dst| <= n && off + n <= MAXBYTES && sb.Ok(s.disk) && i < |s.mem| == |s1.mem|
    && Reading(sb, i, off, n, dst, s.mem, s.disk, s.owner, s1.mem, s1.disk, s1.owner)
    && Covered(s.disk, s.logged, s1.disk, s1.logged)
    && (|dst| < n ==> EndBlock(off, |dst|) == (off + |dst|) / BSIZE)
    && Filled(sb, s, s1, Empties(s, PathsIn(i, off / BSIZE, EndBlock(off, |dst|))), {}, {})
    && CanMap(sb, outstanding, s, i, off / BSIZE, EndBlock(off, |dst|))
    && (RootsPresent(s.mem, i, off, off + n) ==> s1.mem == s.mem)
  }

  lemma FetchStart(sb: Super, outstanding: nat, i: nat, off: nat, n: nat, s: Snap)
    requires i < |s.mem| && off + n <= s.mem[i].size <= MAXBYTES && sb.Ok(s.disk)
    ensures Fetching(sb, outstanding, i, off, n, [], s, s)
  {
    hide Reading, Filled, Covered, Empties, PathsIn, CanMap, RootsPresent;
    ReadStart(sb, i, off, n, s.mem, s.disk, s.owner);
    FilledNone(sb, s);
    NoPaths(s, i, off / BSIZE);
    MapNone(sb, outstanding, s, i, off / BSIZE);
    CoveredSame(s.disk, s.logged);
  }

  // The next block can be had iff all so far and it can.
  lemma FetchMay(sb: Super, outstanding: nat, i: nat, off: nat, n: nat, dst: seq<Byte>, k: nat, s: Snap, s1: Snap)
    requires Fetching(sb, outstanding, i, off, n, dst, s, s1) && Good(sb, s) && Good(sb, s1) && |dst| < n
    requires k == if n - |dst| < BSIZE - (off + |dst|) % BSIZE then n - |dst| else BSIZE - (off + |dst|) % BSIZE
    ensures var bn := (off + |dst|) / BSIZE;
            && bn < MAXFILE && off + |dst| + k <= MAXBYTES && 0 < k && sb.Ok(s1.disk) && Leaf(i, bn) in PathRoles(i, bn)
            && var ok := CanHave(sb, outstanding, s1, PathRoles(i, bn), Leaf(i, bn));
               && (ok <==> CanMap(sb, outstanding, s, i, off / BSIZE, EndBlock(off, |dst| + k)))
               && (!ok ==> !CanMap(sb, outstanding, s, i, off / BSIZE, EndBlock(off, n)))
  {
    hide Reading, Filled, Covered, Empties, PathsIn, CanMap, CanHave, RootsPresent, Good, Leaf, PathRoles, EndBlock;
    var lo, bn := off / BSIZE, (off + |dst|) / BSIZE;
    NextEnd(off, |dst|, k, n);
    LeafOnPath(i, bn);
    GoodOwned(sb, s1);
    MapThen(sb, outstanding, s, s1, i, lo, bn);
    MapLess(sb, outstanding, s, i, lo, bn + 1, EndBlock(off, n));
  }

  // bmap found block b, in state s2.
  lemma FetchNext(sb: Super, outstanding: nat, i: nat, off: nat, n: nat, dst: seq<Byte>, piece: seq<Byte>, s: Snap,
                  s1: Snap, s2: Snap, b: nat)
    requires Fetching(sb, outstanding, i, off, n, dst, s, s1) && |dst| < n
    requires Good(sb, s) && Good(sb, s1) && Good(sb, s2) && |s2.mem| == |s1.mem| && |piece| > 0
    requires |piece| == if n - |dst| < BSIZE - (off + |dst|) % BSIZE then n - |dst| else BSIZE - (off + |dst|) % BSIZE
    requires var bn := (off + |dst|) / BSIZE;
             && bn < MAXFILE && Ptr(s2.mem, s2.disk, Leaf(i, bn)) == b && 0 != b < |s2.disk|
             && Filled(sb, s1, s2, Empties(s1, PathRoles(i, bn)), {}, {})
             && (Ptr(s1.mem, s1.disk, Leaf(i, bn)) != 0 ==> s2 == s1)
             && (s1.mem[i].addrs[RootSlot(bn)] != 0 ==> s2.mem == s1.mem)
    requires Extends(i, s1.mem, s1.disk, s1.owner, s2.mem, s2.disk, s2.owner, sb)
    requires Covered(s1.disk, s1.logged, s2.disk, s2.logged)
    requires piece == s2.disk[b][(off + |dst|) % BSIZE..(off + |dst|) % BSIZE + |piece|]
    requires EndBlock(off, |dst| + |piece|) <= MAXFILE
    requires CanMap(sb, outstanding, s, i, off / BSIZE, EndBlock(off, |dst| + |piece|))
    ensures Fetching(sb, outstanding, i, off, n, dst + piece, s, s2)
  {
    hide Owned, BitmapOk, Extends, Reading, Filled, Covered, Empties, PathsIn, CanMap, RootsPresent, Leaf, Ptr,
      PathRoles, EndBlock, RootSlot, Super.Ok;
    var lo, bn := off / BSIZE, (off + |dst|) / BSIZE;
    NextEnd(off, |dst|, |piece|, n);
    PathsNext(i, lo, bn, EndBlock(off, n));
    RootAt(s.mem, i, off, off + n, bn);
    FilledThen(sb, s, s1, s2, PathsIn(i, lo, bn), {}, PathRoles(i, bn), {});
    CoveredTrans(s.disk, s.logged, s1.disk, s1.logged, s2.disk, s2.logged);
    ReadNext(sb, i, off, n, dst, piece, s, s1, s2, bn, b);
  }

  lemma FetchDone(sb: Super, outstanding: nat, i: nat, off: nat, n: nat, dst: seq<Byte>, s: Snap, s1: Snap)
    requires Fetching(sb, outstanding, i, off, n, dst, s, s1) && |dst| == n
    ensures Reading(sb, i, off, n, dst, s.mem, s.disk, s.owner, s1.mem, s1.disk, s1.owner)
    ensures Covered(s.disk, s.logged, s1.disk, s1.logged) && sb.Ok(s.disk)
    ensures Filled(sb, s, s1, Empties(s, PathsIn(i, off / BSIZE, EndBlock(off, n))), {}, {})
    ensures CanMap(sb, outstanding, s, i, off / BSIZE, EndBlock(off, n))
    ensures RootsPresent(s.mem, i, off, off + n) ==> s1.mem == s.mem
  {
    hide Reading, Filled, Covered, Empties, PathsIn, CanMap, RootsPresent;
  }

  lemma ReadDone(sb: Super, i: nat, off: nat, dst: seq<Byte>, m0: seq<Inode>, d0: Disk, o0: map<nat, Role>,
                 m: seq<Inode>, d: Disk, o: map<nat, Role>)
    requires Reading(sb, i, off, |dst|, dst, m0, d0, o0, m, d, o) && Owned(m0, d0, sb, o0) && Owned(m, d, sb, o) &&
             SizesOk(m0)
    ensures |m| == |m0| && SizesOk(m) && dst == Content(m0, d0, i)[off..off + |dst|]
    ensures forall f :: 0 <= f < |m| ==> m[f].size == m0[f].size && Content(m, d, f) == Content(m0, d0, f)
    ensures |dst| > 0 ==> (Present(m0, d0, i, off, off + |dst|) <==> m == m0 && d == d0)
  {
    hide Owned, ByteAt, Ptr, Leaf;
    forall f | 0 <= f < |m|
      ensures m[f].size == m0[f].size && Content(m, d, f) == Content(m0, d0, f)
    {
      forall x | 0 <= x < m0[f].size
        ensures ByteAt(m, d, f, x) == ByteAt(m0, d0, f, x)
      {
        ExtendsByteAt(i, m0, d0, o0, m, d, o, sb, f, x);
      }
    }
  }

  class FileSys {
    const sb: Super
    var disk: Disk
    // The cached inodes (struct inode), by inode number.
    var mem: seq<Inode>

    ghost var owner: map<nat, Role>
    // Allocated blocks that no place points to yet.
    ghost var loose: set<nat>
    // The blocks in the log header (log.lh) and the operations outstanding
    // (log.outstanding). log_write panics with a full header, even for a block
    // that is in it, and when there is no operation.
    var logged: set<nat>
    var outstanding: nat

    ghost function Now(): Snap
      reads this
    {
      Snap(mem, disk, owner, logged)
    }

    ghost predicate Valid()
      reads this
    {
      && sb.Ok(disk) && |mem| == sb.ninodes
      && Owned(mem, disk, sb, owner)
      && BitmapOk(disk, sb, owner, loose)
      && (forall b :: b in loose ==> sb.DataStart() <= b < sb.size && b !in owner)
      && HeaderOk(sb, outstanding, logged)
    }

    constructor (sb: Super, disk: Disk, mem: seq<Inode>, ghost owner: map<nat, Role>)
      requires sb.Ok(disk) && |mem| == sb.ninodes && Owned(mem, disk, sb, owner) && BitmapOk(disk, sb, owner, {})
      ensures Valid() && this.sb == sb && this.disk == disk && this.mem == mem && this.owner == owner &&
              loose == {} && logged == {} && outstanding == 0
    {
      this.sb, this.disk, this.mem, this.owner, loose, logged, outstanding := sb, disk, mem, owner, {}, {}, 0;
    }

    // begin_op; false when it has to sleep for want of room in the log.
    method BeginOp() returns (admitted: bool)
      requires Valid()
      modifies this`outstanding
      ensures admitted <==> Admits(old(outstanding), logged)
      ensures Valid() && outstanding == old(outstanding) + if admitted then 1 else 0
    {
      admitted := |logged| + (outstanding + 1) * MAXOPBLOCKS <= LOGSIZE;
      if admitted {
        outstanding := outstanding + 1;
      }
    }

    // end_op. The last operation commits, which empties the header.
    method EndOp()
      requires Valid() && outstanding > 0
      modifies this`outstanding, this`logged
      ensures Valid() && outstanding == old(outstanding) - 1
      ensures logged == if outstanding == 0 then {} else old(logged)
    {
      outstanding := outstanding - 1;
      if outstanding == 0 {
        logged := {};
      }
    }

    // The search loops of balloc: the first free block, or size.
    method FindFree() returns (b: nat)
      requires sb.Ok(disk)
      ensures b <= sb.size
      ensures b < sb.size ==> !Used(disk, sb, b)
      ensures forall x :: 0 <= x < b ==> Used(disk, sb, x)
    {
      var base := 0;
      while base < sb.size
        invariant base % BPB == 0
        invariant forall x :: 0 <= x < base && x < sb.size ==> Used(disk, sb, x)
      {
        var bp := disk[sb.bmapstart + base / BPB];
        var bi := 0;
        while bi < BPB && base + bi < sb.size
          invariant 0 <= bi <= BPB
          invariant forall x :: 0 <= x < base + bi && x < sb.size ==> Used(disk, sb, x)
        {
          assert (base + bi) / BPB == base / BPB && (base + bi) % BPB == bi;
          if !TestBit(bp, bi) {
            return base + bi;
          }
          bi := bi + 1;
        }
        base := base + BPB;
      }
      return sb.size;
    }

    // balloc. It panics without a free block ("balloc: out of blocks"), and in
    // log_write for the bitmap block or for the new block.
    method Balloc() returns (ok: bool, b: nat)
      requires Valid()
      modifies this`disk, this`loose, this`logged
      ensures ok <==> Fits(sb, outstanding, old(Now()), 1, 0, {})
      ensures ok ==> Valid() && sb.DataStart() <= b < sb.size && b !in owner && b !in old(loose)
      ensures ok ==> loose == old(loose) + {b} && disk[b] == ZeroBlock()
      ensures ok ==> FreeBlocks(old(disk), sb) == FreeBlocks(disk, sb) + {b}
      ensures ok ==> forall y :: y in FreeBlocks(disk, sb) ==> b < y
      ensures ok ==> forall x :: 0 <= x < |disk| && x != b && !InBitmap(sb, x) ==> disk[x] == old(disk)[x]
      ensures ok ==> |disk| == |old(disk)| && logged == old(logged) + {sb.bmapstart + b / BPB} + {b}
      ensures ok ==> Covered(old(disk), old(logged), disk, logged)
      ensures ok ==> (CanLog(sb, outstanding, logged) <==> Fits(sb, outstanding, old(Now()), 1, 1, {}))
    {
      hide Owned, BitmapOk, FreeBlocks, Fits, CanLog, Covered, HeaderOk, PutBit, TestBit, Super.Ok, ZeroBlock, SizesOk,
        InBitmap;
      ghost var d, s := disk, Now();
      b := FindFree();
      FirstFree(disk, sb, b);
      if b == sb.size {
        NoneFits(sb, outstanding, s);
        return false, 0;
      }
      var m := sb.bmapstart + b / BPB;
      BitmapBlock(sb, disk, b);
      TakeOne(sb, outstanding, s, b, m);
      CoveredOne(disk, logged, m, PutBit(disk[m], b % BPB, true));
      disk := disk[m := PutBit(disk[m], b % BPB, true)];
      if !CanLog(sb, outstanding, logged) { // log_write(bp)
        return false, 0;
      }
      logged := logged + {m};
      CoveredOne(disk, logged, b, ZeroBlock());
      CoveredTrans(d, s.logged, disk, logged, disk[b := ZeroBlock()], logged + {b});
      disk := disk[b := ZeroBlock()]; // bzero
      if !CanLog(sb, outstanding, logged) {
        return false, 0;
      }
      HeaderGrows(sb, outstanding, logged, b);
      logged := logged + {b};
      assert logged == s.logged + {m} + {b};
      BallocDone(mem, d, disk, sb, owner, loose, b);
      loose := loose + {b};
      ok := true;
    }

    // bfree, which panics on a free block, and in log_write.
    method Bfree(b: nat) returns (ok: bool)
      requires sb.Ok(disk) && b < sb.size
      modifies this`disk, this`logged
      ensures ok <==> Used(old(disk), sb, b) && CanLog(sb, outstanding, old(logged))
      ensures !ok ==> disk == old(disk) && logged == old(logged)
      ensures ok ==> disk == Taken(old(disk), sb, b, false) && logged == old(logged) + MapBlocks(sb, {b})
      ensures Covered(old(disk), old(logged), disk, logged)
      ensures ok ==> HeaderOk(sb, outstanding, logged)
    {
      var m := sb.bmapstart + b / BPB;
      if !TestBit(disk[m], b % BPB) || !CanLog(sb, outstanding, logged) {
        return false;
      }
      disk := disk[m := PutBit(disk[m], b % BPB, false)];
      MapOne(sb, b);
      HeaderGrows(sb, outstanding, logged, m);
      logged := logged + {m};
      return true;
    }

    // The block in slot k of addrs, allocated if the slot is empty.
    method RootBlock(i: nat, k: nat) returns (ok: bool, addr: nat)
      requires Valid() && loose == {} && i < |mem| && k < NDIRECT + 2
      modifies this`mem, this`disk, this`owner, this`loose, this`logged
      ensures ok <==> CanHave(sb, outstanding, old(Now()), {Root(i, k)}, Root(i, k))
      ensures ok ==> Valid() && loose == {} && |mem| == |old(mem)| && addr != 0 && addr == Ptr(mem, disk, Root(i, k))
      ensures ok ==> Extends(i, old(mem), old(disk), old(owner), mem, disk, owner, sb)
      ensures ok ==> Filled(sb, old(Now()), Now(), Empties(old(Now()), {Root(i, k)}), {}, {})
      ensures ok ==> Covered(old(disk), old(logged), disk, logged)
      ensures old(mem)[i].addrs[k] != 0 ==> ok && Now() == old(Now())
    {
      hide Owned, BitmapOk, SameIndex, Extends, Covered, Filled, FreeBlocks, Fits, HeaderOk;
      ghost var s := Now();
      OneEmpty(s, Root(i, k));
      addr := mem[i].addrs[k];
      if addr != 0 {
        ExtendsSelf(i, mem, disk, owner, sb);
        FilledNone(sb, s);
        CoveredSame(disk, logged);
        return true, addr;
      }
      ghost var d, m, o := disk, mem, owner;
      FillOne(sb, outstanding, s, Root(i, k));
      ok, addr := Balloc();
      if !ok {
        return;
      }
      assert loose == {addr};
      RootAttached(mem, d, disk, sb, o, i, k, addr);
      mem := mem[i := mem[i].(addrs := mem[i].addrs[k := addr])];
      owner, loose := owner[addr := Root(i, k)], {};
      FilledOne(sb, s, Now(), Root(i, k), addr);
    }

    // The block in word j of index block q, allocated if the word is empty; q is
    // logged if it changed.
    method ChildBlock(ghost p: Role, q: nat, j: nat) returns (ok: bool, addr: nat)
      requires Shape(p, |mem|) && Height(p) > 0 && j < NINDIRECT && q == Ptr(mem, disk, p) != 0
      requires Valid() && loose == {}
      modifies this`disk, this`owner, this`loose, this`logged
      ensures ok <==> CanHave(sb, outstanding, old(Now()), {Child(p, j)}, Child(p, j))
      ensures ok ==> Valid() && loose == {} && addr != 0 && addr == Ptr(mem, disk, Child(p, j))
      ensures ok ==> Extends(InodeOf(p), mem, old(disk), old(owner), mem, disk, owner, sb)
      ensures ok ==> Filled(sb, old(Now()), Now(), Empties(old(Now()), {Child(p, j)}), {}, {})
      ensures ok ==> Covered(old(disk), old(logged), disk, logged)
      ensures Ptr(mem, old(disk), Child(p, j)) != 0 ==> ok && Now() == old(Now())
    {
      hide Owned, BitmapOk, SameIndex, Extends, Covered, Filled, FreeBlocks, Ptr, Fits, HeaderOk;
      ghost var s := Now();
      OneEmpty(s, Child(p, j));
      WordIs(mem, disk, p, j);
      OwnedPlace(mem, disk, sb, owner, p);
      addr := GetWord(disk[q], j);
      if addr != 0 {
        ExtendsSelf(InodeOf(p), mem, disk, owner, sb);
        FilledNone(sb, s);
        CoveredSame(disk, logged);
        return true, addr;
      }
      FillOne(sb, outstanding, s, Child(p, j));
      ok, addr := FillWord(p, q, j);
    }

    // balloc into the empty word j of index block q.
    method FillWord(ghost p: Role, q: nat, j: nat) returns (ok: bool, addr: nat)
      requires Shape(p, |mem|) && Height(p) > 0 && j < NINDIRECT && q == Ptr(mem, disk, p) && q != 0
      requires Valid() && loose == {} && q < |disk| && Ptr(mem, disk, Child(p, j)) == 0
      modifies this`disk, this`owner, this`loose, this`logged
      ensures ok <==> Fits(sb, outstanding, old(Now()), 1, 1, {})
      ensures ok ==> Valid() && loose == {} && addr != 0 && addr == Ptr(mem, disk, Child(p, j))
      ensures ok ==> Extends(InodeOf(p), mem, old(disk), old(owner), mem, disk, owner, sb)
      ensures ok ==> Filled(sb, old(Now()), Now(), {Child(p, j)}, {}, {})
      ensures ok ==> Covered(old(disk), old(logged), disk, logged)
    {
      hide Owned, BitmapOk, SameIndex, Extends, Covered, Filled, FreeBlocks, Ptr, Fits, HeaderOk, CanLog, PutWord;
      OwnedPlace(mem, disk, sb, owner, p);
      ghost var s, d, o, l := Now(), disk, owner, logged;
      FitsLess(sb, outstanding, s, 1, 0, {}, 1, 1, {});
      ok, addr := Balloc();
      if !ok || !CanLog(sb, outstanding, logged) { // log_write(bp)
        return false, addr;
      }
      assert loose == {addr};
      ghost var d1 := disk;
      CoveredOne(disk, logged, q, PutWord(disk[q], j, addr));
      CoveredTrans(d, l, disk, logged, disk[q := PutWord(disk[q], j, addr)], logged + {q});
      disk := disk[q := PutWord(disk[q], j, addr)];
      ChildAttached(mem, d, d1, disk, sb, o, p, q, j, addr);
      SameFree(d1, disk, sb);
      owner, loose := owner[addr := Child(p, j)], {};
      HeaderGrows(sb, outstanding, logged, q);
      logged := logged + {q};
      FilledOne(sb, s, Now(), Child(p, j), addr);
    }

    // bmap: the block of bn, allocated if need be; false when out of range or
    // without a block (both panic).
    method Bmap(i: nat, bn: nat) returns (ok: bool, addr: nat)
      requires Valid() && loose == {} && i < |mem|
      modifies this`mem, this`disk, this`owner, this`loose, this`logged
      ensures ok <==> bn < MAXFILE && CanHave(sb, outstanding, old(Now()), PathRoles(i, bn), Leaf(i, bn))
      ensures ok ==> Valid() && loose == {} && |mem| == |old(mem)| && addr != 0 && addr == Ptr(mem, disk, Leaf(i, bn))
      ensures ok && bn < NDIRECT ==> addr == mem[i].addrs[bn]
      ensures ok && NDIRECT <= bn < NDIRECT + NINDIRECT ==>
                var q := mem[i].addrs[NDIRECT];
                0 != q < |disk| && addr == GetWord(disk[q], bn - NDIRECT)
      ensures ok && NDIRECT + NINDIRECT <= bn ==>
                var m, q := bn - NDIRECT - NINDIRECT, mem[i].addrs[NDIRECT + 1];
                && 0 != q < |disk| && var q' := GetWord(disk[q], m / NINDIRECT);
                   0 != q' < |disk| && addr == GetWord(disk[q'], m % NINDIRECT)
      ensures ok ==> Extends(i, old(mem), old(disk), old(owner), mem, disk, owner, sb)
      ensures ok ==> Filled(sb, old(Now()), Now(), Empties(old(Now()), PathRoles(i, bn)), {}, {})
      ensures ok ==> Covered(old(disk), old(logged), disk, logged)
      ensures ok && old(mem)[i].addrs[RootSlot(bn)] != 0 ==> mem == old(mem)
      ensures bn < MAXFILE && Ptr(old(mem), old(disk), Leaf(i, bn)) != 0 ==> ok && Now() == old(Now())
    {
      hide Valid, Extends, Covered, Filled, CanFill, FreeBlocks, Empties;
      if bn < NDIRECT {
        ok, addr := RootBlock(i, bn);
      } else if bn < NDIRECT + NINDIRECT {
        ok, addr := SecondBlock(i, NDIRECT, bn - NDIRECT);
      } else if bn < MAXFILE {
        ok, addr := BmapDouble(i, bn - NDIRECT - NINDIRECT);
      } else {
        return false, 0;
      }
      if ok {
        LeafPtr(mem, disk, i, bn);
      }
    }

    // The block in word j of the index block in slot k of addrs.
    method SecondBlock(i: nat, k: nat, j: nat) returns (ok: bool, addr: nat)
      requires Valid() && loose == {} && i < |mem| && NDIRECT <= k < NDIRECT + 2 && j < NINDIRECT
      modifies this`mem, this`disk, this`owner, this`loose, this`logged
      ensures ok <==> CanHave(sb, outstanding, old(Now()), {Root(i, k), Child(Root(i, k), j)}, Child(Root(i, k), j))
      ensures ok ==> Valid() && loose == {} && |mem| == |old(mem)| && addr != 0
      ensures ok ==> addr == Ptr(mem, disk, Child(Root(i, k), j))
      ensures ok ==> Extends(i, old(mem), old(disk), old(owner), mem, disk, owner, sb)
      ensures ok ==> Filled(sb, old(Now()), Now(), Empties(old(Now()), {Root(i, k), Child(Root(i, k), j)}), {}, {})
      ensures ok ==> Covered(old(disk), old(logged), disk, logged)
      ensures ok && old(mem)[i].addrs[k] != 0 ==> mem == old(mem)
      ensures Ptr(old(mem), old(disk), Child(Root(i, k), j)) != 0 ==> ok && Now() == old(Now())
    {
      hide Valid, Extends, Owned, BitmapOk, Covered, Filled, CanFill, FreeBlocks, Empties;
      FilledGood();
      ghost var s, a, c := Now(), {Root(i, k)}, {Child(Root(i, k), j)};
      assert a + c == {Root(i, k), Child(Root(i, k), j)};
      assert mem[i].addrs[k] == 0 ==> Ptr(mem, disk, Child(Root(i, k), j)) == 0;
      ok, addr := RootBlock(i, k);
      if !ok {
        HaveLess(sb, outstanding, s, a, Root(i, k), Child(Root(i, k), j));
        return;
      }
      ghost var s1 := Now();
      FilledGood();
      HaveThen(sb, outstanding, s, s1, a, Child(Root(i, k), j));
      ok, addr := ChildBlock(Root(i, k), addr, j);
      if ok {
        FilledGood();
        ExtendsTrans(i, s.mem, s.disk, s.owner, s1.mem, s1.disk, s1.owner, mem, disk, owner, sb);
        FilledThen(sb, s, s1, Now(), a, {}, c, {});
        CoveredTrans(s.disk, s.logged, s1.disk, s1.logged, disk, logged);
      }
    }

    lemma DiskOk()
      requires Valid()
      ensures sb.Ok(disk)
    {
    }

    lemma AloneClean()
      requires Valid()
      ensures HeaderOk(sb, outstanding, logged) && (outstanding == 0 ==> logged == {})
    {
    }

    lemma FilledGood()
      requires Valid() && loose == {}
      ensures Good(sb, Now()) && sb.Ok(disk)
    {
    }

    method BmapDouble(i: nat, bn: nat) returns (ok: bool, addr: nat)
      requires Valid() && loose == {} && i < |mem| && bn < NDOUBLE
      modifies this`mem, this`disk, this`owner, this`loose, this`logged
      ensures var b := NDIRECT + NINDIRECT + bn;
              ok <==> CanHave(sb, outstanding, old(Now()), PathRoles(i, b), Leaf(i, b))
      ensures ok ==> Valid() && loose == {} && |mem| == |old(mem)| && addr != 0
      ensures ok ==> addr == Ptr(mem, disk, Leaf(i, NDIRECT + NINDIRECT + bn))
      ensures ok ==> Extends(i, old(mem), old(disk), old(owner), mem, disk, owner, sb)
      ensures ok ==> Filled(sb, old(Now()), Now(), Empties(old(Now()), PathRoles(i, NDIRECT + NINDIRECT + bn)), {}, {})
      ensures ok ==> Covered(old(disk), old(logged), disk, logged)
      ensures ok && old(mem)[i].addrs[NDIRECT + 1] != 0 ==> mem == old(mem)
      ensures Ptr(old(mem), old(disk), Leaf(i, NDIRECT + NINDIRECT + bn)) != 0 ==> ok && Now() == old(Now())
    {
      hide Valid, Extends, Owned, BitmapOk, Covered, Filled, CanFill, FreeBlocks, Empties;
      FilledGood();
      ghost var s := Now();
      var k, j := bn / NINDIRECT, bn % NINDIRECT;
      ghost var mid := Child(Root(i, NDIRECT + 1), k);
      assert Leaf(i, NDIRECT + NINDIRECT + bn) == Child(mid, j);
      assert Ptr(mem, disk, mid) == 0 ==> Ptr(mem, disk, Child(mid, j)) == 0;
      ghost var a, c := {Root(i, NDIRECT + 1), mid}, {Child(mid, j)};
      assert PathRoles(i, NDIRECT + NINDIRECT + bn) == a + c;
      ok, addr := SecondBlock(i, NDIRECT + 1, k);
      if !ok {
        HaveLess(sb, outstanding, s, a, mid, Child(mid, j));
        return;
      }
      ghost var s1 := Now();
      FilledGood();
      HaveThen(sb, outstanding, s, s1, a, Child(mid, j));
      ok, addr := ChildBlock(mid, addr, j);
      if ok {
        FilledGood();
        ExtendsTrans(i, s.mem, s.disk, s.owner, s1.mem, s1.disk, s1.owner, mem, disk, owner, sb);
        FilledThen(sb, s, s1, Now(), a, {}, c, {});
        CoveredTrans(s.disk, s.logged, s1.disk, s1.logged, disk, logged);
      }
    }

    // One round of the loop of writei: bmap, memmove, log_write. d1 is the disk
    // after bmap.
    method WriteBlock(i: nat, bn: nat, at: nat, bytes: seq<Byte>) returns (ok: bool, ghost d1: Disk)
      requires Valid() && loose == {} && i < |mem| && bn < MAXFILE && at + |bytes| <= BSIZE
      modifies this`mem, this`disk, this`owner, this`loose, this`logged
      ensures ok <==> CanWrite(sb, outstanding, old(Now()), Empties(old(Now()), PathRoles(i, bn)), {})
      ensures ok ==> Valid() && loose == {} && |mem| == |old(mem)| && Owned(mem, d1, sb, owner)
      ensures ok ==> Extends(i, old(mem), old(disk), old(owner), mem, d1, owner, sb)
      ensures ok ==> var b := Ptr(mem, d1, Leaf(i, bn));
                     0 != b < |d1| && sb.DataStart() <= b && disk == d1[b := Patch(d1[b], at, bytes)]
      ensures ok && old(mem)[i].addrs[RootSlot(bn)] != 0 ==> mem == old(mem)
      ensures ok ==> Filled(sb, old(Now()), Now(), Empties(old(Now()), PathRoles(i, bn)), {Leaf(i, bn)}, {})
      ensures ok ==> Covered(old(disk), old(logged), disk, logged)
    {
      hide Owned, BitmapOk, Covered, Extends, Leaf, Ptr, PathRoles, Filled, Empties, CanHave, CanWrite, FreeBlocks,
        HeaderOk;
      ghost var s, rs := Now(), Empties(Now(), PathRoles(i, bn));
      d1 := disk;
      FilledGood();
      LeafOnPath(i, bn);
      HaveWrite(sb, outstanding, s, PathRoles(i, bn), Leaf(i, bn), {});
      var b;
      ok, b := Bmap(i, bn);
      if !ok {
        return false, d1;
      }
      ghost var s1 := Now();
      FilledGood();
      WriteNow(sb, outstanding, s, s1, rs, {});
      if !CanLog(sb, outstanding, logged) { // log_write(bp)
        return false, d1;
      }
      d1 := disk;
      OwnedPlace(mem, disk, sb, owner, Leaf(i, bn));
      CoveredOne(disk, logged, b, Patch(disk[b], at, bytes));
      disk := disk[b := Patch(disk[b], at, bytes)];
      CoveredTrans(s.disk, s.logged, d1, logged, disk, logged + {b});
      DataWriteOwned(mem, d1, disk, sb, owner, b, Leaf(i, bn));
      DataWriteBitmap(d1, disk, sb, owner);
      HeaderGrows(sb, outstanding, logged, b);
      logged := logged + {b};
      FilledGood();
      FilledData(sb, s, s1, Now(), rs, Leaf(i, bn));
    }

    // The loop of writei. false, a panic, is a write outside of a transaction,
    // one with more empty places than there are free blocks, or one that finds
    // the log header full before its last log_write.
    method WriteBlocks(i: nat, start: nat, src: seq<Byte>) returns (ok: bool)
      requires Valid() && loose == {} && i < |mem| && start + |src| <= MAXBYTES
      modifies this`mem, this`disk, this`owner, this`loose, this`logged
      ensures ok <==> |src| == 0 || CanSplice(sb, outstanding, old(Now()), i, start, |src|, false)
      ensures ok ==> Valid() && loose == {}
      ensures ok ==> Progress(sb, i, start, src, |src|, old(mem), old(disk), mem, disk)
      ensures ok ==> var lo, hi := start / BSIZE, EndBlock(start, |src|);
                     Filled(sb, old(Now()), Now(), Empties(old(Now()), PathsIn(i, lo, hi)), LeavesIn(i, lo, hi), {})
      ensures ok ==> Covered(old(disk), old(logged), disk, logged)
    {
      hide Owned, BitmapOk, Covered, Extends, Progress, Leaf, Ptr, PathRoles, Filled, Empties, CanWrite, CanSplice,
        FreeBlocks, RootSlot, PathsIn, LeavesIn, EndBlock, Good, HeaderOk, Splicing;
      var tot, off := 0, start;
      ghost var s := Now();
      FilledGood();
      SplicingStart(sb, outstanding, i, start, src, s);
      ok := true;
      while tot < |src|
        invariant 0 <= tot <= |src| && off == start + tot && ok
        invariant Valid() && loose == {} && i < |mem|
        invariant Splicing(sb, outstanding, i, start, src, tot, s, Now())
      {
        ghost var s1, d1 := Now(), disk;
        FilledGood();
        var n := if |src| - tot < BSIZE - off % BSIZE then |src| - tot else BSIZE - off % BSIZE;
        SplicingMay(sb, outstanding, i, start, src, tot, n, s, s1);
        ok, d1 := WriteBlock(i, off / BSIZE, off % BSIZE, src[tot..tot + n]);
        if !ok {
          return;
        }
        FilledGood();
        SplicingNext(sb, outstanding, i, start, src, tot, n, s, s1, d1, Now());
        tot, off := tot + n, off + n;
      }
      SplicingDone(sb, outstanding, i, start, src, s, Now());
    }

    method Iupdate(i: nat) returns (ok: bool)
      requires Valid() && i < |mem|
      modifies this`disk, this`logged
      ensures ok <==> CanLog(sb, outstanding, old(logged))
      ensures ok ==> Valid() && Flushed(mem, disk, sb, i)
      ensures |disk| == |old(disk)| && forall b :: 0 <= b < |disk| && b != Iblock(sb, i) ==> disk[b] == old(disk)[b]
      ensures DinodesKept(sb, i, old(disk), disk)
      ensures ok ==> logged == old(logged) + {Iblock(sb, i)} && Covered(old(disk), old(logged), disk, logged)
    {
      hide Owned, BitmapOk, PutInode, GetInode, HeaderOk;
      ghost var d := disk;
      var b := Iblock(sb, i);
      disk := disk[b := PutInode(disk[b], i % IPB, mem[i])];
      if !CanLog(sb, outstanding, logged) {
        return false;
      }
      HeaderGrows(sb, outstanding, logged, b);
      logged := logged + {b};
      InodeWrite(mem, mem, d, disk, sb, owner, loose);
      return true;
    }

    // ip->size = size; iupdate(ip).
    method SetSize(i: nat, size: Word) returns (ok: bool)
      requires Valid() && loose == {} && i < |mem|
      modifies this`mem, this`disk, this`logged
      ensures ok <==> CanLog(sb, outstanding, old(logged))
      ensures ok ==> Valid() && Flushed(mem, disk, sb, i)
      ensures mem == old(mem)[i := old(mem)[i].(size := size)]
      ensures |disk| == |old(disk)| && forall b :: 0 <= b < |disk| && b != Iblock(sb, i) ==> disk[b] == old(disk)[b]
      ensures DinodesKept(sb, i, old(disk), disk)
      ensures ok ==> Covered(old(disk), old(logged), disk, logged)
      ensures ok ==> Filled(sb, old(Now()), Now(), {}, {}, {Iblock(sb, i)})
    {
      hide Owned, BitmapOk, Covered, Filled, GetInode, Ptr, HeaderOk;
      ghost var s := Now();
      FilledGood();
      mem := mem[i := mem[i].(size := size)];
      InodeWrite(s.mem, mem, disk, disk, sb, owner, loose);
      ok := Iupdate(i);
      if !ok {
        return;
      }
      FilledGood();
      MetaChange(s.mem, s.disk, mem, disk, sb, owner);
      assert BlocksIn(owner, {}) == {};
      FilledWrite(sb, s, Now(), {}, {Iblock(sb, i)});
    }

    // writei on a file. r < 0 is a refused write. It panics exactly when it is
    // called outside of a transaction, when the places to fill are more than
    // the free blocks, or when the log header is full before its last
    // log_write, which is for the inode if the file grows.
    method Writei(i: nat, src: seq<Byte>, off: Word) returns (panic: bool, r: int)
      requires Valid() && loose == {} && i < |mem| && SizesOk(mem) && |src| < 0x1_0000_0000
      modifies this`mem, this`disk, this`owner, this`loose, this`logged
      ensures Refused(old(mem)[i].size, off, |src|) ==> !panic && r == -1 && Now() == old(Now())
      ensures !Refused(old(mem)[i].size, off, |src|) && !panic ==> r == |src|
      ensures !Refused(old(mem)[i].size, off, |src|) ==>
                var grows := off + |src| > old(mem)[i].size;
                panic <==> |src| > 0 && !CanSplice(sb, outstanding, old(Now()), i, off, |src|, grows)
      ensures !panic ==> Valid() && loose == {} && |mem| == |old(mem)| && SizesOk(mem)
      ensures !panic && r >= 0 ==> Covered(old(disk), old(logged), disk, logged)
      ensures !panic && r >= 0 ==> off + |src| <= MAXBYTES && var lo, hi := off / BSIZE, EndBlock(off, |src|);
                Filled(sb, old(Now()), Now(), Empties(old(Now()), PathsIn(i, lo, hi)), LeavesIn(i, lo, hi),
                       InodeLogged(sb, i, old(mem)[i].size, off, |src|))
      ensures !panic && r >= 0 ==> Spliced(sb, i, off, src, old(Now()), Now())
    {
      hide Owned, BitmapOk, Covered, Progress, GetInode, Filled, Empties, PathsIn, LeavesIn, CanSplice, FreeBlocks,
        EndBlock, HeaderOk, Spliced, DinodesKept;
      if off > mem[i].size || (off + |src|) % 0x1_0000_0000 < off {
        return false, -1;
      }
      if (off + |src|) % 0x1_0000_0000 > MAXBYTES {
        return false, -1;
      }
      ghost var s := Now();
      FilledGood();
      SpliceLess(sb, outstanding, s, i, off, |src|);
      var ok := WriteBlocks(i, off, src);
      if !ok {
        return true, 0;
      }
      ghost var s1 := Now();
      FilledGood();
      ProgressMem(sb, i, off, src, |src|, s.mem, s.disk, mem, disk);
      if |src| > 0 && off + |src| > mem[i].size {
        SpliceNow(sb, outstanding, s, s1, i, off, |src|);
        ok := SetSize(i, off + |src|);
        if !ok {
          return true, 0;
        }
      } else {
        FilledNone(sb, s1);
        CoveredSame(disk, logged);
        assert DinodesKept(sb, i, disk, disk) by { SameDinodes(sb, i, disk); }
      }
      FilledGood();
      ghost var lo, hi := off / BSIZE, EndBlock(off, |src|);
      FilledEnd(sb, s, s1, Now(), Empties(s, PathsIn(i, lo, hi)), LeavesIn(i, lo, hi),
                InodeLogged(sb, i, s.mem[i].size, off, |src|));
      CoveredTrans(s.disk, s.logged, s1.disk, s1.logged, disk, logged);
      WriteSpliced(sb, i, off, src, s, s1, Now());
      SplicedSizes(sb, i, off, src, s, Now());
      r := |src|;
      panic := false;
    }

    // The loop of readi, which reads n bytes. Like writei it goes through bmap,
    // so it fills holes.
    method ReadBlocks(i: nat, off: nat, n: nat) returns (ok: bool, dst: seq<Byte>)
      requires Valid() && loose == {} && i < |mem| && off + n <= mem[i].size <= MAXBYTES
      modifies this`mem, this`disk, this`owner, this`loose, this`logged
      ensures ok <==> CanMap(sb, outstanding, old(Now()), i, off / BSIZE, EndBlock(off, n))
      ensures ok ==> Valid() && loose == {} && |dst| == n
      ensures ok ==> Reading(sb, i, off, n, dst, old(mem), old(disk), old(owner), mem, disk, owner)
      ensures ok ==>
                Filled(sb, old(Now()), Now(), Empties(old(Now()), PathsIn(i, off / BSIZE, EndBlock(off, n))), {}, {})
      ensures ok ==> Covered(old(disk), old(logged), disk, logged)
      ensures ok && RootsPresent(old(mem), i, off, off + n) ==> mem == old(mem)
    {
      hide Owned, BitmapOk, Covered, Extends, Leaf, Ptr, PathRoles, Reading, Filled, Empties, CanMap, CanHave,
        FreeBlocks, RootSlot, PathsIn, RootsPresent, EndBlock, Good, HeaderOk, Fetching;
      ghost var s := Now();
      var tot := 0;
      dst := [];
      ok := true;
      FilledGood();
      FetchStart(sb, outstanding, i, off, n, s);
      while tot < n
        invariant tot == |dst| <= n && ok
        invariant Valid() && loose == {} && i < |mem|
        invariant Fetching(sb, outstanding, i, off, n, dst, s, Now())
      {
        ghost var s1 := Now();
        FilledGood();
        var bn, at := (off + tot) / BSIZE, (off + tot) % BSIZE;
        var k := if n - tot < BSIZE - at then n - tot else BSIZE - at;
        FetchMay(sb, outstanding, i, off, n, dst, k, s, s1);
        var b;
        ok, b := Bmap(i, bn);
        if !ok {
          return;
        }
        FilledGood();
        OwnedPlace(mem, disk, sb, owner, Leaf(i, bn));
        FetchNext(sb, outstanding, i, off, n, dst, disk[b][at..at + k], s, s1, Now(), b);
        dst := dst + disk[b][at..at + k];
        tot := tot + k;
      }
      FetchDone(sb, outstanding, i, off, n, dst, s, Now());
    }

    // readi on a file. It panics exactly when a block of the range is absent and
    // it is called outside of a transaction, as fileread does, or the places to
    // fill are more than the free blocks, or the log header is full before the
    // last log_write. The inode on disk falls behind exactly when a slot of
    // addrs was empty.
    method Readi(i: nat, off: Word, count: Word) returns (panic: bool, r: int, dst: seq<Byte>)
      requires Valid() && loose == {} && i < |mem| && SizesOk(mem)
      modifies this`mem, this`disk, this`owner, this`loose, this`logged
      ensures off > old(mem)[i].size || off + count >= 0x1_0000_0000 ==>
                !panic && r == -1 && dst == [] && Now() == old(Now())
      ensures off <= old(mem)[i].size && off + count < 0x1_0000_0000 ==>
                && r == (if off + count > old(mem)[i].size then old(mem)[i].size - off else count)
                && (panic <==> !CanMap(sb, outstanding, old(Now()), i, off / BSIZE, EndBlock(off, r)))
      ensures outstanding == 0 && r > 0 ==> (panic <==> !Present(old(mem), old(disk), i, off, off + r))
      ensures !panic && r >= 0 ==> off + r <= MAXBYTES && dst == Content(old(mem), old(disk), i)[off..off + r]
      ensures !panic ==> Valid() && loose == {} && |mem| == |old(mem)| && SizesOk(mem)
      ensures !panic ==> forall f :: 0 <= f < |mem| ==>
                mem[f].size == old(mem)[f].size && Content(mem, disk, f) == Content(old(mem), old(disk), f)
      ensures !panic && r >= 0 ==>
                Filled(sb, old(Now()), Now(), Empties(old(Now()), PathsIn(i, off / BSIZE, EndBlock(off, r))), {}, {})
      ensures !panic && r >= 0 ==> Covered(old(disk), old(logged), disk, logged)
      ensures !panic && r > 0 ==>
                (Present(old(mem), old(disk), i, off, off + r) <==> mem == old(mem) && disk == old(disk))
      ensures !panic && r > 0 && Flushed(old(mem), old(disk), sb, i) ==>
                (Flushed(mem, disk, sb, i) <==> RootsPresent(old(mem), i, off, off + r))
    {
      hide Owned, BitmapOk, ByteAt, Content, Reading, Present, RootsPresent, Covered, Filled, Empties, PathsIn,
        CanMap, FreeBlocks, EndBlock, GetInode, HeaderOk;
      ghost var s := Now();
      dst := [];
      if off > mem[i].size || (off + count) % 0x1_0000_0000 < off {
        return false, -1, [];
      }
      var n := if off + count > mem[i].size then mem[i].size - off else count;
      FilledGood();
      HolesPanic(sb, s, i, off, n);
      var ok;
      ok, dst := ReadBlocks(i, off, n);
      if ok {
        ReadDone(sb, i, off, dst, s.mem, s.disk, s.owner, mem, disk, owner);
        if n > 0 && Flushed(s.mem, s.disk, sb, i) {
          ReadStale(sb, i, off, n, dst, s.mem, s.disk, s.owner, mem, disk, owner);
        }
      }
      return !ok, n, dst;
    }
  }
}
