// itrunc (fs.c): which blocks it frees, and that each was in use.
module Truncate {
  import opened Blocks
  import opened Bits
  import opened FileTree
  import opened FileContent
  import opened Filling
  import opened LogRoom
  import opened FileSystem

  // r is p, or a place in an index block below p.
  predicate Under(r: Role, p: Role) {
    r == p || (r.Child? && Under(r.parent, p))
  }

  // The slot of addrs that r hangs from.
  function RootK(r: Role): nat {
    match r
    case Root(_, k) => k
    case Child(p, _) => RootK(p)
  }

  lemma UnderRoot(r: Role, i: nat, k: nat)
    ensures Under(r, Root(i, k)) <==> InodeOf(r) == i && RootK(r) == k
  {
  }

  lemma {:induction false} UnderHeight(r: Role, p: Role, n: nat)
    requires Under(r, p) && Shape(r, n)
    ensures Height(r) <= Height(p) && (Height(r) == Height(p) ==> r == p)
  {
    if r != p {
      UnderHeight(r.parent, p, n);
    }
  }

  // What lies below a place is the place itself and what lies below each word
  // of its index block.
  lemma {:induction false} UnderSplit(r: Role, p: Role, n: nat)
    requires Shape(r, n)
    ensures Under(r, p) <==> r == p || exists j :: 0 <= j < NINDIRECT && Under(r, Child(p, j))
  {
    if r.Child? {
      UnderSplit(r.parent, p, n);
      if r.parent == p {
        assert Under(r, Child(p, r.j));
      }
      if j :| 0 <= j < NINDIRECT && Under(r.parent, Child(p, j)) {
        assert Under(r, Child(p, j));
      }
      if Under(r, p) && r != p && r.parent != p {
        var j :| 0 <= j < NINDIRECT && Under(r.parent, Child(p, j));
        assert Under(r, Child(p, j));
      }
      if j :| 0 <= j < NINDIRECT && Under(r, Child(p, j)) {
        UnderParent(r, p, j);
      }
    }
  }

  lemma {:induction false} UnderParent(r: Role, p: Role, j: nat)
    requires Under(r, Child(p, j))
    ensures Under(r, p)
  {
    if r != Child(p, j) {
      UnderParent(r.parent, p, j);
    }
  }

  lemma {:induction false} UnderOneChild(r: Role, p: Role, j: nat, j': nat, n: nat)
    requires Shape(r, n) && Under(r, Child(p, j)) && Under(r, Child(p, j'))
    ensures j == j'
  {
    if r == Child(p, j) || r == Child(p, j') {
      UnderHeight(r, Child(p, j), n);
      UnderHeight(r, Child(p, j'), n);
    } else {
      UnderOneChild(r.parent, p, j, j', n);
    }
  }

  // While inode i of m0 is being truncated: the trees are those of m0 and o0,
  // and the bits of the blocks in `freed` are clear.
  ghost predicate Sweeping(sb: Super, m0: seq<Inode>, d: Disk, o0: map<nat, Role>, freed: set<nat>) {
    && sb.Ok(d) && Owned(m0, d, sb, o0)
    && (forall b :: b in freed ==> b in o0)
    && (forall x :: 0 <= x < sb.size ==> (Used(d, sb, x) <==> x < sb.DataStart() || (x in o0 && x !in freed)))
  }

  // Only bitmap blocks differ.
  ghost predicate SameOutside(sb: Super, d: Disk, d': Disk) {
    |d'| == |d| && forall x :: 0 <= x < |d| && !InBitmap(sb, x) ==> d'[x] == d[x]
  }

  lemma SweepStart(sb: Super, m: seq<Inode>, d: Disk, o: map<nat, Role>)
    requires sb.Ok(d) && Owned(m, d, sb, o) && BitmapOk(d, sb, o, {})
    ensures Sweeping(sb, m, d, o, {})
  {
  }

  lemma SameOutsideOwned(sb: Super, m: seq<Inode>, d: Disk, d': Disk, o: map<nat, Role>)
    requires Owned(m, d, sb, o) && SameOutside(sb, d, d')
    ensures Owned(m, d', sb, o) && forall r :: Shape(r, |m|) ==> Ptr(m, d', r) == Ptr(m, d, r)
  {
    SameOwned(m, d, d', sb, o);
  }

  lemma TakenOutside(sb: Super, d: Disk, b: nat, on: bool)
    requires sb.Ok(d) && b < sb.size
    ensures SameOutside(sb, d, Taken(d, sb, b, on))
  {
    assert b / BPB <= sb.size / BPB;
  }

  lemma SameOutsideTrans(sb: Super, d: Disk, d1: Disk, d2: Disk)
    requires SameOutside(sb, d, d1) && SameOutside(sb, d1, d2)
    ensures SameOutside(sb, d, d2)
  {
  }

  lemma SweepFacts(sb: Super, m0: seq<Inode>, d: Disk, o0: map<nat, Role>, freed: set<nat>)
    requires Sweeping(sb, m0, d, o0, freed)
    ensures sb.Ok(d) && Owned(m0, d, sb, o0) && SameOutside(sb, d, d)
  {
  }

  lemma SweepStep(sb: Super, m0: seq<Inode>, d: Disk, o0: map<nat, Role>, freed: set<nat>, b: nat)
    requires Sweeping(sb, m0, d, o0, freed) && b in o0 && b !in freed
    ensures sb.Ok(d) && b < sb.size && Used(d, sb, b)
    ensures Sweeping(sb, m0, Taken(d, sb, b, false), o0, freed + {b}) && SameOutside(sb, d, Taken(d, sb, b, false))
  {
    hide Owned, Used, Taken;
    OwnedBounds(m0, d, sb, o0);
    TakenBits(d, sb, b, false, Taken(d, sb, b, false));
    TakenOutside(sb, d, b, false);
    SameOutsideOwned(sb, m0, d, Taken(d, sb, b, false), o0);
  }

  // The blocks of o that hang from words 0..j of the index block of p.
  ghost predicate Swept(o: map<nat, Role>, p: Role, j: nat, b: nat) {
    b in o && exists k :: 0 <= k < j && Under(o[b], Child(p, k))
  }

  ghost predicate Below(o: map<nat, Role>, p: Role, b: nat) { b in o && Under(o[b], p) }

  lemma SweptStart(o: map<nat, Role>, p: Role)
    ensures forall b :: !Swept(o, p, 0, b)
  {
  }

  lemma SweptStep(o: map<nat, Role>, p: Role, j: nat)
    ensures forall b :: Swept(o, p, j + 1, b) <==> Swept(o, p, j, b) || Below(o, Child(p, j), b)
  {
    forall b
      ensures Swept(o, p, j + 1, b) <==> Swept(o, p, j, b) || Below(o, Child(p, j), b)
    {
      if Swept(o, p, j + 1, b) {
        var k :| 0 <= k < j + 1 && Under(o[b], Child(p, k));
      }
    }
  }

  lemma SweptAll(sb: Super, m: seq<Inode>, d: Disk, o: map<nat, Role>, p: Role)
    requires Owned(m, d, sb, o)
    ensures forall b :: Below(o, p, b) <==> Swept(o, p, NINDIRECT, b) || (b in o && o[b] == p)
  {
    forall b
      ensures Below(o, p, b) <==> Swept(o, p, NINDIRECT, b) || (b in o && o[b] == p)
    {
      if b in o {
        UnderSplit(o[b], p, |m|);
      }
    }
  }

  // An empty place has nothing below it.
  lemma {:induction false} NothingBelow(sb: Super, m: seq<Inode>, d: Disk, o: map<nat, Role>, p: Role, r: Role)
    requires Owned(m, d, sb, o) && Shape(p, |m|) && Ptr(m, d, p) == 0 && Shape(r, |m|) && Under(r, p)
    ensures Ptr(m, d, r) == 0
  {
    if r != p {
      NothingBelow(sb, m, d, o, p, r.parent);
    }
  }

  lemma EmptyPlace(sb: Super, m: seq<Inode>, d: Disk, o: map<nat, Role>, p: Role)
    requires Owned(m, d, sb, o) && Shape(p, |m|) && Ptr(m, d, p) == 0
    ensures forall b :: !Below(o, p, b)
  {
    forall b | b in o && Under(o[b], p)
      ensures false
    {
      NothingBelow(sb, m, d, o, p, o[b]);
    }
  }

  // A place of height 0 has only its block below it.
  lemma LeafPlace(sb: Super, m: seq<Inode>, d: Disk, o: map<nat, Role>, p: Role)
    requires Owned(m, d, sb, o) && Shape(p, |m|) && Height(p) == 0 && Ptr(m, d, p) != 0
    ensures forall b :: Below(o, p, b) <==> b == Ptr(m, d, p)
  {
    forall b | Below(o, p, b)
      ensures b == Ptr(m, d, p)
    {
      UnderHeight(o[b], p, |m|);
      HeightNat(o[b], |m|);
    }
  }

  lemma {:induction false} HeightNat(r: Role, n: nat)
    requires Shape(r, n)
    ensures 0 <= Height(r) <= 2
  {
    if r.Child? {
      HeightNat(r.parent, n);
    }
  }

  // Blocks below different words of an index block, and the index block itself,
  // are different.
  lemma Unswept(sb: Super, m: seq<Inode>, d: Disk, o: map<nat, Role>, p: Role, j: nat)
    requires Owned(m, d, sb, o)
    ensures forall b :: Swept(o, p, j, b) ==> !Below(o, Child(p, j), b) && o[b] != p
  {
    forall b | Swept(o, p, j, b)
      ensures !Below(o, Child(p, j), b) && o[b] != p
    {
      var k :| 0 <= k < j && Under(o[b], Child(p, k));
      if Under(o[b], Child(p, j)) {
        UnderOneChild(o[b], p, j, k, |m|);
      }
      UnderHeight(o[b], Child(p, k), |m|);
    }
  }

  // Before word j: nothing below it was freed yet.
  lemma NextWord(sb: Super, m: seq<Inode>, d: Disk, o: map<nat, Role>, p: Role, j: nat, freed0: set<nat>,
                 freed: set<nat>)
    requires Owned(m, d, sb, o)
    requires forall b :: b in freed0 ==> !Below(o, p, b)
    requires forall b :: b in freed <==> b in freed0 || Swept(o, p, j, b)
    ensures forall b :: b in freed ==> !Below(o, Child(p, j), b)
  {
    Unswept(sb, m, d, o, p, j);
    forall b | b in freed0
      ensures !Below(o, Child(p, j), b)
    {
      if Below(o, Child(p, j), b) {
        UnderParent(o[b], p, j);
      }
    }
  }

  // After the last word only the index block itself is left below p.
  lemma IndexBlockLast(sb: Super, m: seq<Inode>, d: Disk, o: map<nat, Role>, p: Role, freed0: set<nat>, freed: set<nat>)
    requires Owned(m, d, sb, o) && Shape(p, |m|) && Ptr(m, d, p) != 0
    requires forall b :: b in freed0 ==> !Below(o, p, b)
    requires forall b :: b in freed <==> b in freed0 || Swept(o, p, NINDIRECT, b)
    ensures Ptr(m, d, p) in o && Ptr(m, d, p) !in freed
    ensures forall b :: b in freed + {Ptr(m, d, p)} <==> b in freed0 || Below(o, p, b)
  {
    Unswept(sb, m, d, o, p, NINDIRECT);
    SweptAll(sb, m, d, o, p);
  }

  lemma SamePlace(sb: Super, m: seq<Inode>, d: Disk, d': Disk, o: map<nat, Role>, r: Role)
    requires Owned(m, d, sb, o) && SameOutside(sb, d, d') && Shape(r, |m|)
    ensures Ptr(m, d', r) == Ptr(m, d, r)
  {
    SameOutsideOwned(sb, m, d, d', o);
  }

  // The word of an index block, as long as only the bitmap changes.
  lemma WordPlace(sb: Super, m: seq<Inode>, d: Disk, d': Disk, o: map<nat, Role>, p: Role, j: nat)
    requires Owned(m, d, sb, o) && SameOutside(sb, d, d') && Shape(Child(p, j), |m|) && Ptr(m, d, p) != 0
    ensures Ptr(m, d, p) < |d| && Ptr(m, d', Child(p, j)) == GetWord(d[Ptr(m, d, p)], j)
  {
    SamePlace(sb, m, d, d', o, Child(p, j));
  }

  // The blocks of place p and below it.
  ghost function Hanging(o: map<nat, Role>, p: Role): set<nat> { set b | b in o && Below(o, p, b) }

  // After the blocks `freed` on top of `freed0`, the log has their bitmap blocks.
  ghost predicate Cleared(sb: Super, l0: set<nat>, l: set<nat>, freed0: set<nat>, freed: set<nat>) {
    freed0 <= freed && l == l0 + MapBlocks(sb, freed - freed0)
  }

  lemma ClearedSame(sb: Super, l: set<nat>, freed: set<nat>)
    ensures Cleared(sb, l, l, freed, freed)
  {
    assert freed - freed == {} && MapBlocks(sb, {}) == {};
  }

  lemma ClearedTrans(sb: Super, l0: set<nat>, l1: set<nat>, l2: set<nat>, f0: set<nat>, f1: set<nat>, f2: set<nat>)
    requires Cleared(sb, l0, l1, f0, f1) && Cleared(sb, l1, l2, f1, f2)
    ensures Cleared(sb, l0, l2, f0, f2)
  {
    hide MapBlocks;
    MapsUnion(sb, f1 - f0, f2 - f1);
    assert f2 - f0 == (f1 - f0) + (f2 - f1);
  }

  lemma ClearedOne(sb: Super, l: set<nat>, freed: set<nat>, b: nat)
    requires b !in freed
    ensures Cleared(sb, l, l + MapBlocks(sb, {b}), freed, freed + {b})
  {
    assert freed + {b} - freed == {b};
  }

  // What there is no room for there is none for with more.
  lemma CanLogLess(sb: Super, outstanding: nat, l0: set<nat>, l: set<nat>, bs: set<nat>, more: set<nat>, all: set<nat>)
    requires l == l0 + MapBlocks(sb, bs) && bs + more <= all
    ensures CanLog(sb, outstanding, l0 + MapBlocks(sb, all)) ==> CanLog(sb, outstanding, l + MapBlocks(sb, more))
  {
    SubsetCount(l + MapBlocks(sb, more), l0 + MapBlocks(sb, all));
  }

  // Room for the last bfree, or nothing to free.
  ghost predicate CanFree(sb: Super, outstanding: nat, l: set<nat>, o: map<nat, Role>, p: Role, q: nat) {
    q == 0 || CanLog(sb, outstanding, l + MapBlocks(sb, Hanging(o, p) - {q}))
  }

  lemma LeafAlone(sb: Super, m: seq<Inode>, d: Disk, o: map<nat, Role>, p: Role, outstanding: nat, l: set<nat>)
    requires Owned(m, d, sb, o) && Shape(p, |m|) && Height(p) == 0 && Ptr(m, d, p) != 0
    ensures CanFree(sb, outstanding, l, o, p, Ptr(m, d, p)) <==> CanLog(sb, outstanding, l)
    ensures forall b :: Below(o, p, b) <==> b == Ptr(m, d, p)
  {
    hide Owned, Below;
    LeafPlace(sb, m, d, o, p);
    assert Hanging(o, p) - {Ptr(m, d, p)} == {};
    assert l + MapBlocks(sb, {}) == l;
  }

  // bfree of what a place points to, if it points to anything. false is a panic:
  // the log header is full.
  method FreeLeaf(fs: FileSys, q: nat, ghost m0: seq<Inode>, ghost o0: map<nat, Role>, ghost p: Role,
                  ghost freed0: set<nat>)
    returns (ok: bool, ghost freed: set<nat>)
    requires Sweeping(fs.sb, m0, fs.disk, o0, freed0) && HeaderOk(fs.sb, fs.outstanding, fs.logged)
    requires Shape(p, |m0|) && Height(p) == 0 && q == Ptr(m0, fs.disk, p)
    requires forall b :: b in freed0 ==> !Below(o0, p, b)
    modifies fs`disk, fs`logged
    ensures ok <==> CanFree(fs.sb, fs.outstanding, old(fs.logged), o0, p, q)
    ensures ok ==> Sweeping(fs.sb, m0, fs.disk, o0, freed) && SameOutside(fs.sb, old(fs.disk), fs.disk)
    ensures ok ==> forall b :: b in freed <==> b in freed0 || Below(o0, p, b)
    ensures ok ==> Cleared(fs.sb, old(fs.logged), fs.logged, freed0, freed)
    ensures ok ==> Covered(old(fs.disk), old(fs.logged), fs.disk, fs.logged)
    ensures ok ==> HeaderOk(fs.sb, fs.outstanding, fs.logged)
  {
    hide Owned, Covered, Below, Used, Taken, HeaderOk, CanLog, Cleared;
    freed := freed0;
    if q == 0 {
      EmptyPlace(fs.sb, m0, fs.disk, o0, p);
      ClearedSame(fs.sb, fs.logged, freed);
      CoveredSame(fs.disk, fs.logged);
      return true, freed;
    }
    LeafAlone(fs.sb, m0, fs.disk, o0, p, fs.outstanding, fs.logged);
    OwnedPlace(m0, fs.disk, fs.sb, o0, p);
    SweepStep(fs.sb, m0, fs.disk, o0, freed, q);
    ClearedOne(fs.sb, fs.logged, freed, q);
    ok := fs.Bfree(q);
    freed := freed + {q};
  }

  // Within an index block: what was freed so far and the next word's blocks are
  // below it, and are not the index block itself.
  lemma WordInside(sb: Super, m: seq<Inode>, d: Disk, o: map<nat, Role>, p: Role, j: nat, freed0: set<nat>,
                   freed: set<nat>, q: nat)
    requires Owned(m, d, sb, o) && q in o && o[q] == p
    requires forall b :: b in freed <==> b in freed0 || Swept(o, p, j, b)
    ensures (freed - freed0) + Hanging(o, Child(p, j)) <= Hanging(o, p) - {q}
  {
    hide Owned;
    Unswept(sb, m, d, o, p, j);
    forall b | b in (freed - freed0) + Hanging(o, Child(p, j))
      ensures Below(o, p, b) && b != q
    {
      var k :| 0 <= k <= j && Under(o[b], Child(p, k));
      UnderParent(o[b], p, k);
      NotItself(o[b], p, k);
    }
  }

  lemma NotItself(r: Role, p: Role, k: nat)
    requires Under(r, Child(p, k))
    ensures r != p
  {
    RoleSize(r, Child(p, k));
  }

  // A place below another is no smaller a term.
  lemma {:induction false} RoleSize(r: Role, p: Role)
    requires Under(r, p)
    ensures Depth(r) >= Depth(p)
  {
    if r != p {
      RoleSize(r.parent, p);
    }
  }

  function Depth(r: Role): nat {
    match r
    case Root(_, _) => 0
    case Child(p, _) => Depth(p) + 1
  }

  // When the next word cannot be freed the whole cannot.
  lemma WordFails(sb: Super, m: seq<Inode>, d: Disk, o: map<nat, Role>, p: Role, j: nat, freed0: set<nat>,
                  freed: set<nat>, q: nat, l0: set<nat>, l: set<nat>, outstanding: nat, w: nat)
    requires Owned(m, d, sb, o) && q in o && o[q] == p && Cleared(sb, l0, l, freed0, freed)
    requires forall b :: b in freed <==> b in freed0 || Swept(o, p, j, b)
    ensures CanFree(sb, outstanding, l0, o, p, q) && q != 0 ==> CanFree(sb, outstanding, l, o, Child(p, j), w)
  {
    hide Owned, Swept, CanLog, MapBlocks;
    WordInside(sb, m, d, o, p, j, freed0, freed, q);
    CanLogLess(sb, outstanding, l0, l, freed - freed0, Hanging(o, Child(p, j)) - {w}, Hanging(o, p) - {q});
  }

  // When only the index block is left.
  lemma IndexLeft(sb: Super, o: map<nat, Role>, p: Role, q: nat, freed0: set<nat>, freed: set<nat>, l0: set<nat>,
                  l: set<nat>, outstanding: nat)
    requires Cleared(sb, l0, l, freed0, freed) && q != 0 && q !in freed
    requires forall b :: b in freed0 ==> !Below(o, p, b)
    requires forall b :: b in freed + {q} <==> b in freed0 || Below(o, p, b)
    ensures CanFree(sb, outstanding, l0, o, p, q) <==> CanLog(sb, outstanding, l)
  {
    hide Under, CanLog, MapBlocks;
    assert freed - freed0 == Hanging(o, p) - {q};
  }

  // An index block and what its words point to: the loop of itrunc over the
  // indirect block, and its inner loop over each block of the double-indirect
  // block.
  method FreeIndirect(fs: FileSys, q: nat, ghost m0: seq<Inode>, ghost o0: map<nat, Role>, ghost p: Role,
                      ghost freed0: set<nat>)
    returns (ok: bool, ghost freed: set<nat>)
    requires Sweeping(fs.sb, m0, fs.disk, o0, freed0) && HeaderOk(fs.sb, fs.outstanding, fs.logged)
    requires Shape(p, |m0|) && Height(p) == 1 && q == Ptr(m0, fs.disk, p)
    requires forall b :: b in freed0 ==> !Below(o0, p, b)
    modifies fs`disk, fs`logged
    ensures ok <==> CanFree(fs.sb, fs.outstanding, old(fs.logged), o0, p, q)
    ensures ok ==> Sweeping(fs.sb, m0, fs.disk, o0, freed) && SameOutside(fs.sb, old(fs.disk), fs.disk)
    ensures ok ==> forall b :: b in freed <==> b in freed0 || Below(o0, p, b)
    ensures ok ==> Cleared(fs.sb, old(fs.logged), fs.logged, freed0, freed)
    ensures ok ==> Covered(old(fs.disk), old(fs.logged), fs.disk, fs.logged)
    ensures ok ==> HeaderOk(fs.sb, fs.outstanding, fs.logged)
  {
    hide Sweeping, Covered, Below, Swept, SameOutside, Ptr, Taken, HeaderOk, CanLog, Cleared, CanFree;
    freed := freed0;
    ClearedSame(fs.sb, fs.logged, freed);
    CoveredSame(fs.disk, fs.logged);
    SweepFacts(fs.sb, m0, fs.disk, o0, freed);
    if q == 0 {
      EmptyPlace(fs.sb, m0, fs.disk, o0, p);
      NothingToFree(fs.sb, fs.outstanding, fs.logged, o0, p);
      return true, freed;
    }
    OwnedPlace(m0, fs.disk, fs.sb, o0, p);
    var a := fs.disk[q];
    SweptStart(o0, p);
    for j := 0 to NINDIRECT
      invariant Sweeping(fs.sb, m0, fs.disk, o0, freed) && SameOutside(fs.sb, old(fs.disk), fs.disk)
      invariant forall b :: b in freed <==> b in freed0 || Swept(o0, p, j, b)
      invariant Cleared(fs.sb, old(fs.logged), fs.logged, freed0, freed)
      invariant Covered(old(fs.disk), old(fs.logged), fs.disk, fs.logged)
      invariant HeaderOk(fs.sb, fs.outstanding, fs.logged)
    {
      ghost var d, lg, f := fs.disk, fs.logged, freed;
      WordPlace(fs.sb, m0, old(fs.disk), d, o0, p, j);
      NextWord(fs.sb, m0, old(fs.disk), o0, p, j, freed0, freed);
      SweptStep(o0, p, j);
      WordFails(fs.sb, m0, old(fs.disk), o0, p, j, freed0, freed, q, old(fs.logged), lg, fs.outstanding, GetWord(a, j));
      ok, freed := FreeLeaf(fs, GetWord(a, j), m0, o0, Child(p, j), freed);
      if !ok {
        return;
      }
      SameOutsideTrans(fs.sb, old(fs.disk), d, fs.disk);
      ClearedTrans(fs.sb, old(fs.logged), lg, fs.logged, freed0, f, freed);
      CoveredTrans(old(fs.disk), old(fs.logged), d, lg, fs.disk, fs.logged);
    }
    ok, freed := FreeIndex(fs, q, m0, o0, p, old(fs.disk), old(fs.logged), freed0, freed);
  }

  lemma NothingToFree(sb: Super, outstanding: nat, l: set<nat>, o: map<nat, Role>, p: Role)
    ensures CanFree(sb, outstanding, l, o, p, 0)
  {
  }

  // bfree of an index block, after what its words point to. d0 and l0 are the
  // disk and the log before that.
  method FreeIndex(fs: FileSys, q: nat, ghost m0: seq<Inode>, ghost o0: map<nat, Role>, ghost p: Role, ghost d0: Disk,
                   ghost l0: set<nat>, ghost freed0: set<nat>, ghost freed1: set<nat>)
    returns (ok: bool, ghost freed: set<nat>)
    requires Owned(m0, d0, fs.sb, o0) && Shape(p, |m0|) && q == Ptr(m0, d0, p) != 0
    requires Sweeping(fs.sb, m0, fs.disk, o0, freed1) && SameOutside(fs.sb, d0, fs.disk)
    requires forall b :: b in freed0 ==> !Below(o0, p, b)
    requires forall b :: b in freed1 <==> b in freed0 || Swept(o0, p, NINDIRECT, b)
    requires Cleared(fs.sb, l0, fs.logged, freed0, freed1) && Covered(d0, l0, fs.disk, fs.logged)
    modifies fs`disk, fs`logged
    ensures ok <==> CanFree(fs.sb, fs.outstanding, l0, o0, p, q)
    ensures ok ==> Sweeping(fs.sb, m0, fs.disk, o0, freed) && SameOutside(fs.sb, d0, fs.disk)
    ensures ok ==> forall b :: b in freed <==> b in freed0 || Below(o0, p, b)
    ensures ok ==> Cleared(fs.sb, l0, fs.logged, freed0, freed) && Covered(d0, l0, fs.disk, fs.logged)
    ensures ok ==> HeaderOk(fs.sb, fs.outstanding, fs.logged)
  {
    hide Sweeping, Owned, Covered, Below, Swept, SameOutside, Ptr, Taken, HeaderOk, CanLog, Cleared, CanFree;
    ghost var d, lg := fs.disk, fs.logged;
    IndexBlockLast(fs.sb, m0, d0, o0, p, freed0, freed1);
    IndexLeft(fs.sb, o0, p, q, freed0, freed1, l0, lg, fs.outstanding);
    SweepStep(fs.sb, m0, fs.disk, o0, freed1, q);
    ClearedOne(fs.sb, lg, freed1, q);
    ok := fs.Bfree(q);
    freed := freed1 + {q};
    if ok {
      SameOutsideTrans(fs.sb, d0, d, fs.disk);
      ClearedTrans(fs.sb, l0, lg, fs.logged, freed0, freed1, freed);
      CoveredTrans(d0, l0, d, lg, fs.disk, fs.logged);
    }
  }

  // The double-indirect block.
  method FreeDouble(fs: FileSys, q: nat, ghost m0: seq<Inode>, ghost o0: map<nat, Role>, ghost p: Role,
                    ghost freed0: set<nat>)
    returns (ok: bool, ghost freed: set<nat>)
    requires Sweeping(fs.sb, m0, fs.disk, o0, freed0) && HeaderOk(fs.sb, fs.outstanding, fs.logged)
    requires Shape(p, |m0|) && Height(p) == 2 && q == Ptr(m0, fs.disk, p)
    requires forall b :: b in freed0 ==> !Below(o0, p, b)
    modifies fs`disk, fs`logged
    ensures ok <==> CanFree(fs.sb, fs.outstanding, old(fs.logged), o0, p, q)
    ensures ok ==> Sweeping(fs.sb, m0, fs.disk, o0, freed) && SameOutside(fs.sb, old(fs.disk), fs.disk)
    ensures ok ==> forall b :: b in freed <==> b in freed0 || Below(o0, p, b)
    ensures ok ==> Cleared(fs.sb, old(fs.logged), fs.logged, freed0, freed)
    ensures ok ==> Covered(old(fs.disk), old(fs.logged), fs.disk, fs.logged)
    ensures ok ==> HeaderOk(fs.sb, fs.outstanding, fs.logged)
  {
    hide Sweeping, Covered, Below, Swept, SameOutside, Ptr, Taken, HeaderOk, CanLog, Cleared, CanFree;
    freed := freed0;
    ClearedSame(fs.sb, fs.logged, freed);
    CoveredSame(fs.disk, fs.logged);
    SweepFacts(fs.sb, m0, fs.disk, o0, freed);
    if q == 0 {
      EmptyPlace(fs.sb, m0, fs.disk, o0, p);
      NothingToFree(fs.sb, fs.outstanding, fs.logged, o0, p);
      return true, freed;
    }
    OwnedPlace(m0, fs.disk, fs.sb, o0, p);
    var a := fs.disk[q];
    SweptStart(o0, p);
    for k := 0 to NINDIRECT
      invariant Sweeping(fs.sb, m0, fs.disk, o0, freed) && SameOutside(fs.sb, old(fs.disk), fs.disk)
      invariant forall b :: b in freed <==> b in freed0 || Swept(o0, p, k, b)
      invariant Cleared(fs.sb, old(fs.logged), fs.logged, freed0, freed)
      invariant Covered(old(fs.disk), old(fs.logged), fs.disk, fs.logged)
      invariant HeaderOk(fs.sb, fs.outstanding, fs.logged)
    {
      ghost var d, lg, f := fs.disk, fs.logged, freed;
      WordPlace(fs.sb, m0, old(fs.disk), d, o0, p, k);
      NextWord(fs.sb, m0, old(fs.disk), o0, p, k, freed0, freed);
      SweptStep(o0, p, k);
      WordFails(fs.sb, m0, old(fs.disk), o0, p, k, freed0, freed, q, old(fs.logged), lg, fs.outstanding, GetWord(a, k));
      ok, freed := FreeIndirect(fs, GetWord(a, k), m0, o0, Child(p, k), freed);
      if !ok {
        return;
      }
      SameOutsideTrans(fs.sb, old(fs.disk), d, fs.disk);
      ClearedTrans(fs.sb, old(fs.logged), lg, fs.logged, freed0, f, freed);
      CoveredTrans(old(fs.disk), old(fs.logged), d, lg, fs.disk, fs.logged);
    }
    ok, freed := FreeIndex(fs, q, m0, o0, p, old(fs.disk), old(fs.logged), freed0, freed);
  }

  // The blocks of inode i that hang from its first k slots.
  ghost predicate Emptied(o: map<nat, Role>, i: nat, k: nat, b: nat) {
    b in o && InodeOf(o[b]) == i && RootK(o[b]) < k
  }

  lemma EmptiedStep(o: map<nat, Role>, i: nat, k: nat)
    ensures forall b :: Emptied(o, i, k + 1, b) <==> Emptied(o, i, k, b) || Below(o, Root(i, k), b)
    ensures forall b :: Emptied(o, i, k, b) ==> !Below(o, Root(i, k), b)
  {
    forall b | b in o
      ensures Under(o[b], Root(i, k)) <==> InodeOf(o[b]) == i && RootK(o[b]) == k
    {
      UnderRoot(o[b], i, k);
    }
  }

  lemma RootKBound(r: Role, n: nat)
    requires Shape(r, n)
    ensures RootK(r) < NDIRECT + 2
  {
  }

  function NoAddrs(): (a: Addrs)
    ensures forall k :: 0 <= k < NDIRECT + 2 ==> a[k] == 0
  {
    seq(NDIRECT + 2, k => 0)
  }

  // Places of a truncated inode are empty, the others are as before.
  lemma {:induction false} TruncPtr(m0: seq<Inode>, d: Disk, i: nat, ino: Inode, r: Role)
    requires i < |m0| && Shape(r, |m0|) && ino.addrs == NoAddrs()
    ensures Ptr(m0[i := ino], d, r) == if InodeOf(r) == i then 0 else Ptr(m0, d, r)
  {
    if r.Child? {
      TruncPtr(m0, d, i, ino, r.parent);
    }
  }

  lemma TruncOwned(sb: Super, m0: seq<Inode>, d: Disk, o0: map<nat, Role>, freed: set<nat>, i: nat, ino: Inode)
    requires Sweeping(sb, m0, d, o0, freed) && i < |m0| && ino.addrs == NoAddrs()
    requires forall b :: b in freed <==> Emptied(o0, i, NDIRECT + 2, b)
    ensures Owned(m0[i := ino], d, sb, o0 - freed) && BitmapOk(d, sb, o0 - freed, {})
    ensures forall b :: b in freed <==> b in o0 && InodeOf(o0[b]) == i
    ensures forall r :: Shape(r, |m0|) && InodeOf(r) != i ==> Ptr(m0[i := ino], d, r) == Ptr(m0, d, r)
  {
    hide Used;
    forall r | Shape(r, |m0|)
      ensures Ptr(m0[i := ino], d, r) == if InodeOf(r) == i then 0 else Ptr(m0, d, r)
    {
      TruncPtr(m0, d, i, ino, r);
    }
    forall b | b in o0
      ensures RootK(o0[b]) < NDIRECT + 2
    {
      RootKBound(o0[b], |m0|);
    }
  }

  // The other files keep their bytes.
  lemma TruncContent(sb: Super, m0: seq<Inode>, d0: Disk, o0: map<nat, Role>, m: seq<Inode>, d: Disk, i: nat, f: nat)
    requires Owned(m0, d0, sb, o0) && |m| == |m0| && |d| == |d0| && i < |m0| && f < |m0| && f != i && m[f] == m0[f]
    requires forall r :: Shape(r, |m0|) && InodeOf(r) != i ==> Ptr(m, d, r) == Ptr(m0, d0, r)
    requires forall x :: sb.DataStart() <= x < |d| ==> d[x] == d0[x]
    requires m0[f].size <= MAXBYTES
    ensures Content(m, d, f) == Content(m0, d0, f)
  {
    hide Ptr, Leaf;
    forall x | 0 <= x < m0[f].size
      ensures ByteAt(m, d, f, x) == ByteAt(m0, d0, f, x)
    {
      var r := Leaf(f, x / BSIZE);
      assert Ptr(m, d, r) == Ptr(m0, d0, r);
      assert Ptr(m0, d0, r) != 0 ==> Ptr(m0, d0, r) in o0;
    }
  }

  // The blocks of inode i.
  ghost function FileBlocks(o: map<nat, Role>, i: nat): set<nat> { set b | b in o && InodeOf(o[b]) == i }

  // When the next slot cannot be emptied the file cannot be truncated.
  lemma SlotFails(sb: Super, o: map<nat, Role>, i: nat, k: nat, freed: set<nat>, l0: set<nat>, l: set<nat>,
                  outstanding: nat, q: nat)
    requires Cleared(sb, l0, l, {}, freed) && forall b :: b in freed <==> Emptied(o, i, k, b)
    ensures CanLog(sb, outstanding, l0 + MapBlocks(sb, FileBlocks(o, i))) ==>
              CanFree(sb, outstanding, l, o, Root(i, k), q)
  {
    hide CanLog, MapBlocks;
    forall b | b in freed + (Hanging(o, Root(i, k)) - {q})
      ensures b in FileBlocks(o, i)
    {
      if b !in freed {
        UnderRoot(o[b], i, k);
      }
    }
    assert freed - {} == freed;
    CanLogLess(sb, outstanding, l0, l, freed, Hanging(o, Root(i, k)) - {q}, FileBlocks(o, i));
  }

  // Slots 0..k are done, from state m0, d0, l0.
  ghost predicate Emptying(fs: FileSys, i: nat, k: nat, m0: seq<Inode>, d0: Disk, l0: set<nat>, freed: set<nat>)
    reads fs
  {
    && Sweeping(fs.sb, m0, fs.disk, fs.owner, freed) && SameOutside(fs.sb, d0, fs.disk)
    && (forall b :: b in freed <==> Emptied(fs.owner, i, k, b))
    && Cleared(fs.sb, l0, fs.logged, {}, freed) && Covered(d0, l0, fs.disk, fs.logged)
    && HeaderOk(fs.sb, fs.outstanding, fs.logged)
  }

  // The slots of addrs, from first to last.
  method FreeRoots(fs: FileSys, i: nat) returns (ok: bool, ghost freed: set<nat>)
    requires fs.Valid() && fs.loose == {} && i < |fs.mem|
    modifies fs`disk, fs`logged, fs`mem
    ensures !ok ==> !CanLog(fs.sb, fs.outstanding, old(fs.logged) + MapBlocks(fs.sb, FileBlocks(fs.owner, i)))
    ensures ok ==> Emptying(fs, i, NDIRECT + 2, old(fs.mem), old(fs.disk), old(fs.logged), freed)
    ensures ok ==> fs.mem == old(fs.mem)[i := old(fs.mem)[i].(addrs := NoAddrs())]
  {
    hide Emptying, FileSys.Valid, CanLog, FileBlocks;
    ghost var m0, d0, l0 := fs.mem, fs.disk, fs.logged;
    freed := {};
    EmptyingStart(fs, i);
    for k := 0 to NDIRECT
      invariant Emptying(fs, i, k, m0, d0, l0, freed)
      invariant |fs.mem| == |m0| && fs.mem == m0[i := m0[i].(addrs := fs.mem[i].addrs)]
      invariant forall j :: 0 <= j < NDIRECT + 2 ==> fs.mem[i].addrs[j] == if j < k then 0 else m0[i].addrs[j]
    {
      ok, freed := FreeSlot(fs, i, k, m0, d0, l0, freed);
      if !ok {
        return;
      }
    }
    ok, freed := FreeSlot(fs, i, NDIRECT, m0, d0, l0, freed);
    if !ok {
      return;
    }
    ok, freed := FreeSlot(fs, i, NDIRECT + 1, m0, d0, l0, freed);
    if ok {
      assert fs.mem[i].addrs == NoAddrs();
    }
  }

  lemma EmptyingStart(fs: FileSys, i: nat)
    requires fs.Valid() && fs.loose == {}
    ensures Emptying(fs, i, 0, fs.mem, fs.disk, fs.logged, {})
  {
    hide Owned, BitmapOk, Sweeping, SameOutside, Covered, Emptied, Cleared, HeaderOk;
    SweepStart(fs.sb, fs.mem, fs.disk, fs.owner);
    SweepFacts(fs.sb, fs.mem, fs.disk, fs.owner, {});
    ClearedSame(fs.sb, fs.logged, {});
    CoveredSame(fs.disk, fs.logged);
    EmptiedNone(fs.owner, i);
  }

  // One slot.
  method FreeSlot(fs: FileSys, i: nat, k: nat, ghost m0: seq<Inode>, ghost d0: Disk, ghost l0: set<nat>,
                  ghost freed0: set<nat>)
    returns (ok: bool, ghost freed: set<nat>)
    requires Emptying(fs, i, k, m0, d0, l0, freed0) && i < |fs.mem| == |m0| && k < NDIRECT + 2
    requires fs.mem[i].addrs[k] == m0[i].addrs[k]
    modifies fs`disk, fs`logged, fs`mem
    ensures !ok ==> !CanLog(fs.sb, fs.outstanding, l0 + MapBlocks(fs.sb, FileBlocks(fs.owner, i)))
    ensures ok ==> Emptying(fs, i, k + 1, m0, d0, l0, freed)
    ensures ok ==> fs.mem == old(fs.mem)[i := old(fs.mem)[i].(addrs := old(fs.mem)[i].addrs[k := 0])]
  {
    hide Sweeping, SameOutside, Covered, Below, Emptied, Ptr, Cleared, HeaderOk, CanLog, CanFree, FileBlocks, MapBlocks;
    ghost var d, lg, o := fs.disk, fs.logged, fs.owner;
    EmptiedStep(o, i, k);
    RootPtr(m0, d, i, k);
    SlotFails(fs.sb, o, i, k, freed0, l0, lg, fs.outstanding, fs.mem[i].addrs[k]);
    if k < NDIRECT {
      ok, freed := FreeLeaf(fs, fs.mem[i].addrs[k], m0, o, Root(i, k), freed0);
    } else if k == NDIRECT {
      ok, freed := FreeIndirect(fs, fs.mem[i].addrs[k], m0, o, Root(i, k), freed0);
    } else {
      ok, freed := FreeDouble(fs, fs.mem[i].addrs[k], m0, o, Root(i, k), freed0);
    }
    if !ok {
      return;
    }
    SameOutsideTrans(fs.sb, d0, d, fs.disk);
    ClearedTrans(fs.sb, l0, lg, fs.logged, {}, freed0, freed);
    CoveredTrans(d0, l0, d, lg, fs.disk, fs.logged);
    fs.mem := fs.mem[i := fs.mem[i].(addrs := fs.mem[i].addrs[k := 0])];
  }

  lemma EmptiedNone(o: map<nat, Role>, i: nat)
    ensures forall b :: !Emptied(o, i, 0, b)
  {
  }

  lemma RootPtr(m: seq<Inode>, d: Disk, i: nat, k: nat)
    requires i < |m| && k < NDIRECT + 2
    ensures Ptr(m, d, Root(i, k)) == m[i].addrs[k]
  {
  }

  // From s0 to s file i was emptied: its blocks are free, and the other files,
  // inodes and blocks are as they were.
  ghost predicate Truncated(sb: Super, i: nat, s0: Snap, s: Snap) {
    && i < |s0.mem| && SizesOk(s0.mem) && SizesOk(s.mem) && Aside(sb, i, s0, s)
    && s.mem == s0.mem[i := s0.mem[i].(size := 0, addrs := NoAddrs())] && Flushed(s.mem, s.disk, sb, i)
    && (forall b :: b in s.owner <==> b in s0.owner && InodeOf(s0.owner[b]) != i)
    && (forall b :: b in s.owner ==> s.owner[b] == s0.owner[b])
    && (forall b :: 0 <= b < sb.size ==>
          (Used(s.disk, sb, b) <==> Used(s0.disk, sb, b) && !(b in s0.owner && InodeOf(s0.owner[b]) == i)))
    && (forall f :: 0 <= f < |s.mem| && f != i ==> Content(s.mem, s.disk, f) == Content(s0.mem, s0.disk, f))
    && (forall f :: 0 <= f < |s.mem| && Dense(s0.mem, s0.disk, f) ==> Dense(s.mem, s.disk, f))
  }

  // itrunc: every block of inode i is freed once, no bfree finds a free block,
  // and nothing else changes. It panics exactly when it is called outside of a
  // transaction, or when the bitmap blocks of the file fill the log header.
  method Itrunc(fs: FileSys, i: nat) returns (ok: bool)
    requires fs.Valid() && fs.loose == {} && i < |fs.mem| && SizesOk(fs.mem)
    modifies fs`mem, fs`disk, fs`owner, fs`logged
    ensures ok <==> CanLog(fs.sb, fs.outstanding, old(fs.logged) + MapBlocks(fs.sb, FileBlocks(old(fs.owner), i)))
    ensures ok ==> fs.Valid() && fs.loose == {} && Truncated(fs.sb, i, old(fs.Now()), fs.Now())
    ensures ok ==>
              fs.logged == old(fs.logged) + MapBlocks(fs.sb, FileBlocks(old(fs.owner), i)) + {Iblock(fs.sb, i)}
    ensures ok ==> Covered(old(fs.disk), old(fs.logged), fs.disk, fs.logged)
  {
    hide Owned, BitmapOk, SameOutside, Covered, Emptied, Ptr, GetInode, Content, Dense, Sweeping, Used, HeaderOk,
      CanLog, FileBlocks, MapBlocks, Cleared, DinodesKept, NoAddrs, Truncated;
    ghost var m0, d0, o0, lg0 := fs.mem, fs.disk, fs.owner, fs.logged;
    ghost var freed;
    ok, freed := FreeRoots(fs, i);
    if !ok {
      return;
    }
    ghost var d, lg := fs.disk, fs.logged;
    fs.mem := fs.mem[i := fs.mem[i].(size := 0)];
    SweepFacts(fs.sb, m0, d, o0, freed);
    TruncOwned(fs.sb, m0, d, o0, freed, i, fs.mem[i]);
    AllCleared(fs.sb, lg0, lg, o0, i, freed);
    assert m0[i := fs.mem[i]] == fs.mem;
    fs.owner := fs.owner - freed;
    ok := fs.Iupdate(i);
    if !ok {
      return;
    }
    CoveredTrans(d0, lg0, d, lg, fs.disk, fs.logged);
    TruncDone(fs.sb, m0, d0, o0, freed, fs.mem, d, fs.disk, i);
    TruncAside(fs.sb, m0, d0, fs.mem, d, fs.disk, i);
    TruncatedIs(fs.sb, i, Snap(m0, d0, o0, lg0), fs.Now(), freed);
  }

  lemma TruncatedIs(sb: Super, i: nat, s0: Snap, s: Snap, freed: set<nat>)
    requires i < |s0.mem| == |s.mem| == sb.ninodes && SizesOk(s0.mem) && sb.Ok(s0.disk) && sb.Ok(s.disk)
    requires s.mem == s0.mem[i := s0.mem[i].(size := 0, addrs := NoAddrs())] && Flushed(s.mem, s.disk, sb, i)
    requires s.owner == s0.owner - freed && forall b :: b in freed <==> b in s0.owner && InodeOf(s0.owner[b]) == i
    requires forall b :: 0 <= b < sb.size ==>
               (Used(s.disk, sb, b) <==> Used(s0.disk, sb, b) && !(b in s0.owner && InodeOf(s0.owner[b]) == i))
    requires forall f :: 0 <= f < |s.mem| && f != i ==> Content(s.mem, s.disk, f) == Content(s0.mem, s0.disk, f)
    requires forall f :: 0 <= f < |s.mem| && Dense(s0.mem, s0.disk, f) ==>
               s.mem[f].size <= MAXBYTES && Dense(s.mem, s.disk, f)
    requires DinodesKept(sb, i, s0.disk, s.disk) && forall b :: 0 <= b < sb.inodestart ==> s.disk[b] == s0.disk[b]
    ensures Truncated(sb, i, s0, s)
  {
    hide Used, Content, Dense, GetInode, DinodesKept, NoAddrs;
  }

  // In a log with room for all bitmap blocks of the disk it never panics.
  lemma TruncFits(sb: Super, outstanding: nat, m: seq<Inode>, d: Disk, o: map<nat, Role>, l: set<nat>, i: nat)
    requires sb.Ok(d) && Owned(m, d, sb, o) && outstanding > 0 && |l| + sb.size / BPB + 1 < sb.HeaderLimit()
    ensures CanLog(sb, outstanding, l + MapBlocks(sb, FileBlocks(o, i)))
  {
    hide MapBlocks, Ptr;
    MapCount(sb, FileBlocks(o, i));
    UnionCount(l, MapBlocks(sb, FileBlocks(o, i)));
  }

  lemma AllCleared(sb: Super, l0: set<nat>, l: set<nat>, o: map<nat, Role>, i: nat, freed: set<nat>)
    requires Cleared(sb, l0, l, {}, freed) && forall b :: b in freed <==> b in o && InodeOf(o[b]) == i
    ensures l == l0 + MapBlocks(sb, FileBlocks(o, i))
  {
    assert freed - {} == FileBlocks(o, i);
  }

  lemma TruncAside(sb: Super, m0: seq<Inode>, d0: Disk, m: seq<Inode>, d: Disk, d': Disk, i: nat)
    requires sb.Ok(d0) && |d'| == |d| && SameOutside(sb, d0, d) && i < |m0| == |m| && m == m0[i := m[i]]
    requires DinodesKept(sb, i, d, d') && |m0| == sb.ninodes
    requires forall b :: 0 <= b < |d| && b != Iblock(sb, i) ==> d'[b] == d[b]
    ensures forall f :: 0 <= f < |m| && f != i ==> m[f] == m0[f]
    ensures sb.Ok(d') && DinodesKept(sb, i, d0, d') && forall b :: 0 <= b < sb.inodestart ==> d'[b] == d0[b]
  {
    hide GetInode;
  }

  lemma TruncDone(sb: Super, m0: seq<Inode>, d0: Disk, o0: map<nat, Role>, freed: set<nat>, m: seq<Inode>, d: Disk,
                  d': Disk, i: nat)
    requires sb.Ok(d0) && Owned(m0, d0, sb, o0) && BitmapOk(d0, sb, o0, {}) && SameOutside(sb, d0, d) && SizesOk(m0)
    requires i < |m0| == |m| && m == m0[i := m[i]] && m[i].addrs == NoAddrs()
    requires |d'| == |d| && Iblock(sb, i) < sb.bmapstart && forall b :: 0 <= b < |d| && b != Iblock(sb, i) ==>
        d'[b] == d[b]
    requires Owned(m, d', sb, o0 - freed) && BitmapOk(d', sb, o0 - freed, {})
    requires forall b :: b in freed <==> b in o0 && InodeOf(o0[b]) == i
    ensures sb.Ok(d') && forall b :: 0 <= b < sb.size ==>
              (Used(d', sb, b) <==> Used(d0, sb, b) && !(b in o0 && InodeOf(o0[b]) == i))
    ensures forall f :: 0 <= f < |m| && f != i ==> Content(m, d', f) == Content(m0, d0, f)
    ensures m[i].size == 0 ==>
              forall f :: 0 <= f < |m| && Dense(m0, d0, f) ==> m[f].size <= MAXBYTES && Dense(m, d', f)
  {
    hide Used, Content, Ptr;
    OwnedBounds(m0, d0, sb, o0);
    forall r | Shape(r, |m0|) && InodeOf(r) != i
      ensures Ptr(m, d', r) == Ptr(m0, d0, r)
    {
      SamePtr(m0, d0, d', sb, o0, r);
      TruncPtr(m0, d', i, m[i], r);
    }
    forall f | 0 <= f < |m| && f != i
      ensures Content(m, d', f) == Content(m0, d0, f)
    {
      TruncContent(sb, m0, d0, o0, m, d', i, f);
    }
  }
}
