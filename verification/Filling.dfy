// What allocation does to a file system: which places of the block trees it
// fills, which blocks it takes for them and which blocks it logs.
module Filling {
  import opened Blocks
  import opened Bits
  import opened FileTree
  import opened FileContent

  // The inodes, the disk, the blocks in use and the blocks logged.
  datatype Snap = Snap(mem: seq<Inode>, disk: Disk, owner: map<nat, Role>, logged: set<nat>)

  ghost predicate Good(sb: Super, s: Snap) {
    sb.Ok(s.disk) && Owned(s.mem, s.disk, sb, s.owner) && BitmapOk(s.disk, sb, s.owner, {})
  }

  ghost function At(s: Snap, r: Role): nat
    requires Shape(r, |s.mem|)
  {
    Ptr(s.mem, s.disk, r)
  }

  // A block of the free bitmap.
  predicate InBitmap(sb: Super, b: nat) { sb.bmapstart <= b < sb.DataStart() }

  ghost function FreeBlocks(disk: Disk, sb: Super): set<nat>
    requires sb.Ok(disk)
  {
    set x | 0 <= x < sb.size && !Used(disk, sb, x)
  }

  // The bitmap blocks with the bits of blocks bs.
  ghost function MapBlocks(sb: Super, bs: set<nat>): set<nat> { set b | b in bs :: sb.bmapstart + b / BPB }

  // The index blocks whose words are the places rs.
  ghost function Parents(rs: set<Role>): set<Role> { set r | r in rs && r.Child? :: r.parent }

  // The blocks in places rs.
  ghost function BlocksIn(owner: map<nat, Role>, rs: set<Role>): set<nat> { set b | b in owner && owner[b] in rs }

  // The places of rs that hold no pointer.
  ghost function Empties(s: Snap, rs: set<Role>): set<Role> {
    set r | r in rs && Shape(r, |s.mem|) && At(s, r) == 0
  }

  // No block moved: what was in use still is, in the same place.
  ghost predicate Stays(o0: map<nat, Role>, o: map<nat, Role>) { forall b :: b in o0 ==> b in o && o[b] == o0[b] }

  // Every block taken is below every block left.
  ghost predicate Lowest(free0: set<nat>, free: set<nat>) {
    free <= free0 && forall x, y :: x in free0 && x !in free && y in free ==> x < y
  }

  // The places rs were empty, and they and no others were filled, with the
  // lowest free blocks.
  ghost predicate Grown(sb: Super, s0: Snap, s: Snap, rs: set<Role>) {
    && |s.mem| == |s0.mem| && |s.disk| == |s0.disk| && sb.Ok(s0.disk) && sb.Ok(s.disk) && Stays(s0.owner, s.owner)
    && (forall r :: r in rs ==> Shape(r, |s.mem|) && At(s0, r) == 0)
    && (forall r :: Shape(r, |s.mem|) ==> (At(s, r) != 0 <==> At(s0, r) != 0 || r in rs))
    && FreeBlocks(s0.disk, sb) == FreeBlocks(s.disk, sb) + BlocksIn(s.owner, rs)
    && Lowest(FreeBlocks(s0.disk, sb), FreeBlocks(s.disk, sb))
  }

  // Logged were the bits of the blocks taken, those blocks, the index blocks
  // that point to them, the blocks in the places data and the blocks meta.
  ghost predicate Logs(sb: Super, l0: set<nat>, s: Snap, rs: set<Role>, data: set<Role>, meta: set<nat>) {
    && (forall r :: r in data ==> Shape(r, |s.mem|) && At(s, r) != 0)
    && s.logged == l0 + MapBlocks(sb, BlocksIn(s.owner, rs)) + BlocksIn(s.owner, rs + Parents(rs) + data) + meta
  }

  ghost predicate Filled(sb: Super, s0: Snap, s: Snap, rs: set<Role>, data: set<Role>, meta: set<nat>) {
    Grown(sb, s0, s, rs) && Logs(sb, s0.logged, s, rs, data, meta)
  }

  // Every block that changed was given to log_write.
  ghost predicate Covered(d0: Disk, l0: set<nat>, d: Disk, l: set<nat>) {
    l0 <= l && |d| == |d0| && forall b :: 0 <= b < |d| && d[b] != d0[b] ==> b in l
  }

  lemma CoveredSame(d: Disk, l: set<nat>)
    ensures Covered(d, l, d, l)
  {
  }

  lemma CoveredTrans(d0: Disk, l0: set<nat>, d1: Disk, l1: set<nat>, d2: Disk, l2: set<nat>)
    requires Covered(d0, l0, d1, l1) && Covered(d1, l1, d2, l2)
    ensures Covered(d0, l0, d2, l2)
  {
  }

  lemma CoveredOne(d: Disk, l: set<nat>, b: nat, x: Block)
    requires b < |d|
    ensures Covered(d, l, d[b := x], l + {b})
  {
  }

  lemma GrownNone(sb: Super, s: Snap)
    requires sb.Ok(s.disk)
    ensures Grown(sb, s, s, {})
  {
    assert BlocksIn(s.owner, {}) == {};
  }

  // The blocks in places that were filled before stay the same.
  lemma BlocksKept(sb: Super, s: Snap, o0: map<nat, Role>, s0: Snap, rs: set<Role>)
    requires Good(sb, s0) && Good(sb, s) && s0.owner == o0 && Stays(o0, s.owner) && |s.mem| == |s0.mem|
    requires forall r :: r in rs ==> Shape(r, |s0.mem|) && At(s0, r) != 0
    ensures BlocksIn(s.owner, rs) == BlocksIn(o0, rs)
  {
    forall b | b in s.owner && s.owner[b] in rs
      ensures b in o0 && o0[b] in rs
    {
      var r := s.owner[b];
      var b0 := At(s0, r);
      assert b0 in o0 && o0[b0] == r;
      assert s.owner[b0] == r && Ptr(s.mem, s.disk, r) == b0;
    }
  }

  lemma LowestTrans(a: set<nat>, b: set<nat>, c: set<nat>)
    requires Lowest(a, b) && Lowest(b, c)
    ensures Lowest(a, c)
  {
  }

  // A filled place hangs under a filled one.
  lemma ParentsFilled(s: Snap, rs: set<Role>)
    requires forall r :: r in rs ==> Shape(r, |s.mem|) && At(s, r) != 0
    ensures forall p :: p in Parents(rs) ==> Shape(p, |s.mem|) && At(s, p) != 0
  {
  }

  lemma GrownTrans(sb: Super, s0: Snap, s1: Snap, s2: Snap, rs: set<Role>, rs': set<Role>)
    requires Good(sb, s1) && Good(sb, s2) && Grown(sb, s0, s1, rs) && Grown(sb, s1, s2, rs')
    ensures Grown(sb, s0, s2, rs + rs') && rs !! rs'
  {
    hide Owned, BitmapOk, Super.Ok;
    BlocksKept(sb, s2, s1.owner, s1, rs);
    assert BlocksIn(s2.owner, rs + rs') == BlocksIn(s2.owner, rs) + BlocksIn(s2.owner, rs');
    LowestTrans(FreeBlocks(s0.disk, sb), FreeBlocks(s1.disk, sb), FreeBlocks(s2.disk, sb));
  }

  lemma FilledTrans(sb: Super, s0: Snap, s1: Snap, s2: Snap, rs: set<Role>, data: set<Role>, meta: set<nat>,
                    rs': set<Role>, data': set<Role>, meta': set<nat>)
    requires Good(sb, s1) && Good(sb, s2)
    requires Filled(sb, s0, s1, rs, data, meta) && Filled(sb, s1, s2, rs', data', meta')
    ensures Filled(sb, s0, s2, rs + rs', data + data', meta + meta') && rs !! rs'
  {
    hide Owned, BitmapOk, Super.Ok, FreeBlocks, Lowest;
    GrownTrans(sb, s0, s1, s2, rs, rs');
    ParentsFilled(s1, rs);
    BlocksKept(sb, s2, s1.owner, s1, rs);
    BlocksKept(sb, s2, s1.owner, s1, rs + Parents(rs) + data);
    LogsUnion(sb, s2.owner, rs, data, rs', data');
  }

  lemma LogsUnion(sb: Super, o: map<nat, Role>, rs: set<Role>, data: set<Role>, rs': set<Role>, data': set<Role>)
    ensures MapBlocks(sb, BlocksIn(o, rs + rs')) == MapBlocks(sb, BlocksIn(o, rs)) + MapBlocks(sb, BlocksIn(o, rs'))
    ensures BlocksIn(o, rs + rs' + Parents(rs + rs') + (data + data')) ==
              BlocksIn(o, rs + Parents(rs) + data) + BlocksIn(o, rs' + Parents(rs') + data')
  {
    assert BlocksIn(o, rs + rs') == BlocksIn(o, rs) + BlocksIn(o, rs');
    assert Parents(rs + rs') == Parents(rs) + Parents(rs');
  }

  // balloc took b, the lowest free block, for the empty place r.
  lemma FilledOne(sb: Super, s: Snap, s': Snap, r: Role, b: nat)
    requires Good(sb, s) && Good(sb, s') && |s'.mem| == |s.mem| && |s'.disk| == |s.disk| && Shape(r, |s.mem|)
    requires At(s, r) == 0 && b !in s.owner && s'.owner == s.owner[b := r] && At(s', r) == b && b != 0
    requires forall x :: Shape(x, |s.mem|) && x != r ==> At(s', x) == At(s, x)
    requires FreeBlocks(s.disk, sb) == FreeBlocks(s'.disk, sb) + {b}
    requires forall y :: y in FreeBlocks(s'.disk, sb) ==> b < y
    requires s'.logged == s.logged + {sb.bmapstart + b / BPB} + {b} + if r.Child? then {At(s', r.parent)} else {}
    ensures Filled(sb, s, s', {r}, {}, {})
  {
    hide Good, Super.Ok, FreeBlocks, MapBlocks, BlocksIn, Ptr, Logs, Grown;
    GoodOwned(sb, s);
    GoodOwned(sb, s');
    LeafBlock(sb, s', r);
    OneLogged(sb, s', r, b);
    GrownOne(sb, s, s', r, b);
    assert Logs(sb, s.logged, s', {r}, {}, {}) by { LogsIs(sb, s.logged, s', {r}, {}, {}); }
  }

  lemma GoodOwned(sb: Super, s: Snap)
    requires Good(sb, s)
    ensures sb.Ok(s.disk) && Owned(s.mem, s.disk, sb, s.owner)
  {
  }

  lemma LogsIs(sb: Super, l0: set<nat>, s: Snap, rs: set<Role>, data: set<Role>, meta: set<nat>)
    requires forall r :: r in data ==> Shape(r, |s.mem|) && At(s, r) != 0
    requires s.logged == l0 + MapBlocks(sb, BlocksIn(s.owner, rs)) + BlocksIn(s.owner, rs + Parents(rs) + data) + meta
    ensures Logs(sb, l0, s, rs, data, meta)
  {
  }

  lemma GrownOne(sb: Super, s: Snap, s': Snap, r: Role, b: nat)
    requires sb.Ok(s.disk) && sb.Ok(s'.disk) && |s'.mem| == |s.mem| && |s'.disk| == |s.disk| && Shape(r, |s.mem|)
    requires At(s, r) == 0 && b !in s.owner && s'.owner == s.owner[b := r] && At(s', r) == b && b != 0
    requires forall x :: Shape(x, |s.mem|) && x != r ==> At(s', x) == At(s, x)
    requires FreeBlocks(s.disk, sb) == FreeBlocks(s'.disk, sb) + {b} && BlocksIn(s'.owner, {r}) == {b}
    requires forall y :: y in FreeBlocks(s'.disk, sb) ==> b < y
    ensures Grown(sb, s, s', {r})
  {
    hide Super.Ok, FreeBlocks, BlocksIn, At;
  }

  lemma OneLogged(sb: Super, s: Snap, r: Role, b: nat)
    requires Owned(s.mem, s.disk, sb, s.owner) && Shape(r, |s.mem|) && At(s, r) == b && b != 0
    ensures MapBlocks(sb, {b}) == {sb.bmapstart + b / BPB}
    ensures BlocksIn(s.owner, {r} + Parents({r}) + {}) == {b} + if r.Child? then {At(s, r.parent)} else {}
  {
    var rs := {r} + Parents({r}) + {};
    assert r.Child? ==> r.parent in Parents({r});
    assert r.Child? ==> At(s, r.parent) != 0;
    forall x | x in BlocksIn(s.owner, rs)
      ensures x == b || (r.Child? && x == At(s, r.parent))
    {
      assert Ptr(s.mem, s.disk, s.owner[x]) == x;
    }
  }

  // A data block or an inode block was written: no place and no bit changed.
  lemma FilledWrite(sb: Super, s: Snap, s': Snap, data: set<Role>, meta: set<nat>)
    requires Good(sb, s) && Good(sb, s') && |s'.mem| == |s.mem| && |s'.disk| == |s.disk| && s'.owner == s.owner
    requires forall x :: Shape(x, |s.mem|) ==> At(s', x) == At(s, x)
    requires forall b :: 0 <= b < |s.disk| && InBitmap(sb, b) ==> s'.disk[b] == s.disk[b]
    requires forall r :: r in data ==> Shape(r, |s.mem|) && At(s', r) != 0
    requires s'.logged == s.logged + BlocksIn(s'.owner, data) + meta
    ensures Filled(sb, s, s', {}, data, meta)
  {
    hide Owned, BitmapOk;
    assert BlocksIn(s'.owner, {}) == {} && MapBlocks(sb, {}) == {} && Parents({}) == {};
    assert {} + {} + data == data;
    assert FreeBlocks(s'.disk, sb) == FreeBlocks(s.disk, sb);
  }

  lemma LeafBlock(sb: Super, s: Snap, r: Role)
    requires Owned(s.mem, s.disk, sb, s.owner) && Shape(r, |s.mem|) && At(s, r) != 0
    ensures BlocksIn(s.owner, {r}) == {At(s, r)}
  {
    forall x | x in BlocksIn(s.owner, {r})
      ensures x == At(s, r)
    {
      assert Ptr(s.mem, s.disk, s.owner[x]) == x;
    }
  }

  // There are as many blocks in filled places as there are places.
  lemma {:induction false} CountBlocks(sb: Super, s: Snap, rs: set<Role>)
    requires Owned(s.mem, s.disk, sb, s.owner) && forall r :: r in rs ==> Shape(r, |s.mem|) && At(s, r) != 0
    ensures |BlocksIn(s.owner, rs)| == |rs|
  {
    hide Owned;
    if rs == {} {
      assert BlocksIn(s.owner, rs) == {};
    } else {
      var r :| r in rs;
      CountBlocks(sb, s, rs - {r});
      LeafBlock(sb, s, r);
      assert BlocksIn(s.owner, rs) == BlocksIn(s.owner, rs - {r}) + BlocksIn(s.owner, {r});
      assert At(s, r) !in BlocksIn(s.owner, rs - {r});
    }
  }

  // As many blocks were taken as places were filled.
  lemma GrownCount(sb: Super, s0: Snap, s: Snap, rs: set<Role>)
    requires Good(sb, s) && Grown(sb, s0, s, rs)
    ensures |FreeBlocks(s0.disk, sb)| == |FreeBlocks(s.disk, sb)| + |rs|
    ensures FreeBlocks(s.disk, sb) !! BlocksIn(s.owner, rs)
  {
    hide Owned, Lowest;
    CountBlocks(sb, s, rs);
    OwnedUsed(sb, s);
  }

  lemma OwnedUsed(sb: Super, s: Snap)
    requires Good(sb, s)
    ensures forall b :: b in s.owner ==> b !in FreeBlocks(s.disk, sb)
  {
  }

  // After the empty places of a were filled, what is empty in b is what was
  // empty in b and not in a.
  lemma EmptiesAfter(sb: Super, s0: Snap, s: Snap, a: set<Role>, b: set<Role>)
    requires Grown(sb, s0, s, Empties(s0, a))
    ensures Empties(s0, a) + Empties(s, b) == Empties(s0, a + b) && Empties(s0, a) !! Empties(s, b)
  {
    hide Super.Ok;
  }

  // The places on the way to blocks lo..hi of file i, and those of the blocks.
  ghost function PathsIn(i: nat, lo: nat, hi: nat): (rs: set<Role>)
    requires hi <= MAXFILE
    decreases hi
  {
    if hi <= lo then {} else PathsIn(i, lo, hi - 1) + PathRoles(i, hi - 1)
  }

  ghost function LeavesIn(i: nat, lo: nat, hi: nat): (rs: set<Role>)
    requires hi <= MAXFILE
    decreases hi
  {
    if hi <= lo then {} else LeavesIn(i, lo, hi - 1) + {Leaf(i, hi - 1)}
  }

  // One more than the last block with a byte in off..off+n, off / BSIZE if
  // there is none.
  function EndBlock(off: nat, n: nat): (b: nat)
    ensures off + n <= MAXBYTES ==> b <= MAXFILE
  {
    if n == 0 then off / BSIZE else (off + n - 1) / BSIZE + 1
  }

  lemma {:induction false} PathsMore(i: nat, lo: nat, mid: nat, hi: nat)
    requires lo <= mid <= hi <= MAXFILE
    ensures PathsIn(i, lo, mid) <= PathsIn(i, lo, hi)
    decreases hi
  {
    if mid < hi {
      PathsMore(i, lo, mid, hi - 1);
    }
  }
}
