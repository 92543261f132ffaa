// Which blocks an operation gives to log_write, told from the state before it,
// and whether the log header has room for them.
module LogRoom {
  import opened Common
  import opened Bits
  import opened FileTree
  import opened Filling

  // The least of a set of numbers.
  ghost function Least(s: set<nat>): (m: nat)
    requires s != {}
    ensures m in s && forall x :: x in s ==> m <= x
  {
    var x :| x in s;
    if s == {x} then x
    else
      assert s == (s - {x}) + {x} && s - {x} != {};
      var m := Least(s - {x});
      if m < x then m else x
  }

  // The k lowest of them.
  ghost function FirstOf(s: set<nat>, k: nat): (t: set<nat>)
    requires k <= |s|
    ensures t <= s && |t| == k
  {
    if k == 0 then {} else {Least(s)} + FirstOf(s - {Least(s)}, k - 1)
  }

  // t is below the rest of s.
  ghost predicate Below(s: set<nat>, t: set<nat>) {
    t <= s && forall x, y :: x in t && y in s && y !in t ==> x < y
  }

  lemma BelowStep(s: set<nat>, t: set<nat>)
    requires Below(s, t) && t != {}
    ensures s != {} && Least(s) in t && Below(s - {Least(s)}, t - {Least(s)})
  {
    hide Least;
    var x :| x in t;
    assert x in s;
  }

  lemma {:induction false} FirstOfIs(s: set<nat>, t: set<nat>)
    requires Below(s, t)
    ensures |t| <= |s| && t == FirstOf(s, |t|)
  {
    hide Least, Below;
    BelowSubset(s, t);
    if t != {} {
      BelowStep(s, t);
      var m := Least(s);
      FirstOfIs(s - {m}, t - {m});
      assert t == {m} + (t - {m});
    }
  }

  lemma BelowSubset(s: set<nat>, t: set<nat>)
    requires Below(s, t)
    ensures t <= s && |t| <= |s|
  {
    SubsetCount(t, s);
  }

  lemma {:induction false} FirstBelow(s: set<nat>, k: nat)
    requires k <= |s|
    ensures Below(s, FirstOf(s, k))
  {
    hide Least;
    if k > 0 {
      FirstBelow(s - {Least(s)}, k - 1);
    }
  }

  // The lowest n + k are the lowest n and the lowest k of the rest.
  lemma FirstOfThen(s: set<nat>, t: set<nat>, k: nat)
    requires Below(s, t) && k <= |s - t|
    ensures |t| + k <= |s| && FirstOf(s, |t| + k) == t + FirstOf(s - t, k)
  {
    hide Least, FirstOf;
    var u := FirstOf(s - t, k);
    FirstBelow(s - t, k);
    assert |t + u| == |t| + k;
    FirstOfIs(s, t + u);
  }

  lemma FirstOfMore(s: set<nat>, k: nat, n: nat)
    requires k <= n <= |s|
    ensures FirstOf(s, k) <= FirstOf(s, n)
  {
    hide Least, FirstOf, Below;
    var t := FirstOf(s, k);
    assert s == t + (s - t);
    FirstOfThen(s, t, n - k) by { FirstBelow(s, k); }
  }

  lemma SubsetCount<T>(s: set<T>, t: set<T>)
    requires s <= t
    ensures |s| <= |t|
  {
    assert t == s + (t - s);
  }

  lemma UnionCount<T>(s: set<T>, t: set<T>)
    ensures |s + t| <= |s| + |t|
  {
    assert s + t == s + (t - s);
    SubsetCount(t - s, t);
  }

  lemma MapCount(sb: Super, bs: set<nat>)
    requires forall b :: b in bs ==> b < sb.size
    ensures |MapBlocks(sb, bs)| <= sb.size / BPB + 1
  {
    IntervalCount(MapBlocks(sb, bs), sb.bmapstart, sb.bmapstart + sb.size / BPB + 1);
  }

  lemma {:induction false} IntervalCount(s: set<nat>, lo: nat, hi: nat)
    requires lo <= hi && forall b :: b in s ==> lo <= b < hi
    ensures |s| <= hi - lo
  {
    if lo == hi {
      assert s == {};
    } else {
      IntervalCount(s - {hi - 1}, lo, hi - 1);
    }
  }

  // What log_write was called for, besides what is in the log, when n blocks
  // are taken, the z lowest of them are zeroed, and the blocks in the places ps
  // are written.
  ghost function Wrote(sb: Super, s: Snap, n: nat, z: nat, ps: set<Role>): set<nat>
    requires sb.Ok(s.disk) && z <= n <= |FreeBlocks(s.disk, sb)|
  {
    var free := FreeBlocks(s.disk, sb);
    s.logged + MapBlocks(sb, FirstOf(free, n)) + FirstOf(free, z) + BlocksIn(s.owner, ps)
  }

  // log_write passes its tests: there is room in the header, also for a block
  // that is already in it, and an operation is outstanding.
  predicate CanLog(sb: Super, outstanding: nat, logged: set<nat>) {
    |logged| < sb.HeaderLimit() && outstanding > 0
  }

  // begin_op lets one more operation in.
  predicate Admits(outstanding: nat, logged: set<nat>) {
    |logged| + (outstanding + 1) * MAXOPBLOCKS <= LOGSIZE
  }

  // The log header between operations: empty once none is outstanding (end_op
  // commits), and never beyond its limit.
  predicate HeaderOk(sb: Super, outstanding: nat, logged: set<nat>) {
    (outstanding == 0 ==> logged == {}) && (logged == {} || |logged| <= sb.HeaderLimit())
  }

  lemma HeaderGrows(sb: Super, outstanding: nat, logged: set<nat>, b: nat)
    requires CanLog(sb, outstanding, logged)
    ensures HeaderOk(sb, outstanding, logged + {b})
  {
  }

  // The next log_write after those passes, and so did they.
  ghost predicate Fits(sb: Super, outstanding: nat, s: Snap, n: nat, z: nat, ps: set<Role>)
    requires sb.Ok(s.disk) && z <= n
  {
    n <= |FreeBlocks(s.disk, sb)| && CanLog(sb, outstanding, Wrote(sb, s, n, z, ps))
  }

  // The empty places rs can be filled, the place last after the others: its
  // last log_write is for its index block, or for the new block if it has none.
  ghost predicate CanFill(sb: Super, outstanding: nat, s: Snap, rs: set<Role>, last: Role)
    requires sb.Ok(s.disk) && last in rs
  {
    Fits(sb, outstanding, s, |rs|, if last.Root? then |rs| - 1 else |rs|, Parents(rs - {last}))
  }

  // They can be filled, the blocks in the places data written, and one more
  // block logged.
  ghost predicate CanWrite(sb: Super, outstanding: nat, s: Snap, rs: set<Role>, data: set<Role>)
    requires sb.Ok(s.disk)
  {
    Fits(sb, outstanding, s, |rs|, |rs|, Parents(rs) + data)
  }

  lemma WroteMore(sb: Super, s: Snap, n: nat, z: nat, ps: set<Role>, n': nat, z': nat, ps': set<Role>)
    requires sb.Ok(s.disk) && z <= n && z' <= n' && n <= n' <= |FreeBlocks(s.disk, sb)| && z <= z' && ps <= ps'
    ensures Wrote(sb, s, n, z, ps) <= Wrote(sb, s, n', z', ps')
    ensures |Wrote(sb, s, n, z, ps)| <= |Wrote(sb, s, n', z', ps')|
  {
    hide FreeBlocks, FirstOf;
    var free := FreeBlocks(s.disk, sb);
    FirstOfMore(free, n, n');
    FirstOfMore(free, z, z');
    SubsetCount(Wrote(sb, s, n, z, ps), Wrote(sb, s, n', z', ps'));
  }

  lemma FitsLess(sb: Super, outstanding: nat, s: Snap, n: nat, z: nat, ps: set<Role>, n': nat, z': nat, ps': set<Role>)
    requires sb.Ok(s.disk) && z <= n <= n' && z <= z' <= n' && ps <= ps'
    ensures Fits(sb, outstanding, s, n', z', ps') ==> Fits(sb, outstanding, s, n, z, ps)
  {
    hide FreeBlocks, Wrote;
    if n' <= |FreeBlocks(s.disk, sb)| {
      WroteMore(sb, s, n, z, ps, n', z', ps');
    }
  }

  // The blocks taken are the lowest free ones.
  lemma TakenAre(sb: Super, s0: Snap, s: Snap, rs: set<Role>)
    requires Good(sb, s) && Grown(sb, s0, s, rs)
    ensures |rs| <= |FreeBlocks(s0.disk, sb)| && BlocksIn(s.owner, rs) == FirstOf(FreeBlocks(s0.disk, sb), |rs|)
    ensures FreeBlocks(s.disk, sb) == FreeBlocks(s0.disk, sb) - FirstOf(FreeBlocks(s0.disk, sb), |rs|)
    ensures Below(FreeBlocks(s0.disk, sb), FirstOf(FreeBlocks(s0.disk, sb), |rs|))
  {
    hide Owned, BitmapOk, FreeBlocks, BlocksIn, FirstOf;
    GrownCount(sb, s0, s, rs);
    CountBlocks(sb, s, rs);
    FirstOfIs(FreeBlocks(s0.disk, sb), BlocksIn(s.owner, rs));
  }

  // The blocks in places ps after some places were filled.
  lemma BlocksAfter(sb: Super, s0: Snap, s: Snap, rs: set<Role>, ps: set<Role>)
    requires Good(sb, s0) && Good(sb, s) && Grown(sb, s0, s, rs)
    ensures BlocksIn(s0.owner, ps) <= BlocksIn(s.owner, ps) <= BlocksIn(s0.owner, ps) + BlocksIn(s.owner, rs)
  {
    hide BitmapOk, Super.Ok, FreeBlocks;
    forall b | b in s.owner && s.owner[b] in ps && s.owner[b] !in rs
      ensures b in s0.owner && s0.owner[b] in ps
    {
      var r := s.owner[b];
      assert At(s, r) == b && At(s0, r) != 0;
      var b0 := At(s0, r);
      assert b0 in s0.owner && s0.owner[b0] == r;
      assert s.owner[b0] == r && At(s, r) == b0;
    }
  }

  lemma MapsUnion(sb: Super, a: set<nat>, b: set<nat>)
    ensures MapBlocks(sb, a + b) == MapBlocks(sb, a) + MapBlocks(sb, b)
  {
  }

  lemma ParentsUnion(a: set<Role>, b: set<Role>)
    ensures Parents(a + b) == Parents(a) + Parents(b)
  {
  }

  lemma BlocksUnion(o: map<nat, Role>, a: set<Role>, b: set<Role>)
    ensures BlocksIn(o, a + b) == BlocksIn(o, a) + BlocksIn(o, b)
  {
  }

  // What was logged, from the state before.
  lemma FilledLogged(sb: Super, s0: Snap, s: Snap, rs: set<Role>, data: set<Role>, meta: set<nat>)
    requires Good(sb, s0) && Good(sb, s) && Filled(sb, s0, s, rs, data, meta)
    ensures |rs| <= |FreeBlocks(s0.disk, sb)|
    ensures s.logged == Wrote(sb, s0, |rs|, |rs|, Parents(rs) + data) + meta
  {
    hide Good, Grown, FreeBlocks, FirstOf, BlocksIn, MapBlocks, Parents, Below;
    TakenAre(sb, s0, s, rs);
    GoodOwned(sb, s0);
    BlocksAfter(sb, s0, s, rs, Parents(rs) + data);
    BlocksUnion(s.owner, rs, Parents(rs) + data);
    assert rs + Parents(rs) + data == rs + (Parents(rs) + data);
  }

  lemma JoinSets<T>(l: set<T>, mt: set<T>, t: set<T>, pd: set<T>, mf: set<T>, fz: set<T>, p0: set<T>, p1: set<T>)
    requires p0 <= p1 <= p0 + t
    ensures l + mt + t + pd + mf + fz + p1 == l + (mt + mf) + (t + fz) + (pd + p0)
  {
  }

  lemma LoggedAfter(sb: Super, s0: Snap, s: Snap, rs: set<Role>, data: set<Role>)
    requires Good(sb, s0) && Good(sb, s) && Filled(sb, s0, s, rs, data, {})
    ensures var t := BlocksIn(s.owner, rs);
            s.logged == s0.logged + MapBlocks(sb, t) + t + BlocksIn(s0.owner, Parents(rs) + data)
  {
    hide Good, Grown, Filled, FreeBlocks, FirstOf, BlocksIn, MapBlocks, Parents, Below;
    FilledLogged(sb, s0, s, rs, data, {});
    FilledGrown(sb, s0, s, rs, data, {});
    TakenAre(sb, s0, s, rs);
  }

  lemma WroteIs(sb: Super, s: Snap, n: nat, z: nat, ps: set<Role>, free: set<nat>)
    requires sb.Ok(s.disk) && z <= n <= |free| && free == FreeBlocks(s.disk, sb)
    ensures Wrote(sb, s, n, z, ps) ==
              s.logged + MapBlocks(sb, FirstOf(free, n)) + FirstOf(free, z) + BlocksIn(s.owner, ps)
  {
    hide FreeBlocks, FirstOf, BlocksIn, MapBlocks;
  }

  // The blocks taken next.
  lemma TakenNow(sb: Super, s0: Snap, s1: Snap, rs: set<Role>, n: nat, z: nat)
    requires Good(sb, s1) && Grown(sb, s0, s1, rs) && sb.Ok(s0.disk) && sb.Ok(s1.disk)
    requires z <= n <= |FreeBlocks(s1.disk, sb)|
    ensures var free, t, free1 := FreeBlocks(s0.disk, sb), BlocksIn(s1.owner, rs), FreeBlocks(s1.disk, sb);
            && |rs| + n <= |free| && FirstOf(free, |rs| + z) == t + FirstOf(free1, z)
            && MapBlocks(sb, FirstOf(free, |rs| + n)) == MapBlocks(sb, t) + MapBlocks(sb, FirstOf(free1, n))
  {
    hide Good, Grown, FreeBlocks, FirstOf, BlocksIn, MapBlocks, Below, Super.Ok;
    var free, t := FreeBlocks(s0.disk, sb), BlocksIn(s1.owner, rs);
    TakenAre(sb, s0, s1, rs);
    FirstOfThen(free, t, n);
    FirstOfThen(free, t, z);
    MapsUnion(sb, t, FirstOf(free - t, n));
  }

  // The same for what comes after the places rs were filled.
  lemma WroteThen(sb: Super, s0: Snap, s1: Snap, rs: set<Role>, data: set<Role>, n: nat, z: nat, ps: set<Role>)
    requires Good(sb, s0) && Good(sb, s1) && Filled(sb, s0, s1, rs, data, {}) && sb.Ok(s0.disk) && sb.Ok(s1.disk)
    requires z <= n <= |FreeBlocks(s1.disk, sb)|
    ensures |rs| + n <= |FreeBlocks(s0.disk, sb)|
    ensures Wrote(sb, s1, n, z, ps) == Wrote(sb, s0, |rs| + n, |rs| + z, Parents(rs) + data + ps)
  {
    hide Good, Filled, Grown, FreeBlocks, FirstOf, BlocksIn, MapBlocks, Parents, Below, Super.Ok, Wrote;
    var free, t, free1 := FreeBlocks(s0.disk, sb), BlocksIn(s1.owner, rs), FreeBlocks(s1.disk, sb);
    FilledGrown(sb, s0, s1, rs, data, {});
    TakenNow(sb, s0, s1, rs, n, z);
    LoggedAfter(sb, s0, s1, rs, data);
    BlocksAfter(sb, s0, s1, rs, ps);
    BlocksUnion(s0.owner, Parents(rs) + data, ps);
    JoinSets(s0.logged, MapBlocks(sb, t), t, BlocksIn(s0.owner, Parents(rs) + data), MapBlocks(sb, FirstOf(free1, n)),
             FirstOf(free1, z), BlocksIn(s0.owner, ps), BlocksIn(s1.owner, ps));
    WroteIs(sb, s1, n, z, ps, free1);
    WroteIs(sb, s0, |rs| + n, |rs| + z, Parents(rs) + data + ps, free);
  }

  lemma FilledGrown(sb: Super, s0: Snap, s: Snap, rs: set<Role>, data: set<Role>, meta: set<nat>)
    requires Filled(sb, s0, s, rs, data, meta)
    ensures Grown(sb, s0, s, rs)
  {
  }

  // What fits after the places rs were filled is what fitted with them.
  lemma FitsThen(sb: Super, outstanding: nat, s0: Snap, s1: Snap, rs: set<Role>, data: set<Role>, n: nat, z: nat,
                 ps: set<Role>)
    requires Good(sb, s0) && Good(sb, s1) && Filled(sb, s0, s1, rs, data, {}) && sb.Ok(s0.disk) && sb.Ok(s1.disk)
    requires z <= n
    ensures Fits(sb, outstanding, s1, n, z, ps) <==>
            Fits(sb, outstanding, s0, |rs| + n, |rs| + z, Parents(rs) + data + ps)
  {
    hide Good, Filled, FreeBlocks, Wrote, Parents;
    FilledGrown(sb, s0, s1, rs, data, {});
    GrownCount(sb, s0, s1, rs);
    if n <= |FreeBlocks(s1.disk, sb)| {
      WroteThen(sb, s0, s1, rs, data, n, z, ps);
    }
  }

  // The place last holds a block, or the empty ones of rs can be filled.
  ghost predicate CanHave(sb: Super, outstanding: nat, s: Snap, rs: set<Role>, last: Role)
    requires sb.Ok(s.disk) && last in rs && Shape(last, |s.mem|)
  {
    At(s, last) != 0 || CanFill(sb, outstanding, s, Empties(s, rs), last)
  }

  // bmap finds or allocates blocks lo..hi of file i, one after the other. What
  // counts is the last one that is absent.
  ghost predicate CanMap(sb: Super, outstanding: nat, s: Snap, i: nat, lo: nat, hi: nat)
    requires sb.Ok(s.disk) && i < |s.mem| && hi <= MAXFILE
    decreases hi
  {
    if hi <= lo then true
    else if At(s, Leaf(i, hi - 1)) != 0 then CanMap(sb, outstanding, s, i, lo, hi - 1)
    else CanFill(sb, outstanding, s, Empties(s, PathsIn(i, lo, hi)), Leaf(i, hi - 1))
  }

  // What can be filled after the places rs is what could with them.
  lemma FillThen(sb: Super, outstanding: nat, s0: Snap, s1: Snap, rs: set<Role>, rs': set<Role>, last: Role)
    requires Good(sb, s0) && Good(sb, s1) && Filled(sb, s0, s1, rs, {}, {}) && sb.Ok(s0.disk) && sb.Ok(s1.disk)
    requires rs !! rs' && last in rs'
    ensures CanFill(sb, outstanding, s1, rs', last) <==> CanFill(sb, outstanding, s0, rs + rs', last)
  {
    hide Good, Filled, Super.Ok, Fits, Parents;
    FitsThen(sb, outstanding, s0, s1, rs, {}, |rs'|, if last.Root? then |rs'| - 1 else |rs'|, Parents(rs' - {last}));
    assert rs + rs' - {last} == rs + (rs' - {last});
    ParentsUnion(rs, rs' - {last});
    assert Parents(rs) + {} == Parents(rs);
    assert |rs + rs'| == |rs| + |rs'|;
  }

  lemma FilledAt(sb: Super, s0: Snap, s1: Snap, rs: set<Role>, data: set<Role>, meta: set<nat>, r: Role)
    requires Filled(sb, s0, s1, rs, data, meta) && Shape(r, |s0.mem|)
    ensures |s1.mem| == |s0.mem| && (At(s1, r) != 0 <==> At(s0, r) != 0 || r in rs)
  {
  }

  // First the place p, then last: all of it can be had iff the rest can
  // once the places a, of which p is the last, have been filled.
  lemma HaveThen(sb: Super, outstanding: nat, s0: Snap, s1: Snap, a: set<Role>, last: Role)
    requires Good(sb, s0) && Good(sb, s1) && Filled(sb, s0, s1, Empties(s0, a), {}, {})
    requires Shape(last, |s0.mem|) && last !in a && |s1.mem| == |s0.mem|
    ensures At(s1, last) != 0 <==> At(s0, last) != 0
    ensures CanHave(sb, outstanding, s1, {last}, last) <==> CanHave(sb, outstanding, s0, a + {last}, last)
  {
    hide Good, Filled, Super.Ok, CanFill, Ptr;
    GoodOwned(sb, s0);
    GoodOwned(sb, s1);
    FilledAt(sb, s0, s1, Empties(s0, a), {}, {}, last);
    if At(s0, last) == 0 {
      assert Empties(s1, {last}) == {last} && Empties(s0, a + {last}) == Empties(s0, a) + {last};
      FillThen(sb, outstanding, s0, s1, Empties(s0, a), {last}, last);
    }
  }

  lemma HaveLess(sb: Super, outstanding: nat, s: Snap, a: set<Role>, p: Role, last: Role)
    requires sb.Ok(s.disk) && p in a && Shape(p, |s.mem|) && Shape(last, |s.mem|) && last !in a
    requires At(s, p) == 0 ==> At(s, last) == 0
    ensures CanHave(sb, outstanding, s, a + {last}, last) ==> CanHave(sb, outstanding, s, a, p)
  {
    if At(s, p) == 0 {
      FillLess(sb, outstanding, s, Empties(s, a), p, Empties(s, a + {last}), last);
    }
  }

  lemma FillLess(sb: Super, outstanding: nat, s: Snap, rs: set<Role>, p: Role, rs': set<Role>, last: Role)
    requires sb.Ok(s.disk) && p in rs && rs <= rs' && last in rs' && last !in rs
    ensures CanFill(sb, outstanding, s, rs', last) ==> CanFill(sb, outstanding, s, rs, p)
  {
    hide Fits;
    SubsetCount(rs, rs' - {last});
    assert rs - {p} <= rs' - {last};
    FitsLess(sb, outstanding, s, |rs|, if p.Root? then |rs| - 1 else |rs|, Parents(rs - {p}),
             |rs'|, if last.Root? then |rs'| - 1 else |rs'|, Parents(rs' - {last}));
  }

  // When bmap fails there is no write either.
  lemma HaveWrite(sb: Super, outstanding: nat, s: Snap, rs: set<Role>, last: Role, data: set<Role>)
    requires sb.Ok(s.disk) && last in rs && Shape(last, |s.mem|)
    ensures CanWrite(sb, outstanding, s, Empties(s, rs), data) ==> CanHave(sb, outstanding, s, rs, last)
  {
    hide Fits;
    if At(s, last) == 0 {
      var es := Empties(s, rs);
      assert last in es;
      FitsLess(sb, outstanding, s, |es|, if last.Root? then |es| - 1 else |es|, Parents(es - {last}),
               |es|, |es|, Parents(es) + data);
    }
  }

  // The next block is written iff all of them could be.
  lemma WriteThen(sb: Super, outstanding: nat, s0: Snap, s1: Snap, a: set<Role>, data: set<Role>, b: set<Role>)
    requires Good(sb, s0) && Good(sb, s1) && Filled(sb, s0, s1, Empties(s0, a), data, {})
    requires sb.Ok(s0.disk) && sb.Ok(s1.disk)
    ensures CanWrite(sb, outstanding, s1, Empties(s1, b), {}) <==>
            CanWrite(sb, outstanding, s0, Empties(s0, a + b), data)
  {
    hide Good, Filled, Grown, Fits, Empties, Super.Ok, Parents;
    var rs, rs' := Empties(s0, a), Empties(s1, b);
    FilledGrown(sb, s0, s1, rs, data, {});
    EmptiesAfter(sb, s0, s1, a, b);
    FitsThen(sb, outstanding, s0, s1, rs, data, |rs'|, |rs'|, Parents(rs') + {});
    ParentsUnion(rs, rs');
    assert Parents(rs) + data + (Parents(rs') + {}) == Parents(rs + rs') + data;
    assert |rs + rs'| == |rs| + |rs'|;
  }

  lemma WriteLess(sb: Super, outstanding: nat, s: Snap, a: set<Role>, data: set<Role>, a': set<Role>, data': set<Role>)
    requires sb.Ok(s.disk) && a <= a' && data <= data'
    ensures CanWrite(sb, outstanding, s, Empties(s, a'), data') ==> CanWrite(sb, outstanding, s, Empties(s, a), data)
  {
    hide Fits;
    var rs, rs' := Empties(s, a), Empties(s, a');
    SubsetCount(rs, rs');
    FitsLess(sb, outstanding, s, |rs|, |rs|, Parents(rs) + data, |rs'|, |rs'|, Parents(rs') + data');
  }

  // The place of a later block is on no earlier path.
  lemma {:induction false} LeafLater(i: nat, lo: nat, hi: nat, bn: nat)
    requires hi <= bn < MAXFILE
    ensures Leaf(i, bn) !in PathsIn(i, lo, hi)
    decreases hi
  {
    if lo < hi {
      LeafLater(i, lo, hi - 1, bn);
      if Leaf(i, bn) == Leaf(i, hi - 1) {
        LeafInjective(i, i, bn, hi - 1);
      }
      if hi - 1 >= NDIRECT {
        assert Height(Leaf(i, hi - 1).parent) == 1;
      }
    }
  }

  // The next block can be had iff all so far can.
  lemma MapThen(sb: Super, outstanding: nat, s0: Snap, s1: Snap, i: nat, lo: nat, bn: nat)
    requires Good(sb, s0) && Good(sb, s1) && i < |s0.mem| == |s1.mem| && lo <= bn < MAXFILE
    requires Filled(sb, s0, s1, Empties(s0, PathsIn(i, lo, bn)), {}, {}) && sb.Ok(s0.disk) && sb.Ok(s1.disk)
    requires CanMap(sb, outstanding, s0, i, lo, bn)
    ensures CanHave(sb, outstanding, s1, PathRoles(i, bn), Leaf(i, bn)) <==>
            CanMap(sb, outstanding, s0, i, lo, bn + 1)
  {
    hide Good, Filled, Super.Ok, CanFill, Ptr, Leaf;
    var a, b, last := PathsIn(i, lo, bn), PathRoles(i, bn), Leaf(i, bn);
    LeafLater(i, lo, bn, bn);
    FilledAt(sb, s0, s1, Empties(s0, a), {}, {}, last);
    if At(s0, last) == 0 {
      FilledGrown(sb, s0, s1, Empties(s0, a), {}, {});
      EmptiesAfter(sb, s0, s1, a, b);
      FillThen(sb, outstanding, s0, s1, Empties(s0, a), Empties(s1, b), last);
    }
  }

  lemma {:induction false} MapFewer(sb: Super, outstanding: nat, s: Snap, i: nat, lo: nat, mid: nat, hi: nat)
    requires sb.Ok(s.disk) && i < |s.mem| && lo <= mid < hi <= MAXFILE && At(s, Leaf(i, hi - 1)) == 0
    requires CanMap(sb, outstanding, s, i, lo, hi)
    ensures CanMap(sb, outstanding, s, i, lo, mid)
    decreases mid
  {
    hide Super.Ok, FreeBlocks, Fits, Ptr, Leaf, CanFill;
    if lo < mid && At(s, Leaf(i, mid - 1)) != 0 {
      MapFewer(sb, outstanding, s, i, lo, mid - 1, hi);
    } else if lo < mid {
      LeafLater(i, lo, mid, hi - 1);
      PathsMore(i, lo, mid, hi);
      FillLess(sb, outstanding, s, Empties(s, PathsIn(i, lo, mid)), Leaf(i, mid - 1),
               Empties(s, PathsIn(i, lo, hi)), Leaf(i, hi - 1));
    }
  }

  // A shorter range can be had if a longer one can.
  lemma {:induction false} MapLess(sb: Super, outstanding: nat, s: Snap, i: nat, lo: nat, mid: nat, hi: nat)
    requires sb.Ok(s.disk) && i < |s.mem| && lo <= mid <= hi <= MAXFILE
    ensures CanMap(sb, outstanding, s, i, lo, hi) ==> CanMap(sb, outstanding, s, i, lo, mid)
    decreases hi
  {
    hide Super.Ok, Leaf, CanFill;
    if mid < hi && CanMap(sb, outstanding, s, i, lo, hi) {
      if At(s, Leaf(i, hi - 1)) == 0 {
        MapFewer(sb, outstanding, s, i, lo, mid, hi);
      } else {
        MapLess(sb, outstanding, s, i, lo, mid, hi - 1);
      }
    }
  }

  // Outside of a transaction all blocks must be there.
  lemma {:induction false} MapOutside(sb: Super, s: Snap, i: nat, lo: nat, hi: nat)
    requires sb.Ok(s.disk) && i < |s.mem| && hi <= MAXFILE
    ensures CanMap(sb, 0, s, i, lo, hi) <==> forall bn :: lo <= bn < hi ==> Ptr(s.mem, s.disk, Leaf(i, bn)) != 0
    decreases hi
  {
    hide Leaf, Ptr;
    if lo < hi {
      MapOutside(sb, s, i, lo, hi - 1);
    }
  }
}
