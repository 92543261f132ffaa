// kalloc.c and vm.c: the frame free list and one page table that takes frames
// from it.
module Vm {
  import opened Common
  import opened PageTables

  const PHYSFRAMES := 0xE000 // PHYSTOP in pages of 4096 bytes

  // PGROUNDUP, as a page number.
  function UpPage(a: nat): (v: nat)
    ensures v * 4096 >= a > (v as int - 1) * 4096
  {
    (a + 4095) / 4096
  }

  // The free list, the frames in use and those in hand are apart, and in range.
  ghost predicate Separate(first: nat, free: seq<nat>, owner: map<nat, Place>, loose: set<nat>) {
    && NoDup(free)
    && (forall f :: f in free ==> 0 < first <= f < PHYSFRAMES && f !in owner && f !in loose)
    && (forall f :: f in owner ==> 0 < first <= f < PHYSFRAMES && f !in loose)
    && (forall f :: f in loose ==> 0 < first <= f < PHYSFRAMES)
  }

  ghost function Elems(s: seq<nat>): set<nat> { set f | f in s }

  ghost function All(free: seq<nat>, owner: map<nat, Place>, loose: set<nat>): set<nat> {
    Elems(free) + owner.Keys + loose
  }

  lemma PushSeparate(first: nat, free: seq<nat>, owner: map<nat, Place>, loose: set<nat>, f: nat)
    requires Separate(first, free, owner, loose) && (f in owner || f in loose)
    ensures f !in free && 0 < first <= f < PHYSFRAMES
    ensures Separate(first, [f] + free, owner - {f}, loose - {f})
    ensures All([f] + free, owner - {f}, loose - {f}) == All(free, owner, loose)
    ensures f in owner ==> loose - {f} == loose
    ensures f in loose ==> owner - {f} == owner
  {
    assert ([f] + free)[1..] == free;
  }

  lemma PopSeparate(first: nat, free: seq<nat>, owner: map<nat, Place>, loose: set<nat>)
    requires Separate(first, free, owner, loose) && free != []
    ensures free[0] !in owner && free[0] !in loose && Separate(first, free[1..], owner, loose + {free[0]})
    ensures All(free[1..], owner, loose + {free[0]}) == All(free, owner, loose)
  {
    assert free == [free[0]] + free[1..];
    assert forall f :: f in free[1..] ==> f in free && f != free[0];
  }

  lemma UseSeparate(first: nat, free: seq<nat>, owner: map<nat, Place>, loose: set<nat>, f: nat, p: Place)
    requires Separate(first, free, owner, loose) && f in loose
    ensures f !in owner && Separate(first, free, owner[f := p], loose - {f})
    ensures All(free, owner[f := p], loose - {f}) == All(free, owner, loose)
  {
    assert owner[f := p].Keys == owner.Keys + {f};
  }

  lemma SeparateLoose(first: nat, free: seq<nat>, owner: map<nat, Place>, loose: set<nat>, f: nat)
    requires Separate(first, free, owner, loose) && f in loose
    ensures f !in owner
  {
  }

  // Frames in use stay where they are, frames in hand in hand or in use, and
  // both keep what they were filled with.
  ghost predicate Keeps(owner0: map<nat, Place>, loose0: set<nat>, fill0: map<nat, nat>, owner: map<nat, Place>,
                        loose: set<nat>, fill: map<nat, nat>)
  {
    && (forall g :: g in owner0 ==> g in owner && owner[g] == owner0[g])
    && (forall g :: g in loose0 ==> g in loose || g in owner)
    && (forall g :: (g in owner0 || g in loose0) && g in fill0 ==> g in fill && fill[g] == fill0[g])
  }

  lemma KeepsSelf(owner: map<nat, Place>, loose: set<nat>, fill: map<nat, nat>)
    ensures Keeps(owner, loose, fill, owner, loose, fill)
  {
  }

  lemma KeepsTrans(o0: map<nat, Place>, l0: set<nat>, f0: map<nat, nat>, o1: map<nat, Place>, l1: set<nat>,
                   f1: map<nat, nat>, o2: map<nat, Place>, l2: set<nat>, f2: map<nat, nat>)
    requires Keeps(o0, l0, f0, o1, l1, f1) && Keeps(o1, l1, f1, o2, l2, f2)
    ensures Keeps(o0, l0, f0, o2, l2, f2)
  {
  }

  lemma KeepsUsed(o0: map<nat, Place>, l0: set<nat>, f0: map<nat, nat>, o: map<nat, Place>, l: set<nat>,
                  fl: map<nat, nat>, f: nat, p: Place)
    requires Keeps(o0, l0, f0, o, l, fl) && f !in o
    ensures Keeps(o0, l0, f0, o[f := p], l - {f}, fl)
  {
  }

  // A frame from the free list is filled and kept in hand, or used at once.
  lemma KeepsFilled(owner: map<nat, Place>, loose: set<nat>, fill: map<nat, nat>, f: nat, x: nat, p: Place)
    requires f !in owner && f !in loose
    ensures Keeps(owner, loose, fill, owner, loose + {f}, fill[f := x])
    ensures Keeps(owner, loose, fill, owner[f := p], loose, fill[f := x])
  {
  }

  // The tables that pages lo..hi need and that are not there.
  ghost function Missing(pde: Pdes, lo: nat, hi: nat): (s: set<nat>)
    requires hi <= PAGES
  {
    set u | lo <= u < hi && pde[u / ENTRIES].None? :: u / ENTRIES
  }

  lemma MissingNone(pde: Pdes, lo: nat)
    requires lo <= PAGES
    ensures Missing(pde, lo, lo) == {}
  {
  }

  lemma MissingNext(pde: Pdes, lo: nat, v: nat)
    requires lo <= v < PAGES
    ensures Missing(pde, lo, v + 1) == Missing(pde, lo, v) + if pde[v / ENTRIES].None? then {v / ENTRIES} else {}
  {
    if pde[v / ENTRIES].None? {
      assert v / ENTRIES in Missing(pde, lo, v + 1);
    }
    forall i | i in Missing(pde, lo, v)
      ensures i in Missing(pde, lo, v + 1)
    {
      var u :| lo <= u < v && pde[u / ENTRIES].None? && i == u / ENTRIES;
    }
  }

  // The tables there now are those of pde0 and those added.
  ghost predicate Tables(pde0: Pdes, added: set<nat>, pde: Pdes) {
    forall i :: 0 <= i < ENTRIES ==> (pde[i].Some? <==> pde0[i].Some? || i in added)
  }

  // Page v was visited, and its table added if it was not there.
  lemma TablesNext(pde0: Pdes, lo: nat, v: nat, pde1: Pdes, pde: Pdes)
    requires lo <= v < PAGES && Tables(pde0, Missing(pde0, lo, v), pde1)
    requires Tables(pde1, {v / ENTRIES}, pde)
    ensures Tables(pde0, Missing(pde0, lo, v + 1), pde)
    ensures |Missing(pde0, lo, v + 1)| == |Missing(pde0, lo, v)| + if pde1[v / ENTRIES].None? then 1 else 0
  {
    hide Missing;
    MissingNext(pde0, lo, v);
    var m, i := Missing(pde0, lo, v), v / ENTRIES;
    if pde0[i].None? && i in m {
      assert m + {i} == m;
    }
  }

  lemma TablesSelf(pde: Pdes)
    ensures Tables(pde, {}, pde)
  {
  }

  // With no table for page v one more is missing.
  lemma MissingMore(pde0: Pdes, lo: nat, v: nat, pde: Pdes)
    requires lo <= v < PAGES && Tables(pde0, Missing(pde0, lo, v), pde) && pde[v / ENTRIES].None?
    ensures |Missing(pde0, lo, v + 1)| == |Missing(pde0, lo, v)| + 1
  {
    hide Missing;
    MissingNext(pde0, lo, v);
  }

  lemma MissingPresent(pde: Pdes, tab: Tabs, lo: nat, v: nat)
    requires lo <= v < PAGES && Mapping(pde, tab, v).Present?
    ensures Missing(pde, lo, v + 1) == Missing(pde, lo, v)
  {
    hide Missing;
    MissingNext(pde, lo, v);
    TablePresent(pde, tab, v);
  }

  lemma {:induction false} MissingPrefix(pde: Pdes, lo: nat, v: nat, hi: nat)
    requires lo <= v <= hi <= PAGES
    ensures |Missing(pde, lo, v)| <= |Missing(pde, lo, hi)|
    decreases hi
  {
    hide Missing;
    if v < hi {
      MissingPrefix(pde, lo, v, hi - 1);
      MissingNext(pde, lo, hi - 1);
      SameSize(Missing(pde, lo, hi - 1), Missing(pde, lo, hi));
    }
  }

  // What is needed up to page v and for page v is needed for the whole range.
  lemma NeedPrefix(pde0: Pdes, lo: nat, v: nat, hi: nat, pde: Pdes)
    requires lo <= v < hi <= PAGES && Tables(pde0, Missing(pde0, lo, v), pde)
    ensures v - lo + |Missing(pde0, lo, v)| + 1 + (if pde[v / ENTRIES].None? then 1 else 0) <= Need(pde0, lo, hi)
  {
    hide Missing, Tables;
    MissingPrefix(pde0, lo, v, hi);
    if pde[v / ENTRIES].None? {
      MissingMore(pde0, lo, v, pde);
      MissingPrefix(pde0, lo, v + 1, hi);
    }
  }

  lemma OnePage(pde: Pdes, v: nat, pde': Pdes)
    requires v < PAGES
    ensures Missing(pde, v, v) == {} && |Missing(pde, v, v + 1)| == if pde[v / ENTRIES].None? then 1 else 0
    ensures Tables(pde, Missing(pde, v, v + 1), pde') <==> Tables(pde, {v / ENTRIES}, pde')
    ensures pde[v / ENTRIES].Some? ==> (Tables(pde, {}, pde') <==> Tables(pde, {v / ENTRIES}, pde'))
  {
    hide Missing;
    MissingNone(pde, v);
    MissingNext(pde, v, v);
    assert Missing(pde, v, v + 1) == if pde[v / ENTRIES].None? then {v / ENTRIES} else {};
  }

  lemma FilledStays(owner0: map<nat, Place>, loose0: set<nat>, fill0: map<nat, nat>, owner: map<nat, Place>,
                    loose: set<nat>, fill: map<nat, nat>, f: nat)
    requires Keeps(owner0, loose0, fill0, owner, loose, fill) && f in loose0 && f in fill0
    ensures f in fill && fill[f] == fill0[f]
  {
  }

  // Frames that allocuvm takes for pages lo..hi.
  ghost function Need(pde: Pdes, lo: nat, hi: nat): nat
    requires hi <= PAGES
  {
    if lo < hi then hi - lo + |Missing(pde, lo, hi)| else 0
  }

  // The frames from pf on that went into user pages, from page a on.
  ghost function Handed(pf: nat, a: nat, n: nat): (s: set<nat>)
    ensures forall f :: f in s <==> pf <= f < pf + n && a + f - pf < USER
  {
    if n == 0 then {} else Handed(pf, a, n - 1) + if a + n - 1 < USER then {pf + n - 1} else {}
  }

  lemma HandedNext(pf: nat, a: nat, n: nat, loose: set<nat>)
    ensures loose - Handed(pf, a, n + 1) == loose - Handed(pf, a, n) - if a + n < USER then {pf + n} else {}
  {
  }

  // Those frames are in their places.
  ghost predicate Placed(owner: map<nat, Place>, pf: nat, a: nat, n: nat) {
    forall f :: f in Handed(pf, a, n) ==> f in owner && owner[f] == Page(a + (f - pf))
  }

  lemma NonePlaced(owner: map<nat, Place>, pf: nat, a: nat)
    ensures Placed(owner, pf, a, 0)
  {
  }

  lemma PlacedKept(o0: map<nat, Place>, l0: set<nat>, f0: map<nat, nat>, owner: map<nat, Place>, loose: set<nat>,
                   fill: map<nat, nat>, pf: nat, a: nat, n: nat)
    requires Placed(o0, pf, a, n) && Keeps(o0, l0, f0, owner, loose, fill)
    ensures Placed(owner, pf, a, n)
    ensures (a + n < USER ==> pf + n in owner && owner[pf + n] == Page(a + n)) ==> Placed(owner, pf, a, n + 1)
  {
  }

  // Pages lo..v that were absent have new zeroed frames, with PTE_W|PTE_U; the
  // other translations are as they were.
  ghost predicate Grew(pde0: Pdes, tab0: Tabs, pde: Pdes, tab: Tabs, free0: seq<nat>, fill: map<nat, nat>, lo: nat,
                       v: nat)
  {
    forall u :: 0 <= u < PAGES ==>
      var e0, e := Mapping(pde0, tab0, u), Mapping(pde, tab, u);
      if lo <= u < v && e0 == Absent then e.Present? && e.perm == 6 && e.frame in free0 && e.frame in fill &&
          fill[e.frame] == 0
      else e == e0
  }

  lemma GrewNone(pde: Pdes, tab: Tabs, free: seq<nat>, fill: map<nat, nat>, lo: nat)
    requires lo <= PAGES
    ensures Grew(pde, tab, pde, tab, free, fill, lo, lo) && Frames(pde, tab, lo, lo) == []
  {
  }

  lemma GrewStep(dir: nat, pde0: Pdes, tab0: Tabs, pde1: Pdes, tab1: Tabs, owner1: map<nat, Place>, pde: Pdes,
                 tab: Tabs, free0: seq<nat>, loose1: set<nat>, fill1: map<nat, nat>, owner: map<nat, Place>,
                 loose: set<nat>, fill: map<nat, nat>, lo: nat, v: nat, mem: nat)
    requires Grew(pde0, tab0, pde1, tab1, free0, fill1, lo, v) && lo <= v < USER && Owned(dir, pde1, tab1, owner1)
    requires forall u :: 0 <= u < PAGES && u != v ==> Mapping(pde, tab, u) == Mapping(pde1, tab1, u)
    requires var e := Mapping(pde1, tab1, v); Mapping(pde, tab, v) == if e == Absent then Present(mem, 6) else e
    requires mem in free0 && mem in fill && fill[mem] == 0
    requires Keeps(owner1, loose1, fill1, owner, loose, fill)
    ensures Grew(pde0, tab0, pde, tab, free0, fill, lo, v + 1) && Mapping(pde1, tab1, v) == Mapping(pde0, tab0, v)
  {
    hide Mapping;
    forall u | 0 <= u < PAGES
      ensures var e0, e := Mapping(pde0, tab0, u), Mapping(pde, tab, u);
              if lo <= u < v + 1 && e0 == Absent then e.Present? && e.perm == 6 && e.frame in free0 &&
                  e.frame in fill && fill[e.frame] == 0
              else e == e0
    {
      if u != v && lo <= u < v && Mapping(pde0, tab0, u) == Absent {
        assert Mapping(pde1, tab1, u).frame in owner1;
      }
    }
  }

  // Undone by deallocuvm: the range is unmapped, and the rest as at the start.
  lemma GrewUndone(pde0: Pdes, tab0: Tabs, pde1: Pdes, tab1: Tabs, pde2: Pdes, tab2: Tabs, pde: Pdes, tab: Tabs,
                   free0: seq<nat>, fill: map<nat, nat>, lo: nat, v: nat, hi: nat)
    requires Grew(pde0, tab0, pde1, tab1, free0, fill, lo, v) && v <= hi <= PAGES
    requires forall u :: 0 <= u < PAGES ==> Mapping(pde2, tab2, u) == Mapping(pde1, tab1, u)
    requires forall u :: 0 <= u < PAGES ==>
              Mapping(pde, tab, u) == if lo <= u < hi then Absent else Mapping(pde2, tab2, u)
    ensures forall u :: 0 <= u < PAGES ==>
              Mapping(pde, tab, u) == if lo <= u < hi then Absent else Mapping(pde0, tab0, u)
  {
    hide Mapping;
  }

  lemma SameSize(a: set<nat>, b: set<nat>)
    requires a <= b
    ensures |a| <= |b| && (|a| == |b| ==> a == b)
  {
    assert b == a + (b - a);
  }

  lemma {:induction false} NoDupCount(s: seq<nat>)
    requires NoDup(s)
    ensures |Elems(s)| == |s|
  {
    if s == [] {
      assert Elems(s) == {};
    } else {
      NoDupCount(s[1..]);
      assert s == [s[0]] + s[1..];
      assert Elems(s) == Elems(s[1..]) + {s[0]};
    }
  }

  // f is one of the tables from i on.
  ghost predicate TableFrom(pde: Pdes, i: nat, f: nat) { exists k :: i <= k < ENTRIES && pde[k] == Some(f) }

  lemma TableNext(dir: nat, pde: Pdes, i: nat)
    requires i < ENTRIES && (forall j, k :: 0 <= j < k < ENTRIES && pde[j].Some? ==> pde[j] != pde[k])
    ensures forall f: nat :: TableFrom(pde, i + 1, f) <==> TableFrom(pde, i, f) && pde[i] != Some(f)
    ensures pde[i].Some? ==> TableFrom(pde, i, pde[i].value)
  {
    forall f: nat
      ensures TableFrom(pde, i + 1, f) <==> TableFrom(pde, i, f) && pde[i] != Some(f)
    {
      if TableFrom(pde, i, f) {
        var k :| i <= k < ENTRIES && pde[k] == Some(f);
      }
      if TableFrom(pde, i + 1, f) {
        var k :| i + 1 <= k < ENTRIES && pde[k] == Some(f);
        assert i <= k;
      }
    }
  }

  lemma NoTableLeft(pde: Pdes)
    ensures forall f: nat :: !TableFrom(pde, ENTRIES, f)
  {
  }

  // Once no user page is mapped only the tables and the directory are left.
  lemma OnlyTables(dir: nat, pde: Pdes, tab: Tabs, owner: map<nat, Place>)
    requires Owned(dir, pde, tab, owner) && forall v :: 0 <= v < USER ==> Mapping(pde, tab, v) == Absent
    ensures forall f: nat :: f in owner <==> f == dir || TableFrom(pde, 0, f)
    ensures forall k :: 0 <= k < ENTRIES ==> pde[k] != Some(dir)
    ensures forall i, k :: 0 <= i < k < ENTRIES && pde[i].Some? ==> pde[i] != pde[k]
  {
    hide Mapping;
    forall f | f in owner
      ensures f == dir || TableFrom(pde, 0, f)
    {
      assert Holds(dir, pde, tab, owner[f], f);
    }
  }

  // All frames are back on the list, none twice.
  lemma AllBack(first: nat, free0: seq<nat>, owner0: map<nat, Place>, loose: set<nat>, free: seq<nat>)
    requires Separate(first, free0, owner0, loose) && Separate(first, free, map[], loose)
    requires All(free, map[], loose) == All(free0, owner0, loose)
    ensures Elems(free) == Elems(free0) + owner0.Keys
    ensures |free| == |free0| + |owner0|
  {
    hide NoDup, All;
    forall f
      ensures f in Elems(free) <==> f in Elems(free0) + owner0.Keys
    {
      InAll(free, map[], loose, f);
      InAll(free0, owner0, loose, f);
    }
    CountBack(free0, owner0, free);
  }

  lemma CountBack(free0: seq<nat>, owner0: map<nat, Place>, free: seq<nat>)
    requires NoDup(free0) && NoDup(free) && Elems(free) == Elems(free0) + owner0.Keys
    requires forall f :: f in free0 ==> f !in owner0
    ensures |free| == |free0| + |owner0|
  {
    hide NoDup;
    NoDupCount(free);
    NoDupCount(free0);
    assert Elems(free0) !! owner0.Keys;
  }

  lemma InAll(free: seq<nat>, owner: map<nat, Place>, loose: set<nat>, f: nat)
    ensures f in All(free, owner, loose) <==> f in free || f in owner || f in loose
  {
  }

  lemma SomeElement(s: seq<nat>)
    requires s != []
    ensures exists x :: x in s
  {
    assert s[0] in s;
  }

  class Space {
    // The first frame after the kernel.
    const first: nat
    var free: seq<nat>
    // The byte each frame was last filled with.
    var fill: map<nat, nat>
    const dir: nat
    var pde: Pdes
    var tab: Tabs

    ghost var owner: map<nat, Place>
    // Frames taken from the free list that no place uses.
    ghost var loose: set<nat>

    ghost predicate Valid()
      reads this
    {
      Owned(dir, pde, tab, owner) && Separate(first, free, owner, loose)
    }

    // An empty page table in the frame dir; setupkvm fills in the kernel part.
    constructor (first: nat, free: seq<nat>, dir: nat)
      requires 0 < first <= dir < PHYSFRAMES && NoDup(free) && dir !in free && forall f :: f in free ==>
          first <= f < PHYSFRAMES
      ensures Valid() && this.first == first && this.free == free && this.dir == dir && loose == {} &&
              owner == map[dir := Dir]
      ensures forall v :: 0 <= v < PAGES ==> Mapping(pde, tab, v) == Absent
    {
      this.first, this.free, this.dir, fill := first, free, dir, map[dir := 0];
      pde, tab := seq(ENTRIES, i => None), seq(ENTRIES, i => EmptyTab());
      owner, loose := map[dir := Dir], {};
    }

    method Kalloc() returns (r: Option<nat>)
      requires Separate(first, free, owner, loose)
      modifies this`free, this`loose
      ensures Separate(first, free, owner, loose) && All(free, owner, loose) == All(old(free), owner, old(loose))
      ensures r == None <==> old(free) == []
      ensures r == None ==> free == old(free) && loose == old(loose)
      ensures r.Some? ==> free == old(free)[1..] && r.value == old(free)[0] && loose == old(loose) + {r.value}
      ensures r.Some? ==> r.value !in owner && r.value !in old(loose)
    {
      hide Separate, All;
      if free == [] {
        return None;
      }
      PopSeparate(first, free, owner, loose);
      r := Some(free[0]);
      free, loose := free[1..], loose + {free[0]};
    }

    // false is panic("kfree").
    method Kfree(f: nat) returns (ok: bool)
      modifies this`free, this`fill
      ensures ok <==> first <= f < PHYSFRAMES
      ensures ok ==> free == [f] + old(free) && fill == old(fill)[f := 1]
      ensures !ok ==> free == old(free) && fill == old(fill)
    {
      if f < first || f >= PHYSFRAMES {
        return false;
      }
      fill := fill[f := 1];
      free := [f] + free;
      ok := true;
    }

    // deallocuvm, with its jump over missing tables, does to every page from
    // newsz up to oldsz what a visit does. false is a panic, which cannot be.
    method Deallocuvm(oldsz: Word, newsz: Word) returns (ok: bool, r: Word)
      requires Valid() && oldsz <= KERNBASE
      modifies this`free, this`fill, this`tab, this`owner
      ensures ok && Valid() && All(free, owner, loose) == All(old(free), old(owner), loose)
      ensures r == if newsz >= oldsz then oldsz else newsz
      ensures newsz < oldsz ==> UpPage(newsz) <= PAGES && UpPage(oldsz) <= USER
      ensures newsz < oldsz ==> free == PushAll(Frames(pde, old(tab), UpPage(newsz), UpPage(oldsz)), old(free))
      ensures forall v :: 0 <= v < PAGES ==>
                Mapping(pde, tab, v) == if UpPage(newsz) <= v < UpPage(oldsz) then Absent else Mapping(pde, old(tab), v)
    {
      hide Owned, Separate, All, Mapping, PutPte, Frames, PushAll;
      ok := true;
      if newsz >= oldsz {
        return ok, oldsz;
      }
      ghost var lo, hi, tab0, free0 := UpPage(newsz), UpPage(oldsz), tab, free;
      var a := UpPage(newsz) * 4096;
      ghost var v: nat := lo;
      FramesNone(pde, tab, lo, free);
      while a < oldsz
        invariant a == v * 4096 && lo <= v <= USER && (a < oldsz <==> v < hi)
        invariant ok && Valid() && All(free, owner, loose) == All(old(free), old(owner), loose)
        invariant free == PushAll(Frames(pde, tab0, lo, v), free0)
        invariant forall u :: 0 <= u < PAGES ==>
                  Mapping(pde, tab, u) == if lo <= u < v then Absent else Mapping(pde, tab0, u)
        invariant forall u :: hi <= u < v ==> Mapping(pde, tab0, u) == Absent
      {
        var i, j := a / 4096 / 1024, a / 4096 % 1024;
        WalkIs(pde, tab, v);
        if pde[i].None? {
          var next := (i + 1) * 1024;
          NoTable(pde, tab0, v);
          SkipTable(pde, tab0, lo, v, next);
          a := next * 4096 - 4096;
          v := next - 1;
        } else if tab[i][j].Present? {
          var f := tab[i][j].frame;
          DropPage(dir, pde, tab, owner, v);
          PushSeparate(first, free, owner, loose, f);
          PutMapping(pde, tab, v, Absent);
          VisitPage(pde, tab0, lo, v, free0);
          ok := Kfree(f);
          tab := tab[i := tab[i][j := Absent]];
          owner := owner - {f};
        } else {
          VisitPage(pde, tab0, lo, v, free0);
        }
        a := a + 4096;
        v := v + 1;
      }
      SkipTable(pde, tab0, lo, hi, v);
      r := newsz;
    }

    // walkpgdir with alloc: the table of page v, new if need be.
    method Walkpgdir(v: nat) returns (ok: bool)
      requires Valid() && v < PAGES
      modifies this`free, this`fill, this`pde, this`tab, this`owner, this`loose
      ensures Valid() && loose == old(loose) && All(free, owner, loose) == All(old(free), old(owner), loose)
      ensures ok <==> old(pde)[v / ENTRIES].Some? || old(free) != []
      ensures ok ==> pde[v / ENTRIES].Some? && Tables(old(pde), {v / ENTRIES}, pde)
      ensures forall u :: 0 <= u < PAGES ==> Mapping(pde, tab, u) == Mapping(old(pde), old(tab), u)
      ensures !ok ==> pde == old(pde) && tab == old(tab) && owner == old(owner)
      ensures free == if ok && old(pde)[v / ENTRIES].None? then old(free)[1..] else old(free)
      ensures Keeps(old(owner), loose, old(fill), owner, loose, fill)
    {
      hide Owned, Separate, All, Mapping, Keeps;
      KeepsSelf(owner, loose, fill);
      var i := v / ENTRIES;
      if pde[i].Some? {
        return true;
      }
      ghost var loose0 := loose;
      var r := Kalloc();
      if r == None {
        return false;
      }
      var f := r.value;
      KeepsFilled(owner, loose0, fill, f, 0, Table(i));
      fill := fill[f := 0];
      AddTable(dir, pde, tab, owner, i, f);
      NewTableMapping(pde, tab, i, f);
      UseSeparate(first, free, owner, loose, f, Table(i));
      pde, tab := pde[i := Some(f)], tab[i := EmptyTab()];
      owner, loose := owner[f := Table(i)], loose - {f};
      assert loose == loose0;
      ok := true;
    }

    // The body of the loop of mappages: 1 is an entry that is present, -1 no
    // frame for the table.
    method MapOne(v: nat, f: nat, perm: nat) returns (r: int)
      requires Valid() && v < PAGES && (v < USER ==> f in loose)
      modifies this`free, this`fill, this`pde, this`tab, this`owner, this`loose
      ensures Valid() && All(free, owner, loose) == All(old(free), old(owner), old(loose))
      ensures r == if old(pde)[v / ENTRIES].None? && old(free) == [] then -1
                   else if Mapping(old(pde), old(tab), v).Present? then 1 else 0
      ensures forall u :: 0 <= u < PAGES ==>
                Mapping(pde, tab, u) == if u == v && r == 0 then Present(f, perm) else Mapping(old(pde), old(tab), u)
      ensures free == if r >= 0 && old(pde)[v / ENTRIES].None? then old(free)[1..] else old(free)
      ensures if r >= 0 then Tables(old(pde), {v / ENTRIES}, pde) else pde == old(pde)
      ensures loose == if r == 0 && v < USER then old(loose) - {f} else old(loose)
      ensures r == 0 && v < USER ==> f in owner && owner[f] == Page(v)
      ensures Keeps(old(owner), old(loose), old(fill), owner, loose, fill)
    {
      hide Owned, Separate, All, Mapping, PutPte, Keeps, Tables;
      var ok := Walkpgdir(v);
      if !ok {
        WalkIs(pde, tab, v);
        return -1;
      }
      WalkIs(pde, tab, v);
      if tab[v / 1024][v % 1024].Present? {
        return 1;
      }
      PutMapping(pde, tab, v, Present(f, perm));
      if v < USER {
        SeparateLoose(first, free, owner, loose, f);
        AddPage(dir, pde, tab, owner, v, f, perm);
        UseSeparate(first, free, owner, loose, f, Page(v));
        KeepsUsed(old(owner), old(loose), old(fill), owner, loose, fill, f, Page(v));
        owner, loose := owner[f := Page(v)], loose - {f};
      } else {
        AddKernelPage(dir, pde, tab, owner, v, f, perm);
      }
      tab := tab[v / 1024 := tab[v / 1024][v % 1024 := Present(f, perm)]];
      return 0;
    }

    // mappages: n entries were set, from page va / 4096 on. It stops, with 0, at
    // an entry that is present, and with -1 without a frame for a table. Frames
    // for user pages are in hand.
    method Mappages(va: Word, size: Word, pf: nat, perm: nat) returns (r: int, ghost n: nat)
      requires Valid() && 0 < size && va + size <= 0x1_0000_0000
      requires Handed(pf, va / 4096, (va + size - 1) / 4096 + 1 - va / 4096) <= loose
      modifies this`free, this`fill, this`pde, this`tab, this`owner, this`loose
      ensures Valid() && All(free, owner, loose) == All(old(free), old(owner), old(loose))
      ensures var a, total := va / 4096, (va + size - 1) / 4096 + 1 - va / 4096;
              && n <= total && a + total <= PAGES
              && (forall v :: 0 <= v < PAGES ==>
                    Mapping(pde, tab, v) ==
                      if a <= v < a + n then Present(pf + (v - a), perm) else Mapping(old(pde), old(tab), v))
              && (forall v :: a <= v < a + n ==> Mapping(old(pde), old(tab), v) == Absent)
              && (r == 0 && n < total ==> Mapping(old(pde), old(tab), a + n).Present?)
              && (r == 0 || r == -1)
              && (r == 0 ==> |free| + |Missing(old(pde), a, a + n)| == |old(free)|)
              && (r == 0 ==> Tables(old(pde), Missing(old(pde), a, a + n), pde))
              && (r == -1 ==> n < total && |Missing(old(pde), a, a + n + 1)| > |old(free)|)
      ensures forall f :: f in free ==> f in old(free)
      ensures loose == old(loose) - Handed(pf, va / 4096, n)
      ensures Placed(owner, pf, va / 4096, n)
      ensures Keeps(old(owner), old(loose), old(fill), owner, loose, fill)
    {
      hide Owned, Separate, All, Mapping, PutPte, Keeps, Tables, Missing, Placed, Handed;
      ghost var a0, pde0, tab0 := va / 4096, pde, tab;
      var a, last, f := va / 4096, (va + size - 1) / 4096, pf;
      n := 0;
      KeepsSelf(owner, loose, fill);
      MissingNone(pde, a0);
      TablesSelf(pde);
      assert Placed(owner, pf, a0, 0) by { NonePlaced(owner, pf, a0); }
      while true
        invariant a == a0 + n && f == pf + n && a <= last < PAGES
        invariant Valid() && All(free, owner, loose) == All(old(free), old(owner), old(loose))
        invariant forall v :: 0 <= v < PAGES ==>
                    Mapping(pde, tab, v) ==
                      if a0 <= v < a0 + n then Present(pf + (v - a0), perm) else Mapping(pde0, tab0, v)
        invariant forall v :: a0 <= v < a0 + n ==> Mapping(pde0, tab0, v) == Absent
        invariant loose == old(loose) - Handed(pf, a0, n)
        invariant Placed(owner, pf, a0, n)
        invariant |free| + |Missing(pde0, a0, a0 + n)| == |old(free)| && Tables(pde0, Missing(pde0, a0, a0 + n), pde)
        invariant forall g :: g in free ==> g in old(free)
        invariant Keeps(old(owner), old(loose), old(fill), owner, loose, fill)
        decreases last - a
      {
        ghost var pde1, owner1, loose1, fill1 := pde, owner, loose, fill;
        assert a < USER ==> f in Handed(pf, a0, last + 1 - a0);
        var e := MapOne(a, f, perm);
        PlacedKept(owner1, loose1, fill1, owner, loose, fill, pf, a0, n);
        KeepsTrans(old(owner), old(loose), old(fill), owner1, loose1, fill1, owner, loose, fill);
        if e < 0 {
          MissingMore(pde0, a0, a, pde1);
          return -1, n;
        }
        TablesNext(pde0, a0, a, pde1, pde);
        if e == 1 {
          MissingPresent(pde0, tab0, a0, a);
          return 0, n;
        }
        HandedNext(pf, a0, n, old(loose));
        n := n + 1;
        if a == last {
          break;
        }
        a, f := a + 1, f + 1;
      }
      r := 0;
    }

    // The body of the loop of allocuvm, and of the page fault. 1 and 2 are its
    // failures: without a frame, and with a frame but no table for it.
    method AllocPage(v: nat) returns (r: int, mem: nat)
      requires Valid() && v < PAGES
      modifies this
      ensures Valid() && All(free, owner, loose) == All(old(free), old(owner), old(loose))
      ensures r == if old(free) == [] then 1 else if old(pde)[v / ENTRIES].None? && |old(free)| == 1 then 2 else 0
      ensures r == 0 ==> |free| == |old(free)| - 1 - if old(pde)[v / ENTRIES].None? then 1 else 0
      ensures r == 0 ==> Tables(old(pde), {v / ENTRIES}, pde)
      ensures forall f :: f in free ==> f in old(free)
      ensures r != 1 ==> mem in old(free) && mem !in old(owner) && mem !in old(loose)
      ensures forall u :: 0 <= u < PAGES && u != v ==> Mapping(pde, tab, u) == Mapping(old(pde), old(tab), u)
      ensures var e := Mapping(old(pde), old(tab), v);
              && Mapping(pde, tab, v) == (if r == 0 && e == Absent then Present(mem, 6) else e)
              && loose == if r == 1 || (r == 0 && e == Absent && v < USER) then old(loose) else old(loose) + {mem}
      ensures r == 1 ==> free == old(free)
      ensures r == 2 ==> mem == old(free)[0] && free == []
      ensures r == 0 ==> mem == old(free)[0]
      ensures r == 0 ==> mem in fill && fill[mem] == 0
      ensures Keeps(old(owner), old(loose), old(fill), owner, loose, fill)
    {
      hide Owned, Separate, All, Mapping, Keeps, Tables, Missing, Placed, Handed;
      mem := 0;
      KeepsSelf(owner, loose, fill);
      var m := Kalloc();
      if m == None {
        return 1, mem;
      }
      mem := m.value;
      KeepsFilled(owner, old(loose), fill, mem, 0, Page(v));
      fill := fill[mem := 0];
      ghost var n, pde1, owner1, loose1, fill1 := 0, pde, owner, loose, fill;
      r, n := Mappages(v * 4096, 4096, mem, 6);
      KeepsTrans(old(owner), old(loose), old(fill), owner1, loose1, fill1, owner, loose, fill);
      FilledStays(owner1, loose1, fill1, owner, loose, fill, mem);
      OnePage(pde1, v, pde);
      assert n == 0 && r == 0 ==> pde1[v / ENTRIES].Some? by {
        if n == 0 && r == 0 {
          TablePresent(pde1, old(tab), v);
        }
      }
      assert Handed(mem, v, n) == if n == 0 || v >= USER then {} else {mem};
      if r < 0 {
        if free != [] {
          SomeElement(free);
        }
        return 2, mem;
      }
    }

    // The page fault of trap.c at address cr2. The process is killed exactly when
    // there is no frame, or none for the table. Otherwise an absent page gets a
    // zeroed frame. A fault on a page that is present, such as the guard page
    // below the stack or a page of the kernel, takes a frame and loses it.
    method PageFault(cr2: Word) returns (killed: bool)
      requires Valid()
      modifies this
      ensures Valid() && All(free, owner, loose) == All(old(free), old(owner), old(loose))
      ensures var v := cr2 / 4096;
              && (killed <==> |old(free)| < 1 + if old(pde)[v / ENTRIES].None? then 1 else 0)
              && (forall u :: 0 <= u < PAGES && (killed || u != v) ==>
                    Mapping(pde, tab, u) == Mapping(old(pde), old(tab), u))
              && (killed ==> free == old(free) && loose == old(loose))
              && (!killed && Mapping(old(pde), old(tab), v) == Absent ==>
                    && Mapping(pde, tab, v) == Present(old(free)[0], 6)
                    && old(free)[0] in fill && fill[old(free)[0]] == 0 && (v < USER ==> loose == old(loose)))
              && (!killed && Mapping(old(pde), old(tab), v).Present? ==>
                    && Mapping(pde, tab, v) == Mapping(old(pde), old(tab), v)
                    && |free| == |old(free)| - 1 && loose == old(loose) + {old(free)[0]})
    {
      hide Owned, Separate, All, Mapping, Keeps, Tables, Missing, Placed, Handed;
      var e, mem := AllocPage(cr2 / 4096);
      assert Mapping(old(pde), old(tab), cr2 / 4096).Present? ==> old(pde)[cr2 / 4096 / ENTRIES].Some? by {
        if Mapping(old(pde), old(tab), cr2 / 4096).Present? {
          TablePresent(old(pde), old(tab), cr2 / 4096);
        }
      }
      if e == 2 {
        PushSeparate(first, free, owner, loose, mem);
        var _ := Kfree(mem);
        loose := loose - {mem};
        assert free == old(free);
      }
      return e != 0;
    }

    // allocuvm. It fails exactly when the free list is shorter than the pages
    // to visit and the tables they lack. A page of the range that is already
    // present keeps its frame, and the frame taken for it is lost; with none
    // present, none is lost.
    method Allocuvm(oldsz: Word, newsz: Word) returns (ok: bool, r: Word)
      requires Valid()
      modifies this
      ensures Valid() && All(free, owner, loose) == All(old(free), old(owner), old(loose))
      ensures newsz >= KERNBASE ==> !ok && r == 0
      ensures newsz < KERNBASE && newsz < oldsz ==> ok && r == oldsz
      ensures newsz < KERNBASE && newsz >= oldsz ==> r == if ok then newsz else 0
      ensures newsz >= KERNBASE || newsz < oldsz ==> pde == old(pde) && tab == old(tab) && free == old(free) &&
                                                     loose == old(loose)
      ensures newsz < KERNBASE ==> UpPage(newsz) <= PAGES
      ensures oldsz <= newsz < KERNBASE ==> (ok <==> |old(free)| >= Need(old(pde), UpPage(oldsz), UpPage(newsz)))
      ensures oldsz <= newsz < KERNBASE && ok ==> |free| == |old(free)| - Need(old(pde), UpPage(oldsz), UpPage(newsz))
      ensures oldsz <= newsz < KERNBASE && ok ==>
                Grew(old(pde), old(tab), pde, tab, old(free), fill, UpPage(oldsz), UpPage(newsz))
      ensures oldsz <= newsz < KERNBASE && ok ==>
                |loose| == |old(loose)| + |Frames(old(pde), old(tab), UpPage(oldsz), UpPage(newsz))|
      ensures oldsz <= newsz < KERNBASE && !ok ==> forall v :: 0 <= v < PAGES ==>
                Mapping(pde, tab, v) ==
                  if UpPage(oldsz) <= v < UpPage(newsz) then Absent else Mapping(old(pde), old(tab), v)
      ensures oldsz <= newsz < KERNBASE && !ok && Frames(old(pde), old(tab), UpPage(oldsz), UpPage(newsz)) == [] ==>
                loose == old(loose)
    {
      hide Owned, Separate, All, Mapping, Frames, Grew, Missing, Tables, Keeps;
      if newsz >= KERNBASE {
        return false, 0;
      }
      if newsz < oldsz {
        return true, oldsz;
      }
      ghost var lo, hi, pde0, tab0, free0 := UpPage(oldsz), UpPage(newsz), pde, tab, free;
      var v := UpPage(oldsz);
      GrewNone(pde, tab, free, fill, lo);
      MissingNone(pde, lo);
      TablesSelf(pde);
      while v * 4096 < newsz
        invariant lo <= v && (v * 4096 < newsz <==> v < hi) && (v <= hi || v == lo) && v <= USER && hi <= USER
        invariant Valid() && All(free, owner, loose) == All(old(free), old(owner), old(loose))
        invariant forall f :: f in free ==> f in free0
        invariant Grew(pde0, tab0, pde, tab, free0, fill, lo, v)
        invariant |free| + (v - lo) + |Missing(pde0, lo, v)| == |free0| && Tables(pde0, Missing(pde0, lo, v), pde)
        invariant |loose| == |old(loose)| + |Frames(pde0, tab0, lo, v)| && old(loose) <= loose
      {
        ghost var pde1, tab1, fill1, owner1, loose1 := pde, tab, fill, owner, loose;
        FramesPrefix(pde0, tab0, lo, v, hi);
        NeedPrefix(pde0, lo, v, hi, pde);
        var e, mem := AllocPage(v);
        if e != 0 {
          ghost var pde2, tab2 := pde, tab;
          var _, _ := Deallocuvm(newsz, oldsz);
          if e == 2 {
            PushSeparate(first, free, owner, loose, mem);
            var _ := Kfree(mem);
            loose := loose - {mem};
          }
          assert loose == loose1;
          GrewUndone(pde0, tab0, pde1, tab1, pde2, tab2, pde, tab, free0, fill1, lo, v, hi);
          SameSize(old(loose), loose);
          return false, 0;
        }
        TablesNext(pde0, lo, v, pde1, pde);
        GrewStep(dir, pde0, tab0, pde1, tab1, owner1, pde, tab, free0, loose1, fill1, owner, loose, fill, lo, v, mem);
        FramesLength(pde0, tab0, lo, v);
        v := v + 1;
      }
      FramesEmpty(pde0, tab0, lo, v, hi);
      return true, newsz;
    }

    // The loop of freevm over the directory.
    method FreeTables() returns (ok: bool)
      requires Separate(first, free, owner, loose) &&
               (forall f: nat :: f in owner <==> f == dir || TableFrom(pde, 0, f))
      requires forall k :: 0 <= k < ENTRIES ==> pde[k] != Some(dir)
      requires forall i, k :: 0 <= i < k < ENTRIES && pde[i].Some? ==> pde[i] != pde[k]
      modifies this`free, this`fill, this`owner
      ensures ok && Separate(first, free, owner, loose) && All(free, owner, loose) == All(old(free), old(owner), loose)
      ensures forall f: nat :: f in owner <==> f == dir
    {
      hide Separate, All, TableFrom;
      ok := true;
      for i := 0 to ENTRIES
        invariant ok && Separate(first, free, owner, loose) &&
                  All(free, owner, loose) == All(old(free), old(owner), loose)
        invariant forall f: nat :: f in owner <==> f == dir || TableFrom(pde, i, f)
      {
        TableNext(dir, pde, i);
        if pde[i].Some? {
          ghost var f := pde[i].value;
          PushSeparate(first, free, owner, loose, f);
          ok := Kfree(pde[i].value);
          owner := owner - {f};
        }
      }
      NoTableLeft(pde);
    }

    // freevm: every user frame, then every table, then the directory.
    method Freevm() returns (ok: bool)
      requires Valid()
      modifies this`free, this`fill, this`tab, this`owner
      ensures ok && Separate(first, free, map[], loose)
      ensures Elems(free) == Elems(old(free)) + old(owner).Keys
      ensures |free| == |old(free)| + |old(owner)|
    {
      hide Owned, Separate, All, Mapping, Frames, PushAll, TableFrom, Elems;
      var r;
      ok, r := Deallocuvm(KERNBASE, 0);
      OnlyTables(dir, pde, tab, owner);
      ok := FreeTables();
      PushSeparate(first, free, owner, loose, dir);
      ok := Kfree(dir);
      owner := owner - {dir};
      assert owner == map[];
      AllBack(first, old(free), old(owner), loose, free);
    }
  }
}
