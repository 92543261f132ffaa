// Two-level page tables (vm.c) and the frames they use, as values.
module PageTables {
  import opened Common

  const ENTRIES := 1024      // NPDENTRIES, NPTENTRIES
  const PAGES := 1048576     // of the address space
  const USER := 524288       // pages below KERNBASE

  datatype Pte = Absent | Present(frame: nat, perm: nat)

  // What a frame is used for: the directory, table i, or virtual page v.
  datatype Place = Dir | Table(i: nat) | Page(v: nat)

  type Pdes = s: seq<Option<nat>> | |s| == ENTRIES witness seq(ENTRIES, i => None)
  type Tab = s: seq<Pte> | |s| == ENTRIES witness seq(ENTRIES, i => Absent)
  type Tabs = s: seq<Tab> | |s| == ENTRIES witness seq(ENTRIES, i => seq(ENTRIES, j => Absent))

  // The entry of virtual page v, as walkpgdir finds it.
  function Mapping(pde: Pdes, tab: Tabs, v: nat): (e: Pte)
    requires v < PAGES
  {
    if pde[v / ENTRIES].None? then Absent else tab[v / ENTRIES][v % ENTRIES]
  }

  function PutPte(tab: Tabs, v: nat, e: Pte): (r: Tabs)
    requires v < PAGES
  {
    tab[v / ENTRIES := tab[v / ENTRIES][v % ENTRIES := e]]
  }

  lemma PutMapping(pde: Pdes, tab: Tabs, v: nat, e: Pte)
    requires v < PAGES && pde[v / ENTRIES].Some?
    ensures forall u :: 0 <= u < PAGES ==>
              Mapping(pde, PutPte(tab, v, e), u) == if u == v then e else Mapping(pde, tab, u)
  {
    forall u | 0 <= u < PAGES
      ensures Mapping(pde, PutPte(tab, v, e), u) == if u == v then e else Mapping(pde, tab, u)
    {
      assert u / ENTRIES == v / ENTRIES && u % ENTRIES == v % ENTRIES ==> u == v;
    }
  }

  // owner lists the frames of a page table, each with the one place that uses
  // it. Frames mapped above KERNBASE belong to the kernel.
  ghost predicate Owned(dir: nat, pde: Pdes, tab: Tabs, owner: map<nat, Place>) {
    && dir in owner && owner[dir] == Dir
    && (forall i :: 0 <= i < ENTRIES && pde[i].Some? ==> pde[i].value in owner && owner[pde[i].value] == Table(i))
    && (forall v :: 0 <= v < USER && Mapping(pde, tab, v).Present? ==>
          Mapping(pde, tab, v).frame in owner && owner[Mapping(pde, tab, v).frame] == Page(v))
    && (forall f :: f in owner ==> Holds(dir, pde, tab, owner[f], f))
  }

  predicate Holds(dir: nat, pde: Pdes, tab: Tabs, p: Place, f: nat) {
    match p
    case Dir => f == dir
    case Table(i) => i < ENTRIES && pde[i] == Some(f)
    case Page(v) => v < USER && Mapping(pde, tab, v).Present? && Mapping(pde, tab, v).frame == f
  }

  // A free list without repetitions.
  ghost predicate NoDup(s: seq<nat>) {
    s == [] || (s[0] !in s[1..] && NoDup(s[1..]))
  }

  // The frames of pages lo..hi, in order.
  ghost function Frames(pde: Pdes, tab: Tabs, lo: nat, hi: nat): (fs: seq<nat>)
    requires hi <= PAGES
    decreases hi
  {
    if lo >= hi then []
    else
      var e := Mapping(pde, tab, hi - 1);
      Frames(pde, tab, lo, hi - 1) + if e.Present? then [e.frame] else []
  }

  // Pushed one by one on a list.
  ghost function PushAll(fs: seq<nat>, free: seq<nat>): (r: seq<nat>) {
    if fs == [] then free else [fs[|fs| - 1]] + PushAll(fs[..|fs| - 1], free)
  }

  lemma PushNext(fs: seq<nat>, f: nat, free: seq<nat>)
    ensures PushAll(fs + [f], free) == [f] + PushAll(fs, free)
  {
    assert (fs + [f])[..|fs|] == fs;
  }

  // Where a whole table is missing there is nothing to free.
  lemma {:induction false} SkipTable(pde: Pdes, tab: Tabs, lo: nat, mid: nat, hi: nat)
    requires lo <= mid <= hi <= PAGES && forall v :: mid <= v < hi ==> Mapping(pde, tab, v) == Absent
    ensures Frames(pde, tab, lo, hi) == Frames(pde, tab, lo, mid)
    decreases hi
  {
    if mid < hi {
      SkipTable(pde, tab, lo, mid, hi - 1);
    }
  }

  // Entry v is cleared and its frame given up.
  lemma DropPage(dir: nat, pde: Pdes, tab: Tabs, owner: map<nat, Place>, v: nat)
    requires Owned(dir, pde, tab, owner) && v < USER && Mapping(pde, tab, v).Present?
    ensures var f := Mapping(pde, tab, v).frame;
            f in owner && Owned(dir, pde, PutPte(tab, v, Absent), owner - {f})
  {
    hide Mapping, PutPte;
    var f, tab' := Mapping(pde, tab, v).frame, PutPte(tab, v, Absent);
    TablePresent(pde, tab, v);
    PutMapping(pde, tab, v, Absent);
    forall g | g in owner - {f}
      ensures Holds(dir, pde, tab', owner[g], g)
    {
      assert Holds(dir, pde, tab, owner[g], g);
    }
  }

  lemma TablePresent(pde: Pdes, tab: Tabs, v: nat)
    requires v < PAGES && Mapping(pde, tab, v).Present?
    ensures pde[v / ENTRIES].Some?
  {
  }

  // Frame f, used by nobody, is put into the empty entry v.
  lemma AddPage(dir: nat, pde: Pdes, tab: Tabs, owner: map<nat, Place>, v: nat, f: nat, perm: nat)
    requires Owned(dir, pde, tab, owner) && v < USER && Mapping(pde, tab, v) == Absent && pde[v / ENTRIES].Some? &&
             f !in owner
    ensures Owned(dir, pde, PutPte(tab, v, Present(f, perm)), owner[f := Page(v)])
  {
    hide Mapping, PutPte;
    var tab', owner' := PutPte(tab, v, Present(f, perm)), owner[f := Page(v)];
    PutMapping(pde, tab, v, Present(f, perm));
    forall g | g in owner'
      ensures Holds(dir, pde, tab', owner'[g], g)
    {
      if g != f {
        assert Holds(dir, pde, tab, owner[g], g);
      }
    }
  }

  function EmptyTab(): (t: Tab)
    ensures forall j :: 0 <= j < ENTRIES ==> t[j] == Absent
  {
    seq(ENTRIES, j => Absent)
  }

  // A new, empty table i moves no translation.
  lemma NewTableMapping(pde: Pdes, tab: Tabs, i: nat, f: nat)
    requires i < ENTRIES && pde[i] == None
    ensures forall v :: 0 <= v < PAGES ==> Mapping(pde[i := Some(f)], tab[i := EmptyTab()], v) == Mapping(pde, tab, v)
  {
  }

  lemma AddTable(dir: nat, pde: Pdes, tab: Tabs, owner: map<nat, Place>, i: nat, f: nat)
    requires Owned(dir, pde, tab, owner) && i < ENTRIES && pde[i] == None && f !in owner
    ensures Owned(dir, pde[i := Some(f)], tab[i := EmptyTab()], owner[f := Table(i)])
  {
    hide Mapping;
    NewTableMapping(pde, tab, i, f);
    var pde': Pdes, tab': Tabs, owner' := pde[i := Some(f)], tab[i := EmptyTab()], owner[f := Table(i)];
    assert forall v :: 0 <= v < PAGES ==> Mapping(pde', tab', v) == Mapping(pde, tab, v);
    forall g | g in owner'
      ensures Holds(dir, pde', tab', owner'[g], g)
    {
      if g != f {
        assert Holds(dir, pde, tab, owner[g], g);
      }
    }
  }

  lemma FramesNone(pde: Pdes, tab: Tabs, lo: nat, free: seq<nat>)
    requires lo <= PAGES
    ensures PushAll(Frames(pde, tab, lo, lo), free) == free
  {
  }

  lemma WalkIs(pde: Pdes, tab: Tabs, v: nat)
    requires v < PAGES
    ensures Mapping(pde, tab, v) == if pde[v / ENTRIES].None? then Absent else tab[v / ENTRIES][v % ENTRIES]
    ensures forall e :: PutPte(tab, v, e) == tab[v / ENTRIES := tab[v / ENTRIES][v % ENTRIES := e]]
  {
  }

  lemma NoTable(pde: Pdes, tab: Tabs, v: nat)
    requires v < PAGES && pde[v / ENTRIES].None?
    ensures (v / ENTRIES + 1) * 1024 <= PAGES
    ensures forall u :: v <= u < (v / ENTRIES + 1) * 1024 ==> Mapping(pde, tab, u) == Absent
  {
    assert forall u :: v <= u < (v / ENTRIES + 1) * 1024 ==> u / ENTRIES == v / ENTRIES;
  }

  // Visiting page v pushes its frame, if it has one.
  lemma VisitPage(pde: Pdes, tab: Tabs, lo: nat, v: nat, free: seq<nat>)
    requires lo <= v < PAGES
    ensures var e := Mapping(pde, tab, v);
            var was := PushAll(Frames(pde, tab, lo, v), free);
            PushAll(Frames(pde, tab, lo, v + 1), free) == if e.Present? then [e.frame] + was else was
  {
    var e := Mapping(pde, tab, v);
    if e.Present? {
      PushNext(Frames(pde, tab, lo, v), e.frame, free);
    } else {
      assert Frames(pde, tab, lo, v) + [] == Frames(pde, tab, lo, v);
    }
  }

  // Entries above KERNBASE own nothing.
  lemma AddKernelPage(dir: nat, pde: Pdes, tab: Tabs, owner: map<nat, Place>, v: nat, f: nat, perm: nat)
    requires Owned(dir, pde, tab, owner) && USER <= v < PAGES && pde[v / ENTRIES].Some?
    ensures Owned(dir, pde, PutPte(tab, v, Present(f, perm)), owner)
  {
    hide Mapping, PutPte;
    PutMapping(pde, tab, v, Present(f, perm));
    forall g | g in owner
      ensures Holds(dir, pde, PutPte(tab, v, Present(f, perm)), owner[g], g)
    {
      assert Holds(dir, pde, tab, owner[g], g);
    }
  }

  lemma FramesLength(pde: Pdes, tab: Tabs, lo: nat, v: nat)
    requires lo <= v < PAGES
    ensures |Frames(pde, tab, lo, v + 1)| == |Frames(pde, tab, lo, v)| + if Mapping(pde, tab, v).Present? then 1 else 0
  {
  }

  lemma {:induction false} FramesPrefix(pde: Pdes, tab: Tabs, lo: nat, v: nat, hi: nat)
    requires lo <= v <= hi <= PAGES
    ensures |Frames(pde, tab, lo, v)| <= |Frames(pde, tab, lo, hi)|
    decreases hi
  {
    if v < hi {
      FramesPrefix(pde, tab, lo, v, hi - 1);
    }
  }

  lemma FramesEmpty(pde: Pdes, tab: Tabs, lo: nat, v: nat, hi: nat)
    requires v <= PAGES && hi <= PAGES && (v == hi || (v == lo && hi <= lo))
    ensures Frames(pde, tab, lo, v) == Frames(pde, tab, lo, hi)
  {
  }
}
