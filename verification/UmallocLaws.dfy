// The free list is determined by the memory and the live blocks, so free undoes
// malloc.
module UmallocLaws {
  import opened Common
  import opened Umalloc

  // A byte of the heap that no live block has.
  ghost predicate FreeByte(live: set<nat>, owner: map<nat, nat>, x: nat) { x in owner && owner[x] !in live }

  // Two free blocks never meet.
  lemma NeverMeet(ring: seq<nat>, ptr: map<nat, nat>, size: map<nat, nat>, base: nat)
    requires RingOk(ring, ptr, size, base)
    ensures forall c :: c in FreeSet(ring) ==> c in size
    ensures forall c, b :: c in FreeSet(ring) && b in FreeSet(ring) && c < b ==> c + 8 * size[c] < b
  {
    hide Linked;
    forall c, b | c in FreeSet(ring) && b in FreeSet(ring) && c < b
      ensures c in size && c + 8 * size[c] < b
    {
      var i :| 0 < i < |ring| && ring[i] == c;
      var j :| 0 < j < |ring| && ring[j] == b;
    }
  }

  // Free blocks start where free memory starts: they are maximal.
  lemma StartsRun(ring: seq<nat>, ptr: map<nat, nat>, size: map<nat, nat>, base: nat, live: set<nat>,
                  owner: map<nat, nat>, b: nat)
    requires RingOk(ring, ptr, size, base) && Partition(FreeSet(ring), live, size, owner)
    ensures b in FreeSet(ring) <==> FreeByte(live, owner, b) && !(b > 0 && FreeByte(live, owner, b - 1))
  {
    hide Linked, Sorted, RingOk, FreeSet;
    NeverMeet(ring, ptr, size, base);
    assert b in FreeSet(ring) ==> Holds(size, b, b);
    assert b > 0 && b - 1 in owner ==> Holds(size, owner[b - 1], b - 1);
    if b in owner {
      assert Holds(size, owner[b], b);
      assert owner[b] < b ==> Holds(size, owner[b], b - 1);
    }
  }

  // ... and end where it ends.
  lemma EndsRun(ring: seq<nat>, ptr: map<nat, nat>, size: map<nat, nat>, base: nat, live: set<nat>,
                owner: map<nat, nat>, b: nat)
    requires RingOk(ring, ptr, size, base) && Partition(FreeSet(ring), live, size, owner) && b in FreeSet(ring)
    ensures forall x :: b <= x < b + 8 * size[b] ==> FreeByte(live, owner, x)
    ensures !FreeByte(live, owner, b + 8 * size[b])
  {
    hide Linked, Sorted, RingOk, FreeSet;
    NeverMeet(ring, ptr, size, base);
    assert forall x :: b <= x < b + 8 * size[b] ==> Holds(size, b, x);
    var x := b + 8 * size[b];
    assert x in owner ==> Holds(size, owner[x], x);
  }

  lemma SameBytes(free: set<nat>, live: set<nat>, size: map<nat, nat>, owner: map<nat, nat>, free': set<nat>,
                  size': map<nat, nat>, owner': map<nat, nat>, x: nat)
    requires Partition(free, live, size, owner) && Partition(free', live, size', owner') && owner.Keys == owner'.Keys
    requires forall b :: b in live ==> size[b] == size'[b]
    ensures FreeByte(live, owner, x) <==> FreeByte(live, owner', x)
  {
    assert x in owner.Keys <==> x in owner'.Keys;
    if x in owner && owner[x] in live {
      assert Holds(size', owner[x], x);
    }
    if x in owner' && owner'[x] in live {
      assert Holds(size, owner'[x], x);
    }
  }

  lemma {:induction false} SortedSame(r: seq<nat>, r': seq<nat>, k: nat)
    requires Sorted(r) && Sorted(r') && |r| > 0 && |r'| > 0 && r[0] == r'[0] && FreeSet(r) == FreeSet(r')
    requires k <= |r|
    ensures k <= |r'| && r[..k] == r'[..k]
  {
    if k > 1 {
      SortedSame(r, r', k - 1);
      assert forall m :: 0 <= m < k - 1 ==> r[m] == r[..k - 1][m] == r'[..k - 1][m] == r'[m];
      SortedBound(r, r', k - 1);
      SortedBound(r', r, k - 1);
    }
  }

  // Entry k of one is no smaller than entry k of the other when those before
  // agree.
  lemma SortedBound(r: seq<nat>, r': seq<nat>, k: nat)
    requires Sorted(r) && Sorted(r') && FreeSet(r) <= FreeSet(r') && 0 < k && k <= |r'|
    requires k <= |r| && forall m :: 0 <= m < k ==> r[m] == r'[m]
    ensures k < |r| ==> k < |r'| && r'[k] <= r[k]
  {
    if k < |r| {
      assert r[k] in FreeSet(r');
      var m :| 0 < m < |r'| && r'[m] == r[k];
      assert forall i :: 0 <= i < k ==> r'[i] < r[k];
    }
  }

  // Two states of the heap with the same memory and the same live blocks have
  // the same free list.
  lemma Canonical(ring: seq<nat>, ptr: map<nat, nat>, size: map<nat, nat>, ring': seq<nat>, ptr': map<nat, nat>,
                  size': map<nat, nat>, base: nat, live: set<nat>, owner: map<nat, nat>, owner': map<nat, nat>)
    requires RingOk(ring, ptr, size, base) && Partition(FreeSet(ring), live, size, owner)
    requires RingOk(ring', ptr', size', base) && Partition(FreeSet(ring'), live, size', owner')
    requires owner.Keys == owner'.Keys && forall b :: b in live ==> size[b] == size'[b]
    ensures ring == ring'
    ensures forall b :: b in FreeSet(ring) ==> b in size && b in size' && size[b] == size'[b]
    ensures forall k :: 0 <= k < |ring| ==> ring[k] in ptr && ring[k] in ptr' && ptr[ring[k]] == ptr'[ring[k]]
  {
    hide FreeByte;
    forall x
      ensures FreeByte(live, owner, x) <==> FreeByte(live, owner', x)
    {
      SameBytes(FreeSet(ring), live, size, owner, FreeSet(ring'), size', owner', x);
    }
    SameStarts(ring, ptr, size, ring', ptr', size', base, live, owner, owner');
    SortedSame(ring, ring', |ring|);
    SortedSame(ring', ring, |ring'|);
    assert ring == ring[..|ring|] == ring'[..|ring|] == ring';
    forall b | b in FreeSet(ring)
      ensures size[b] == size'[b]
    {
      EndsRun(ring, ptr, size, base, live, owner, b);
      EndsRun(ring', ptr', size', base, live, owner', b);
    }
  }

  lemma SameStarts(ring: seq<nat>, ptr: map<nat, nat>, size: map<nat, nat>, ring': seq<nat>, ptr': map<nat, nat>,
                   size': map<nat, nat>, base: nat, live: set<nat>, owner: map<nat, nat>, owner': map<nat, nat>)
    requires RingOk(ring, ptr, size, base) && Partition(FreeSet(ring), live, size, owner)
    requires RingOk(ring', ptr', size', base) && Partition(FreeSet(ring'), live, size', owner')
    requires forall x :: FreeByte(live, owner, x) <==> FreeByte(live, owner', x)
    ensures FreeSet(ring) == FreeSet(ring')
  {
    hide FreeByte, FreeSet, RingOk, Partition;
    forall b
      ensures b in FreeSet(ring) <==> b in FreeSet(ring')
    {
      StartsRun(ring, ptr, size, base, live, owner, b);
      StartsRun(ring', ptr', size', base, live, owner', b);
    }
  }

  // malloc from the free list and free leave the list as it was.
  method MallocThenFree(h: Heap, nbytes: Word)
    requires h.Valid() && h.freep != 0 && Fits(h.ring, h.size, Units(nbytes))
    modifies h
    ensures h.Valid() && h.live == old(h.live) && h.ring == old(h.ring) && h.brk == old(h.brk)
    ensures forall b :: b in FreeSet(h.ring) || b in h.live ==> b in h.size && b in old(h.size) &&
                                                                h.size[b] == old(h.size)[b]
    ensures forall k :: 0 <= k < |h.ring| ==> h.ring[k] in h.ptr && h.ring[k] in old(h.ptr) &&
                                              h.ptr[h.ring[k]] == old(h.ptr)[h.ring[k]]
  {
    hide RingOk, Partition, FreeSet, Fits, Units, Within;
    ghost var l0, s0, o0 := h.live, h.size, h.owner;
    var r := h.Malloc(nbytes);
    ghost var s1, o1 := h.size, h.owner;
    ghost var f := h.Free(r.ap);
    assert h.live == l0 && h.owner.Keys == o0.Keys;
    KeepsTrans(l0, s0, o0, s1, o1, h.size, h.owner);
    Canonical(old(h.ring), old(h.ptr), s0, h.ring, h.ptr, h.size, h.base, l0, o0, h.owner);
  }
}
