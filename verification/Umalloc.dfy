// The storage allocator of umalloc.c: a circular, address-ordered free list.
module Umalloc {
  import opened Common

  function Next(k: nat, n: nat): nat { if k + 1 == n then 0 else k + 1 }

  // Sizes are counted in headers, which are 8 bytes. Byte x belongs to the block with its header at b.
  predicate Holds(size: map<nat, nat>, b: nat, x: nat) {
    b in size && b <= x < b + 8 * size[b]
  }

  ghost predicate Sorted(ring: seq<nat>) { forall i, j :: 0 <= i < j < |ring| ==> ring[i] < ring[j] }

  ghost predicate Linked(ring: seq<nat>, ptr: map<nat, nat>) {
    && (forall k :: 0 <= k < |ring| ==> ring[k] in ptr)
    && (forall k {:trigger ptr[ring[k]]} :: 0 <= k < |ring| ==> ptr[ring[k]] == ring[Next(k, |ring|)])
  }

  // In address order from base, and no block reaches a later one.
  ghost predicate Ordered(ring: seq<nat>, size: map<nat, nat>, base: nat) {
    && |ring| > 0 && ring[0] == base && base in size && size[base] == 0
    && (forall k :: 0 <= k < |ring| ==> ring[k] in size)
    && (forall k :: 0 < k < |ring| ==> size[ring[k]] > 0)
    && (forall i, j :: 0 <= i < j < |ring| ==> ring[i] + 8 * size[ring[i]] < ring[j])
  }

  // The free list is one address-ordered cycle of blocks that never meet.
  ghost predicate RingOk(ring: seq<nat>, ptr: map<nat, nat>, size: map<nat, nat>, base: nat) {
    Sorted(ring) && Linked(ring, ptr) && Ordered(ring, size, base)
  }

  ghost function FreeSet(ring: seq<nat>): (f: set<nat>) {
    set k | 0 < k < |ring| :: ring[k]
  }

  // The blocks of the free list and the live blocks partition the bytes in
  // owner, which names the block of each.
  ghost predicate Partition(free: set<nat>, live: set<nat>, size: map<nat, nat>, owner: map<nat, nat>) {
    && free !! live
    && (forall b :: b in free || b in live ==> b in size && size[b] > 0)
    && (forall x :: x in owner ==> (owner[x] in free || owner[x] in live) && Holds(size, owner[x], x))
    && (forall b, x :: (b in free || b in live) && Holds(size, b, x) ==> x in owner && owner[x] == b)
  }

  // The owner map after block b was merged into block a.
  ghost function Relabel(owner: map<nat, nat>, b: nat, a: nat): map<nat, nat> {
    map x | x in owner :: if owner[x] == b then a else owner[x]
  }

  // Blocks a and b meet and become one block a.
  lemma Merge(free: set<nat>, live: set<nat>, size: map<nat, nat>, owner: map<nat, nat>, a: nat, b: nat)
    requires Partition(free, live, size, owner) && (a in free || a in live) && (b in free || b in live) &&
             a + 8 * size[a] == b
    ensures Partition(free - {b}, live - {b}, size[a := size[a] + size[b]], Relabel(owner, b, a))
  {
    var size', owner', free', live' := size[a := size[a] + size[b]], Relabel(owner, b, a), free - {b}, live - {b};
    forall x | x in owner'
      ensures (owner'[x] in free' || owner'[x] in live') && Holds(size', owner'[x], x)
    {
      assert Holds(size, owner[x], x);
    }
    forall c, x | (c in free' || c in live') && Holds(size', c, x)
      ensures x in owner' && owner'[x] == c
    {
      assert Holds(size, c, x) || Holds(size, b, x);
    }
  }

  // A live block becomes a free one, or a free one a live one.
  lemma Move(free: set<nat>, live: set<nat>, size: map<nat, nat>, owner: map<nat, nat>, b: nat)
    requires Partition(free, live, size, owner)
    ensures b in live ==> Partition(free + {b}, live - {b}, size, owner)
    ensures b in free ==> Partition(free - {b}, live + {b}, size, owner)
  {
  }

  // The owner map after the bytes of block p from q on became block q.
  ghost function Cut(owner: map<nat, nat>, p: nat, q: nat): map<nat, nat> {
    map x | x in owner :: if owner[x] == p && x >= q then q else owner[x]
  }

  lemma OwnStart(free: set<nat>, live: set<nat>, size: map<nat, nat>, owner: map<nat, nat>)
    requires Partition(free, live, size, owner)
    ensures forall b :: b in free || b in live ==> b in owner && owner[b] == b
  {
    assert forall b :: b in free || b in live ==> Holds(size, b, b);
  }

  // A free block is cut in two, and the upper part is live.
  lemma Split(free: set<nat>, live: set<nat>, size: map<nat, nat>, owner: map<nat, nat>, p: nat, n: nat)
    requires Partition(free, live, size, owner) && p in free && 0 < n < size[p]
    ensures var q := p + 8 * (size[p] - n);
            && q !in free && q !in live
            && Partition(free, live + {q}, size[p := size[p] - n][q := n], Cut(owner, p, q))
  {
    var q := p + 8 * (size[p] - n);
    var size', owner' := size[p := size[p] - n][q := n], Cut(owner, p, q);
    assert Holds(size, p, q);
    OwnStart(free, live, size, owner);
    forall x | x in owner'
      ensures (owner'[x] in free || owner'[x] in live + {q}) && Holds(size', owner'[x], x)
    {
      assert Holds(size, owner[x], x);
    }
    forall c, x | (c in free || c in live + {q}) && Holds(size', c, x)
      ensures x in owner' && owner'[x] == c
    {
      if c == p || c == q {
        assert Holds(size, p, x);
      } else {
        assert Holds(size, c, x);
      }
    }
  }

  ghost function Range(lo: nat, n: nat): (s: set<nat>)
    ensures forall x :: x in s <==> lo <= x < lo + n
  {
    if n == 0 then {} else Range(lo, n - 1) + {lo + n - 1}
  }

  // The owner map with the n units from b on added as block b.
  ghost function Grown(owner: map<nat, nat>, b: nat, n: nat): map<nat, nat> {
    owner + map x | x in Range(b, 8 * n) :: b
  }

  // New memory beyond all blocks, as one live block.
  lemma Grow(free: set<nat>, live: set<nat>, size: map<nat, nat>, owner: map<nat, nat>, b: nat, n: nat)
    requires Partition(free, live, size, owner) && 0 < n && forall x :: x in owner ==> x < b
    ensures b !in free && b !in live
    ensures Partition(free, live + {b}, size[b := n], Grown(owner, b, n))
  {
    OwnStart(free, live, size, owner);
    var size', owner' := size[b := n], Grown(owner, b, n);
    forall x | x in owner'
      ensures (owner'[x] in free || owner'[x] in live + {b}) && Holds(size', owner'[x], x)
    {
      if x < b {
        assert Holds(size, owner[x], x);
      }
    }
    forall c, x | (c in free || c in live + {b}) && Holds(size', c, x)
      ensures x in owner' && owner'[x] == c
    {
      if c != b {
        assert Holds(size, c, x);
      }
    }
  }

  // Blocks do not reach into each other.
  lemma Apart(free: set<nat>, live: set<nat>, size: map<nat, nat>, owner: map<nat, nat>, a: nat, b: nat)
    requires Partition(free, live, size, owner) && (a in free || a in live) && (b in free || b in live) && a < b
    ensures a + 8 * size[a] <= b
  {
    assert Holds(size, b, b);
    assert a + 8 * size[a] > b ==> Holds(size, a, b);
  }

  // bp lies after entry k of the ring and before the next.
  ghost predicate Place(ring: seq<nat>, k: nat, bp: nat) {
    k < |ring| && ring[k] < bp && (k + 1 < |ring| ==> bp < ring[k + 1])
  }

  // The neighbours of a live block in the ring do not overlap it.
  lemma Neighbours(ring: seq<nat>, ptr: map<nat, nat>, size: map<nat, nat>, base: nat, live: set<nat>,
                   owner: map<nat, nat>, k: nat, bp: nat)
    requires RingOk(ring, ptr, size, base) && Partition(FreeSet(ring), live, size, owner) && bp in live &&
             Place(ring, k, bp)
    ensures ring[k] + 8 * size[ring[k]] <= bp
    ensures k + 1 < |ring| ==> bp + 8 * size[bp] <= ring[k + 1]
  {
    if k > 0 {
      assert ring[k] in FreeSet(ring);
      Apart(FreeSet(ring), live, size, owner, ring[k], bp);
    }
    if k + 1 < |ring| {
      assert ring[k + 1] in FreeSet(ring);
      Apart(FreeSet(ring), live, size, owner, bp, ring[k + 1]);
    }
  }

  function Inserted(ring: seq<nat>, k: nat, bp: nat): (r: seq<nat>)
    requires k < |ring|
    ensures |r| == |ring| + 1 && r[k + 1] == bp
    ensures forall j {:trigger r[j]} :: 0 <= j <= k ==> r[j] == ring[j]
    ensures forall j {:trigger r[j]} :: k + 1 < j < |r| ==> r[j] == ring[j - 1]
  {
    ring[..k + 1] + [bp] + ring[k + 1..]
  }

  function Removed(ring: seq<nat>, k: nat): (r: seq<nat>)
    requires k < |ring|
    ensures |r| == |ring| - 1
    ensures forall j {:trigger r[j]} :: 0 <= j < k ==> r[j] == ring[j]
    ensures forall j {:trigger r[j]} :: k <= j < |r| ==> r[j] == ring[j + 1]
  {
    ring[..k] + ring[k + 1..]
  }

  lemma InsertFree(ring: seq<nat>, k: nat, bp: nat)
    requires k < |ring|
    ensures FreeSet(Inserted(ring, k, bp)) == FreeSet(ring) + {bp}
  {
    hide Inserted;
    var r := Inserted(ring, k, bp);
    forall b | b in FreeSet(ring)
      ensures b in FreeSet(r)
    {
      var j :| 0 < j < |ring| && ring[j] == b;
      assert r[if j <= k then j else j + 1] == b;
    }
    assert r[k + 1] == bp;
  }

  lemma RemoveFree(ring: seq<nat>, k: nat)
    requires 0 < k < |ring| && Sorted(ring)
    ensures FreeSet(Removed(ring, k)) == FreeSet(ring) - {ring[k]}
  {
    hide Removed;
    var r := Removed(ring, k);
    forall b | b in FreeSet(ring) && b != ring[k]
      ensures b in FreeSet(r)
    {
      var j :| 0 < j < |ring| && ring[j] == b;
      assert r[if j < k then j else j - 1] == b;
    }
  }

  // Entry j of the ring links to the next, and only entry j is at its address.
  lemma LinkAt(ring: seq<nat>, ptr: map<nat, nat>, j: nat, k: nat)
    requires Sorted(ring) && Linked(ring, ptr) && j < |ring| && k < |ring|
    ensures ring[j] in ptr && ptr[ring[j]] == ring[Next(j, |ring|)] && (ring[j] == ring[k] ==> j == k)
  {
  }

  lemma NotAt(ring: seq<nat>, k: nat, bp: nat, j: nat)
    requires Sorted(ring) && Place(ring, k, bp) && j < |ring|
    ensures ring[j] != bp
  {
  }

  lemma InsertLink(ring: seq<nat>, ptr: map<nat, nat>, k: nat, bp: nat, j: nat)
    requires Sorted(ring) && Linked(ring, ptr) && Place(ring, k, bp) && j <= |ring|
    ensures var r, ptr' := Inserted(ring, k, bp), ptr[bp := ptr[ring[k]]][ring[k] := bp];
            r[j] in ptr' && ptr'[r[j]] == r[Next(j, |r|)]
  {
    hide Sorted, Linked, Inserted;
    LinkAt(ring, ptr, k, k);
    NotAt(ring, k, bp, k);
    if j <= k {
      LinkAt(ring, ptr, j, k);
      NotAt(ring, k, bp, j);
    } else if j > k + 1 {
      LinkAt(ring, ptr, j - 1, k);
      NotAt(ring, k, bp, j - 1);
    }
  }

  lemma InOrder(ring: seq<nat>, i: nat, j: nat)
    requires Sorted(ring) && i <= j < |ring|
    ensures ring[i] <= ring[j] && (i < j ==> ring[i] < ring[j])
  {
  }

  lemma InsertPair(ring: seq<nat>, k: nat, bp: nat, i: nat, j: nat)
    requires Sorted(ring) && Place(ring, k, bp) && i < j <= |ring|
    ensures Inserted(ring, k, bp)[i] < Inserted(ring, k, bp)[j]
  {
    hide Sorted, Inserted;
    if i <= k < j {
      InOrder(ring, i, k);
    }
    if k < j - 1 {
      InOrder(ring, k + 1, j - 1);
    }
    if j <= k {
      InOrder(ring, i, j);
    } else if i > k + 1 {
      InOrder(ring, i - 1, j - 1);
    }
  }

  lemma InsertSorted(ring: seq<nat>, k: nat, bp: nat)
    requires Sorted(ring) && Place(ring, k, bp)
    ensures Sorted(Inserted(ring, k, bp))
  {
    hide Inserted;
    var r := Inserted(ring, k, bp);
    forall i, j | 0 <= i < j < |r|
      ensures r[i] < r[j]
    {
      InsertPair(ring, k, bp, i, j);
    }
  }

  lemma InsertLinked(ring: seq<nat>, ptr: map<nat, nat>, k: nat, bp: nat)
    requires Sorted(ring) && Linked(ring, ptr) && Place(ring, k, bp)
    ensures Sorted(Inserted(ring, k, bp)) && Linked(Inserted(ring, k, bp), ptr[bp := ptr[ring[k]]][ring[k] := bp])
  {
    hide Inserted, Next, Sorted;
    InsertSorted(ring, k, bp);
    forall j | 0 <= j <= |ring| {
      InsertLink(ring, ptr, k, bp, j);
    }
  }

  lemma RemoveLink(ring: seq<nat>, ptr: map<nat, nat>, k: nat, j: nat)
    requires Sorted(ring) && Linked(ring, ptr) && 0 < k < |ring| && j < |ring| - 1
    ensures var r, ptr' := Removed(ring, k), ptr[ring[k - 1] := ptr[ring[k]]];
            r[j] in ptr' && ptr'[r[j]] == r[Next(j, |r|)]
  {
    hide Sorted, Linked, Removed;
    LinkAt(ring, ptr, k, k);
    LinkAt(ring, ptr, if j < k then j else j + 1, k - 1);
  }

  lemma RemoveLinked(ring: seq<nat>, ptr: map<nat, nat>, k: nat)
    requires Sorted(ring) && Linked(ring, ptr) && 0 < k < |ring|
    ensures Sorted(Removed(ring, k)) && Linked(Removed(ring, k), ptr[ring[k - 1] := ptr[ring[k]]])
  {
    hide Removed, Next;
    forall j | 0 <= j < |ring| - 1 {
      RemoveLink(ring, ptr, k, j);
    }
  }

  // A link outside the ring does not matter.
  lemma LinkedMore(ring: seq<nat>, ptr: map<nat, nat>, k: nat, bp: nat, v: nat)
    requires Sorted(ring) && Linked(ring, ptr) && Place(ring, k, bp)
    ensures Linked(ring, ptr[bp := v])
  {
    forall j | 0 <= j < |ring|
      ensures ring[j] != bp
    {
      NotAt(ring, k, bp, j);
    }
  }

  lemma InsertOrdered(ring: seq<nat>, size: map<nat, nat>, base: nat, k: nat, bp: nat)
    requires Sorted(ring) && Ordered(ring, size, base) && Place(ring, k, bp) && bp in size && size[bp] > 0
    requires ring[k] + 8 * size[ring[k]] < bp && (k + 1 < |ring| ==> bp + 8 * size[bp] < ring[k + 1])
    ensures Ordered(Inserted(ring, k, bp), size, base)
  {
    hide Inserted;
    var r := Inserted(ring, k, bp);
    forall i, j | 0 <= i < j < |r|
      ensures r[i] + 8 * size[r[i]] < r[j]
    {
      if i == k + 1 {
        assert r[j] == ring[j - 1];
      }
    }
  }

  lemma RemoveOrdered(ring: seq<nat>, size: map<nat, nat>, base: nat, k: nat)
    requires Ordered(ring, size, base) && 0 < k < |ring|
    ensures Ordered(Removed(ring, k), size, base)
  {
    hide Removed;
  }

  // The first half of free: bp, at place k, takes in the next block if they
  // meet. The new ring, and the partition with bp still live.
  lemma TakeNext(ring: seq<nat>, ptr: map<nat, nat>, size: map<nat, nat>, base: nat, live: set<nat>,
                 owner: map<nat, nat>, k: nat, bp: nat)
    requires RingOk(ring, ptr, size, base) && Partition(FreeSet(ring), live, size, owner) && bp in live &&
             Place(ring, k, bp)
    requires k + 1 < |ring| && bp + 8 * size[bp] == ring[k + 1]
    ensures var n := ring[k + 1];
            var ring', ptr', size' := Removed(ring, k + 1), ptr[bp := ptr[n]], size[bp := size[bp] + size[n]];
            && RingOk(ring', ptr'[ring[k] := ptr'[bp]], size', base) && Place(ring', k, bp) && ring'[k] == ring[k]
            && Partition(FreeSet(ring'), live, size', Relabel(owner, n, bp))
            && (k + 1 < |ring'| ==> bp + 8 * size'[bp] < ring'[k + 1])
  {
    hide Removed, Linked, Partition, Ordered, Sorted, FreeSet;
    var n := ring[k + 1];
    FreeAt(ring, live, size, owner, k + 1);
    LiveAt(ring, live, size, owner, bp);
    LinkAt(ring, ptr, k + 1, k);
    NotAt(ring, k, bp, k);
    var ring', size' := Removed(ring, k + 1), size[bp := size[bp] + size[n]];
    RemoveLinked(ring, ptr, k + 1);
    OrderedAt(ring, size, base, k + 1);
    assert Place(ring', k, bp);
    LinkedMore(ring', ptr[ring[k] := ptr[n]], k, bp, ptr[n]);
    assert ptr[ring[k] := ptr[n]][bp := ptr[n]] == ptr[bp := ptr[n]][ring[k] := ptr[n]];
    RemoveOrdered(ring, size, base, k + 1);
    OrderedMore(ring', size, base, k, bp, size'[bp]);
    RemoveFree(ring, k + 1);
    Merge(FreeSet(ring), live, size, owner, bp, n);
    assert live - {n} == live;
  }

  lemma LiveAt(ring: seq<nat>, live: set<nat>, size: map<nat, nat>, owner: map<nat, nat>, b: nat)
    requires Partition(FreeSet(ring), live, size, owner) && b in live
    ensures b in size && size[b] > 0
  {
  }

  lemma OrderedAt(ring: seq<nat>, size: map<nat, nat>, base: nat, k: nat)
    requires Ordered(ring, size, base) && k < |ring|
    ensures ring[k] in size && (k + 1 < |ring| ==> ring[k] + 8 * size[ring[k]] < ring[k + 1])
  {
  }

  lemma FreeAt(ring: seq<nat>, live: set<nat>, size: map<nat, nat>, owner: map<nat, nat>, k: nat)
    requires Partition(FreeSet(ring), live, size, owner) && 0 < k < |ring|
    ensures ring[k] in FreeSet(ring) && ring[k] !in live && ring[k] in size
  {
  }

  lemma OrderedMore(ring: seq<nat>, size: map<nat, nat>, base: nat, k: nat, bp: nat, v: nat)
    requires Sorted(ring) && Ordered(ring, size, base) && Place(ring, k, bp)
    ensures Ordered(ring, size[bp := v], base)
  {
    forall j | 0 <= j < |ring|
      ensures ring[j] != bp
    {
      NotAt(ring, k, bp, j);
    }
  }

  // ... or only points to it.
  lemma KeepNext(ring: seq<nat>, ptr: map<nat, nat>, size: map<nat, nat>, base: nat, live: set<nat>,
                 owner: map<nat, nat>, k: nat, bp: nat)
    requires RingOk(ring, ptr, size, base) && Partition(FreeSet(ring), live, size, owner) && bp in live &&
             Place(ring, k, bp)
    requires k + 1 < |ring| ==> bp + 8 * size[bp] != ring[k + 1]
    ensures var ptr' := ptr[bp := ptr[ring[k]]];
            && RingOk(ring, ptr'[ring[k] := ptr'[bp]], size, base)
            && (k + 1 < |ring| ==> bp + 8 * size[bp] < ring[k + 1])
  {
    hide Linked, Partition, Ordered, Sorted, FreeSet;
    Neighbours(ring, ptr, size, base, live, owner, k, bp);
    LinkAt(ring, ptr, k, k);
    NotAt(ring, k, bp, k);
    LinkedMore(ring, ptr, k, bp, ptr[ring[k]]);
    assert ptr[bp := ptr[ring[k]]][ring[k] := ptr[ring[k]]] == ptr[bp := ptr[ring[k]]];
  }

  // The second half of free: the previous block takes in bp ...
  lemma JoinPrev(ring: seq<nat>, ptr: map<nat, nat>, size: map<nat, nat>, base: nat, live: set<nat>,
                 owner: map<nat, nat>, k: nat, bp: nat)
    requires RingOk(ring, ptr, size, base) && Partition(FreeSet(ring), live, size, owner) && bp in live &&
             Place(ring, k, bp)
    requires k + 1 < |ring| ==> bp + 8 * size[bp] < ring[k + 1]
    requires ring[k] + 8 * size[ring[k]] == bp
    ensures var size' := size[ring[k] := size[ring[k]] + size[bp]];
            && RingOk(ring, ptr, size', base) &&
                Partition(FreeSet(ring), live - {bp}, size', Relabel(owner, bp, ring[k]))
  {
    hide Linked, Partition, FreeSet;
    LiveAt(ring, live, size, owner, bp);
    FreeAt(ring, live, size, owner, k);
    var size' := size[ring[k] := size[ring[k]] + size[bp]];
    forall i, j | 0 <= i < j < |ring|
      ensures ring[i] + 8 * size'[ring[i]] < ring[j]
    {
      assert i == k ==> ring[k + 1] <= ring[j];
    }
    Merge(FreeSet(ring), live, size, owner, ring[k], bp);
    assert FreeSet(ring) - {bp} == FreeSet(ring) by { LiveNotFree(ring, live, size, owner, bp); }
  }

  lemma LiveNotFree(ring: seq<nat>, live: set<nat>, size: map<nat, nat>, owner: map<nat, nat>, b: nat)
    requires Partition(FreeSet(ring), live, size, owner) && b in live
    ensures b !in FreeSet(ring)
  {
  }

  // ... or bp is put into the ring.
  lemma PutAfter(ring: seq<nat>, ptr: map<nat, nat>, size: map<nat, nat>, base: nat, live: set<nat>,
                 owner: map<nat, nat>, k: nat, bp: nat)
    requires k < |ring| && bp in ptr && RingOk(ring, ptr[ring[k] := ptr[bp]], size, base)
    requires Partition(FreeSet(ring), live, size, owner) && bp in live && Place(ring, k, bp)
    requires k + 1 < |ring| ==> bp + 8 * size[bp] < ring[k + 1]
    requires ring[k] + 8 * size[ring[k]] != bp
    ensures RingOk(Inserted(ring, k, bp), ptr[ring[k] := bp], size, base)
    ensures Partition(FreeSet(Inserted(ring, k, bp)), live - {bp}, size, owner)
  {
    hide Linked, Partition, FreeSet, Sorted, Ordered, Inserted;
    var x: map<nat, nat> := ptr[ring[k] := ptr[bp]];
    Neighbours(ring, x, size, base, live, owner, k, bp);
    LiveAt(ring, live, size, owner, bp);
    NotAt(ring, k, bp, k);
    InsertLinked(ring, x, k, bp);
    assert x[bp := x[ring[k]]][ring[k] := bp] == ptr[ring[k] := bp];
    InsertOrdered(ring, size, base, k, bp);
    InsertFree(ring, k, bp);
    Move(FreeSet(ring), live, size, owner, bp);
  }

  // The place where a block belongs.
  lemma {:induction false} FindPlace(ring: seq<nat>, bp: nat, n: nat) returns (k: nat)
    requires Sorted(ring) && 0 < n <= |ring| && ring[0] < bp && (forall j :: 0 <= j < |ring| ==> ring[j] != bp)
    requires n < |ring| ==> bp < ring[n]
    ensures Place(ring, k, bp)
  {
    if ring[n - 1] < bp {
      k := n - 1;
    } else {
      k := FindPlace(ring, bp, n - 1);
    }
  }

  // Every live block keeps its size and its bytes, and the memory is the same.
  ghost predicate Keeps(live: set<nat>, size: map<nat, nat>, owner: map<nat, nat>, size': map<nat, nat>,
                        owner': map<nat, nat>)
  {
    && owner.Keys <= owner'.Keys
    && (forall b :: b in live ==> b in size && b in size' && size'[b] == size[b])
    && (forall x :: x in owner && owner[x] in live ==> x in owner' && owner'[x] == owner[x])
  }

  lemma KeepsTrans(live: set<nat>, s0: map<nat, nat>, o0: map<nat, nat>, s1: map<nat, nat>, o1: map<nat, nat>,
                   s2: map<nat, nat>, o2: map<nat, nat>)
    requires Keeps(live, s0, o0, s1, o1) && Keeps(live, s1, o1, s2, o2)
    ensures Keeps(live, s0, o0, s2, o2)
  {
  }

  lemma KeepsSame(free: set<nat>, live: set<nat>, size: map<nat, nat>, owner: map<nat, nat>, l: set<nat>)
    requires Partition(free, live, size, owner) && l <= live
    ensures Keeps(l, size, owner, size, owner)
  {
  }

  lemma KeepsMerge(free: set<nat>, live: set<nat>, size: map<nat, nat>, owner: map<nat, nat>, a: nat, b: nat, n: nat,
                   l: set<nat>)
    requires Partition(free, live, size, owner) && l <= live && a !in l && b !in l
    ensures Keeps(l, size, owner, size[a := n], Relabel(owner, b, a)) && Relabel(owner, b, a).Keys == owner.Keys
  {
    assert Relabel(owner, b, a).Keys == owner.Keys;
  }

  lemma NotInRing(ring: seq<nat>, ptr: map<nat, nat>, size: map<nat, nat>, base: nat, live: set<nat>,
                  owner: map<nat, nat>, b: nat)
    requires RingOk(ring, ptr, size, base) && Partition(FreeSet(ring), live, size, owner) && b in live && b != base
    ensures forall j :: 0 <= j < |ring| ==> ring[j] != b
  {
    forall j | 0 <= j < |ring|
      ensures ring[j] != b
    {
      if j > 0 {
        assert ring[j] in FreeSet(ring);
      }
    }
  }

  lemma RingFacts(ring: seq<nat>, ptr: map<nat, nat>, size: map<nat, nat>, base: nat, k: nat, bp: nat)
    requires RingOk(ring, ptr, size, base) && Place(ring, k, bp)
    ensures |ring| > 0 && k < |ring| && ring[0] == base && ring[k] in ptr && ring[k] in size && ring[k] < bp
    ensures ptr[ring[k]] == if k + 1 < |ring| then ring[k + 1] else base
    ensures ptr[ring[k]] in ptr && ptr[ring[k]] in size && base <= ring[k]
    ensures ring[k] + 8 * size[ring[k]] == bp ==> k > 0
  {
  }

  // The heap gained the bytes from lo to hi, and no others.
  ghost predicate Gained(owner: map<nat, nat>, owner': map<nat, nat>, lo: nat, hi: nat) {
    lo <= hi && owner'.Keys == owner.Keys + Range(lo, hi - lo)
  }

  lemma GainedSame(owner: map<nat, nat>, owner': map<nat, nat>, owner'': map<nat, nat>, lo: nat, hi: nat)
    requires Gained(owner, owner', lo, hi) && owner''.Keys == owner'.Keys
    ensures Gained(owner, owner'', lo, hi)
  {
  }

  lemma GainedNone(owner: map<nat, nat>, lo: nat)
    ensures Gained(owner, owner, lo, lo)
  {
  }

  lemma GainedGrown(owner: map<nat, nat>, b: nat, n: nat)
    ensures Gained(owner, Grown(owner, b, n), b, b + 8 * n)
  {
  }

  // All bytes of the heap lie between lo and hi.
  ghost predicate Within(owner: map<nat, nat>, lo: nat, hi: nat) { forall x :: x in owner ==> lo < x < hi }

  lemma WithinSame(owner: map<nat, nat>, owner': map<nat, nat>, lo: nat, hi: nat)
    requires Within(owner, lo, hi) && owner'.Keys == owner.Keys
    ensures Within(owner', lo, hi)
  {
    assert forall x :: x in owner' ==> x in owner'.Keys;
  }

  lemma BlockWithin(ring: seq<nat>, live: set<nat>, size: map<nat, nat>, owner: map<nat, nat>, b: nat, lo: nat, hi: nat)
    requires Partition(FreeSet(ring), live, size, owner) && b in live && Within(owner, lo, hi)
    ensures lo < b < hi
  {
    assert Holds(size, b, b);
  }

  // A block of the ring, after its upper part was cut off as block q.
  lemma CutOrdered(ring: seq<nat>, size: map<nat, nat>, base: nat, k: nat, n: nat, q: nat)
    requires Sorted(ring) && Ordered(ring, size, base) && 0 < k < |ring| && 0 < n < size[ring[k]]
    requires forall j :: 0 < j < |ring| ==> ring[j] != q
    requires q == ring[k] + 8 * (size[ring[k]] - n)
    ensures Ordered(ring, size[ring[k] := size[ring[k]] - n][q := n], base)
  {
    assert ring[0] < ring[k];
  }

  lemma KeepsSplit(free: set<nat>, live: set<nat>, size: map<nat, nat>, owner: map<nat, nat>, p: nat, n: nat, q: nat)
    requires Partition(free, live, size, owner) && p in free && 0 < n < size[p] && q == p + 8 * (size[p] - n) &&
             q !in live
    ensures Keeps(live, size, owner, size[p := size[p] - n][q := n], Cut(owner, p, q)) &&
            Cut(owner, p, q).Keys == owner.Keys
  {
    assert Cut(owner, p, q).Keys == owner.Keys;
  }

  lemma KeepsGrow(free: set<nat>, live: set<nat>, size: map<nat, nat>, owner: map<nat, nat>, b: nat, n: nat)
    requires Partition(free, live, size, owner) && b !in live && forall x :: x in owner ==> x < b
    ensures Keeps(live, size, owner, size[b := n], Grown(owner, b, n)) &&
            Grown(owner, b, n).Keys == owner.Keys + Range(b, 8 * n)
  {
  }

  lemma WithinGrow(owner: map<nat, nat>, lo: nat, b: nat, n: nat)
    requires Within(owner, lo, b) && lo < b
    ensures Within(Grown(owner, b, n), lo, b + 8 * n)
  {
  }

  // A header that is not in the ring may change.
  lemma OrderedOther(ring: seq<nat>, size: map<nat, nat>, base: nat, b: nat, n: nat)
    requires Ordered(ring, size, base) && forall j :: 0 <= j < |ring| ==> ring[j] != b
    ensures Ordered(ring, size[b := n], base)
  {
  }

  // The units malloc asks for, in 32-bit arithmetic.
  function Units(nbytes: Word): (n: nat)
    ensures 0 < n <= 0x2000_0000
    ensures nbytes <= 0xFFFF_FFF8 <==> 8 * (n - 1) >= nbytes
    ensures nbytes > 0xFFFF_FFF8 ==> n == 1
    ensures 8 * n < KERNBASE <==> nbytes <= 0x7FFF_FFF0 || nbytes > 0xFFFF_FFF8
  {
    (nbytes + 7) % WORD / 8 + 1
  }

  // The bytes of nu units, computed as a uint and passed to sbrk as an int.
  function Request(nu: nat): (n: int)
    requires 0 < nu <= 0x2000_0000
    ensures 8 * nu < KERNBASE ==> n == 8 * nu
    ensures 8 * nu >= KERNBASE ==> n == 8 * nu - WORD <= 0
  {
    var x := nu * 8 % WORD;
    if x >= 0x8000_0000 then x - WORD else x
  }

  // sbrk refuses what morecore asks for n units.
  predicate NoMemory(brk: nat, n: nat) { brk + 8 * (if n < 4096 then 4096 else n) >= KERNBASE }

  // The break after morecore asked for n units, and the request came out as no
  // bytes or fewer: growproc gives the memory back, unless nothing would be left.
  function Lowered(brk: nat, n: nat): (r: nat)
    requires KERNBASE <= 8 * n <= WORD
    ensures r <= brk
  {
    if 0 < brk + Request(n) then brk + Request(n) else brk
  }

  // Unbacked: sbrk was asked for no bytes or fewer, and the block at the old
  // break, if sbrk does not refuse, has no memory behind it.
  datatype Outcome = Null | Got(ap: nat) | Unbacked

  lemma GrowHeap(ring: seq<nat>, ptr: map<nat, nat>, size: map<nat, nat>, base: nat, live: set<nat>,
                 owner: map<nat, nat>, b: nat, n: nat)
    requires RingOk(ring, ptr, size, base) && Partition(FreeSet(ring), live, size, owner) && Within(owner, base, b) &&
             base < b && 0 < n
    ensures RingOk(ring, ptr, size[b := n], base) && b !in live
    ensures Partition(FreeSet(ring), live + {b}, size[b := n], Grown(owner, b, n)) &&
            Within(Grown(owner, b, n), base, b + 8 * n)
    ensures Keeps(live, size, owner, size[b := n], Grown(owner, b, n)) &&
            Grown(owner, b, n).Keys == owner.Keys + Range(b, 8 * n)
  {
    hide Linked, Sorted, Grown;
    Grow(FreeSet(ring), live, size, owner, b, n);
    KeepsGrow(FreeSet(ring), live, size, owner, b, n);
    WithinGrow(owner, base, b, n);
    forall j | 0 <= j < |ring|
      ensures ring[j] != b
    {
      if j > 0 {
        assert ring[j] in FreeSet(ring);
      }
    }
    OrderedOther(ring, size, base, b, n);
  }

  // The entries after f and before j, going round.
  predicate Between(f: nat, k: nat, j: nat) { if f < j then f < k < j else k > f || k < j }

  // Every entry after f and before j is smaller than n.
  ghost predicate Small(ring: seq<nat>, size: map<nat, nat>, f: nat, j: nat, n: nat) {
    forall k :: 0 <= k < |ring| && Between(f, k, j) ==> ring[k] in size && size[ring[k]] < n
  }

  lemma SmallNext(ring: seq<nat>, size: map<nat, nat>, f: nat, j: nat, n: nat)
    requires Small(ring, size, f, j, n) && f < |ring| && j < |ring| && j != f && ring[j] in size && size[ring[j]] < n
    ensures Small(ring, size, f, Next(j, |ring|), n)
  {
  }

  lemma SmallStart(ring: seq<nat>, size: map<nat, nat>, f: nat, n: nat)
    requires f < |ring|
    ensures Small(ring, size, f, Next(f, |ring|), n)
  {
  }

  // All the way round.
  lemma SmallAll(ring: seq<nat>, size: map<nat, nat>, f: nat, n: nat)
    requires f < |ring| && Small(ring, size, f, f, n) && ring[f] in size && size[ring[f]] < n
    ensures !Fits(ring, size, n)
  {
  }

  // Some block of the free list has n units.
  ghost predicate Fits(ring: seq<nat>, size: map<nat, nat>, n: nat) {
    exists k :: 0 < k < |ring| && ring[k] in size && size[ring[k]] >= n
  }

  lemma FitsAt(ring: seq<nat>, size: map<nat, nat>, n: nat, k: nat)
    requires 0 < k < |ring| && ring[k] in size && size[ring[k]] >= n
    ensures Fits(ring, size, n)
  {
  }

  lemma KeepsNone(s: map<nat, nat>, o: map<nat, nat>, s': map<nat, nat>)
    ensures Keeps({}, s, o, s', o)
  {
  }

  lemma NoFits(size: map<nat, nat>)
    ensures forall n :: !Fits([], size, n)
  {
  }

  lemma FirstRing(ptr: map<nat, nat>, size: map<nat, nat>, base: nat)
    requires base in ptr && base in size && size[base] == 0 && ptr[base] == base
    ensures RingOk([base], ptr, size, base) && Partition(FreeSet([base]), {}, size, map[]) &&
            forall n | n > 0 :: !Fits([base], size, n)
  {
  }

  lemma BlockBytes(free: set<nat>, live: set<nat>, size: map<nat, nat>, owner: map<nat, nat>, b: nat)
    requires Partition(free, live, size, owner) && b in live
    ensures b in size && forall x :: b <= x < b + 8 * size[b] ==> x in owner && owner[x] == b
  {
    assert forall x :: b <= x < b + 8 * size[b] ==> Holds(size, b, x);
  }

  lemma TakeWhole(ring: seq<nat>, ptr: map<nat, nat>, size: map<nat, nat>, base: nat, live: set<nat>,
                  owner: map<nat, nat>, j: nat)
    requires RingOk(ring, ptr, size, base) && Partition(FreeSet(ring), live, size, owner) && 0 < j < |ring|
    ensures RingOk(Removed(ring, j), ptr[ring[j - 1] := ptr[ring[j]]], size, base)
    ensures Partition(FreeSet(Removed(ring, j)), live + {ring[j]}, size, owner) && ring[j] !in live &&
            Removed(ring, j)[j - 1] == ring[j - 1]
    ensures Keeps(live, size, owner, size, owner)
  {
    hide Removed, Linked, Sorted, Ordered, FreeSet;
    FreeAt(ring, live, size, owner, j);
    RemoveLinked(ring, ptr, j);
    RemoveOrdered(ring, size, base, j);
    RemoveFree(ring, j);
    Move(FreeSet(ring), live, size, owner, ring[j]);
  }

  lemma TakeTail(ring: seq<nat>, ptr: map<nat, nat>, size: map<nat, nat>, base: nat, live: set<nat>,
                 owner: map<nat, nat>, j: nat, n: nat, q: nat, size': map<nat, nat>, owner': map<nat, nat>)
    requires RingOk(ring, ptr, size, base) && Partition(FreeSet(ring), live, size, owner) && 0 < j < |ring|
    requires ring[j] in size && 0 < n < size[ring[j]] && q == ring[j] + 8 * (size[ring[j]] - n)
    requires size' == size[ring[j] := size[ring[j]] - n][q := n] && owner' == Cut(owner, ring[j], q)
    ensures RingOk(ring, ptr, size', base) && Partition(FreeSet(ring), live + {q}, size', owner') && q !in live
    ensures Keeps(live, size, owner, size', owner') && owner'.Keys == owner.Keys
  {
    hide Linked, Cut, Keeps, Partition;
    FreeAt(ring, live, size, owner, j);
    Split(FreeSet(ring), live, size, owner, ring[j], n);
    KeepsSplit(FreeSet(ring), live, size, owner, ring[j], n, q);
    forall k | 0 < k < |ring|
      ensures ring[k] != q
    {
      assert ring[k] in FreeSet(ring);
    }
    CutOrdered(ring, size, base, j, n, q);
  }

  // What malloc uses of the entry it looks at.
  lemma EntryFacts(ring: seq<nat>, ptr: map<nat, nat>, size: map<nat, nat>, base: nat, live: set<nat>,
                   owner: map<nat, nat>, j: nat, hi: nat)
    requires RingOk(ring, ptr, size, base) && Partition(FreeSet(ring), live, size, owner) && j < |ring| &&
             Within(owner, base, hi) && base < hi
    ensures ring[j] in ptr && ring[j] in size && ptr[ring[j]] == ring[Next(j, |ring|)]
    ensures size[ring[j]] > 0 ==> j > 0 && ring[j] in FreeSet(ring)
    ensures base <= ring[j] && ring[j] + 8 * size[ring[j]] <= hi
    ensures forall k :: 0 <= k < |ring| && ring[k] == ring[j] ==> k == j
  {
    if j > 0 {
      assert ring[j] in FreeSet(ring);
      assert Holds(size, ring[j], ring[j] + 8 * size[ring[j]] - 1);
    }
  }

  lemma TheirPlace(ring: seq<nat>, ptr: map<nat, nat>, size: map<nat, nat>, base: nat, bp: nat) returns (t: nat)
    requires RingOk(ring, ptr, size, base) && base < bp && forall j :: 0 <= j < |ring| ==> ring[j] != bp
    ensures Place(ring, t, bp) && t < |ring|
  {
    t := FindPlace(ring, bp, |ring|);
  }

  lemma PlaceIs(ring: seq<nat>, ptr: map<nat, nat>, size: map<nat, nat>, base: nat, k: nat, bp: nat)
    requires RingOk(ring, ptr, size, base) && Place(ring, k, bp)
    ensures ring[k] < bp && forall q :: q in ring ==> q <= ring[k] || bp < q
  {
    hide Linked, Ordered;
  }

  // The tests of the search single out the place of bp.
  lemma SearchStep(ring: seq<nat>, ptr: map<nat, nat>, size: map<nat, nat>, base: nat, bp: nat, t: nat, k: nat)
    requires RingOk(ring, ptr, size, base) && Place(ring, t, bp) && k < |ring| && base < bp
    ensures ring[k] in ptr && ptr[ring[k]] == ring[Next(k, |ring|)]
    ensures var p := ring[k];
            k == t <==> (bp > p && bp < ptr[p]) || (p >= ptr[p] && (bp > p || bp < ptr[p]))
  {
    hide Ordered, Linked, Sorted;
    LinkAt(ring, ptr, k, k);
    BaseFirst(ring, size, base);
    InOrder(ring, 0, k);
    if k + 1 < |ring| {
      InOrder(ring, k, k + 1);
    }
    if t < k {
      InOrder(ring, t + 1, k);
    } else if k < t {
      InOrder(ring, k + 1, t);
    }
  }

  lemma BaseFirst(ring: seq<nat>, size: map<nat, nat>, base: nat)
    requires Ordered(ring, size, base)
    ensures |ring| > 0 && ring[0] == base
  {
  }

  class Heap {
    // The address of the static variable base, below the memory of sbrk.
    const base: nat
    // The ptr and size fields of headers, by address.
    var ptr: map<nat, nat>
    var size: map<nat, nat>
    // 0 until the first malloc.
    var freep: nat
    // The end of the process's memory, and the number of calls to sbrk.
    var brk: nat
    var calls: nat

    ghost var ring: seq<nat>
    ghost var live: set<nat>
    ghost var owner: map<nat, nat>

    ghost predicate Valid()
      reads this
    {
      && 0 < base < brk <= KERNBASE
      && Within(owner, base, brk)
      && (freep == 0 ==> ring == [] && live == {} && owner == map[])
      && (freep != 0 ==>
            RingOk(ring, ptr, size, base) && Partition(FreeSet(ring), live, size, owner) && freep in ring)
    }

    constructor (base: nat, brk: nat)
      requires 0 < base < brk <= KERNBASE
      ensures Valid() && live == {} && owner == map[] && this.brk == brk && freep == 0 && this.base == base
    {
      this.base, this.brk, freep, calls := base, brk, 0, 0;
      ptr, size, ring, live, owner := map[], map[], [], {}, map[];
    }

    // The search of free for the block before bp.
    method Search(bp: nat) returns (p: nat, ghost k: nat)
      requires freep != 0 && RingOk(ring, ptr, size, base) && freep in ring && base < bp
      requires forall j :: 0 <= j < |ring| ==> ring[j] != bp
      ensures Place(ring, k, bp) && p == ring[k]
      ensures p < bp && forall q :: q in ring ==> q <= p || bp < q
    {
      hide RingOk, Place;
      ghost var t := TheirPlace(ring, ptr, size, base, bp);
      p := freep;
      k :| 0 <= k < |ring| && ring[k] == freep;
      SearchStep(ring, ptr, size, base, bp, t, k);
      while !(bp > p && bp < ptr[p])
        invariant 0 <= k < |ring| && p == ring[k] && p in ptr
        invariant k == t <==> (bp > p && bp < ptr[p]) || (p >= ptr[p] && (bp > p || bp < ptr[p]))
        invariant ptr[p] == ring[Next(k, |ring|)]
        decreases if k <= t then t - k else |ring| - k + t
      {
        if p >= ptr[p] && (bp > p || bp < ptr[p]) {
          break;
        }
        p, k := ptr[p], Next(k, |ring|);
        SearchStep(ring, ptr, size, base, bp, t, k);
      }
      PlaceIs(ring, ptr, size, base, k, bp);
    }

    // Between the two halves of free: bp, still live, has its final upper end,
    // and p needs its link.
    ghost predicate Half(p: nat, bp: nat, f: nat)
      reads this
    {
      && 0 < base < brk <= KERNBASE && Within(owner, base, brk)
      && bp in live && bp in ptr && bp in size && f < |ring| && ring[f] == p && base <= p
      && RingOk(ring, ptr[p := ptr[bp]], size, base) && Partition(FreeSet(ring), live, size, owner) &&
          Place(ring, f, bp)
      && (f + 1 < |ring| ==> bp + 8 * size[bp] < ring[f + 1])
    }

    // The first half of free.
    method JoinNext(p: nat, bp: nat, ghost f: nat)
      requires 0 < base < brk <= KERNBASE && Within(owner, base, brk)
      requires RingOk(ring, ptr, size, base) && Partition(FreeSet(ring), live, size, owner) && bp in live
      requires Place(ring, f, bp) && p == ring[f]
      modifies this`ptr, this`size, this`ring, this`owner
      ensures Half(p, bp, f) && owner.Keys == old(owner).Keys
      ensures Keeps(live - {bp}, old(size), old(owner), size, owner)
      ensures bp in old(size) && size[bp] >= old(size)[bp]
    {
      hide RingOk, Partition, Place, FreeSet, Removed, Relabel, Keeps, Within;
      LiveAt(ring, live, size, owner, bp);
      RingFacts(ring, ptr, size, base, f, bp);
      ghost var owner0 := owner;
      if bp + 8 * size[bp] == ptr[p] {
        TakeNext(ring, ptr, size, base, live, owner, f, bp);
        FreeAt(ring, live, size, owner, f + 1);
        KeepsMerge(FreeSet(ring), live, size, owner, bp, ptr[p], size[bp] + size[ptr[p]], live - {bp});
        owner := Relabel(owner, ptr[p], bp);
        ring := Removed(ring, f + 1);
        size := size[bp := size[bp] + size[ptr[p]]];
        ptr := ptr[bp := ptr[ptr[p]]];
      } else {
        KeepNext(ring, ptr, size, base, live, owner, f, bp);
        KeepsSame(FreeSet(ring), live, size, owner, live - {bp});
        ptr := ptr[bp := ptr[p]];
      }
      WithinSame(owner0, owner, base, brk);
    }

    // The second half of free.
    method JoinPrevious(p: nat, bp: nat, ghost f: nat)
      requires Half(p, bp, f)
      modifies this`ptr, this`size, this`freep, this`ring, this`live, this`owner
      ensures Valid() && live == old(live) - {bp} && owner.Keys == old(owner).Keys
      ensures Keeps(live, old(size), old(owner), size, owner)
      ensures freep == p != 0 && f < |ring| && ring[f] == p
      ensures var n := old(size)[bp];
              (f > 0 && p in size && size[p] >= n) || (f + 1 < |ring| && ring[f + 1] in size && size[ring[f + 1]] >= n)
    {
      hide RingOk, Partition, Place, FreeSet, Inserted, Relabel, Keeps, Within;
      ghost var owner0, rest := owner, live - {bp};
      RingFacts(ring, ptr[p := ptr[bp]], size, base, f, bp);
      if p + 8 * size[p] == bp {
        JoinPrev(ring, ptr[p := ptr[bp]], size, base, live, owner, f, bp);
        FreeAt(ring, live, size, owner, f);
        KeepsMerge(FreeSet(ring), live, size, owner, p, bp, size[p] + size[bp], rest);
        owner := Relabel(owner, bp, p);
        size := size[p := size[p] + size[bp]];
        ptr := ptr[p := ptr[bp]];
      } else {
        PutAfter(ring, ptr, size, base, live, owner, f, bp);
        KeepsSame(FreeSet(ring), live, size, owner, rest);
        ring := Inserted(ring, f, bp);
        ptr := ptr[p := bp];
      }
      WithinSame(owner0, owner, base, brk);
      live := live - {bp};
      freep := p;
      assert ring[f] == freep;
    }

    // free: bp joins the free list and whatever it meets there. f is where
    // freep is then; it or the next entry holds the freed memory.
    method Free(ap: nat) returns (ghost f: nat)
      requires Valid() && ap >= 8 && ap - 8 in live
      modifies this`ptr, this`size, this`freep, this`ring, this`live, this`owner
      ensures Valid() && live == old(live) - {ap - 8} && owner.Keys == old(owner).Keys
      ensures Keeps(live, old(size), old(owner), size, owner)
      ensures freep != 0 && f < |ring| && ring[f] == freep
      ensures ap - 8 in old(size)
      ensures var n := old(size)[ap - 8];
              (f > 0 && freep in size && size[freep] >= n) || (f + 1 < |ring| && ring[f + 1] in size &&
                  size[ring[f + 1]] >= n)
    {
      hide RingOk, Partition, Place, FreeSet, Keeps, Within;
      var bp := ap - 8;
      assert live != {};
      assert base < bp by { BlockWithin(ring, live, size, owner, bp, base, brk); }
      NotInRing(ring, ptr, size, base, live, owner, bp);
      ghost var size0, owner0, rest := size, owner, live - {bp};
      var p;
      p, f := Search(bp);
      JoinNext(p, bp, f);
      ghost var size1, owner1 := size, owner;
      JoinPrevious(p, bp, f);
      KeepsTrans(rest, size0, owner0, size1, owner1, size, owner);
    }

    // sbrk. A negative n goes to growproc and deallocuvm, which do nothing when
    // the unsigned sum wraps, and fail when it is 0.
    method Sbrk(n: int) returns (addr: int)
      requires -0x8000_0000 <= n < 0x8000_0000 && brk <= KERNBASE
      modifies this`brk, this`calls
      ensures calls == old(calls) + 1
      ensures n >= 0 ==> addr == (if old(brk) + n >= KERNBASE then -1 else old(brk)) &&
                         brk == if addr == -1 then old(brk) else old(brk) + n
      ensures n < 0 ==> addr == (if old(brk) == 0 || old(brk) + n == 0 then -1 else old(brk)) &&
                        brk == if old(brk) + n > 0 then old(brk) + n else old(brk)
    {
      calls := calls + 1;
      addr := brk;
      if n < 0 {
        var newsz := (brk + n) % WORD;
        var sz := if newsz >= brk then brk else newsz; // deallocuvm
        if sz == 0 {
          return -1;
        }
        brk := sz;
        return;
      }
      if brk + n >= KERNBASE {
        return -1;
      }
      brk := brk + n;
    }

    // morecore: at least nu units more, or no change.
    method Morecore(units: nat) returns (r: Outcome, ghost f: nat)
      requires Valid() && freep != 0 && 0 < units <= 0x2000_0000
      modifies this
      ensures calls == old(calls) + 1 && live == old(live)
      ensures r.Unbacked? <==> 8 * units >= KERNBASE
      ensures r.Null? <==> !r.Unbacked? && NoMemory(old(brk), units)
      ensures !r.Unbacked? ==> Valid() && freep != 0 && Keeps(live, old(size), old(owner), size, owner)
      ensures r.Null? ==> ring == old(ring) && size == old(size) && owner == old(owner) && freep == old(freep) &&
                          ptr == old(ptr)
      ensures r.Got? ==> r.ap == freep && f < |ring| && ring[f] == freep && Fits(ring, size, units)
      ensures r.Got? ==> brk >= old(brk) + 8 * units
      ensures r.Got? ==> Gained(old(owner), owner, old(brk), brk)
      ensures r.Null? ==> brk == old(brk)
      ensures r.Unbacked? ==> brk == Lowered(old(brk), units)
    {
      hide RingOk, Partition, FreeSet, Keeps, Within, Grown, Request, Gained, Fits;
      f := 0;
      var nu := if units < 4096 then 4096 else units;
      var n := Request(nu);
      ghost var b0, size0, owner0 := brk, size, owner;
      var hp := Sbrk(n);
      if n <= 0 {
        return Unbacked, 0;
      }
      if hp == -1 {
        KeepsSame(FreeSet(ring), live, size, owner, live);
        return Null, 0;
      }
      GrowHeap(ring, ptr, size, base, live, owner, hp, nu);
      size := size[hp := nu];
      GainedGrown(owner, hp, nu);
      live, owner := live + {hp}, Grown(owner, hp, nu);
      ghost var size1, owner1 := size, owner;
      f := Free(hp + 8);
      FitsAt(ring, size, units, if f > 0 && freep in size && size[freep] >= nu then f else f + 1);
      assert live == old(live);
      KeepsTrans(live, size0, owner0, size1, owner1, size, owner);
      GainedSame(owner0, owner1, owner, b0, brk);
      r := Got(freep);
    }

    // The block at entry j is large enough: it is taken off the list, or its
    // upper end is.
    method Carve(prevp: nat, q: nat, units: nat, ghost j: nat) returns (p: nat)
      requires Valid() && freep != 0 && 0 < units && 0 < j < |ring| && q == ring[j] && prevp == ring[j - 1]
      requires q in size && size[q] >= units
      modifies this`ptr, this`size, this`freep, this`ring, this`live, this`owner
      ensures Valid() && p !in old(live) && live == old(live) + {p} && p in size && size[p] == units
      ensures freep == prevp && owner.Keys == old(owner).Keys && Keeps(old(live), old(size), old(owner), size, owner)
      ensures forall x :: p <= x < p + 8 * units ==> x in owner && owner[x] == p
    {
      hide RingOk, Partition, FreeSet, Keeps, Within, Removed, Cut;
      p := q;
      EntryFacts(ring, ptr, size, base, live, owner, j, brk);
      EntryFacts(ring, ptr, size, base, live, owner, j - 1, brk);
      ghost var owner0 := owner;
      if size[p] == units {
        TakeWhole(ring, ptr, size, base, live, owner, j);
        ring := Removed(ring, j);
        ptr := ptr[prevp := ptr[p]];
      } else {
        ghost var size0 := size;
        size := size[p := size[p] - units];
        p := p + 8 * size[p];
        size := size[p := units];
        owner := Cut(owner, q, p);
        TakeTail(ring, ptr, size0, base, live, owner0, j, units, p, size, owner);
      }
      live := live + {p};
      freep := prevp;
      assert ring[j - 1] == freep;
      WithinSame(owner0, owner, base, brk);
      BlockBytes(FreeSet(ring), live, size, owner, p);
    }

    // malloc. It calls sbrk, once, only when no free block is large enough.
    method Malloc(nbytes: Word) returns (r: Outcome)
      requires Valid()
      modifies this
      ensures r.Unbacked? <==> 0x7FFF_FFF0 < nbytes <= 0xFFFF_FFF8
      ensures !r.Unbacked? ==> Valid() && Keeps(old(live), old(size), old(owner), size, owner)
      ensures calls == old(calls) + if Fits(old(ring), old(size), Units(nbytes)) then 0 else 1
      ensures Fits(old(ring), old(size), Units(nbytes)) ==> r.Got? && brk == old(brk)
      ensures r.Null? <==>
                !r.Unbacked? && !Fits(old(ring), old(size), Units(nbytes)) && NoMemory(old(brk), Units(nbytes))
      ensures r.Null? ==> live == old(live) && owner == old(owner) && brk == old(brk)
      ensures r.Unbacked? ==> brk == Lowered(old(brk), Units(nbytes))
      ensures r.Got? ==> r.ap >= 8 && r.ap - 8 !in old(live) && live == old(live) + {r.ap - 8}
      ensures r.Got? ==> forall x :: r.ap - 8 <= x < r.ap - 8 + 8 * Units(nbytes) ==> x in owner && owner[x] == r.ap - 8
      ensures r.Got? ==> Gained(old(owner), owner, old(brk), brk)
    {
      hide RingOk, Partition, FreeSet, Keeps, Within, Small, Fits, Between, Units, Gained, NoMemory, Lowered;
      var nunits := Units(nbytes);
      if freep == 0 {
        ptr, size, freep := ptr[base := base], size[base := 0], base;
        ring := [base];
        FirstRing(ptr, size, base);
        KeepsNone(old(size), owner, size);
        NoFits(old(size));
      } else {
        KeepsSame(FreeSet(ring), live, size, owner, live);
      }
      ghost var size0, owner0 := size, owner;
      r := Scan(nunits);
      if !r.Unbacked? {
        KeepsTrans(old(live), old(size), owner0, size0, owner0, size, owner);
      }
    }

    lemma Entry(j: nat)
      requires Valid() && freep != 0 && j < |ring|
      ensures ring[j] in ptr && ring[j] in size && ptr[ring[j]] == ring[Next(j, |ring|)]
      ensures size[ring[j]] > 0 ==> j > 0
      ensures forall k :: 0 <= k < |ring| && ring[k] == ring[j] ==> k == j
      ensures 8 * size[ring[j]] < KERNBASE
    {
      hide RingOk, Partition, FreeSet, Within;
      EntryFacts(ring, ptr, size, base, live, owner, j, brk);
    }

    lemma Kept()
      requires Valid() && freep != 0
      ensures Keeps(live, size, owner, size, owner) && exists f :: 0 <= f < |ring| && ring[f] == freep
    {
      KeepsSame(FreeSet(ring), live, size, owner, live);
    }

    // A pass of the loop of malloc, from freep back to freep: the next block
    // that is large enough, and the one before it in the ring.
    method FindFit(nunits: nat) returns (found: bool, prevp: nat, p: nat, ghost j: nat)
      requires Valid() && freep != 0 && 0 < nunits
      ensures found <==> Fits(ring, size, nunits)
      ensures found ==> 0 < j < |ring| && ring[j] == p && ring[j - 1] == prevp && p in size && size[p] >= nunits
    {
      hide Valid, Keeps, Small, Fits, Gained;
      Kept();
      ghost var f: nat :| f < |ring| && ring[f] == freep;
      Entry(f);
      prevp, p, j := freep, ptr[freep], Next(f, |ring|);
      SmallStart(ring, size, f, nunits);
      while true
        invariant j < |ring| && ring[j] == p && prevp == ring[if j == 0 then |ring| - 1 else j - 1]
        invariant Small(ring, size, f, j, nunits)
        decreases if j <= f then f - j else |ring| - j + f
      {
        Entry(j);
        if size[p] >= nunits {
          FitsAt(ring, size, nunits, j);
          return true, prevp, p, j;
        }
        if p == freep {
          Entry(f);
          SmallAll(ring, size, f, nunits);
          return false, prevp, p, j;
        }
        SmallNext(ring, size, f, j, nunits);
        prevp, p, j := p, ptr[p], Next(j, |ring|);
      }
    }

    // The loop of malloc: one pass, and a second one over what morecore added.
    method Scan(nunits: nat) returns (r: Outcome)
      requires Valid() && freep != 0 && 0 < nunits <= 0x2000_0000
      modifies this
      ensures r.Unbacked? <==> 8 * nunits >= KERNBASE
      ensures r.Null? <==> !r.Unbacked? && !Fits(old(ring), old(size), nunits) && NoMemory(old(brk), nunits)
      ensures !r.Unbacked? ==> Valid() && Keeps(old(live), old(size), old(owner), size, owner)
      ensures calls == old(calls) + if Fits(old(ring), old(size), nunits) then 0 else 1
      ensures Fits(old(ring), old(size), nunits) ==> r.Got? && brk == old(brk)
      ensures r.Null? ==> live == old(live) && owner == old(owner) && brk == old(brk)
      ensures r.Unbacked? ==> brk == Lowered(old(brk), nunits)
      ensures r.Got? ==> r.ap >= 8 && r.ap - 8 !in old(live) && live == old(live) + {r.ap - 8}
      ensures r.Got? ==> forall x :: r.ap - 8 <= x < r.ap - 8 + 8 * nunits ==> x in owner && owner[x] == r.ap - 8
      ensures r.Got? ==> Gained(old(owner), owner, old(brk), brk)
    {
      hide Valid, Keeps, Fits, Gained, NoMemory, Lowered;
      Kept();
      GainedNone(owner, brk);
      ghost var size0, owner0 := size, owner;
      var found, prevp, p, j := FindFit(nunits);
      assert found ==> 8 * nunits < KERNBASE by {
        if found {
          Entry(j);
        }
      }
      if !found {
        ghost var f;
        r, f := Morecore(nunits);
        if !r.Got? {
          return;
        }
        found, prevp, p, j := FindFit(nunits);
      }
      ghost var size1, owner1 := size, owner;
      var q := Carve(prevp, p, nunits, j);
      KeepsTrans(old(live), size0, owner0, size1, owner1, size, owner);
      GainedSame(owner0, owner1, owner, old(brk), brk);
      r := Got(q + 8);
    }
  }
}
