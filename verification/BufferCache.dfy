// The buffer cache of bio.c over the in-memory disk of memide.c.
module BufferCache {
  import opened Common
  import opened Blocks
  import opened Ring

  const HEAD := NBUF // bcache.head

  // struct buf; `locked` is the sleep lock, prev and next are kept apart.
  datatype Buf = Buf(dev: nat, blockno: nat, valid: bool, dirty: bool,
                     refcnt: nat, locked: bool, data: Block)
  {
    predicate Holds(d: nat, bn: nat) { dev == d && blockno == bn }

    // Recyclable: even with refcnt 0, a dirty buffer is in use by the log.
    predicate Free() { refcnt == 0 && !dirty }
  }

  // Waits: the buffer is counted as in use but somebody else has its lock.
  datatype Got = Got(b: nat) | Waits(b: nat) | Panic

  // A buffer that holds what the disk holds, unless it is dirty or somebody
  // changed it and neither wrote nor logged it.
  ghost predicate BufOk(b: Buf, changed: bool, disk: Disk) {
    && (b.valid ==> b.dev == 1 && b.blockno < |disk|)
    && (b.dirty || changed ==> b.valid)
    && (b.locked ==> b.refcnt > 0 && b.valid)
    && (b.valid && !b.dirty && !changed ==> b.data == disk[b.blockno])
  }

  // For dev != 0 at most one buffer carries a given block, the one listed in
  // index; buffers that were never used all carry block 0 of device 0.
  ghost predicate Indexed(bufs: seq<Buf>, index: map<(nat, nat), nat>) {
    forall i :: 0 <= i < |bufs| && bufs[i].dev != 0 ==>
      var id := (bufs[i].dev, bufs[i].blockno); id in index && index[id] == i
  }

  lemma UniqueBuffer(bufs: seq<Buf>, index: map<(nat, nat), nat>, i: nat, j: nat)
    requires Indexed(bufs, index) && i < |bufs| && j < |bufs|
    requires bufs[i].dev != 0 && bufs[j].Holds(bufs[i].dev, bufs[i].blockno)
    ensures i == j
  {
  }

  ghost predicate Coherent(bufs: seq<Buf>, index: map<(nat, nat), nat>, changed: set<nat>, disk: Disk) {
    && |bufs| == NBUF
    && (forall i :: 0 <= i < NBUF ==> BufOk(bufs[i], i in changed, disk))
    && Indexed(bufs, index)
  }

  // bget finds the block, or a buffer to recycle.
  ghost predicate Available(bufs: seq<Buf>, dev: nat, blockno: nat) {
    exists i :: 0 <= i < |bufs| && (bufs[i].Holds(dev, blockno) || bufs[i].Free())
  }

  // iderw accepts the block.
  predicate OnDisk(dev: nat, blockno: nat, disk: Disk) { dev == 1 && blockno < |disk| }

  // Stamps fall along the ring.
  ghost predicate Recency(ring: seq<nat>, stamp: seq<int>) {
    && (forall i :: 0 <= i < |ring| ==> ring[i] < |stamp|)
    && (forall i, j :: 0 <= i < j < |ring| ==> stamp[ring[i]] > stamp[ring[j]])
  }

  // The ring holds every buffer, most recently released first.
  ghost predicate RingOk(next: seq<nat>, prev: seq<nat>, ring: seq<nat>, stamp: seq<int>, clock: int) {
    && |ring| == |stamp| == NBUF
    && Linked(next, prev, HEAD, ring)
    && (forall b :: 0 <= b < NBUF ==> b in ring)
    && (forall b :: 0 <= b < NBUF ==> stamp[b] < clock)
    && Recency(ring, stamp)
  }

  lemma MovedRecency(ring: seq<nat>, stamp: seq<int>, clock: int, k: nat)
    requires Recency(ring, stamp) && k < |ring|
    requires forall i :: 0 <= i < |stamp| ==> stamp[i] < clock
    ensures Recency(MoveFront(ring, k), stamp[ring[k] := clock])
  {
    var ring', stamp' := MoveFront(ring, k), stamp[ring[k] := clock];
    forall j | 0 < j < |ring'|
      ensures ring'[j] == ring[if j <= k then j - 1 else j]
    {
    }
  }

  // brelse's six assignments move a buffer to the front of the ring.
  lemma MovedRingOk(next: seq<nat>, prev: seq<nat>, ring: seq<nat>, stamp: seq<int>, clock: int, k: nat)
    requires RingOk(next, prev, ring, stamp, clock) && k < NBUF
    ensures var b := ring[k];
            && |next| == |prev| == HEAD + 1
            && next[b] <= HEAD && prev[b] <= HEAD && next[b] != b
            && var next1, prev1 := next[prev[b] := next[b]], prev[next[b] := prev[b]];
               && next1[HEAD] <= HEAD
               && RingOk(next1[b := next1[HEAD]][HEAD := b], prev1[b := HEAD][next1[HEAD] := b],
                         MoveFront(ring, k), stamp[b := clock], clock + 1)
  {
    MovedRecency(ring, stamp, clock, k);
    MovedLinks(next, prev, ring, k);
  }

  lemma MovedLinks(next: seq<nat>, prev: seq<nat>, ring: seq<nat>, k: nat)
    requires Linked(next, prev, HEAD, ring) && k < |ring|
    ensures var b := ring[k];
            && |next| == |prev| == HEAD + 1
            && next[b] <= HEAD && prev[b] <= HEAD && next[b] != b
            && var next1, prev1 := next[prev[b] := next[b]], prev[next[b] := prev[b]];
               && next1[HEAD] <= HEAD
               && Linked(next1[b := next1[HEAD]][HEAD := b], prev1[b := HEAD][next1[HEAD] := b],
                         HEAD, MoveFront(ring, k))
  {
    var b, xs, ys := ring[k], ring[..k], ring[k + 1..];
    assert ring == xs + [b] + ys;
    Unlink(next, prev, HEAD, xs, b, ys);
    assert b !in xs + ys;
    PushFront(next[prev[b] := next[b]], prev[next[b] := prev[b]], HEAD, xs + ys, b);
  }

  // bio.c:132-137, the links after brelse moves b to the front.
  method Moved(next: seq<nat>, prev: seq<nat>, b: nat) returns (nx: seq<nat>, pv: seq<nat>)
    requires b < HEAD && |next| == |prev| == HEAD + 1
    requires next[b] <= HEAD && prev[b] <= HEAD && next[b] != b
    requires next[prev[b] := next[b]][HEAD] <= HEAD
    ensures var next1, prev1 := next[prev[b] := next[b]], prev[next[b] := prev[b]];
            nx == next1[b := next1[HEAD]][HEAD := b] && pv == prev1[b := HEAD][next1[HEAD] := b]
  {
    nx, pv := next, prev;
    pv := pv[nx[b] := pv[b]];
    nx := nx[pv[b] := nx[b]];
    nx := nx[b := nx[HEAD]];
    pv := pv[b := HEAD];
    pv := pv[nx[HEAD] := b];
    nx := nx[HEAD := b];
  }

  class Cache {
    var bufs: seq<Buf>
    var next: seq<nat>
    var prev: seq<nat>
    var disk: Disk

    // The order of the ring, where each block is, and when each buffer's refcnt last fell to 0.
    ghost var ring: seq<nat>
    ghost var index: map<(nat, nat), nat>
    ghost var stamp: seq<int>
    ghost var clock: int
    // Buffers whose contents were changed, and neither written nor logged since.
    ghost var changed: set<nat>
    // Every disk contents there has been: the points a crash can leave.
    ghost var trace: seq<Disk>

    ghost predicate Valid()
      reads this
    {
      && Coherent(bufs, index, changed, disk)
      && RingOk(next, prev, ring, stamp, clock)
      && trace != [] && trace[|trace| - 1] == disk
    }

    // binit
    constructor (d: Disk)
      ensures Valid()
      ensures disk == d && trace == [d] && changed == {}
      ensures forall i :: 0 <= i < NBUF ==> bufs[i].Free() && !bufs[i].valid && bufs[i].dev == 0
    {
      bufs := seq(NBUF, i => Buf(0, 0, false, false, 0, false, ZeroBlock()));
      var nx: seq<nat>, pv: seq<nat> := seq(NBUF + 1, i => HEAD), seq(NBUF + 1, i => HEAD);
      ghost var r: seq<nat> := [];
      for b := 0 to NBUF
        invariant Linked(nx, pv, HEAD, r) && |r| == b
        invariant forall i :: 0 <= i < b ==> r[i] == b - 1 - i
      {
        PushFront(nx, pv, HEAD, r, b);
        var first := nx[HEAD];
        nx := nx[b := first];
        pv := pv[b := HEAD];
        pv := pv[first := b];
        nx := nx[HEAD := b];
        r := [b] + r;
      }
      next, prev := nx, pv;
      ring, stamp, clock, index := r, seq(NBUF, i => i), NBUF, map[];
      disk, trace, changed := d, [d], {};
      new;
      forall b | 0 <= b < NBUF
        ensures b in ring
      {
        assert ring[NBUF - 1 - b] == b;
      }
    }

    // The first loop of bget: HEAD when the block is not cached.
    method Lookup(dev: nat, blockno: nat) returns (b: nat)
      requires Valid()
      ensures b <= NBUF
      ensures b < NBUF ==> bufs[b].Holds(dev, blockno)
      ensures b == HEAD ==> forall i :: 0 <= i < NBUF ==> !bufs[i].Holds(dev, blockno)
    {
      ghost var c := Cycle(HEAD, ring);
      ghost var k := 1;
      assert c[0] == HEAD;
      b := next[HEAD];
      while b != HEAD
        invariant 1 <= k < |c| && b == c[k] <= HEAD
        invariant forall j :: 1 <= j < k ==> c[j] < NBUF && !bufs[c[j]].Holds(dev, blockno)
        decreases |c| - k
      {
        if bufs[b].Holds(dev, blockno) {
          return;
        }
        assert k + 1 < |c|;
        b := next[b];
        k := k + 1;
      }
      forall i | 0 <= i < NBUF
        ensures !bufs[i].Holds(dev, blockno)
      {
        assert i in ring;
        var j :| 0 <= j < NBUF && ring[j] == i;
        assert c[j + 1] == i;
        assert k == NBUF + 1;
      }
    }

    // The second loop of bget: of the buffers that are free and clean, the
    // one whose refcnt fell to 0 longest ago; HEAD when there is none.
    method Victim() returns (b: nat)
      requires Valid()
      ensures b <= NBUF
      ensures b < NBUF ==> bufs[b].Free()
      ensures b < NBUF ==> forall i :: 0 <= i < NBUF && bufs[i].Free() ==> stamp[b] <= stamp[i]
      ensures b == HEAD ==> forall i :: 0 <= i < NBUF ==> !bufs[i].Free()
    {
      ghost var c := Cycle(HEAD, ring);
      ghost var k := NBUF;
      assert c[NBUF + 1] == HEAD;
      b := prev[HEAD];
      while b != HEAD
        invariant 0 <= k <= NBUF && b == c[k] <= HEAD
        invariant forall j :: k < j <= NBUF ==> c[j] < NBUF && !bufs[c[j]].Free()
        decreases k
      {
        assert c[k] == ring[k - 1];
        if bufs[b].Free() {
          forall i | 0 <= i < NBUF && bufs[i].Free()
            ensures stamp[b] <= stamp[i]
          {
            assert i in ring;
            var j :| 0 <= j < NBUF && ring[j] == i;
            assert c[j + 1] == i;
          }
          return;
        }
        b := prev[b];
        k := k - 1;
      }
      forall i | 0 <= i < NBUF
        ensures !bufs[i].Free()
      {
        assert i in ring;
        var j :| 0 <= j < NBUF && ring[j] == i;
        assert c[j + 1] == i;
        assert k == 0;
      }
    }

    // bget, up to taking the buffer's sleep lock.
    method Bget(dev: nat, blockno: nat) returns (r: Got)
      requires Valid()
      modifies this`bufs, this`index, this`changed
      ensures Valid() && !r.Waits?
      ensures r.Panic? ==> bufs == old(bufs) && changed == old(changed)
      ensures r.Panic? <==> !Available(old(bufs), dev, blockno)
      ensures r.Got? ==> r.b < NBUF
      ensures r.Got? && old(bufs[r.b]).Holds(dev, blockno) ==>
                && bufs == old(bufs)[r.b := old(bufs[r.b]).(refcnt := old(bufs[r.b]).refcnt + 1)]
                && changed == old(changed)
      ensures r.Got? && !old(bufs[r.b]).Holds(dev, blockno) ==>
                && (forall i :: 0 <= i < NBUF ==> !old(bufs[i]).Holds(dev, blockno))
                && old(bufs[r.b]).Free()
                && (forall i :: 0 <= i < NBUF && old(bufs[i]).Free() ==> stamp[r.b] <= stamp[i])
                && bufs == old(bufs)[r.b := Buf(dev, blockno, false, false, 1, false, old(bufs[r.b]).data)]
                && changed == old(changed) - {r.b}
    {
      var b := Lookup(dev, blockno);
      if b != HEAD {
        bufs := bufs[b := bufs[b].(refcnt := bufs[b].refcnt + 1)];
        return Got(b);
      }
      b := Victim();
      if b == HEAD {
        return Panic; // "bget: no buffers"
      }
      index := index[(dev, blockno) := b];
      bufs := bufs[b := bufs[b].(dev := dev, blockno := blockno, valid := false, dirty := false, refcnt := 1)];
      changed := changed - {b};
      return Got(b);
    }

    // One turn of acquiresleep on a buffer that bget returned, and the rest of
    // bread. Panics when the block is not on disk 1 (iderw).
    method Acquire(b: nat) returns (r: Got)
      requires Valid() && b < NBUF && bufs[b].refcnt > 0
      modifies this`bufs
      ensures Valid()
      ensures r.Waits? <==> old(bufs[b]).locked
      ensures r.Panic? <==> !old(bufs[b]).locked && !OnDisk(bufs[b].dev, bufs[b].blockno, disk)
      ensures !r.Got? ==> bufs == old(bufs) && (r.Waits? ==> r.b == b)
      ensures r.Got? ==> r.b == b && var o := old(bufs[b]);
                && o.blockno < |disk|
                && bufs == old(bufs)[b := o.(locked := true, valid := true,
                    data := if o.valid then o.data else disk[o.blockno])]
    {
      if bufs[b].locked {
        return Waits(b);
      }
      if !bufs[b].valid && !OnDisk(bufs[b].dev, bufs[b].blockno, disk) {
        return Panic;
      }
      bufs := bufs[b := bufs[b].(locked := true)];
      if !bufs[b].valid {
        bufs := bufs[b := bufs[b].(valid := true, data := disk[bufs[b].blockno])]; // iderw
      }
      return Got(b);
    }

    // bread, as far as it gets without another process.
    method Bread(dev: nat, blockno: nat) returns (r: Got)
      requires Valid()
      modifies this`bufs, this`index, this`changed
      ensures Valid()
      ensures r.Waits? <==> exists i :: 0 <= i < NBUF && old(bufs[i]).Holds(dev, blockno) && old(bufs[i]).locked
      ensures r.Panic? <==> !r.Waits? && !(Available(old(bufs), dev, blockno) && OnDisk(dev, blockno, disk))
      ensures !r.Panic? ==> r.b < NBUF && bufs == old(bufs)[r.b := bufs[r.b]]
      ensures r.Waits? ==> old(bufs[r.b]).Holds(dev, blockno) && changed == old(changed)
      ensures r.Waits? ==> bufs[r.b] == old(bufs[r.b]).(refcnt := old(bufs[r.b]).refcnt + 1)
      ensures r.Got? ==> forall i :: 0 <= i < NBUF && old(bufs[i]).Holds(dev, blockno) ==> i == r.b
      ensures r.Got? ==> var o := old(bufs[r.b]);
                if o.Holds(dev, blockno) then
                  && bufs[r.b] == Buf(dev, blockno, true, o.dirty, o.refcnt + 1, true,
                                      if o.valid then o.data else disk[blockno])
                  && changed == old(changed)
                else o.Free() && bufs[r.b] == Buf(dev, blockno, true, false, 1, true, disk[blockno])
                     && changed == old(changed) - {r.b}
    {
      hide RingOk;
      r := Bget(dev, blockno);
      if r.Got? {
        r := Acquire(r.b);
        assert forall i :: 0 <= i < NBUF && old(bufs[i]).locked ==> BufOk(old(bufs[i]), i in old(changed), disk);
      }
    }

    // The holder of a buffer changes its contents.
    method Modify(b: nat, data: Block)
      requires Valid() && b < NBUF && bufs[b].locked
      modifies this`bufs, this`changed
      ensures Valid() && changed == old(changed) + {b}
      ensures bufs == old(bufs)[b := old(bufs[b]).(data := data)]
    {
      bufs := bufs[b := bufs[b].(data := data)];
      changed := changed + {b};
    }

    // log_write marks the buffer dirty.
    method Pin(b: nat)
      requires Valid() && b < NBUF && bufs[b].locked
      modifies this`bufs, this`changed
      ensures Valid() && changed == old(changed) - {b}
      ensures bufs == old(bufs)[b := old(bufs[b]).(dirty := true)]
    {
      bufs := bufs[b := bufs[b].(dirty := true)];
      changed := changed - {b};
    }

    // bwrite: one block write, one more point a crash can leave.
    method Bwrite(b: nat)
      requires Valid() && b < NBUF && bufs[b].locked
      modifies this`bufs, this`changed, this`disk, this`trace
      ensures Valid() && changed == old(changed) - {b}
      ensures bufs == old(bufs)[b := old(bufs[b]).(dirty := false)]
      ensures disk == old(disk)[bufs[b].blockno := bufs[b].data]
      ensures trace == old(trace) + [disk]
    {
      disk := disk[bufs[b].blockno := bufs[b].data];
      bufs := bufs[b := bufs[b].(dirty := false)];
      trace := trace + [disk];
      changed := changed - {b};
    }

    // memmove into the buffer, then bwrite.
    method Store(b: nat, data: Block)
      requires Valid() && b < NBUF && bufs[b].locked
      modifies this`bufs, this`changed, this`disk, this`trace
      ensures Valid() && changed == old(changed) - {b}
      ensures bufs == old(bufs)[b := old(bufs[b]).(dirty := false, data := data)]
      ensures disk == old(disk)[bufs[b].blockno := data]
      ensures trace == old(trace) + [disk]
    {
      Modify(b, data);
      Bwrite(b);
    }

    // brelse
    method Brelse(b: nat)
      requires Valid() && b < NBUF && bufs[b].locked
      modifies this`bufs, this`next, this`prev, this`ring, this`stamp, this`clock
      ensures Valid()
      ensures bufs == old(bufs)[b := old(bufs[b]).(locked := false, refcnt := old(bufs[b]).refcnt - 1)]
      ensures bufs[b].refcnt > 0 ==> ring == old(ring) && stamp == old(stamp)
      ensures bufs[b].refcnt == 0 ==> stamp == old(stamp)[b := old(clock)] && ring[0] == b
      ensures multiset(ring) == multiset(old(ring))
    {
      bufs := bufs[b := bufs[b].(locked := false, refcnt := bufs[b].refcnt - 1)];
      if bufs[b].refcnt == 0 {
        MoveToFront(b);
      }
    }

    method MoveToFront(b: nat)
      requires RingOk(next, prev, ring, stamp, clock) && b < NBUF
      modifies this`next, this`prev, this`ring, this`stamp, this`clock
      ensures RingOk(next, prev, ring, stamp, clock)
      ensures ring[0] == b && multiset(ring) == multiset(old(ring))
      ensures stamp == old(stamp)[b := old(clock)]
    {
      hide Linked, Recency;
      assert b in ring;
      ghost var k :| 0 <= k < NBUF && ring[k] == b;
      MovedRingOk(next, prev, ring, stamp, clock, k);
      var nx, pv := Moved(next, prev, b);
      next, prev := nx, pv;
      ring, stamp, clock := MoveFront(ring, k), stamp[b := clock], clock + 1;
    }
  }
}
