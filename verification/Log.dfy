// log.c: the in-memory log, commit and recovery, through the buffer cache.
module Log {
  import opened Common
  import opened Blocks
  import opened RedoLog
  import opened BufferCache
  import LogProtocol

  ghost predicate SomeFree(bufs: seq<Buf>) {
    exists j :: 0 <= j < |bufs| && bufs[j].Free()
  }

  ghost predicate AllFree(bufs: seq<Buf>) {
    forall j :: 0 <= j < |bufs| ==> bufs[j].Free()
  }

  ghost predicate NothingDirty(bufs: seq<Buf>) {
    forall j :: 0 <= j < |bufs| ==> !bufs[j].dirty
  }

  // Some buffer has block bn of the disk.
  ghost predicate Cached(bufs: seq<Buf>, bn: nat) {
    exists j :: 0 <= j < |bufs| && bufs[j].Holds(1, bn)
  }

  // What commit needs for n blocks: a buffer to recycle, or the whole of its
  // log area in the cache.
  ghost predicate Ready(bufs: seq<Buf>, l: Layout, n: nat) {
    SomeFree(bufs) || forall b :: l.start <= b <= l.start + n ==> Cached(bufs, b)
  }

  // Nobody holds the sleep lock of a log block or of one of the blocks bs, so
  // that commit does not have to wait for it.
  ghost predicate Unheld(bufs: seq<Buf>, l: Layout, bs: seq<nat>) {
    forall j :: 0 <= j < |bufs| && bufs[j].dev == 1 && (l.InLog(bufs[j].blockno) || bufs[j].blockno in bs) ==>
      !bufs[j].locked
  }

  // Cached log blocks are as on the disk.
  ghost predicate LogClean(bufs: seq<Buf>, changed: set<nat>, l: Layout) {
    forall j :: 0 <= j < |bufs| && bufs[j].dev == 1 && l.InLog(bufs[j].blockno) ==> !bufs[j].dirty && j !in changed
  }

  // The cached contents of the logged blocks.
  ghost function Contents(bufs: seq<Buf>, slot: seq<nat>): (cs: seq<Block>)
    ensures |cs| == |slot|
  {
    seq(|slot|, i requires 0 <= i < |slot| => if slot[i] < |bufs| then bufs[slot[i]].data else ZeroBlock())
  }

  // What commit may do to a buffer: nothing; clean or refill it for the same
  // block; or recycle it if nobody uses it.
  predicate Turn(o: Buf, x: Buf) {
    || x == o
    || (x.dev == 1 && x.valid && !x.dirty && !x.locked && !o.locked &&
        x.refcnt == o.refcnt && (o.refcnt == 0 || x.Holds(o.dev, o.blockno)))
  }

  ghost predicate Turned(before: seq<Buf>, changed: set<nat>, after: seq<Buf>, changed': set<nat>) {
    && |before| == |after| && changed' <= changed
    && forall j :: 0 <= j < |before| ==> Turn(before[j], after[j]) && (j in changed' ==> after[j] == before[j])
  }

  // Dirty buffers stay as they are ...
  ghost predicate KeepsDirty(before: seq<Buf>, after: seq<Buf>) {
    |before| == |after| && forall j :: 0 <= j < |before| && before[j].dirty ==> after[j] == before[j]
  }

  // ... but for the one with block bn, which is clean.
  ghost predicate KeepsDirtyExcept(before: seq<Buf>, after: seq<Buf>, bn: nat) {
    && |before| == |after|
    && (forall j :: 0 <= j < |before| && before[j].dirty && !before[j].Holds(1, bn) ==> after[j] == before[j])
    && (forall j :: 0 <= j < |before| && after[j].dirty ==> after[j] == before[j] && !after[j].Holds(1, bn))
  }

  lemma TurnedSelf(bufs: seq<Buf>, changed: set<nat>)
    ensures Turned(bufs, changed, bufs, changed) && KeepsDirty(bufs, bufs)
  {
  }

  lemma TurnedTrans(a: seq<Buf>, ca: set<nat>, b: seq<Buf>, cb: set<nat>, c: seq<Buf>, cc: set<nat>)
    requires Turned(a, ca, b, cb) && Turned(b, cb, c, cc)
    ensures Turned(a, ca, c, cc)
    ensures KeepsDirty(a, b) && KeepsDirty(b, c) ==> KeepsDirty(a, c)
  {
  }

  // One buffer turned, out of use or as before.
  lemma TurnedOne(before: seq<Buf>, changed: set<nat>, b: nat, x: Buf, changed': set<nat>)
    requires b < |before| && Turn(before[b], x) && !before[b].dirty && changed' <= changed - {b}
    ensures Turned(before, changed, before[b := x], changed') && KeepsDirty(before, before[b := x])
  {
  }

  // Two buffers turned: i was clean, j could only be dirty with block bn.
  lemma TurnedTwo(before: seq<Buf>, changed: set<nat>, i: nat, j: nat, x: Buf, y: Buf, changed': set<nat>, bn: nat)
    requires i < |before| && j < |before| && i != j && !before[i].dirty
    requires Turn(before[i], x) && Turn(before[j], y) && changed' <= changed - {i} && (j in changed' ==> y == before[j])
    requires forall k :: 0 <= k < |before| && before[k].dirty && before[k].Holds(1, bn) ==> k == j
    requires y == before[j] || (!y.dirty && (before[j].dirty ==> before[j].Holds(1, bn)))
    ensures var after := before[i := x][j := y];
            && Turned(before, changed, after, changed')
            && (y == before[j] ==> KeepsDirty(before, after))
            && (!y.dirty ==> KeepsDirtyExcept(before, after, bn))
  {
  }

  lemma Overwritten<T>(s: seq<T>, i: nat, j: nat, a: T, b: T, c: T, d: T, e: T)
    requires i < |s| && j < |s| && i != j
    ensures s[i := a][j := b][i := c][j := d][i := e] == s[i := e][j := d]
    ensures s[i := a][j := b][j := c][i := d][j := e] == s[i := d][j := e]
  {
  }

  // A turn leaves a buffer to recycle if there was one; if it made none, what
  // was cached still is.
  lemma TurnedFree(before: seq<Buf>, changed: set<nat>, after: seq<Buf>, changed': set<nat>)
    requires Turned(before, changed, after, changed')
    ensures SomeFree(before) ==> SomeFree(after)
    ensures !SomeFree(after) ==> forall bn :: Cached(before, bn) ==> Cached(after, bn)
  {
    if SomeFree(before) {
      var j :| 0 <= j < |before| && before[j].Free();
      assert after[j].Free();
    } else if !SomeFree(after) {
      assert forall j, bn :: 0 <= j < |before| && before[j].Holds(1, bn) ==> after[j].Holds(1, bn);
    }
  }

  // When no dirty buffer was cleaned a turn neither makes a buffer to recycle
  // nor, without one, brings in a block.
  lemma TurnedExactly(before: seq<Buf>, changed: set<nat>, after: seq<Buf>, changed': set<nat>)
    requires Turned(before, changed, after, changed') && KeepsDirty(before, after)
    ensures SomeFree(before) == SomeFree(after)
    ensures !SomeFree(before) ==> forall bn :: Cached(before, bn) <==> Cached(after, bn)
  {
    TurnedFree(before, changed, after, changed');
    if SomeFree(after) {
      var j :| 0 <= j < |after| && after[j].Free();
      assert before[j].Free();
    } else {
      assert forall j, bn :: 0 <= j < |before| && after[j].Holds(1, bn) ==> before[j].Holds(1, bn);
    }
  }

  lemma ReadyTurned(before: seq<Buf>, changed: set<nat>, after: seq<Buf>, changed': set<nat>, l: Layout, n: nat)
    requires Turned(before, changed, after, changed') && Ready(before, l, n)
    ensures Ready(after, l, n)
  {
    hide Turned, SomeFree, Cached;
    TurnedFree(before, changed, after, changed');
  }

  lemma AvailableIs(bufs: seq<Buf>, bn: nat)
    ensures Available(bufs, 1, bn) <==> SomeFree(bufs) || Cached(bufs, bn)
  {
  }

  lemma FrameTurned(before: seq<Buf>, changed: set<nat>, after: seq<Buf>, changed': set<nat>, l: Layout, bs: seq<nat>)
    requires Turned(before, changed, after, changed') && Unheld(before, l, bs) && LogClean(before, changed, l)
    ensures Unheld(after, l, bs) && LogClean(after, changed', l)
  {
  }

  lemma UnheldOne(bufs: seq<Buf>, l: Layout, bs: seq<nat>, k: nat)
    requires Unheld(bufs, l, bs) && k < |bs|
    ensures Unheld(bufs, l, [bs[k]])
  {
  }

  // What install_trans has left to unpin after k entries: the dirty buffers
  // are the buffers slot[k..], each with its logged block.
  ghost predicate Unlogged(bufs: seq<Buf>, bs: seq<nat>, slot: seq<nat>, k: nat)
    requires k <= |bs|
  {
    && |slot| == |bs|
    && (forall i, j :: 0 <= i < j < |bs| ==> bs[i] != bs[j])
    && (forall i :: k <= i < |bs| ==> slot[i] < |bufs| && bufs[slot[i]].Holds(1, bs[i]) && bufs[slot[i]].dirty)
    && (forall j :: 0 <= j < |bufs| && bufs[j].dirty ==> bufs[j].dev == 1 && bufs[j].blockno in bs[k..])
  }

  // The same for recovery, which has nothing to unpin and all buffers at hand.
  ghost predicate Left(bufs: seq<Buf>, bs: seq<nat>, pinned: bool, slot: seq<nat>, k: nat)
    requires k <= |bs|
  {
    if pinned then Unlogged(bufs, bs, slot, k) else AllFree(bufs)
  }

  ghost predicate PinnedOrFree(bufs: seq<Buf>, pinned: bool, slot: nat, bn: nat) {
    if pinned then slot < |bufs| && bufs[slot].Holds(1, bn) && bufs[slot].dirty else AllFree(bufs)
  }

  lemma LeftNext(bufs: seq<Buf>, bs: seq<nat>, pinned: bool, slot: seq<nat>, k: nat)
    requires k < |bs| && Left(bufs, bs, pinned, slot, k)
    ensures pinned ==> |slot| == |bs|
    ensures PinnedOrFree(bufs, pinned, if pinned then slot[k] else 0, bs[k])
  {
  }

  lemma LeftStep(before: seq<Buf>, changed: set<nat>, after: seq<Buf>, changed': set<nat>, bs: seq<nat>, pinned: bool,
                 slot: seq<nat>, k: nat)
    requires k < |bs| && Left(before, bs, pinned, slot, k)
    requires Turned(before, changed, after, changed') && KeepsDirtyExcept(before, after, bs[k])
    ensures Left(after, bs, pinned, slot, k + 1)
  {
    if pinned {
      forall j | 0 <= j < |after| && after[j].dirty
        ensures after[j].blockno in bs[k + 1..]
      {
        assert bs[k..] == [bs[k]] + bs[k + 1..];
      }
    }
  }

  lemma LeftNone(bufs: seq<Buf>, bs: seq<nat>, pinned: bool, slot: seq<nat>)
    requires Left(bufs, bs, pinned, slot, |bs|)
    ensures NothingDirty(bufs)
  {
  }

  lemma CleanTurned(before: seq<Buf>, changed: set<nat>, after: seq<Buf>, changed': set<nat>)
    requires Turned(before, changed, after, changed') && NothingDirty(before)
    ensures NothingDirty(after)
  {
  }

  // While only clean buffers change hands a logged block stays pinned, with
  // the contents it had.
  lemma StillPinned(before: seq<Buf>, after: seq<Buf>, bs: seq<nat>, slot: seq<nat>, i: nat)
    requires Unlogged(before, bs, slot, 0) && KeepsDirty(before, after) && i < |bs|
    ensures |slot| == |bs| && slot[i] < |after| == |before| && after[slot[i]] == before[slot[i]]
    ensures after[slot[i]].Holds(1, bs[i]) && after[slot[i]].dirty
  {
  }

  lemma UnloggedKept(before: seq<Buf>, changed: set<nat>, after: seq<Buf>, changed': set<nat>, bs: seq<nat>,
                     slot: seq<nat>)
    requires Unlogged(before, bs, slot, 0) && KeepsDirty(before, after) && Turned(before, changed, after, changed')
    ensures Unlogged(after, bs, slot, 0)
  {
  }

  // Buffers may be filled, locked, changed and released: the dirty ones are
  // the same, with the same blocks.
  lemma PinsKept(before: seq<Buf>, after: seq<Buf>, bs: seq<nat>, slot: seq<nat>)
    requires Unlogged(before, bs, slot, 0) && |after| == |before|
    requires forall j :: 0 <= j < |before| ==> after[j].dirty == before[j].dirty
    requires forall j :: 0 <= j < |before| && before[j].dirty ==> after[j].Holds(before[j].dev, before[j].blockno)
    ensures Unlogged(after, bs, slot, 0)
  {
  }

  // bread into buffer b.
  lemma ReadKeeps(before: seq<Buf>, changed: set<nat>, changed': set<nat>, l: Layout, bs: seq<nat>, slot: seq<nat>,
                  b: nat, x: Buf)
    requires Unlogged(before, bs, slot, 0) && LogClean(before, changed, l) && b < |before|
    requires x.dirty == before[b].dirty && changed' <= changed
    requires x.Holds(before[b].dev, before[b].blockno) || (!before[b].dirty && b !in changed')
    ensures Unlogged(before[b := x], bs, slot, 0) && LogClean(before[b := x], changed', l)
  {
    hide Unlogged;
    PinsKept(before, before[b := x], bs, slot);
  }

  // log_write of the block in buffer b.
  lemma PinAdded(bufs: seq<Buf>, index: map<(nat, nat), nat>, bs: seq<Word>, slot: seq<nat>, b: nat, bn: Word)
    requires Unlogged(bufs, bs, slot, 0) && Indexed(bufs, index) && b < |bufs| && bufs[b].Holds(1, bn)
    ensures Unlogged(bufs[b := bufs[b].(dirty := true)], LogProtocol.Absorb(bs, bn),
                     if bn in bs then slot else slot + [b], 0)
  {
    if bn in bs {
      var i :| 0 <= i < |bs| && bs[i] == bn;
      UniqueBuffer(bufs, index, slot[i], b);
      assert bufs[b := bufs[b].(dirty := true)] == bufs;
    }
  }

  lemma CommitUnfold(t: seq<Disk>, d: Disk, l: Layout, bs: seq<Word>, cs: seq<Block>)
    requires l.Fits(d) && ValidEntries(d, l, bs) && |cs| == |bs|
    ensures var h, last := CommitState(d, l, bs, cs, |bs| + 1), CommitState(d, l, bs, cs, 2 * |bs| + 2);
            var e := Install(h, l, bs, |bs|);
            && last == e[l.start := PutHeader(e[l.start], [])]
            && CommitTrace(t, d, l, bs, cs) == InstallTrace(WriteTrace(t, d, l, cs, |bs|) + [h], h, l, bs,
                |bs|) + [last]
  {
  }

  lemma CacheSize(c: Cache)
    requires c.Valid()
    ensures |c.bufs| == NBUF
  {
  }

  // Buffers in use though not dirty.
  ghost function Readers(bufs: seq<Buf>): set<nat> { set j | 0 <= j < |bufs| && bufs[j].refcnt > 0 && !bufs[j].dirty }

  ghost function Indices(n: nat): (s: set<nat>)
    ensures |s| == n && forall j :: j in s <==> 0 <= j < n
  {
    if n == 0 then {} else Indices(n - 1) + {n - 1}
  }

  ghost function Elements(s: seq<nat>): (r: set<nat>)
    ensures forall x :: x in r <==> x in s
    ensures (forall i, j :: 0 <= i < j < |s| ==> s[i] != s[j]) ==> |r| == |s|
  {
    if s == [] then {}
    else
      var t := s[..|s| - 1];
      assert s == t + [s[|s| - 1]];
      Elements(t) + {s[|s| - 1]}
  }

  // With n blocks logged and r other buffers in use, commit finds a buffer to
  // recycle iff n + r is less than the number of buffers.
  lemma BuffersLeft(bufs: seq<Buf>, index: map<(nat, nat), nat>, bs: seq<nat>, slot: seq<nat>)
    requires Indexed(bufs, index) && Unlogged(bufs, bs, slot, 0)
    ensures SomeFree(bufs) <==> |bs| + |Readers(bufs)| < |bufs|
  {
    hide Unlogged, Indexed, Elements, Indices;
    SlotsDirty(bufs, index, bs, slot);
    Split(bufs, Elements(slot));
  }

  lemma Split(bufs: seq<Buf>, dirty: set<nat>)
    requires forall j :: j in dirty <==> 0 <= j < |bufs| && bufs[j].dirty
    ensures SomeFree(bufs) <==> |dirty| + |Readers(bufs)| < |bufs|
  {
    hide Indices;
    var free := set j | 0 <= j < |bufs| && bufs[j].Free();
    assert dirty !! Readers(bufs) && (dirty + Readers(bufs)) !! free;
    assert Indices(|bufs|) == dirty + Readers(bufs) + free;
    if SomeFree(bufs) {
      var j :| 0 <= j < |bufs| && bufs[j].Free();
      assert j in free;
    } else {
      assert free == {};
    }
  }

  lemma SlotsDirty(bufs: seq<Buf>, index: map<(nat, nat), nat>, bs: seq<nat>, slot: seq<nat>)
    requires Indexed(bufs, index) && Unlogged(bufs, bs, slot, 0)
    ensures |slot| == |bs| && forall i, j :: 0 <= i < j < |slot| ==> slot[i] != slot[j]
    ensures forall x :: x in slot ==> x < |bufs| && bufs[x].dirty
    ensures forall j :: 0 <= j < |bufs| && bufs[j].dirty ==> j in slot
  {
    forall i, j | 0 <= i < j < |slot|
      ensures slot[i] != slot[j]
    {
      assert bufs[slot[i]].blockno == bs[i] != bs[j] == bufs[slot[j]].blockno;
    }
    forall j | 0 <= j < |bufs| && bufs[j].dirty
      ensures j in slot
    {
      var i :| 0 <= i < |bs| && bs[i] == bufs[j].blockno;
      UniqueBuffer(bufs, index, slot[i], j);
    }
  }

  // The stores of write_head into the header block.
  method FillHeader(h: Block, bs: seq<Word>) returns (hb: Block)
    requires |bs| <= LOGSIZE
    ensures hb == PutHeader(h, bs)
  {
    hb := PutWord(h, 0, |bs|);
    for i := 0 to |bs|
      invariant hb == PutEntries(PutWord(h, 0, |bs|), bs, i)
    {
      hb := PutWord(hb, i + 1, bs[i]);
    }
  }

  // The loads of read_head into log.lh.
  method LoadHeader(h: Block, block: seq<Word>) returns (n: nat, block': seq<Word>)
    requires GetWord(h, 0) <= LOGSIZE == |block|
    ensures |block'| == LOGSIZE && n <= LOGSIZE && block'[..n] == HeaderOf(h)
  {
    n, block' := GetWord(h, 0), block;
    for i := 0 to n
      invariant |block'| == LOGSIZE
      invariant forall j :: 0 <= j < i ==> block'[j] == GetWord(h, j + 1)
    {
      block' := block'[i := GetWord(h, i + 1)];
    }
  }

  // The absorption scan of log_write.
  method Position(block: seq<Word>, n: nat, blockno: nat) returns (i: nat)
    requires n <= |block|
    ensures i <= n && (i < n ==> block[i] == blockno)
    ensures i == n ==> blockno !in block[..n]
  {
    i := 0;
    while i < n
      invariant i <= n
      invariant forall j :: 0 <= j < i ==> block[j] != blockno
    {
      if block[i] == blockno {
        break;
      }
      i := i + 1;
    }
  }

  lemma Listed(block: seq<Word>, n: nat, i: nat, blockno: Word)
    requires n < |block| && i <= n && (i < n ==> block[i] == blockno)
    requires i == n ==> blockno !in block[..n]
    ensures block[i := blockno][..if i == n then n + 1 else n] == LogProtocol.Absorb(block[..n], blockno)
  {
    if i < n {
      assert block[..n][i] == blockno;
      assert block[i := blockno] == block;
    }
  }

  class Logger {
    const cache: Cache
    const l: Layout
    var n: nat // log.lh.n
    var block: seq<Word> // log.lh.block
    var outstanding: nat
    var committing: bool
    // The buffers of the logged blocks.
    ghost var slot: seq<nat>

    // The dirty buffers are exactly the logged blocks, and no commit is under
    // way.
    ghost predicate Valid()
      reads this, cache
    {
      && cache.Valid() && |block| == LOGSIZE && n <= LOGSIZE
      && ValidLog(cache.disk, l) && HeaderOf(cache.disk[l.start]) == []
      && ValidEntries(cache.disk, l, block[..n])
      && Unlogged(cache.bufs, block[..n], slot, 0) && LogClean(cache.bufs, cache.changed, l)
    }

    constructor (cache: Cache, l: Layout)
      ensures this.cache == cache && this.l == l && n == 0 && |block| == LOGSIZE
      ensures outstanding == 0 && !committing && slot == []
    {
      this.cache, this.l := cache, l;
      n, block := 0, seq(LOGSIZE, i => 0);
      outstanding, committing, slot := 0, false, [];
    }

    // bread of a block of the log area. false is bget's panic.
    method ReadLog(bn: nat) returns (ok: bool, b: nat)
      requires cache.Valid() && l.Fits(cache.disk) && l.InLog(bn)
      requires LogClean(cache.bufs, cache.changed, l) && Unheld(cache.bufs, l, [])
      modifies cache`bufs, cache`index, cache`changed
      ensures cache.Valid() && (ok <==> Available(old(cache.bufs), 1, bn))
      ensures ok ==> b < NBUF && cache.changed <= old(cache.changed) - {b}
      ensures ok ==> var o := old(cache.bufs[b]);
                && !o.dirty && !o.locked && (o.Holds(1, bn) || o.Free())
                && cache.bufs == old(cache.bufs)[b := Buf(1, bn, true, false, o.refcnt + 1, true, cache.disk[bn])]
    {
      hide RingOk, Available;
      var r := cache.Bread(1, bn);
      if r.Panic? {
        return false, 0;
      }
      assert r.Got?;
      return true, r.b;
    }

    // bread of a home block, pinned in buffer slot or held by nobody.
    method ReadHome(bn: nat, ghost pinned: bool, ghost slot: nat) returns (b: nat)
      requires cache.Valid() && bn < |cache.disk|
      requires forall j :: 0 <= j < NBUF && cache.bufs[j].Holds(1, bn) ==>
                 !cache.bufs[j].locked && (pinned || cache.bufs[j].Free())
      requires slot < NBUF &&
               if pinned then cache.bufs[slot].Holds(1, bn) && cache.bufs[slot].valid else cache.bufs[slot].Free()
      modifies cache`bufs, cache`index, cache`changed
      ensures cache.Valid() && b < NBUF && cache.changed <= old(cache.changed)
      ensures cache.bufs == old(cache.bufs)[b := cache.bufs[b]]
      ensures forall k :: 0 <= k < NBUF && old(cache.bufs[k]).Holds(1, bn) ==> k == b
      ensures pinned ==> b == slot && var o := old(cache.bufs[b]);
                         cache.bufs[b] == o.(refcnt := o.refcnt + 1, locked := true)
      ensures !pinned ==> old(cache.bufs[b]).Free() &&
                          cache.bufs[b] == Buf(1, bn, true, false, 1, true, cache.bufs[b].data)
    {
      hide RingOk, Indexed, Available;
      AvailableAt(cache.bufs, 1, bn, slot);
      var r := cache.Bread(1, bn);
      assert r.Got?;
      b := r.b;
    }

    // The two breads at the start of an iteration of write_log and of
    // install_trans: the log block, then the home block, which is pinned in
    // a buffer (commit) unless nothing is (recovery).
    method ReadPair(tail: nat, ghost pinned: bool, ghost slot: nat) returns (ok: bool, lb: nat, hb: nat)
      requires cache.Valid() && l.Fits(cache.disk) && tail + 1 < l.size && tail < |block|
      requires LogClean(cache.bufs, cache.changed, l) && Unheld(cache.bufs, l, [block[tail]])
      requires block[tail] < |cache.disk| && !l.InLog(block[tail])
      requires PinnedOrFree(cache.bufs, pinned, slot, block[tail])
      modifies cache`bufs, cache`index, cache`changed
      ensures cache.Valid() && (ok <==> Available(old(cache.bufs), 1, l.start + tail + 1))
      ensures ok ==> lb < NBUF && hb < NBUF && lb != hb && cache.changed <= old(cache.changed) - {lb}
      ensures ok ==> cache.bufs == old(cache.bufs)[lb := cache.bufs[lb]][hb := cache.bufs[hb]]
      ensures ok ==> var o, bn := old(cache.bufs[lb]), l.start + tail + 1;
                && !o.dirty && !o.locked && (o.Holds(1, bn) || o.Free())
                && cache.bufs[lb] == Buf(1, bn, true, false, o.refcnt + 1, true, cache.disk[bn])
      ensures ok && pinned ==> hb == slot && var o := old(cache.bufs[slot]);
                cache.bufs[hb] == o.(refcnt := o.refcnt + 1, locked := true)
      ensures ok && !pinned ==> old(cache.bufs[hb]).Free() &&
                                cache.bufs[hb] == Buf(1, block[tail], true, false, 1, true, cache.bufs[hb].data)
      ensures ok ==> !old(cache.bufs[hb]).locked
      ensures ok ==>
                forall k :: 0 <= k < NBUF && old(cache.bufs[k]).dirty && old(cache.bufs[k]).Holds(1, block[tail]) ==>
                k == hb
    {
      hide RingOk, LogClean, Available, Indexed, Unheld;
      hb := 0;
      assert pinned ==> cache.bufs[slot].valid;
      assert !pinned ==> forall j :: 0 <= j < NBUF ==> !cache.bufs[j].locked;
      assert forall j :: 0 <= j < NBUF && cache.bufs[j].Holds(1, block[tail]) ==> !cache.bufs[j].locked by {
        UnheldAt(cache.bufs, l, block[tail]);
      }
      UnheldLess(cache.bufs, l, [block[tail]]);
      ok, lb := ReadLog(l.start + tail + 1);
      if !ok {
        return;
      }
      ghost var other := if pinned then slot else if lb == 0 then 1 else 0;
      assert cache.bufs[other] == old(cache.bufs[other]);
      assert forall k :: 0 <= k < NBUF && old(cache.bufs[k]).dirty ==> cache.bufs[k] == old(cache.bufs[k]);
      hb := ReadHome(block[tail], pinned, other);
    }

    // One iteration of write_log.
    method WriteLogEntry(tail: nat, ghost slot: nat) returns (ok: bool)
      requires cache.Valid() && l.Fits(cache.disk) && tail + 1 < l.size && tail < |block|
      requires LogClean(cache.bufs, cache.changed, l) && Unheld(cache.bufs, l, [block[tail]])
      requires block[tail] < |cache.disk| && !l.InLog(block[tail])
      requires slot < NBUF && cache.bufs[slot].Holds(1, block[tail]) && cache.bufs[slot].dirty
      modifies cache
      ensures cache.Valid() && (ok <==> Available(old(cache.bufs), 1, l.start + tail + 1))
      ensures ok ==> Turned(old(cache.bufs), old(cache.changed), cache.bufs, cache.changed)
      ensures ok ==> KeepsDirty(old(cache.bufs), cache.bufs)
      ensures ok ==> cache.disk == old(cache.disk)[l.start + tail + 1 := old(cache.bufs[slot].data)]
      ensures ok ==> cache.trace == old(cache.trace) + [cache.disk]
    {
      hide RingOk, Indexed, KeepsDirty, KeepsDirtyExcept, Turned, LogClean, Unheld, Available;
      ghost var before, ch := cache.bufs, cache.changed;
      var to, from;
      ok, to, from := ReadPair(tail, true, slot);
      if !ok {
        return;
      }
      ghost var a, b := cache.bufs[to], cache.bufs[from];
      cache.Store(to, cache.bufs[from].data);
      ghost var c := cache.bufs[to];
      cache.Brelse(from);
      ghost var d := cache.bufs[from];
      cache.Brelse(to);
      Overwritten(before, to, from, a, b, c, d, cache.bufs[to]);
      TurnedTwo(before, ch, to, from, cache.bufs[to], d, cache.changed, block[tail]);
    }

    // One iteration of install_trans.
    method InstallEntry(tail: nat, ghost pinned: bool, ghost slot: nat)
      requires cache.Valid() && l.Fits(cache.disk) && tail + 1 < l.size && tail < |block|
      requires LogClean(cache.bufs, cache.changed, l) && Unheld(cache.bufs, l, [block[tail]])
      requires block[tail] < |cache.disk| && !l.InLog(block[tail])
      requires PinnedOrFree(cache.bufs, pinned, slot, block[tail]) && Available(cache.bufs, 1, l.start + tail + 1)
      modifies cache
      ensures cache.Valid() && Turned(old(cache.bufs), old(cache.changed), cache.bufs, cache.changed)
      ensures KeepsDirtyExcept(old(cache.bufs), cache.bufs, block[tail])
      ensures cache.disk == old(cache.disk)[block[tail] := old(cache.disk)[l.start + tail + 1]]
      ensures cache.trace == old(cache.trace) + [cache.disk]
    {
      hide RingOk, Indexed, KeepsDirty, KeepsDirtyExcept, Turned, LogClean, Unheld, Available;
      ghost var before, ch := cache.bufs, cache.changed;
      var ok, lbuf, dbuf := ReadPair(tail, pinned, slot);
      ghost var a, b := cache.bufs[lbuf], cache.bufs[dbuf];
      cache.Store(dbuf, cache.bufs[lbuf].data);
      ghost var c := cache.bufs[dbuf];
      cache.Brelse(lbuf);
      ghost var d := cache.bufs[lbuf];
      cache.Brelse(dbuf);
      Overwritten(before, lbuf, dbuf, a, b, c, d, cache.bufs[dbuf]);
      TurnedTwo(before, ch, lbuf, dbuf, d, cache.bufs[dbuf], cache.changed, block[tail]);
    }

    // write_head: the log header block takes n and the first n entries.
    method WriteHead() returns (ok: bool)
      requires cache.Valid() && l.Fits(cache.disk) && n <= |block| && n <= LOGSIZE
      requires LogClean(cache.bufs, cache.changed, l) && Unheld(cache.bufs, l, [])
      modifies cache
      ensures cache.Valid() && (ok <==> Available(old(cache.bufs), 1, l.start))
      ensures ok ==> Turned(old(cache.bufs), old(cache.changed), cache.bufs, cache.changed)
      ensures ok ==> KeepsDirty(old(cache.bufs), cache.bufs)
      ensures ok ==> cache.disk == old(cache.disk)[l.start := PutHeader(old(cache.disk)[l.start], block[..n])]
      ensures ok ==> cache.trace == old(cache.trace) + [cache.disk]
    {
      hide RingOk, Indexed, PutHeader, KeepsDirty, Turned, Available;
      ghost var before, ch := cache.bufs, cache.changed;
      var b;
      ok, b := ReadLog(l.start);
      if !ok {
        return;
      }
      var hb := FillHeader(cache.bufs[b].data, block[..n]);
      cache.Store(b, hb);
      cache.Brelse(b);
      assert cache.bufs == before[b := cache.bufs[b]];
      TurnedOne(before, ch, b, cache.bufs[b], cache.changed);
    }

    // read_head: the log header block gives n and the first n entries.
    method ReadHead()
      requires cache.Valid() && AllFree(cache.bufs) && LogClean(cache.bufs, cache.changed, l)
      requires l.Fits(cache.disk) && |block| == LOGSIZE && GetWord(cache.disk[l.start], 0) <= LOGSIZE
      modifies this`n, this`block, cache
      ensures cache.Valid() && Turned(old(cache.bufs), old(cache.changed), cache.bufs, cache.changed)
      ensures cache.disk == old(cache.disk) && cache.trace == old(cache.trace)
      ensures |block| == LOGSIZE && n <= LOGSIZE && block[..n] == HeaderOf(cache.disk[l.start])
    {
      hide RingOk, Indexed, HeaderOf, KeepsDirty, Turned;
      ghost var before, ch := cache.bufs, cache.changed;
      AvailableAt(before, 1, l.start, 0);
      assert Unheld(before, l, []);
      var ok, b := ReadLog(l.start);
      var h := cache.bufs[b].data;
      n, block := LoadHeader(h, block);
      cache.Brelse(b);
      assert cache.bufs == before[b := cache.bufs[b]];
      TurnedOne(before, ch, b, cache.bufs[b], cache.changed);
    }

    // write_log
    method WriteLogBlocks() returns (ok: bool)
      requires cache.Valid() && l.Fits(cache.disk) && n <= |block| && ValidEntries(cache.disk, l, block[..n])
      requires LogClean(cache.bufs, cache.changed, l) && Unheld(cache.bufs, l, block[..n])
      requires Unlogged(cache.bufs, block[..n], slot, 0)
      modifies cache
      ensures ok <==> SomeFree(old(cache.bufs)) ||
                      forall b :: l.start < b <= l.start + n ==> Cached(old(cache.bufs), b)
      ensures ok ==> cache.Valid() && Turned(old(cache.bufs), old(cache.changed), cache.bufs, cache.changed)
      ensures ok ==> KeepsDirty(old(cache.bufs), cache.bufs)
      ensures ok ==> cache.disk == WriteLog(old(cache.disk), l, Contents(old(cache.bufs), slot), n)
      ensures ok ==> cache.trace ==
                       WriteTrace(old(cache.trace), old(cache.disk), l, Contents(old(cache.bufs), slot), n)
    {
      hide Cache.Valid, SomeFree, Cached, Available, KeepsDirty, LogClean, Unheld, Unlogged, Turned, Contents,
        WriteLog, WriteTrace;
      ghost var before, ch, d, bs, sl := cache.bufs, cache.changed, cache.disk, block[..n], slot;
      ghost var cs := Contents(before, sl);
      TurnedSelf(before, ch);
      ok := true;
      UnloggedSizes(before, bs, sl);
      WriteLogNone(old(cache.trace), d, l, cs);
      CacheSize(cache);
      for tail := 0 to n
        invariant ok && cache.Valid() && KeepsDirty(before, cache.bufs)
        invariant Turned(before, ch, cache.bufs, cache.changed)
        invariant forall b :: l.start < b <= l.start + tail ==> SomeFree(before) || Cached(before, b)
        invariant cache.disk == WriteLog(d, l, cs, tail)
        invariant cache.trace == WriteTrace(old(cache.trace), d, l, cs, tail)
      {
        ghost var mid, mch := cache.bufs, cache.changed;
        StillPinned(before, mid, bs, sl, tail);
        FrameTurned(before, ch, mid, mch, l, bs);
        UnheldOne(mid, l, bs, tail);
        TurnedExactly(before, ch, mid, mch);
        AvailableIs(mid, l.start + tail + 1);
        CacheSize(cache);
        ContentsAt(before, sl, tail);
        WriteLogNext(old(cache.trace), d, l, cs, tail);
        ok := WriteLogEntry(tail, sl[tail]);
        if !ok {
          return;
        }
        TurnedTrans(before, ch, mid, mch, cache.bufs, cache.changed);
      }
    }

    // install_trans, from commit (the home blocks are pinned, in the buffers
    // slot) or from recovery (no buffer is in use).
    method InstallTrans(ghost pinned: bool)
      requires cache.Valid() && l.Fits(cache.disk) && n <= |block| && ValidEntries(cache.disk, l, block[..n])
      requires LogClean(cache.bufs, cache.changed, l) && Unheld(cache.bufs, l, block[..n])
      requires Left(cache.bufs, block[..n], pinned, slot, 0) && Ready(cache.bufs, l, n)
      modifies cache
      ensures cache.Valid() && Turned(old(cache.bufs), old(cache.changed), cache.bufs, cache.changed)
      ensures NothingDirty(cache.bufs)
      ensures cache.disk == Install(old(cache.disk), l, block[..n], n)
      ensures cache.trace == InstallTrace(old(cache.trace), old(cache.disk), l, block[..n], n)
    {
      hide Cache.Valid, KeepsDirtyExcept, LogClean, Unheld, Left, PinnedOrFree, NothingDirty, Turned, Ready,
        Available, KeepsDirty;
      ghost var before, ch, d, bs := cache.bufs, cache.changed, cache.disk, block[..n];
      TurnedSelf(before, ch);
      for tail := 0 to n
        invariant cache.Valid() && Turned(before, ch, cache.bufs, cache.changed)
        invariant Left(cache.bufs, bs, pinned, slot, tail)
        invariant cache.disk == Install(d, l, bs, tail)
        invariant cache.trace == InstallTrace(old(cache.trace), d, l, bs, tail)
      {
        ghost var mid, mch := cache.bufs, cache.changed;
        LeftNext(mid, bs, pinned, slot, tail);
        FrameTurned(before, ch, mid, mch, l, bs);
        UnheldOne(mid, l, bs, tail);
        ReadyTurned(before, ch, mid, mch, l, n);
        ReadyAt(mid, l, n, tail + 1);
        InstallEntry(tail, pinned, if pinned then slot[tail] else 0);
        LeftStep(mid, mch, cache.bufs, cache.changed, bs, pinned, slot, tail);
        TurnedTrans(before, ch, mid, mch, cache.bufs, cache.changed);
      }
      LeftNone(cache.bufs, bs, pinned, slot);
    }

    // install_trans, then n = 0 and write_head: the end of commit() and the
    // whole of recovery after read_head.
    method InstallAndErase(ghost pinned: bool)
      requires cache.Valid() && l.Fits(cache.disk) && n <= |block| && ValidEntries(cache.disk, l, block[..n])
      requires LogClean(cache.bufs, cache.changed, l) && Unheld(cache.bufs, l, block[..n])
      requires Left(cache.bufs, block[..n], pinned, slot, 0) && Ready(cache.bufs, l, n)
      modifies this`n, cache
      ensures cache.Valid() && Turned(old(cache.bufs), old(cache.changed), cache.bufs, cache.changed)
      ensures NothingDirty(cache.bufs) && n == 0
      ensures var d, bs := old(cache.disk), old(block[..n]);
              var e := Install(d, l, bs, |bs|);
              && cache.disk == e[l.start := PutHeader(e[l.start], [])]
              && cache.trace == InstallTrace(old(cache.trace), d, l, bs, |bs|) + [cache.disk]
    {
      hide Cache.Valid, Left, KeepsDirty, NothingDirty, LogClean, Unheld, Ready, Turned, Available, Install,
        PutHeader, InstallTrace;
      ghost var before, ch, bs := cache.bufs, cache.changed, block[..n];
      InstallTrans(pinned);
      ghost var mid, mch := cache.bufs, cache.changed;
      FrameTurned(before, ch, mid, mch, l, bs);
      ReadyTurned(before, ch, mid, mch, l, n);
      ReadyAt(mid, l, n, 0);
      UnheldLess(mid, l, bs);
      n := 0;
      var ok := WriteHead();
      CleanTurned(mid, mch, cache.bufs, cache.changed);
      TurnedTrans(before, ch, mid, mch, cache.bufs, cache.changed);
    }

    // write_log and the first write_head of commit(): up to the commit point.
    method WriteTransaction() returns (ok: bool)
      requires cache.Valid() && l.Fits(cache.disk) && n <= |block| && ValidEntries(cache.disk, l, block[..n])
      requires LogClean(cache.bufs, cache.changed, l) && Unheld(cache.bufs, l, block[..n])
      requires Unlogged(cache.bufs, block[..n], slot, 0)
      modifies cache
      ensures ok <==> Ready(old(cache.bufs), l, n)
      ensures ok ==> cache.Valid() && Turned(old(cache.bufs), old(cache.changed), cache.bufs, cache.changed)
      ensures ok ==> Unlogged(cache.bufs, block[..n], slot, 0)
      ensures ok ==> var d, bs, cs := old(cache.disk), block[..n], Contents(old(cache.bufs), slot);
                && |cs| == |bs| && cache.disk == CommitState(d, l, bs, cs, |bs| + 1)
                && cache.trace == WriteTrace(old(cache.trace), d, l, cs, |bs|) + [cache.disk]
    {
      hide Cache.Valid, Unlogged, KeepsDirty, LogClean, Unheld, Turned, SomeFree, Cached, Available, WriteTrace,
        WriteLog, PutHeader;
      ghost var before, ch, d, bs, cs := cache.bufs, cache.changed, cache.disk, block[..n], Contents(cache.bufs, slot);
      UnloggedSizes(before, bs, slot);
      ok := WriteLogBlocks();
      if !ok {
        return;
      }
      ghost var mid, mch := cache.bufs, cache.changed;
      FrameTurned(before, ch, mid, mch, l, bs);
      UnheldLess(mid, l, bs);
      TurnedExactly(before, ch, mid, mch);
      AvailableIs(mid, l.start);
      ok := WriteHead();
      if !ok {
        return;
      }
      TurnedTrans(before, ch, mid, mch, cache.bufs, cache.changed);
      UnloggedKept(before, ch, cache.bufs, cache.changed, bs, slot);
      assert Install(cache.disk, l, bs, 0) == cache.disk;
    }

    // commit(). false is a panic of bget, which happens exactly when commit
    // finds no buffer for its log area; else the disk goes through exactly the
    // states of CommitTrace, and nothing stays logged or pinned.
    method Commit() returns (ok: bool)
      requires Valid() && Unheld(cache.bufs, l, block[..n])
      modifies this`n, this`slot, cache
      ensures ok <==> old(n) == 0 || Ready(old(cache.bufs), l, old(n))
      ensures ok ==> Valid() && n == 0 && NothingDirty(cache.bufs)
      ensures ok ==> Turned(old(cache.bufs), old(cache.changed), cache.bufs, cache.changed)
      ensures ok ==> var bs, cs := old(block[..n]), Contents(old(cache.bufs), old(slot));
                && |cs| == |bs|
                && if bs == [] then cache.disk == old(cache.disk) && cache.trace == old(cache.trace)
                   else && cache.disk == CommitState(old(cache.disk), l, bs, cs, 2 * |bs| + 2)
                        && cache.trace == CommitTrace(old(cache.trace), old(cache.disk), l, bs, cs)
    {
      hide Cache.Valid, Unlogged, Left, NothingDirty, LogClean, Unheld, Turned, Ready, WriteTrace, InstallTrace,
        WriteLog, Install, PutHeader, HeaderOf, CommitState, CommitTrace, ValidLog;
      ghost var before, ch, d, bs, cs := cache.bufs, cache.changed, cache.disk, block[..n], Contents(cache.bufs, slot);
      UnloggedSizes(before, bs, slot);
      assert l.Fits(d) by { LogFits(d, l); }
      if n == 0 {
        LeftNone(cache.bufs, bs, true, slot) by { LeftAll(cache.bufs, bs, slot, 0); }
        TurnedSelf(before, ch);
        return true;
      }
      ok := WriteTransaction();
      if !ok {
        return;
      }
      ghost var mid, mch := cache.bufs, cache.changed;
      FrameTurned(before, ch, mid, mch, l, bs);
      ReadyTurned(before, ch, mid, mch, l, n);
      LeftAll(mid, bs, slot, 0);
      CommitSize(d, l, bs, cs);
      InstallAndErase(true);
      TurnedTrans(before, ch, mid, mch, cache.bufs, cache.changed);
      FrameTurned(before, ch, cache.bufs, cache.changed, l, bs);
      CommitUnfold(old(cache.trace), d, l, bs, cs);
      slot := [];
      NothingLogged(cache.bufs);
      CommitErased(d, l, bs, cs);
    }

    // recover_from_log, on a cache that has just been set up.
    method Recover()
      requires cache.Valid() && AllFree(cache.bufs) && cache.changed == {}
      requires |block| == LOGSIZE && ValidLog(cache.disk, l)
      modifies this`n, this`block, this`slot, cache
      ensures Valid() && n == 0 && AllFree(cache.bufs)
      ensures cache.disk == Recovered(old(cache.disk), l)
      ensures cache.trace == RecoveryTrace(old(cache.trace), old(cache.disk), l)
    {
      hide Cache.Valid, Install, InstallTrace, PutHeader, Turned, Unheld, LogClean, Ready, Unlogged,
        NothingDirty, AllFree;
      ghost var before, d := cache.bufs, cache.disk;
      FreshFrame(cache, l);
      ReadHead();
      ghost var mid, mch := cache.bufs, cache.changed;
      FrameTurned(before, {}, mid, mch, l, HeaderOf(d[l.start]));
      FreeTurned(before, {}, mid, mch);
      FreeReady(mid, l, n) by { CacheSize(cache); }
      InstallAndErase(false);
      FreeTurned(mid, mch, cache.bufs, cache.changed);
      FrameTurned(mid, mch, cache.bufs, cache.changed, l, HeaderOf(d[l.start]));
      slot := [];
      NothingLogged(cache.bufs);
      RecoveredErased(d, l);
    }

    // One turn of begin_op's loop: admitted, or put to sleep.
    method BeginOp() returns (admitted: bool)
      requires Valid()
      modifies this`outstanding
      ensures Valid()
      ensures admitted <==> !committing && n + (old(outstanding) + 1) * MAXOPBLOCKS <= LOGSIZE
      ensures outstanding == old(outstanding) + (if admitted then 1 else 0)
    {
      if committing || n + (outstanding + 1) * MAXOPBLOCKS > LOGSIZE {
        return false;
      }
      outstanding := outstanding + 1;
      return true;
    }

    // end_op. false is one of the panics: a commit is under way, or this was
    // the last operation and commit has no buffer left.
    method EndOp() returns (ok: bool)
      requires Valid() && outstanding > 0 && (outstanding == 1 ==> Unheld(cache.bufs, l, block[..n]))
      modifies this`n, this`slot, this`outstanding, this`committing, cache
      ensures ok <==> !old(committing) && (old(outstanding) > 1 || old(n) == 0 || Ready(old(cache.bufs), l, old(n)))
      ensures outstanding == old(outstanding) - 1
      ensures ok ==> Valid() && !committing
      ensures ok && old(outstanding) > 1 ==>
                n == old(n) && cache.bufs == old(cache.bufs) && cache.trace == old(cache.trace)
      ensures ok && old(outstanding) == 1 ==> n == 0 && NothingDirty(cache.bufs)
      ensures ok && old(outstanding) == 1 && old(n) > 0 ==>
                var bs, cs := old(block[..n]), Contents(old(cache.bufs), old(slot));
                |cs| == |bs| && cache.trace == CommitTrace(old(cache.trace), old(cache.disk), l, bs, cs)
    {
      hide Cache.Valid, Unlogged, NothingDirty, LogClean, Unheld, Turned, Ready, HeaderOf, CommitState,
        CommitTrace, ValidLog;
      outstanding := outstanding - 1;
      if committing {
        return false;
      }
      ok := true;
      if outstanding == 0 {
        committing := true;
        ok := Commit();
        committing := false;
      }
    }

    // log_write: the block number is listed once and the buffer pinned.
    method LogWrite(b: nat) returns (panic: bool)
      requires Valid() && b < NBUF && cache.bufs[b].locked && !l.InLog(cache.bufs[b].blockno)
      modifies this`n, this`block, this`slot, cache`bufs, cache`changed
      ensures Valid()
      ensures panic <==> LogProtocol.TooBig(old(block[..n]), l) || outstanding < 1
      ensures panic ==> block[..n] == old(block[..n]) && cache.bufs == old(cache.bufs)
      ensures !panic ==> block[..n] == LogProtocol.Absorb(old(block[..n]), old(cache.bufs[b].blockno))
      ensures !panic ==> cache.bufs == old(cache.bufs)[b := old(cache.bufs[b]).(dirty := true)]
    {
      hide RingOk, Indexed, Unlogged, HeaderOf;
      if n >= LOGSIZE || n >= l.size - 1 || outstanding < 1 {
        return true;
      }
      var blockno := cache.bufs[b].blockno;
      ghost var bs := block[..n];
      PinAdded(cache.bufs, cache.index, bs, slot, b, blockno);
      slot := if blockno in bs then slot else slot + [b];
      var i := Position(block, n, blockno);
      Listed(block, n, i, blockno);
      block := block[i := blockno];
      if i == n {
        n := n + 1;
      }
      cache.Pin(b);
      return false;
    }

    // What the file system does with buffers in between keeps the pins: bread,
    method Read(bn: nat) returns (r: Got)
      requires Valid()
      modifies cache`bufs, cache`index, cache`changed
      ensures !r.Panic? ==> Valid()
      ensures r.Waits? <==> exists i :: 0 <= i < NBUF && old(cache.bufs[i]).Holds(1, bn) && old(cache.bufs[i]).locked
      ensures r.Panic? <==> !r.Waits? && !(Available(old(cache.bufs), 1, bn) && bn < |cache.disk|)
      ensures r.Got? ==> r.b < NBUF && cache.bufs[r.b].Holds(1, bn) && cache.bufs[r.b].locked
      ensures r.Got? ==> cache.bufs == old(cache.bufs)[r.b := cache.bufs[r.b]] && var o := old(cache.bufs[r.b]);
                && (o.Holds(1, bn) || o.Free()) && cache.bufs[r.b].dirty == o.dirty
                && cache.bufs[r.b].refcnt == if o.Holds(1, bn) then o.refcnt + 1 else 1
      ensures r.Got? && bn in block[..n] ==> r.b in slot && cache.bufs[r.b].data == old(cache.bufs[r.b]).data
    {
      hide RingOk, Indexed, Unlogged, HeaderOf, LogClean;
      ghost var before, ch := cache.bufs, cache.changed;
      r := cache.Bread(1, bn);
      if r.Panic? {
        return;
      }
      CacheSize(cache);
      ReadKeeps(before, ch, cache.changed, l, block[..n], slot, r.b, cache.bufs[r.b]);
      if r.Got? && bn in block[..n] {
        ghost var i :| 0 <= i < n && block[i] == bn;
        PinnedAt(before, block[..n], slot, i);
      }
    }

    // changing a buffer one holds,
    method Change(b: nat, data: Block)
      requires Valid() && b < NBUF && cache.bufs[b].locked && !l.InLog(cache.bufs[b].blockno)
      modifies cache`bufs, cache`changed
      ensures Valid() && cache.bufs == old(cache.bufs)[b := old(cache.bufs[b]).(data := data)]
    {
      hide RingOk, Indexed, Unlogged, HeaderOf;
      ghost var before := cache.bufs;
      cache.Modify(b, data);
      PinsKept(before, cache.bufs, block[..n], slot);
    }

    // and brelse.
    method Release(b: nat)
      requires Valid() && b < NBUF && cache.bufs[b].locked
      modifies cache`bufs, cache`next, cache`prev, cache`ring, cache`stamp, cache`clock
      ensures Valid()
      ensures cache.bufs == old(cache.bufs)[b := old(cache.bufs[b]).(locked := false,
                refcnt := old(cache.bufs[b]).refcnt - 1)]
    {
      hide RingOk, Indexed, Unlogged, HeaderOf, LogClean;
      ghost var before := cache.bufs;
      cache.Brelse(b);
      ReleasedFrame(before, cache.changed, l, b);
      PinsKept(before, cache.bufs, block[..n], slot);
    }
  }

  lemma ReleasedFrame(bufs: seq<Buf>, changed: set<nat>, l: Layout, b: nat)
    requires b < |bufs| && LogClean(bufs, changed, l) && bufs[b].refcnt > 0
    ensures LogClean(bufs[b := bufs[b].(locked := false, refcnt := bufs[b].refcnt - 1)], changed, l)
  {
  }

  lemma UnloggedSizes(bufs: seq<Buf>, bs: seq<nat>, slot: seq<nat>)
    requires Unlogged(bufs, bs, slot, 0)
    ensures |slot| == |bs|
  {
  }

  lemma ContentsAt(bufs: seq<Buf>, slot: seq<nat>, i: nat)
    requires i < |slot| && slot[i] < |bufs|
    ensures Contents(bufs, slot)[i] == bufs[slot[i]].data
  {
  }

  lemma WriteLogNone(t: seq<Disk>, d: Disk, l: Layout, cs: seq<Block>)
    requires l.Fits(d) && |cs| < l.size
    ensures WriteLog(d, l, cs, 0) == d && WriteTrace(t, d, l, cs, 0) == t
  {
  }

  lemma WriteLogNext(t: seq<Disk>, d: Disk, l: Layout, cs: seq<Block>, k: nat)
    requires l.Fits(d) && |cs| < l.size && k < |cs|
    ensures WriteLog(d, l, cs, k + 1) == WriteLog(d, l, cs, k)[l.start + k + 1 := cs[k]]
    ensures WriteTrace(t, d, l, cs, k + 1) == WriteTrace(t, d, l, cs, k) + [WriteLog(d, l, cs, k + 1)]
  {
  }

  lemma PinnedAt(bufs: seq<Buf>, bs: seq<nat>, slot: seq<nat>, i: nat)
    requires Unlogged(bufs, bs, slot, 0) && i < |bs|
    ensures |slot| == |bs| && slot[i] < |bufs| && bufs[slot[i]].Holds(1, bs[i]) && bufs[slot[i]].dirty
  {
  }

  lemma LeftAll(bufs: seq<Buf>, bs: seq<nat>, slot: seq<nat>, k: nat)
    requires k <= |bs| && Unlogged(bufs, bs, slot, k)
    ensures Left(bufs, bs, true, slot, k)
  {
  }

  lemma ReadyAt(bufs: seq<Buf>, l: Layout, n: nat, i: nat)
    requires Ready(bufs, l, n) && i <= n
    ensures Available(bufs, 1, l.start + i)
  {
    AvailableIs(bufs, l.start + i);
  }

  lemma AvailableAt(bufs: seq<Buf>, dev: nat, bn: nat, j: nat)
    requires j < |bufs| && (bufs[j].Holds(dev, bn) || bufs[j].Free())
    ensures Available(bufs, dev, bn)
  {
  }

  lemma UnheldAt(bufs: seq<Buf>, l: Layout, bn: nat)
    requires Unheld(bufs, l, [bn])
    ensures forall j :: 0 <= j < |bufs| && bufs[j].Holds(1, bn) ==> !bufs[j].locked
  {
  }

  lemma UnheldLess(bufs: seq<Buf>, l: Layout, bs: seq<nat>)
    requires Unheld(bufs, l, bs)
    ensures Unheld(bufs, l, [])
  {
  }

  lemma NothingLogged(bufs: seq<Buf>)
    requires NothingDirty(bufs)
    ensures Unlogged(bufs, [], [], 0)
  {
  }

  lemma LogFits(d: Disk, l: Layout)
    requires ValidLog(d, l)
    ensures l.Fits(d)
  {
  }

  lemma CommitSize(d: Disk, l: Layout, bs: seq<Word>, cs: seq<Block>)
    requires l.Fits(d) && ValidEntries(d, l, bs) && |cs| == |bs|
    ensures var e := CommitState(d, l, bs, cs, |bs| + 1); l.Fits(e) && ValidEntries(e, l, bs)
  {
  }

  lemma ErasedLog(e: Disk, l: Layout)
    requires l.Fits(e)
    ensures var d := e[l.start := PutHeader(e[l.start], [])]; ValidLog(d, l) && HeaderOf(d[l.start]) == []
  {
  }

  lemma CommitErased(d: Disk, l: Layout, bs: seq<Word>, cs: seq<Block>)
    requires l.Fits(d) && ValidEntries(d, l, bs) && |cs| == |bs|
    ensures var e := CommitState(d, l, bs, cs, 2 * |bs| + 2); ValidLog(e, l) && HeaderOf(e[l.start]) == []
  {
    hide HeaderOf, PutHeader, Install, WriteLog;
    var h := CommitState(d, l, bs, cs, |bs| + 1);
    ErasedLog(Install(h, l, bs, |bs|), l);
  }

  lemma RecoveredErased(d: Disk, l: Layout)
    requires ValidLog(d, l)
    ensures var e := Recovered(d, l); ValidLog(e, l) && HeaderOf(e[l.start]) == []
  {
    hide PutHeader, Install;
    ErasedLog(Install(d, l, HeaderOf(d[l.start]), |HeaderOf(d[l.start])|), l);
  }

  lemma FreshFrame(c: Cache, l: Layout)
    requires c.Valid() && AllFree(c.bufs) && c.changed == {}
    ensures LogClean(c.bufs, c.changed, l) && forall bs :: Unheld(c.bufs, l, bs)
  {
  }

  lemma FreeTurned(before: seq<Buf>, changed: set<nat>, after: seq<Buf>, changed': set<nat>)
    requires Turned(before, changed, after, changed') && AllFree(before)
    ensures AllFree(after)
  {
  }

  lemma FreeReady(bufs: seq<Buf>, l: Layout, n: nat)
    requires AllFree(bufs) && |bufs| == NBUF
    ensures Ready(bufs, l, n)
  {
    assert bufs[0].Free();
  }
}
