// Every interleaving of file-system operations, readers of the buffer cache,
// commit and recovery, with a crash possible between any two block writes.
//
// The theorem is a refinement: what recovery would leave on the disk
// (Durable) and what the operations see (Current) behave like an atomic
// transaction store.
module LogProtocol {
  import opened Common
  import opened Blocks
  import opened RedoLog

  // A cached block: b->data, B_DIRTY, b->refcnt and the sleep lock.
  datatype Cell = Cell(data: Block, dirty: bool, refcnt: nat, locked: bool)

  // Where the kernel is: Running (committing == 0), inside commit() after k
  // block writes of write_log or of install_trans, past the erasing header
  // write (committing still 1), or in recovery after a crash.
  datatype Phase = Running | Copying(k: nat) | Installing(k: nat) | Erased | Booting | Recovering(k: nat)

  // ops[i] is the set of blocks the i-th outstanding operation has logged.
  datatype State = State(disk: Disk, cache: map<nat, Cell>, lh: seq<Word>, ops: seq<set<nat>>, phase: Phase)

  datatype Step =
    | Fill(b: nat)              // bread of a block that is not cached
    | Evict(b: nat)             // bget recycles the block's buffer
    | Get(b: nat)               // bget counts one more user
    | Lock(b: nat)              // acquiresleep in bget
    | Release(b: nat)           // brelse
    | BeginOp
    | OpWrite(op: nat, b: nat, data: Block) // change a locked buffer, log_write
    | EndOp(op: nat)
    | CopyNext                  // an iteration of write_log
    | WriteHeader               // the commit point
    | InstallNext               // an iteration of install_trans
    | EraseHeader
    | CommitDone                // committing = 0
    | Crash
    | ReadHeader
    | RecoverNext
    | RecoverErase

  // The block as bread returns it.
  function View(s: State, b: nat): Block
    requires b < |s.disk|
  {
    if b in s.cache then s.cache[b].data else s.disk[b]
  }

  // log_write's list after logging b: absorbed when already listed.
  function Absorb(lh: seq<Word>, b: Word): (r: seq<Word>) {
    if b in lh then lh else lh + [b]
  }

  // log_write panics with "too big a transaction".
  predicate TooBig(lh: seq<Word>, l: Layout) {
    |lh| >= LOGSIZE || |lh| >= l.size - 1
  }

  ghost predicate Can(s: State, l: Layout, st: Step) {
    match st
    case Fill(b) => b < |s.disk| && b !in s.cache && Room(s, {b})
    case Evict(b) => b in s.cache && s.cache[b].refcnt == 0 && !s.cache[b].dirty
    case Get(b) => b in s.cache
    case Lock(b) => b in s.cache && s.cache[b].refcnt > 0 && !s.cache[b].locked
    case Release(b) => b in s.cache && s.cache[b].refcnt > 0 && s.cache[b].locked
    case BeginOp => s.phase.Running? && |s.lh| + (|s.ops| + 1) * MAXOPBLOCKS <= LOGSIZE
    case OpWrite(op, b, data) =>
      && s.phase.Running? && op < |s.ops| && b in s.cache && s.cache[b].locked
      && b < |s.disk| && !l.InLog(b) && !TooBig(s.lh, l)
    case EndOp(op) => s.phase.Running? && op < |s.ops|
    case CopyNext => s.phase.Copying? && PairReady(s, l, s.phase.k)
    case WriteHeader => s.phase.Copying? && s.phase.k == |s.lh| > 0 && HeaderReady(s, l)
    case InstallNext => s.phase.Installing? && PairReady(s, l, s.phase.k)
    case EraseHeader =>
      || (s.phase.Installing? && s.phase.k == |s.lh| && HeaderReady(s, l))
      || (s.phase.Copying? && s.lh == [])
    case CommitDone => s.phase.Erased?
    case Crash => true
    case ReadHeader =>
      s.phase.Booting? && l.start < |s.disk| && HeaderReady(s, l) && GetWord(View(s, l.start), 0) <= LOGSIZE
    case RecoverNext => s.phase.Recovering? && PairReady(s, l, s.phase.k)
    case RecoverErase => s.phase.Recovering? && s.phase.k == |s.lh| && HeaderReady(s, l)
  }

  // Somebody holds the block's sleep lock.
  predicate Busy(s: State, b: nat) { b in s.cache && s.cache[b].locked }

  // The blocks are cached, or there are buffers to read them into.
  predicate Room(s: State, bs: set<nat>) { |s.cache.Keys + bs| <= NBUF }

  // The log block and the home block of entry k can be read and locked.
  predicate PairReady(s: State, l: Layout, k: nat) {
    && k < |s.lh| < l.size && s.lh[k] < |s.disk|
    && !Busy(s, s.lh[k]) && !Busy(s, l.start + 1 + k) && Room(s, {s.lh[k], l.start + 1 + k})
  }

  predicate HeaderReady(s: State, l: Layout) { !Busy(s, l.start) && Room(s, {l.start}) }

  // bwrite of a block: disk and cached copy agree, B_DIRTY is cleared.
  function Written(s: State, b: nat, data: Block, next: Phase): (r: State)
    requires b < |s.disk|
    ensures |r.disk| == |s.disk|
  {
    var refcnt := if b in s.cache then s.cache[b].refcnt else 0;
    s.(disk := s.disk[b := data], cache := s.cache[b := Cell(data, false, refcnt, false)], phase := next)
  }

  ghost function Do(s: State, l: Layout, st: Step): (r: State)
    requires l.Fits(s.disk) && ValidLog(s.disk, l) && |s.lh| <= LOGSIZE && Can(s, l, st)
    ensures |r.disk| == |s.disk|
  {
    match st
    case Fill(b) => s.(cache := s.cache[b := Cell(s.disk[b], false, 0, false)])
    case Evict(b) => s.(cache := s.cache - {b})
    case Get(b) => s.(cache := s.cache[b := s.cache[b].(refcnt := s.cache[b].refcnt + 1)])
    case Lock(b) => s.(cache := s.cache[b := s.cache[b].(locked := true)])
    case Release(b) => s.(cache := s.cache[b := s.cache[b].(locked := false, refcnt := s.cache[b].refcnt - 1)])
    case BeginOp => s.(ops := s.ops + [{}])
    case OpWrite(op, b, data) =>
      s.(cache := s.cache[b := s.cache[b].(data := data, dirty := true)],
         lh := Absorb(s.lh, b), ops := s.ops[op := s.ops[op] + {b}])
    case EndOp(op) =>
      var ops := s.ops[..op] + s.ops[op + 1..];
      if ops == [] then s.(ops := ops, phase := Copying(0)) else s.(ops := ops)
    case CopyNext =>
      Written(s, l.start + 1 + s.phase.k, View(s, s.lh[s.phase.k]), Copying(s.phase.k + 1))
    case WriteHeader => Written(s, l.start, PutHeader(View(s, l.start), s.lh), Installing(0))
    case InstallNext =>
      Written(s, s.lh[s.phase.k], View(s, l.start + 1 + s.phase.k), Installing(s.phase.k + 1))
    case EraseHeader =>
      if s.lh == [] then s.(phase := Erased)
      else Written(s.(lh := []), l.start, PutHeader(View(s, l.start), []), Erased)
    case CommitDone => s.(phase := Running)
    case Crash => State(s.disk, map[], [], [], Booting)
    case ReadHeader => s.(lh := HeaderOf(View(s, l.start)), phase := Recovering(0))
    case RecoverNext =>
      Written(s, s.lh[s.phase.k], View(s, l.start + 1 + s.phase.k), Recovering(s.phase.k + 1))
    case RecoverErase => Written(s.(lh := []), l.start, PutHeader(View(s, l.start), []), Running)
  }

  ghost predicate Distinct(bs: seq<nat>) {
    forall i, j :: 0 <= i < j < |bs| ==> bs[i] != bs[j]
  }

  ghost predicate CacheOk(s: State) {
    forall b :: b in s.cache ==>
      && b < |s.disk|
      && (!s.cache[b].dirty ==> s.cache[b].data == s.disk[b])
      && (s.cache[b].locked ==> s.cache[b].refcnt > 0)
  }

  // Exactly the blocks lh[k..] are pinned: cached and dirty.
  ghost predicate Pinned(s: State, k: nat) {
    && (forall i :: k <= i < |s.lh| ==> s.lh[i] in s.cache && s.cache[s.lh[i]].dirty)
    && (forall b :: b in s.cache && s.cache[b].dirty ==> exists i :: k <= i < |s.lh| && s.lh[i] == b)
  }

  // Blocks logged by outstanding operations are in lh.
  ghost predicate Recorded(s: State) {
    forall i, b :: 0 <= i < |s.ops| && b in s.ops[i] ==> b in s.lh
  }

  // The log area holds the current contents of the first k logged blocks.
  ghost predicate Copied(s: State, l: Layout, k: nat)
    requires ValidLog(s.disk, l) && ValidEntries(s.disk, l, s.lh)
  {
    forall i :: 0 <= i < k && i < |s.lh| ==> s.disk[l.start + 1 + i] == View(s, s.lh[i])
  }

  // The first k logged blocks have been copied home.
  ghost predicate Installed(s: State, l: Layout, k: nat)
    requires ValidLog(s.disk, l) && ValidEntries(s.disk, l, s.lh)
  {
    forall i :: 0 <= i < k && i < |s.lh| ==> s.disk[s.lh[i]] == s.disk[l.start + 1 + i]
  }

  ghost predicate Header(s: State, l: Layout, bs: seq<nat>)
    requires ValidLog(s.disk, l)
  {
    HeaderOf(s.disk[l.start]) == bs
  }

  ghost predicate Inv(s: State, l: Layout) {
    && ValidLog(s.disk, l) && Distinct(HeaderOf(s.disk[l.start]))
    && ValidEntries(s.disk, l, s.lh) && Distinct(s.lh)
    && CacheOk(s) && Recorded(s)
    && (!s.phase.Running? ==> s.ops == [])
    && match s.phase
       case Running => Header(s, l, []) && Pinned(s, 0)
       case Copying(k) => k <= |s.lh| && Header(s, l, []) && Pinned(s, 0) && Copied(s, l, k)
       case Installing(k) => k <= |s.lh| && s.lh != [] && Header(s, l, s.lh) && Pinned(s, k) && Copied(s, l, |s.lh|)
       case Erased => Header(s, l, []) && s.lh == [] && Pinned(s, 0)
       case Booting => s.lh == [] && Pinned(s, 0)
       case Recovering(k) => k <= |s.lh| && Header(s, l, s.lh) && Pinned(s, |s.lh|) && Installed(s, l, k)
  }

  lemma InvValid(s: State, l: Layout)
    requires Inv(s, l)
    ensures ValidLog(s.disk, l) && l.Fits(s.disk) && |s.lh| <= LOGSIZE
  {
  }

  // What a crash now and a full recovery would leave.
  ghost function Durable(s: State, l: Layout): (d: Disk)
    requires ValidLog(s.disk, l)
    ensures |d| == |s.disk|
  {
    Recovered(s.disk, l)
  }

  // What the operations see; before recovery is over nobody sees anything yet.
  ghost function Current(s: State, l: Layout): (d: Disk)
    requires ValidLog(s.disk, l)
    ensures |d| == |s.disk|
  {
    if s.phase.Booting? || s.phase.Recovering? then Durable(s, l)
    else seq(|s.disk|, b requires 0 <= b < |s.disk| => View(s, b))
  }

  // The atomic transaction store.
  ghost predicate SpecStep(s: State, s': State, l: Layout, st: Step)
    requires ValidLog(s.disk, l) && ValidLog(s'.disk, l)
    requires st.OpWrite? ==> st.b < |s.disk|
  {
    match st
    case OpWrite(_, b, data) =>
      SameHome(Durable(s', l), Durable(s, l), l) && SameHome(Current(s', l), Current(s, l)[b := data], l)
    case WriteHeader =>
      s.ops == [] && SameHome(Durable(s', l), Current(s, l), l) && SameHome(Current(s', l), Current(s, l), l)
    case Crash =>
      SameHome(Durable(s', l), Durable(s, l), l) && SameHome(Current(s', l), Durable(s, l), l)
    case _ =>
      SameHome(Durable(s', l), Durable(s, l), l) && SameHome(Current(s', l), Current(s, l), l)
  }

  // Recovery, block by block.
  lemma RecoveredAt(d: Disk, l: Layout)
    requires ValidLog(d, l) && Distinct(HeaderOf(d[l.start]))
    ensures var bs, r := HeaderOf(d[l.start]), Recovered(d, l);
            && (forall i :: 0 <= i < |bs| ==> r[bs[i]] == d[l.start + 1 + i])
            && (forall b :: 0 <= b < |d| && !l.InLog(b) && b !in bs ==> r[b] == d[b])
  {
    var bs := HeaderOf(d[l.start]);
    var cs := seq(|bs|, i requires 0 <= i < |bs| => d[l.start + 1 + i]);
    RecoveredIsApply(d, l, bs, cs);
    ApplyAt(d, bs, cs);
  }

  // The two caches pin the same blocks with the same contents.
  ghost predicate SamePins(c: map<nat, Cell>, c': map<nat, Cell>) {
    && (forall b :: b in c && c[b].dirty ==> b in c' && c'[b].dirty && c'[b].data == c[b].data)
    && (forall b :: b in c' && c'[b].dirty ==> b in c && c[b].dirty)
  }

  lemma SamePinsSameView(s: State, c': map<nat, Cell>)
    requires CacheOk(s) && CacheOk(s.(cache := c')) && SamePins(s.cache, c')
    ensures forall b :: 0 <= b < |s.disk| ==> View(s.(cache := c'), b) == View(s, b)
    ensures forall k: nat :: Pinned(s, k) ==> Pinned(s.(cache := c'), k)
  {
  }

  // Clean buffers may come and go, be locked and be released at any time.
  lemma CacheOnly(s: State, l: Layout, c': map<nat, Cell>)
    requires Inv(s, l) && CacheOk(s.(cache := c')) && SamePins(s.cache, c')
    ensures Inv(s.(cache := c'), l)
    ensures SameHome(Current(s.(cache := c'), l), Current(s, l), l)
  {
    hide Pinned, CacheOk, SamePins, View, Recovered, Distinct, Recorded;
    SamePinsSameView(s, c');
    var s' := s.(cache := c');
    assert Recorded(s') by { RecordedSame(s, s'); }
    assert Copied(s', l, |s.lh|) == Copied(s, l, |s.lh|) &&
        (s.phase.Copying? ==> Copied(s', l, s.phase.k) == Copied(s, l, s.phase.k));
  }

  lemma RecordedSame(s: State, s': State)
    requires Recorded(s) && s'.lh == s.lh && s'.ops == s.ops
    ensures Recorded(s')
  {
  }

  // Steps of the buffer cache alone.
  lemma CacheStep(s: State, l: Layout, st: Step)
    requires Inv(s, l) && Can(s, l, st)
    requires st.Fill? || st.Evict? || st.Get? || st.Lock? || st.Release?
    ensures Inv(Do(s, l, st), l) && SpecStep(s, Do(s, l, st), l, st)
  {
    hide Room, Pinned, View, Recovered, Distinct, Recorded, Copied, Current;
    var c' := Do(s, l, st).cache;
    CacheOnly(s, l, c');
  }

  lemma BeginStep(s: State, l: Layout)
    requires Inv(s, l) && Can(s, l, BeginOp)
    ensures Inv(Do(s, l, BeginOp), l) && SpecStep(s, Do(s, l, BeginOp), l, BeginOp)
  {
    hide Room, Pinned, CacheOk, Recovered, Distinct;
    var s' := Do(s, l, BeginOp);
    assert s'.ops[..|s.ops|] == s.ops;
    PinnedSame(s, s', 0);
  }

  lemma EndStep(s: State, l: Layout, op: nat)
    requires Inv(s, l) && Can(s, l, EndOp(op))
    ensures Inv(Do(s, l, EndOp(op)), l) && SpecStep(s, Do(s, l, EndOp(op)), l, EndOp(op))
  {
    hide Room, Pinned, CacheOk, Recovered, Distinct, Recorded;
    var s' := Do(s, l, EndOp(op));
    EndRecorded(s, s', op);
    PinnedSame(s, s', 0);
  }

  lemma EndRecorded(s: State, s': State, op: nat)
    requires Recorded(s) && op < |s.ops| && s'.lh == s.lh && s'.ops == s.ops[..op] + s.ops[op + 1..]
    ensures Recorded(s')
  {
    forall i | 0 <= i < |s'.ops|
      ensures s'.ops[i] == s.ops[if i < op then i else i + 1]
    {
    }
  }

  lemma PinnedSame(s: State, s': State, k: nat)
    requires CacheOk(s) && s'.cache == s.cache && s'.lh == s.lh && s'.disk == s.disk
    ensures CacheOk(s')
    ensures Pinned(s, k) ==> Pinned(s', k)
    ensures forall b :: 0 <= b < |s.disk| ==> View(s', b) == View(s, b)
  {
  }

  lemma WriteRecorded(s: State, s': State, op: nat, b: Word)
    requires Recorded(s) && op < |s.ops|
    requires s'.lh == Absorb(s.lh, b) && s'.ops == s.ops[op := s.ops[op] + {b}]
    ensures Recorded(s')
  {
  }

  lemma WritePinned(s: State, s': State, b: Word, data: Block)
    requires CacheOk(s) && Pinned(s, 0) && b in s.cache
    requires s'.disk == s.disk && s'.lh == Absorb(s.lh, b)
    requires s'.cache == s.cache[b := s.cache[b].(data := data, dirty := true)]
    ensures CacheOk(s') && Pinned(s', 0)
    ensures forall x :: 0 <= x < |s.disk| ==> View(s', x) == if x == b then data else View(s, x)
  {
    forall x | x in s'.cache && s'.cache[x].dirty
      ensures exists i :: 0 <= i < |s'.lh| && s'.lh[i] == x
    {
      if x == b {
        assert b in s'.lh;
      } else {
        var i :| 0 <= i < |s.lh| && s.lh[i] == x;
        assert s'.lh[i] == x;
      }
    }
  }

  lemma OpWriteStep(s: State, l: Layout, op: nat, b: nat, data: Block)
    requires Inv(s, l) && Can(s, l, OpWrite(op, b, data))
    ensures Inv(Do(s, l, OpWrite(op, b, data)), l)
    ensures SpecStep(s, Do(s, l, OpWrite(op, b, data)), l, OpWrite(op, b, data))
  {
    hide Room, Pinned, CacheOk, Recovered, Recorded, View;
    var s' := Do(s, l, OpWrite(op, b, data));
    WriteRecorded(s, s', op, b);
    WritePinned(s, s', b, data);
  }

  // A block write inside the log area: home blocks, as stored and as seen,
  // stay; so do the pins.
  lemma WrittenInLog(s: State, l: Layout, b: nat, data: Block, next: Phase, k: nat)
    requires ValidEntries(s.disk, l, s.lh) && CacheOk(s) && Pinned(s, k) && b < |s.disk| && l.InLog(b)
    ensures var s' := Written(s, b, data, next);
            && CacheOk(s') && Pinned(s', k)
            && (forall x :: 0 <= x < |s.disk| && x != b ==> s'.disk[x] == s.disk[x] && View(s', x) == View(s, x))
  {
  }

  // The k-th logged block goes home ...
  lemma WrittenHome(s: State, l: Layout, k: nat, data: Block, next: Phase)
    requires ValidEntries(s.disk, l, s.lh) && CacheOk(s) && k < |s.lh|
    ensures var s' := Written(s, s.lh[k], data, next);
            && CacheOk(s')
            && (forall x :: 0 <= x < |s.disk| && x != s.lh[k] ==> s'.disk[x] == s.disk[x] && View(s', x) == View(s, x))
            && View(s', s.lh[k]) == data == s'.disk[s.lh[k]]
  {
  }

  // ... and is no longer pinned.
  lemma UnpinnedHome(s: State, l: Layout, k: nat, data: Block, next: Phase)
    requires ValidEntries(s.disk, l, s.lh) && Distinct(s.lh) && k < |s.lh| && Pinned(s, k)
    ensures Pinned(Written(s, s.lh[k], data, next), k + 1)
  {
    var s' := Written(s, s.lh[k], data, next);
    forall b | b in s'.cache && s'.cache[b].dirty
      ensures exists i :: k + 1 <= i < |s'.lh| && s'.lh[i] == b
    {
      var i :| k <= i < |s.lh| && s.lh[i] == b;
      assert i != k;
    }
  }

  lemma NonePinnedHome(s: State, l: Layout, k: nat, data: Block, next: Phase)
    requires ValidEntries(s.disk, l, s.lh) && k < |s.lh| && Pinned(s, |s.lh|)
    ensures Pinned(Written(s, s.lh[k], data, next), |s.lh|)
  {
  }

  // A block that is not pinned is seen as it is stored.
  lemma CleanView(s: State, k: nat, b: nat)
    requires CacheOk(s) && Pinned(s, k) && b < |s.disk|
    requires forall i :: k <= i < |s.lh| ==> s.lh[i] != b
    ensures View(s, b) == s.disk[b]
  {
  }

  lemma CopyOne(s: State, l: Layout, k: nat, s': State)
    requires Inv(s, l) && s.phase == Copying(k) && k < |s.lh|
    requires s' == Written(s, l.start + 1 + k, View(s, s.lh[k]), Copying(k + 1))
    ensures Inv(s', l) && SameHome(Durable(s', l), Durable(s, l), l) && SameHome(Current(s', l), Current(s, l), l)
  {
    hide Pinned, CacheOk, Recovered, View, Recorded, PutHeader, HeaderOf, Distinct, Copied;
    WrittenInLog(s, l, l.start + 1 + k, View(s, s.lh[k]), Copying(k + 1), 0);
    RecordedSame(s, s');
    RecoverClean(s.disk, l);
    RecoverClean(s'.disk, l);
    CopiedNext(s, l, k, s');
  }

  lemma CopiedNext(s: State, l: Layout, k: nat, s': State)
    requires ValidLog(s.disk, l) && ValidEntries(s.disk, l, s.lh) && k < |s.lh| && Copied(s, l, k)
    requires ValidLog(s'.disk, l) && s'.lh == s.lh && |s'.disk| == |s.disk|
    requires s'.disk[l.start + 1 + k] == View(s, s.lh[k])
    requires forall x :: 0 <= x < |s.disk| && x != l.start + 1 + k ==>
              s'.disk[x] == s.disk[x] && View(s', x) == View(s, x)
    ensures Copied(s', l, k + 1)
  {
    hide View;
  }

  lemma CopyStep(s: State, l: Layout)
    requires Inv(s, l) && Can(s, l, CopyNext)
    ensures Inv(Do(s, l, CopyNext), l) && SpecStep(s, Do(s, l, CopyNext), l, CopyNext)
  {
    hide Room, Inv, Written;
    InvValid(s, l);
    CopyOne(s, l, s.phase.k, Do(s, l, CopyNext));
    InvValid(Do(s, l, CopyNext), l);
  }

  // With every logged block copied, the header write makes recovery leave
  // what the operations see.
  lemma HeaderMakesDurable(s: State, l: Layout, d': Disk)
    requires ValidLog(s.disk, l) && ValidEntries(s.disk, l, s.lh) && Distinct(s.lh)
    requires CacheOk(s) && Pinned(s, 0) && Copied(s, l, |s.lh|)
    requires d' == s.disk[l.start := PutHeader(s.disk[l.start], s.lh)]
    ensures ValidLog(d', l) && HeaderOf(d'[l.start]) == s.lh
    ensures forall b :: 0 <= b < |d'| && !l.InLog(b) ==> Recovered(d', l)[b] == View(s, b)
  {
    hide Recovered, View, CacheOk, Pinned, PutHeader;
    HeaderPut(s.disk, l, s.lh);
    RecoveredAt(d', l);
    forall b | 0 <= b < |d'| && !l.InLog(b)
      ensures Recovered(d', l)[b] == View(s, b)
    {
      if b in s.lh {
        var i :| 0 <= i < |s.lh| && s.lh[i] == b;
        assert d'[l.start + 1 + i] == s.disk[l.start + 1 + i] == View(s, b);
      } else {
        CleanView(s, 0, b);
      }
    }
  }

  lemma HeaderPut(d: Disk, l: Layout, bs: seq<Word>)
    requires l.Fits(d) && ValidEntries(d, l, bs)
    ensures var d' := d[l.start := PutHeader(d[l.start], bs)];
            ValidLog(d', l) && HeaderOf(d'[l.start]) == bs
  {
  }

  lemma WriteHeaderStep(s: State, l: Layout)
    requires Inv(s, l) && Can(s, l, WriteHeader)
    ensures Inv(Do(s, l, WriteHeader), l) && SpecStep(s, Do(s, l, WriteHeader), l, WriteHeader)
  {
    hide Room, Pinned, CacheOk, Recovered, View, Recorded, PutHeader, HeaderOf, Distinct;
    var s' := Do(s, l, WriteHeader);
    CleanView(s, 0, l.start);
    WrittenInLog(s, l, l.start, PutHeader(View(s, l.start), s.lh), Installing(0), 0);
    RecordedSame(s, s');
    HeaderMakesDurable(s, l, s'.disk);
  }

  // Another block installed: recovery would still leave the same disk.
  lemma InstallKeepsDurable(s: State, l: Layout, k: nat, d': Disk)
    requires ValidLog(s.disk, l) && Distinct(HeaderOf(s.disk[l.start])) && Header(s, l, s.lh) && k < |s.lh|
    requires d' == s.disk[s.lh[k] := s.disk[l.start + 1 + k]]
    ensures ValidLog(d', l) && HeaderOf(d'[l.start]) == s.lh
    ensures SameHome(Recovered(d', l), Recovered(s.disk, l), l)
  {
    hide Recovered;
    RecoveredAt(s.disk, l);
    RecoveredAt(d', l);
    forall b | 0 <= b < |d'| && !l.InLog(b)
      ensures Recovered(d', l)[b] == Recovered(s.disk, l)[b]
    {
      if b in s.lh {
        var i :| 0 <= i < |s.lh| && s.lh[i] == b;
      }
    }
  }

  lemma InstallOne(s: State, l: Layout, k: nat, s': State)
    requires Inv(s, l) && s.phase == Installing(k) && k < |s.lh|
    requires s' == Written(s, s.lh[k], View(s, l.start + 1 + k), Installing(k + 1))
    ensures Inv(s', l) && SameHome(Durable(s', l), Durable(s, l), l) && SameHome(Current(s', l), Current(s, l), l)
  {
    hide Pinned, CacheOk, Recovered, View, Recorded, PutHeader, HeaderOf, Distinct;
    CleanView(s, k, l.start + 1 + k);
    WrittenHome(s, l, k, View(s, l.start + 1 + k), Installing(k + 1));
    UnpinnedHome(s, l, k, View(s, l.start + 1 + k), Installing(k + 1));
    InstallKeepsDurable(s, l, k, s'.disk);
    RecordedSame(s, s');
  }

  lemma InstallStep(s: State, l: Layout)
    requires Inv(s, l) && Can(s, l, InstallNext)
    ensures Inv(Do(s, l, InstallNext), l) && SpecStep(s, Do(s, l, InstallNext), l, InstallNext)
  {
    hide Room, Inv, Written;
    InvValid(s, l);
    InstallOne(s, l, s.phase.k, Do(s, l, InstallNext));
    InvValid(Do(s, l, InstallNext), l);
  }

  lemma RecoverOne(s: State, l: Layout, k: nat, s': State)
    requires Inv(s, l) && s.phase == Recovering(k) && k < |s.lh|
    requires s' == Written(s, s.lh[k], View(s, l.start + 1 + k), Recovering(k + 1))
    ensures Inv(s', l) && SameHome(Durable(s', l), Durable(s, l), l)
  {
    hide Pinned, CacheOk, Recovered, View, Recorded, PutHeader, HeaderOf;
    CleanView(s, |s.lh|, l.start + 1 + k);
    WrittenHome(s, l, k, View(s, l.start + 1 + k), Recovering(k + 1));
    NonePinnedHome(s, l, k, View(s, l.start + 1 + k), Recovering(k + 1));
    InstallKeepsDurable(s, l, k, s'.disk);
    RecordedSame(s, s');
  }

  lemma RecoverStep(s: State, l: Layout)
    requires Inv(s, l) && Can(s, l, RecoverNext)
    ensures Inv(Do(s, l, RecoverNext), l) && SpecStep(s, Do(s, l, RecoverNext), l, RecoverNext)
  {
    hide Room, Inv, Recovered, View;
    InvValid(s, l);
    RecoverOne(s, l, s.phase.k, Do(s, l, RecoverNext));
    InvValid(Do(s, l, RecoverNext), l);
  }

  // Once every block is home the header can go.
  lemma ErasedKeepsDurable(s: State, l: Layout, d': Disk)
    requires ValidLog(s.disk, l) && Distinct(HeaderOf(s.disk[l.start])) && Header(s, l, s.lh)
    requires Installed(s, l, |s.lh|)
    requires d' == s.disk[l.start := PutHeader(s.disk[l.start], [])]
    ensures ValidLog(d', l) && HeaderOf(d'[l.start]) == []
    ensures SameHome(Recovered(d', l), Recovered(s.disk, l), l) && SameHome(Recovered(d', l), s.disk, l)
  {
    hide Recovered;
    RecoveredAt(s.disk, l);
    RecoveredAt(d', l);
    forall b | 0 <= b < |d'| && !l.InLog(b)
      ensures Recovered(d', l)[b] == Recovered(s.disk, l)[b] == s.disk[b]
    {
      if b in s.lh {
        var i :| 0 <= i < |s.lh| && s.lh[i] == b;
      }
    }
  }

  lemma PinnedNone(s: State, k: nat)
    requires CacheOk(s) && Pinned(s, k) && k >= |s.lh|
    ensures CacheOk(s.(lh := [])) && Pinned(s.(lh := []), 0)
    ensures forall b :: 0 <= b < |s.disk| ==> View(s.(lh := []), b) == View(s, b) == s.disk[b]
  {
  }

  lemma RecordedNone(s: State)
    requires s.lh == [] && s.ops == []
    ensures Recorded(s)
  {
  }

  lemma EraseStep(s: State, l: Layout)
    requires Inv(s, l) && Can(s, l, EraseHeader)
    ensures Inv(Do(s, l, EraseHeader), l) && SpecStep(s, Do(s, l, EraseHeader), l, EraseHeader)
  {
    hide Room, Pinned, CacheOk, Recovered, View, Recorded;
    var s' := Do(s, l, EraseHeader);
    if s.lh == [] {
      PinnedSame(s, s', 0);
      RecordedSame(s, s');
    } else {
      PinnedNone(s, |s.lh|);
      RecordedNone(s');
      WrittenInLog(s.(lh := []), l, l.start, PutHeader(View(s, l.start), []), Erased, 0);
      ErasedKeepsDurable(s, l, s'.disk);
    }
  }

  lemma RecoverEraseStep(s: State, l: Layout)
    requires Inv(s, l) && Can(s, l, RecoverErase)
    ensures Inv(Do(s, l, RecoverErase), l) && SpecStep(s, Do(s, l, RecoverErase), l, RecoverErase)
  {
    hide Room, Pinned, CacheOk, Recovered, View, Recorded;
    var s' := Do(s, l, RecoverErase);
    PinnedNone(s, |s.lh|);
    RecordedNone(s');
    WrittenInLog(s.(lh := []), l, l.start, PutHeader(View(s, l.start), []), Running, 0);
    ErasedKeepsDurable(s, l, s'.disk);
  }

  lemma OtherStep(s: State, l: Layout, st: Step)
    requires Inv(s, l) && Can(s, l, st) && (st.CommitDone? || st.Crash? || st.ReadHeader?)
    ensures Inv(Do(s, l, st), l) && SpecStep(s, Do(s, l, st), l, st)
  {
    hide Room, Recovered, Recorded, Pinned, CacheOk, View;
    var s' := Do(s, l, st);
    if st.ReadHeader? {
      CleanView(s, 0, l.start);
      PinnedLength(s, s');
    } else if st.CommitDone? {
      PinnedSame(s, s', 0);
      RecordedSame(s, s');
    } else {
      EmptyCache(s');
    }
  }

  lemma EmptyCache(s: State)
    requires s.cache == map[] && s.lh == [] && s.ops == []
    ensures CacheOk(s) && Pinned(s, 0) && Recorded(s)
  {
  }

  lemma PinnedLength(s: State, s': State)
    requires CacheOk(s) && s.lh == [] && Pinned(s, 0) && s'.cache == s.cache && s'.disk == s.disk
    requires s'.ops == [] && |s'.lh| <= LOGSIZE
    ensures CacheOk(s') && Pinned(s', |s'.lh|) && Recorded(s')
  {
  }

  // Every step keeps the invariant and is a step of the transaction store.
  lemma StepRefines(s: State, l: Layout, st: Step)
    requires Inv(s, l) && Can(s, l, st)
    ensures Inv(Do(s, l, st), l) && SpecStep(s, Do(s, l, st), l, st)
  {
    hide Inv, SpecStep, Do, Can;
    match st
    case BeginOp => BeginStep(s, l);
    case OpWrite(op, b, data) => OpWriteStep(s, l, op, b, data);
    case EndOp(op) => EndStep(s, l, op);
    case CopyNext => CopyStep(s, l);
    case WriteHeader => WriteHeaderStep(s, l);
    case InstallNext => InstallStep(s, l);
    case EraseHeader => EraseStep(s, l);
    case RecoverNext => RecoverStep(s, l);
    case RecoverErase => RecoverEraseStep(s, l);
    case CommitDone => OtherStep(s, l, st);
    case Crash => OtherStep(s, l, st);
    case ReadHeader => OtherStep(s, l, st);
    case _ => CacheStep(s, l, st);
  }
}
