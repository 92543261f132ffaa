// Whole runs of the log protocol.
module LogRuns {
  import opened Common
  import opened Blocks
  import opened RedoLog
  import opened LogProtocol

  ghost predicate Next(s: State, l: Layout, st: Step, s': State) {
    && l.Fits(s.disk) && ValidLog(s.disk, l) && |s.lh| <= LOGSIZE && Can(s, l, st)
    && s' == Do(s, l, st)
  }

  // ss[0] -sts[0]-> ss[1] -sts[1]-> ...
  ghost predicate IsRun(ss: seq<State>, sts: seq<Step>, l: Layout) {
    && |ss| == |sts| + 1
    && forall i :: 0 <= i < |sts| ==> Next(ss[i], l, sts[i], ss[i + 1])
  }

  // The machine being switched on: a disk whose log lists no block twice.
  ghost predicate Boot(s: State, l: Layout) {
    && ValidLog(s.disk, l) && Distinct(HeaderOf(s.disk[l.start]))
    && s == State(s.disk, map[], [], [], Booting)
  }

  lemma BootInv(s: State, l: Layout)
    requires Boot(s, l)
    ensures Inv(s, l)
  {
  }

  // Every reachable state satisfies the invariant.
  lemma {:induction false} RunInv(ss: seq<State>, sts: seq<Step>, l: Layout, n: nat)
    requires IsRun(ss, sts, l) && Inv(ss[0], l) && n <= |sts|
    ensures forall i :: 0 <= i <= n ==> Inv(ss[i], l)
  {
    hide Inv, Next;
    if n > 0 {
      RunInv(ss, sts, l, n - 1);
      NextRefines(ss[n - 1], l, sts[n - 1], ss[n]);
    }
  }

  lemma NextRefines(s: State, l: Layout, st: Step, s': State)
    requires Next(s, l, st, s') && Inv(s, l)
    ensures Inv(s', l)
    ensures st.OpWrite? ==> st.b < |s.disk|
    ensures SpecStep(s, s', l, st)
  {
    hide Inv, SpecStep, Do;
    assert ValidLog(s.disk, l);
    StepRefines(s, l, st);
    InvValid(s', l);
  }

  // With no operation outstanding and no commit under way nothing is logged: the
  // last end_op started a commit, and no other operation gets in before it is over.
  predicate Settled(s: State) { s.phase.Running? && s.ops == [] ==> s.lh == [] }

  lemma SettledStep(s: State, l: Layout, st: Step, s': State)
    requires Next(s, l, st, s') && Inv(s, l) && Settled(s)
    ensures Settled(s')
  {
    hide Room, View, PutHeader, HeaderOf, ValidLog, TooBig, Pinned, CacheOk, Recorded, Copied, Installed, Distinct;
  }

  lemma {:induction false} RunSettled(ss: seq<State>, sts: seq<Step>, l: Layout, n: nat)
    requires IsRun(ss, sts, l) && Inv(ss[0], l) && Settled(ss[0]) && n <= |sts|
    ensures Inv(ss[n], l) && Settled(ss[n])
  {
    hide Inv, Next, Settled;
    RunInv(ss, sts, l, n);
    if n > 0 {
      RunSettled(ss, sts, l, n - 1);
      RunInv(ss, sts, l, n - 1);
      assert Next(ss[n - 1], l, sts[n - 1], ss[n]);
      SettledStep(ss[n - 1], l, sts[n - 1], ss[n]);
    }
  }

  // In every run from boot, whenever no operation is outstanding and no commit is
  // under way, what the operations see is durable: no finished operation is lost.
  lemma QuietIsDurable(ss: seq<State>, sts: seq<Step>, l: Layout, n: nat)
    requires IsRun(ss, sts, l) && Boot(ss[0], l) && n <= |sts| && ss[n].phase.Running? && ss[n].ops == []
    ensures ValidLog(ss[n].disk, l) && SameHome(Current(ss[n], l), Durable(ss[n], l), l)
  {
    hide Inv, Next, Current, Durable;
    BootInv(ss[0], l);
    RunSettled(ss, sts, l, n);
    NothingLogged(ss[n], l);
  }

  lemma NothingLogged(s: State, l: Layout)
    requires Inv(s, l) && s.phase.Running? && s.lh == []
    ensures ValidLog(s.disk, l) && SameHome(Current(s, l), Durable(s, l), l)
  {
    hide Recovered, Recorded, Distinct;
    RecoverClean(s.disk, l);
  }

  // The contents the operations saw when the last of the first n steps that
  // is a header write was made; the disk as recovered at boot if there is none.
  ghost function LastCommit(ss: seq<State>, sts: seq<Step>, l: Layout, n: nat): (d: Disk)
    requires n <= |sts| < |ss| && forall i :: 0 <= i < |ss| ==> ValidLog(ss[i].disk, l)
  {
    if n == 0 then Durable(ss[0], l)
    else if sts[n - 1].WriteHeader? then Current(ss[n - 1], l)
    else LastCommit(ss, sts, l, n - 1)
  }

  lemma RunValid(ss: seq<State>, sts: seq<Step>, l: Layout)
    requires IsRun(ss, sts, l) && Inv(ss[0], l)
    ensures forall i :: 0 <= i < |ss| ==> ValidLog(ss[i].disk, l)
  {
    RunInv(ss, sts, l, |sts|);
    forall i | 0 <= i < |ss|
      ensures ValidLog(ss[i].disk, l)
    {
      InvValid(ss[i], l);
    }
  }

  // In every run, at every moment, a crash followed by a full recovery leaves
  // the contents of the last commit: all of that transaction, nothing later.
  lemma {:induction false} DurableIsLastCommit(ss: seq<State>, sts: seq<Step>, l: Layout, n: nat)
    requires IsRun(ss, sts, l) && Inv(ss[0], l) && n <= |sts|
    ensures forall i :: 0 <= i < |ss| ==> ValidLog(ss[i].disk, l)
    ensures SameHome(Durable(ss[n], l), LastCommit(ss, sts, l, n), l)
  {
    hide Inv, Next, Durable, Current;
    RunValid(ss, sts, l);
    if n > 0 {
      DurableIsLastCommit(ss, sts, l, n - 1);
      RunInv(ss, sts, l, n);
      NextRefines(ss[n - 1], l, sts[n - 1], ss[n]);
    }
  }

  // While the machine recovers, and when recovery ends, Current is Durable.
  lemma RecoverySees(s: State, l: Layout, s': State)
    requires Inv(s, l) && Next(s, l, RecoverErase, s')
    ensures ValidLog(s.disk, l) && ValidLog(s'.disk, l) && s'.phase.Running?
    ensures SameHome(Current(s', l), Durable(s', l), l)
  {
    hide Inv, SpecStep;
    NextRefines(s, l, RecoverErase, s');
    InvValid(s', l);
    assert SpecStep(s, s', l, RecoverErase) ==> SameHome(Current(s', l), Durable(s', l), l) by {
      RecoverySpec(s, l, s');
    }
  }

  lemma RecoverySpec(s: State, l: Layout, s': State)
    requires ValidLog(s.disk, l) && ValidLog(s'.disk, l) && s.phase.Recovering?
    ensures SpecStep(s, s', l, RecoverErase) ==> SameHome(Current(s', l), Durable(s', l), l)
  {
  }

  // After any crashes, operations that start once recovery is over see
  // exactly the contents of the last commit.
  lemma RecoveryRestoresLastCommit(ss: seq<State>, sts: seq<Step>, l: Layout, n: nat)
    requires IsRun(ss, sts, l) && Inv(ss[0], l) && 0 < n <= |sts| && sts[n - 1].RecoverErase?
    ensures forall i :: 0 <= i < |ss| ==> ValidLog(ss[i].disk, l)
    ensures SameHome(Current(ss[n], l), LastCommit(ss, sts, l, n), l)
  {
    hide Inv, Next, Durable, Current;
    DurableIsLastCommit(ss, sts, l, n);
    RunInv(ss, sts, l, n);
    RecoverySees(ss[n - 1], l, ss[n]);
  }

  // A commit is made with no operation outstanding, so it never contains
  // part of one.
  lemma CommitIsQuiescent(s: State, l: Layout, s': State)
    requires Inv(s, l) && Next(s, l, WriteHeader, s')
    ensures s.ops == [] && forall st: Step :: st.OpWrite? || st.EndOp? || st.BeginOp? ==> !Can(s, l, st)
  {
    hide Inv, Do, Room, TooBig;
    assert s.phase.Copying?;
    NoOps(s, l);
  }

  lemma NoOps(s: State, l: Layout)
    requires Inv(s, l) && !s.phase.Running?
    ensures s.ops == []
  {
    hide Pinned, CacheOk, Recorded, Copied, Installed, Distinct, View;
  }

  // No home block changes on disk before its transaction is committed: only
  // install_trans writes home blocks, and the header then lists the block.
  lemma HomeWritesAreInstalls(s: State, l: Layout, st: Step, s': State, b: nat)
    requires Inv(s, l) && Next(s, l, st, s') && b < |s.disk| && !l.InLog(b) && s'.disk[b] != s.disk[b]
    ensures (st.InstallNext? || st.RecoverNext?) && b in HeaderOf(s.disk[l.start])
  {
  }

  // Block b is logged and not yet installed.
  ghost predicate Awaits(s: State, b: nat) {
    exists i :: 0 <= i < |s.lh| && s.lh[i] == b && !Passed(s.phase, i)
  }

  // install_trans is past entry i, or there is no commit under way to install.
  predicate Passed(p: Phase, i: nat) {
    !p.Running? && !p.Copying? && (p.Installing? ==> i < p.k)
  }

  // Such a block is cached, dirty and not recyclable, with the contents the
  // operations see ...
  lemma LoggedIsPinned(s: State, l: Layout, b: nat)
    requires Inv(s, l) && Awaits(s, b)
    ensures b in s.cache && s.cache[b].dirty && !Can(s, l, Evict(b)) && !Can(s, l, Fill(b))
    ensures b < |s.disk| && ValidLog(s.disk, l) && s.cache[b].data == Current(s, l)[b]
  {
    hide Room, Recorded, Distinct, HeaderOf, Copied, Installed;
    var i :| 0 <= i < |s.lh| && s.lh[i] == b && !Passed(s.phase, i);
  }

  // ... and these are what write_log copies and what install_trans writes home.
  lemma LatestIsWritten(s: State, l: Layout, b: nat)
    requires Inv(s, l) && Awaits(s, b) && b in s.cache && ValidLog(s.disk, l) && |s.lh| <= LOGSIZE
    ensures Can(s, l, CopyNext) && s.lh[s.phase.k] == b ==>
              Do(s, l, CopyNext).disk[l.start + 1 + s.phase.k] == s.cache[b].data
    ensures Can(s, l, InstallNext) && s.lh[s.phase.k] == b ==> Do(s, l, InstallNext).disk[b] == s.cache[b].data
  {
    hide Room, Recorded, Distinct, HeaderOf, Installed, Pinned, CacheOk;
    if s.phase.Installing? && s.phase.k < |s.lh| {
      CleanView(s, s.phase.k, l.start + 1 + s.phase.k);
    }
  }

  // Only a crash and its own installation end the wait of a logged block.
  lemma AwaitsStep(s: State, l: Layout, st: Step, s': State, b: nat)
    requires Inv(s, l) && Next(s, l, st, s') && Awaits(s, b)
    requires !st.Crash? && !(st.InstallNext? && s.lh[s.phase.k] == b)
    ensures Awaits(s', b)
  {
    hide Inv, Room, View, PutHeader, HeaderOf;
    var i :| 0 <= i < |s.lh| && s.lh[i] == b && !Passed(s.phase, i);
    assert i < |s'.lh| && s'.lh[i] == b;
  }

  // From log_write on, until a crash or until install_trans has written it
  // home, a block is pinned in every state of every run.
  lemma {:induction false} PinnedUntilInstalled(ss: seq<State>, sts: seq<Step>, l: Layout, i: nat, j: nat)
    requires IsRun(ss, sts, l) && Inv(ss[0], l) && i < j <= |sts| && sts[i].OpWrite?
    requires forall k :: i < k < j ==> !sts[k].Crash?
    requires forall k :: i < k < j && sts[k].InstallNext? ==>
               ss[k].phase.Installing? && ss[k].phase.k < |ss[k].lh| && ss[k].lh[ss[k].phase.k] != sts[i].b
    ensures Inv(ss[j], l) && Awaits(ss[j], sts[i].b)
    ensures var b := sts[i].b;
            b in ss[j].cache && ss[j].cache[b].dirty && !Can(ss[j], l, Evict(b)) && !Can(ss[j], l, Fill(b))
  {
    hide Inv, Next, Awaits, Can;
    RunInv(ss, sts, l, j);
    if j == i + 1 {
      assert Next(ss[i], l, sts[i], ss[j]);
      WriteAwaits(ss[i], l, sts[i], ss[j]);
    } else {
      PinnedUntilInstalled(ss, sts, l, i, j - 1);
      assert Next(ss[j - 1], l, sts[j - 1], ss[j]);
      AwaitsStep(ss[j - 1], l, sts[j - 1], ss[j], sts[i].b);
    }
    LoggedIsPinned(ss[j], l, sts[i].b);
  }

  lemma WriteAwaits(s: State, l: Layout, st: Step, s': State)
    requires Next(s, l, st, s') && st.OpWrite?
    ensures Awaits(s', st.b)
  {
    var i :| 0 <= i < |s'.lh| && s'.lh[i] == st.b;
  }

  // bget counts a user of b in, brelse one out.
  function Users(st: Step, b: nat): int { if st == Get(b) then 1 else if st == Release(b) then -1 else 0 }

  ghost function UsersIn(sts: seq<Step>, b: nat, i: nat, j: nat): int
    requires i <= j <= |sts|
    decreases j
  {
    if i == j then 0 else UsersIn(sts, b, i, j - 1) + Users(sts[j - 1], b)
  }

  lemma StepUsers(s: State, l: Layout, st: Step, s': State, b: nat)
    requires Next(s, l, st, s') && !st.Crash? && b in s.cache && s.cache[b].refcnt > 0
    ensures b in s'.cache && s'.cache[b].refcnt == s.cache[b].refcnt + Users(st, b)
  {
    hide View, PutHeader, HeaderOf, ValidLog, TooBig, Absorb, Room;
  }

  // A buffer keeps its block, and is counted, as long as somebody has it.
  lemma {:induction false} UsedStays(ss: seq<State>, sts: seq<Step>, l: Layout, b: nat, i: nat, j: nat)
    requires IsRun(ss, sts, l) && i <= j <= |sts| && b in ss[i].cache && forall k :: i <= k < j ==> !sts[k].Crash?
    requires forall k :: i <= k < j ==> ss[i].cache[b].refcnt + UsersIn(sts, b, i, k) > 0
    ensures b in ss[j].cache && ss[j].cache[b].refcnt == ss[i].cache[b].refcnt + UsersIn(sts, b, i, j)
  {
    hide Next, Users;
    if i < j {
      UsedStays(ss, sts, l, b, i, j - 1);
      assert Next(ss[j - 1], l, sts[j - 1], ss[j]);
      StepUsers(ss[j - 1], l, sts[j - 1], ss[j], b);
    }
  }

  // The cache never holds more blocks than there are buffers.
  lemma {:induction false} RunBuffers(ss: seq<State>, sts: seq<Step>, l: Layout, n: nat)
    requires IsRun(ss, sts, l) && |ss[0].cache| <= NBUF && n <= |sts|
    ensures |ss[n].cache| <= NBUF
  {
    hide Next;
    if n > 0 {
      RunBuffers(ss, sts, l, n - 1);
      assert Next(ss[n - 1], l, sts[n - 1], ss[n]);
      StepBuffers(ss[n - 1], l, sts[n - 1], ss[n]);
    }
  }

  // The blocks a step reads into the cache.
  ghost function Reads(s: State, l: Layout, st: Step): set<nat>
    requires Can(s, l, st)
  {
    match st
    case Fill(b) => {b}
    case CopyNext => {s.lh[s.phase.k], l.start + 1 + s.phase.k}
    case InstallNext => {s.lh[s.phase.k], l.start + 1 + s.phase.k}
    case RecoverNext => {s.lh[s.phase.k], l.start + 1 + s.phase.k}
    case WriteHeader => {l.start}
    case RecoverErase => {l.start}
    case EraseHeader => if s.lh == [] then {} else {l.start}
    case _ => {}
  }

  lemma StepReads(s: State, l: Layout, st: Step, s': State)
    requires Next(s, l, st, s')
    ensures s'.cache.Keys <= s.cache.Keys + Reads(s, l, st)
    ensures Reads(s, l, st) == {} || Room(s, Reads(s, l, st))
  {
    hide View, PutHeader, HeaderOf, ValidLog, TooBig, Absorb, Room;
  }

  lemma StepBuffers(s: State, l: Layout, st: Step, s': State)
    requires Next(s, l, st, s') && |s.cache| <= NBUF
    ensures |s'.cache| <= NBUF
  {
    hide Reads, Do, ValidLog;
    StepReads(s, l, st, s');
    var keys := s.cache.Keys + Reads(s, l, st);
    assert Reads(s, l, st) == {} ==> keys == s.cache.Keys;
    assert |keys| <= NBUF;
    assert keys == s'.cache.Keys + (keys - s'.cache.Keys);
    assert |s'.cache| == |s'.cache.Keys|;
  }
}
