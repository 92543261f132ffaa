// The physical redo log of log.c, as block writes on a disk.
//
// The disk is a sequence of blocks that changes one whole block at a time
// (iderw).  The on-disk header sits in block `start`; the copy of the i-th
// logged block sits in block start + 1 + i.
module RedoLog {
  import opened Common
  import opened Blocks

  // log.start and log.size, from the superblock.
  datatype Layout = Layout(start: nat, size: nat) {
    predicate InLog(b: nat) { start <= b < start + size }

    ghost predicate Fits(d: Disk) {
      1 <= size && start + size <= |d| <= 0x1_0000_0000
    }
  }

  // Blocks outside the log area: what the file system above the log sees.
  ghost predicate SameHome(d: Disk, e: Disk, l: Layout) {
    |d| == |e| && forall b :: 0 <= b < |d| && !l.InLog(b) ==> d[b] == e[b]
  }

  ghost predicate SameLogArea(d: Disk, e: Disk, l: Layout) {
    |d| == |e| && forall b :: 0 <= b < |d| && l.InLog(b) ==> d[b] == e[b]
  }

  // struct logheader inside a block: word 0 is n, word i + 1 is block[i].
  function HeaderOf(h: Block): (bs: seq<nat>)
    requires GetWord(h, 0) <= LOGSIZE
  {
    seq(GetWord(h, 0), i requires 0 <= i < GetWord(h, 0) => GetWord(h, i + 1))
  }

  // The loop of write_head after k entries.
  function PutEntries(h: Block, bs: seq<Word>, k: nat): (r: Block)
    requires k <= |bs| <= LOGSIZE
    ensures GetWord(r, 0) == GetWord(h, 0)
    ensures forall i :: 0 <= i < k ==> GetWord(r, i + 1) == bs[i]
  {
    if k == 0 then h else PutWord(PutEntries(h, bs, k - 1), k, bs[k - 1])
  }

  // write_head, on the header block that was there before.
  function PutHeader(h: Block, bs: seq<Word>): (r: Block)
    requires |bs| <= LOGSIZE
    ensures GetWord(r, 0) == |bs|
    ensures HeaderOf(r) == bs
  {
    PutEntries(PutWord(h, 0, |bs|), bs, |bs|)
  }

  // Entries name home blocks and have a slot in the log area.
  ghost predicate ValidEntries(d: Disk, l: Layout, bs: seq<nat>) {
    && |bs| <= LOGSIZE
    && |bs| < l.size
    && forall i :: 0 <= i < |bs| ==> bs[i] < |d| && !l.InLog(bs[i])
  }

  // A disk recovery can be started on.
  ghost predicate ValidLog(d: Disk, l: Layout) {
    && l.Fits(d)
    && GetWord(d[l.start], 0) <= LOGSIZE
    && ValidEntries(d, l, HeaderOf(d[l.start]))
  }

  // install_trans after k iterations.
  ghost function Install(d: Disk, l: Layout, bs: seq<nat>, k: nat): (r: Disk)
    requires l.Fits(d) && ValidEntries(d, l, bs) && k <= |bs|
    ensures |r| == |d|
  {
    if k == 0 then d
    else
      var e := Install(d, l, bs, k - 1);
      e[bs[k - 1] := e[l.start + k]]
  }

  // Installing keeps the log area and every block it does not install.
  lemma {:induction false} InstallFrame(d: Disk, l: Layout, bs: seq<nat>, k: nat)
    requires l.Fits(d) && ValidEntries(d, l, bs) && k <= |bs|
    ensures SameLogArea(d, Install(d, l, bs, k), l)
    ensures forall b :: 0 <= b < |d| && b !in bs[..k] ==> Install(d, l, bs, k)[b] == d[b]
  {
    if k > 0 {
      InstallFrame(d, l, bs, k - 1);
      assert bs[..k] == bs[..k - 1] + [bs[k - 1]];
    }
  }

  // The disk after k of the block writes of recover_from_log.
  ghost function RecoveryState(d: Disk, l: Layout, k: nat): (r: Disk)
    requires ValidLog(d, l) && k <= |HeaderOf(d[l.start])| + 1
    ensures |r| == |d|
  {
    var bs := HeaderOf(d[l.start]);
    if k <= |bs| then Install(d, l, bs, k) else
      var e := Install(d, l, bs, |bs|);
      e[l.start := PutHeader(e[l.start], [])]
  }

  // The disk a completed recovery leaves.
  ghost function Recovered(d: Disk, l: Layout): (r: Disk)
    requires ValidLog(d, l)
    ensures |r| == |d|
  {
    RecoveryState(d, l, |HeaderOf(d[l.start])| + 1)
  }

  // write_log after k iterations: the cached contents cs go to the log area.
  ghost function WriteLog(d: Disk, l: Layout, cs: seq<Block>, k: nat): (r: Disk)
    requires l.Fits(d) && |cs| < l.size && k <= |cs|
    ensures |r| == |d|
  {
    if k == 0 then d
    else
      WriteLog(d, l, cs, k - 1)[l.start + k := cs[k - 1]]
  }

  // Writing the log keeps the home blocks and the header.
  lemma {:induction false} WriteLogFrame(d: Disk, l: Layout, cs: seq<Block>, k: nat)
    requires l.Fits(d) && |cs| < l.size && k <= |cs|
    ensures SameHome(d, WriteLog(d, l, cs, k), l) && WriteLog(d, l, cs, k)[l.start] == d[l.start]
    ensures forall b :: l.start < b <= l.start + k ==> WriteLog(d, l, cs, k)[b] == cs[b - l.start - 1]
  {
    if k > 0 {
      WriteLogFrame(d, l, cs, k - 1);
    }
  }

  // The disk after k of the 2n + 2 block writes of commit().
  ghost function CommitState(d: Disk, l: Layout, bs: seq<Word>, cs: seq<Block>, k: nat): (r: Disk)
    requires l.Fits(d) && ValidEntries(d, l, bs) && |cs| == |bs| && k <= 2 * |bs| + 2
    ensures |r| == |d|
  {
    var n := |bs|;
    if k <= n then WriteLog(d, l, cs, k)
    else
      var w := WriteLog(d, l, cs, n);
      var h := w[l.start := PutHeader(w[l.start], bs)];
      if k <= 2 * n + 1 then Install(h, l, bs, k - n - 1)
      else
        var e := Install(h, l, bs, n);
        e[l.start := PutHeader(e[l.start], [])]
  }

  // The history t of disks, continued by k iterations of write_log ...
  ghost function WriteTrace(t: seq<Disk>, d: Disk, l: Layout, cs: seq<Block>, k: nat): seq<Disk>
    requires l.Fits(d) && |cs| < l.size && k <= |cs|
  {
    if k == 0 then t else WriteTrace(t, d, l, cs, k - 1) + [WriteLog(d, l, cs, k)]
  }

  // ... by k iterations of install_trans ...
  ghost function InstallTrace(t: seq<Disk>, d: Disk, l: Layout, bs: seq<nat>, k: nat): seq<Disk>
    requires l.Fits(d) && ValidEntries(d, l, bs) && k <= |bs|
  {
    if k == 0 then t else InstallTrace(t, d, l, bs, k - 1) + [Install(d, l, bs, k)]
  }

  // ... by recover_from_log ...
  ghost function RecoveryTrace(t: seq<Disk>, d: Disk, l: Layout): seq<Disk>
    requires ValidLog(d, l)
  {
    var bs := HeaderOf(d[l.start]);
    InstallTrace(t, d, l, bs, |bs|) + [Recovered(d, l)]
  }

  // ... and by commit().
  ghost function CommitTrace(t: seq<Disk>, d: Disk, l: Layout, bs: seq<Word>, cs: seq<Block>): seq<Disk>
    requires l.Fits(d) && ValidEntries(d, l, bs) && |cs| == |bs|
  {
    var n := |bs|;
    var h := CommitState(d, l, bs, cs, n + 1);
    InstallTrace(WriteTrace(t, d, l, cs, n) + [h], h, l, bs, n) + [CommitState(d, l, bs, cs, 2 * n + 2)]
  }

  lemma {:induction false} WriteTraceStates(t: seq<Disk>, d: Disk, l: Layout, cs: seq<Block>, k: nat)
    requires l.Fits(d) && |cs| < l.size && k <= |cs|
    ensures var r := WriteTrace(t, d, l, cs, k);
            |r| == |t| + k && r[..|t|] == t && forall j :: |t| <= j < |r| ==> r[j] == WriteLog(d, l, cs, j - |t| + 1)
  {
    if k > 0 {
      WriteTraceStates(t, d, l, cs, k - 1);
    }
  }

  lemma {:induction false} InstallTraceStates(t: seq<Disk>, d: Disk, l: Layout, bs: seq<nat>, k: nat)
    requires l.Fits(d) && ValidEntries(d, l, bs) && k <= |bs|
    ensures var r := InstallTrace(t, d, l, bs, k);
            |r| == |t| + k && r[..|t|] == t && forall j :: |t| <= j < |r| ==> r[j] == Install(d, l, bs, j - |t| + 1)
  {
    if k > 0 {
      InstallTraceStates(t, d, l, bs, k - 1);
    }
  }

  // The traces add exactly the states after each single write.
  lemma RecoveryTraceStates(t: seq<Disk>, d: Disk, l: Layout)
    requires ValidLog(d, l)
    ensures var r, n := RecoveryTrace(t, d, l), |HeaderOf(d[l.start])|;
            && |r| == |t| + n + 1 && r[..|t|] == t
            && forall j :: |t| <= j < |r| ==> r[j] == RecoveryState(d, l, j - |t| + 1)
  {
    var bs := HeaderOf(d[l.start]);
    InstallTraceStates(t, d, l, bs, |bs|);
  }

  lemma CommitTraceStates(t: seq<Disk>, d: Disk, l: Layout, bs: seq<Word>, cs: seq<Block>)
    requires l.Fits(d) && ValidEntries(d, l, bs) && |cs| == |bs|
    ensures var r, n := CommitTrace(t, d, l, bs, cs), |bs|;
            && |r| == |t| + 2 * n + 2 && r[..|t|] == t
            && forall j :: |t| <= j < |r| ==> r[j] == CommitState(d, l, bs, cs, j - |t| + 1)
  {
    var n, r := |bs|, CommitTrace(t, d, l, bs, cs);
    var h := CommitState(d, l, bs, cs, n + 1);
    var w := WriteTrace(t, d, l, cs, n) + [h];
    WriteTraceStates(t, d, l, cs, n);
    InstallTraceStates(w, h, l, bs, n);
    forall j | |t| <= j < |r|
      ensures r[j] == CommitState(d, l, bs, cs, j - |t| + 1)
    {
      if j < |w| {
        assert r[j] == w[j];
      } else if j < |r| - 1 {
        assert r[j] == Install(h, l, bs, j - |w| + 1);
      }
    }
    assert r[..|t|] == w[..|t|];
  }

  // The disk with each block bs[i] replaced by cs[i].
  ghost function Apply(d: Disk, bs: seq<nat>, cs: seq<Block>): (r: Disk)
    requires |bs| == |cs| && forall i :: 0 <= i < |bs| ==> bs[i] < |d|
    ensures |r| == |d|
  {
    if bs == [] then d
    else Apply(d, bs[..|bs| - 1], cs[..|cs| - 1])[bs[|bs| - 1] := cs[|cs| - 1]]
  }

  // What Apply means when no block is listed twice.
  lemma {:induction false} ApplyAt(d: Disk, bs: seq<nat>, cs: seq<Block>)
    requires |bs| == |cs| && forall i :: 0 <= i < |bs| ==> bs[i] < |d|
    requires forall i, j :: 0 <= i < j < |bs| ==> bs[i] != bs[j]
    ensures forall i :: 0 <= i < |bs| ==> Apply(d, bs, cs)[bs[i]] == cs[i]
    ensures forall b :: 0 <= b < |d| && b !in bs ==> Apply(d, bs, cs)[b] == d[b]
  {
    if bs != [] {
      var bs', cs', b := bs[..|bs| - 1], cs[..|cs| - 1], bs[|bs| - 1];
      ApplyAt(d, bs', cs');
      assert bs == bs' + [b];
      assert forall i :: 0 <= i < |bs'| ==> bs'[i] == bs[i] && cs'[i] == cs[i];
    }
  }

  // Installing depends on the log area only, for the blocks it installs.
  lemma {:induction false} InstallFromLog(d: Disk, e: Disk, l: Layout, bs: seq<nat>, k: nat)
    requires l.Fits(d) && ValidEntries(d, l, bs) && k <= |bs| && SameLogArea(d, e, l)
    ensures forall b :: b in bs[..k] ==> Install(d, l, bs, k)[b] == Install(e, l, bs, k)[b]
  {
    if k > 0 {
      InstallFromLog(d, e, l, bs, k - 1);
      InstallFrame(d, l, bs, k - 1);
      InstallFrame(e, l, bs, k - 1);
      assert bs[..k] == bs[..k - 1] + [bs[k - 1]];
    }
  }

  // Starting over after k installs reaches the same disk.
  lemma InstallAgain(d: Disk, l: Layout, bs: seq<nat>, k: nat)
    requires l.Fits(d) && ValidEntries(d, l, bs) && k <= |bs|
    ensures Install(Install(d, l, bs, k), l, bs, |bs|) == Install(d, l, bs, |bs|)
  {
    var e := Install(d, l, bs, k);
    InstallFrame(d, l, bs, k);
    InstallFrame(d, l, bs, |bs|);
    InstallFrame(e, l, bs, |bs|);
    InstallFromLog(d, e, l, bs, |bs|);
    assert bs[..|bs|] == bs;
    forall b | 0 <= b < |d|
      ensures Install(e, l, bs, |bs|)[b] == Install(d, l, bs, |bs|)[b]
    {
      if b !in bs {
        assert b !in bs[..k];
      }
    }
  }

  // Installing a log that holds cs is applying cs.
  lemma {:induction false} InstallIsApply(d: Disk, l: Layout, bs: seq<nat>, cs: seq<Block>, k: nat)
    requires l.Fits(d) && ValidEntries(d, l, bs) && |cs| == |bs| && k <= |bs|
    requires forall i :: 0 <= i < |bs| ==> d[l.start + 1 + i] == cs[i]
    ensures Install(d, l, bs, k) == Apply(d, bs[..k], cs[..k])
  {
    if k > 0 {
      InstallIsApply(d, l, bs, cs, k - 1);
      InstallFrame(d, l, bs, k - 1);
      assert bs[..k][..k - 1] == bs[..k - 1] && cs[..k][..k - 1] == cs[..k - 1];
    }
  }

  lemma {:induction false} ApplyHome(d: Disk, e: Disk, l: Layout, bs: seq<nat>, cs: seq<Block>)
    requires SameHome(d, e, l)
    requires |bs| == |cs| && forall i :: 0 <= i < |bs| ==> bs[i] < |d|
    ensures SameHome(Apply(d, bs, cs), Apply(e, bs, cs), l)
  {
    if bs != [] {
      ApplyHome(d, e, l, bs[..|bs| - 1], cs[..|cs| - 1]);
    }
  }

  // A completed recovery leaves an empty, valid log.
  lemma RecoveredIsClean(d: Disk, l: Layout)
    requires ValidLog(d, l)
    ensures ValidLog(Recovered(d, l), l)
    ensures HeaderOf(Recovered(d, l)[l.start]) == []
  {
    InstallFrame(d, l, HeaderOf(d[l.start]), |HeaderOf(d[l.start])|);
  }

  // With an empty header recovery changes no home block.
  lemma RecoverClean(d: Disk, l: Layout)
    requires ValidLog(d, l) && HeaderOf(d[l.start]) == []
    ensures SameHome(d, Recovered(d, l), l)
  {
  }

  // A crash after any k writes of recovery, then a full recovery, is one
  // full recovery as far as the home blocks go.
  lemma RecoveryCrash(d: Disk, l: Layout, k: nat)
    requires ValidLog(d, l) && k <= |HeaderOf(d[l.start])| + 1
    ensures ValidLog(RecoveryState(d, l, k), l)
    ensures SameHome(Recovered(RecoveryState(d, l, k), l), Recovered(d, l), l)
  {
    var bs := HeaderOf(d[l.start]);
    if k <= |bs| {
      InstallFrame(d, l, bs, k);
      InstallAgain(d, l, bs, k);
    } else {
      RecoveredIsClean(d, l);
      RecoverClean(Recovered(d, l), l);
    }
  }

  // Crashes inside recovery: the i-th attempt stops after ks[i] writes, or
  // completes if it has no more than that to make.
  ghost function CrashingRecoveries(d: Disk, l: Layout, ks: seq<nat>): (r: Disk)
    requires ValidLog(d, l)
    ensures ValidLog(r, l)
    decreases |ks|
  {
    if ks == [] then d
    else
      var n := |HeaderOf(d[l.start])| + 1;
      var k := if ks[0] < n then ks[0] else n;
      RecoveryCrash(d, l, k);
      CrashingRecoveries(RecoveryState(d, l, k), l, ks[1..])
  }

  lemma {:induction false} CrashingRecoveriesConverge(d: Disk, l: Layout, ks: seq<nat>)
    requires ValidLog(d, l)
    ensures SameHome(Recovered(CrashingRecoveries(d, l, ks), l), Recovered(d, l), l)
    decreases |ks|
  {
    if ks != [] {
      var n := |HeaderOf(d[l.start])| + 1;
      var k := if ks[0] < n then ks[0] else n;
      RecoveryCrash(d, l, k);
      CrashingRecoveriesConverge(RecoveryState(d, l, k), l, ks[1..]);
    }
  }

  // The disk a transaction is committed on: no transaction left in the log.
  ghost predicate Committable(d: Disk, l: Layout, bs: seq<Word>, cs: seq<Block>) {
    && ValidLog(d, l) && HeaderOf(d[l.start]) == []
    && ValidEntries(d, l, bs) && |cs| == |bs|
  }

  // Before the header write a crash leaves the old contents to recovery ...
  lemma CommitCrashBefore(d: Disk, l: Layout, bs: seq<Word>, cs: seq<Block>, k: nat)
    requires Committable(d, l, bs, cs) && k <= |bs|
    ensures ValidLog(CommitState(d, l, bs, cs, k), l)
    ensures SameHome(Recovered(CommitState(d, l, bs, cs, k), l), d, l)
  {
    WriteLogFrame(d, l, cs, k);
    RecoverClean(CommitState(d, l, bs, cs, k), l);
  }

  // The disk right after the header write: old home blocks, the list bs in
  // the header and the contents cs in the log area.
  lemma AfterHeaderWrite(d: Disk, l: Layout, bs: seq<Word>, cs: seq<Block>)
    requires Committable(d, l, bs, cs)
    ensures var h := CommitState(d, l, bs, cs, |bs| + 1);
            && ValidLog(h, l) && HeaderOf(h[l.start]) == bs && SameHome(h, d, l)
            && forall i :: 0 <= i < |bs| ==> h[l.start + 1 + i] == cs[i]
  {
    var h := CommitState(d, l, bs, cs, |bs| + 1);
    var w := WriteLog(d, l, cs, |bs|);
    WriteLogFrame(d, l, cs, |bs|);
    assert h == w[l.start := PutHeader(w[l.start], bs)] == Install(h, l, bs, 0);
  }

  // It recovers to the new contents.
  lemma CommitPoint(d: Disk, l: Layout, bs: seq<Word>, cs: seq<Block>)
    requires Committable(d, l, bs, cs)
    ensures ValidLog(CommitState(d, l, bs, cs, |bs| + 1), l)
    ensures SameHome(Recovered(CommitState(d, l, bs, cs, |bs| + 1), l), Apply(d, bs, cs), l)
  {
    AfterHeaderWrite(d, l, bs, cs);
    var h := CommitState(d, l, bs, cs, |bs| + 1);
    RecoveredIsApply(h, l, bs, cs);
    ApplyHome(h, d, l, bs, cs);
  }

  lemma RecoveredIsApply(h: Disk, l: Layout, bs: seq<nat>, cs: seq<Block>)
    requires ValidLog(h, l) && HeaderOf(h[l.start]) == bs && |cs| == |bs|
    requires forall i :: 0 <= i < |bs| ==> h[l.start + 1 + i] == cs[i]
    ensures SameHome(Recovered(h, l), Apply(h, bs, cs), l)
  {
    assert bs[..|bs|] == bs && cs[..|bs|] == cs;
    InstallIsApply(h, l, bs, cs, |bs|);
  }

  // After the header write, commit makes the writes recovery would make.
  lemma CommitTailIsRecovery(d: Disk, l: Layout, bs: seq<Word>, cs: seq<Block>, k: nat)
    requires Committable(d, l, bs, cs) && k <= |bs| + 1
    ensures var h := CommitState(d, l, bs, cs, |bs| + 1);
            && ValidLog(h, l) && |HeaderOf(h[l.start])| == |bs|
            && CommitState(d, l, bs, cs, |bs| + 1 + k) == RecoveryState(h, l, k)
  {
    AfterHeaderWrite(d, l, bs, cs);
  }

  // ... and from the header write on it leaves the new contents.
  lemma CommitCrashAfter(d: Disk, l: Layout, bs: seq<Word>, cs: seq<Block>, k: nat)
    requires Committable(d, l, bs, cs) && k <= |bs| + 1
    ensures ValidLog(CommitState(d, l, bs, cs, |bs| + 1 + k), l)
    ensures SameHome(Recovered(CommitState(d, l, bs, cs, |bs| + 1 + k), l), Apply(d, bs, cs), l)
  {
    CommitTailIsRecovery(d, l, bs, cs, k);
    CommitPoint(d, l, bs, cs);
    RecoveryCrash(CommitState(d, l, bs, cs, |bs| + 1), l, k);
  }

  // One crash during commit, then one full recovery.
  lemma CommitCrash(d: Disk, l: Layout, bs: seq<Word>, cs: seq<Block>, k: nat)
    requires Committable(d, l, bs, cs) && k <= 2 * |bs| + 2
    ensures ValidLog(CommitState(d, l, bs, cs, k), l)
    ensures SameHome(Recovered(CommitState(d, l, bs, cs, k), l), if k <= |bs| then d else Apply(d, bs, cs), l)
  {
    if k <= |bs| {
      CommitCrashBefore(d, l, bs, cs, k);
    } else {
      CommitCrashAfter(d, l, bs, cs, k - |bs| - 1);
    }
  }

  // Crash atomicity.  Crash after k of commit's writes, crash inside recovery
  // any number of times, then let one recovery finish: the home blocks are
  // the old ones or the new ones, new exactly when the header write was made,
  // and the on-disk log is empty.
  lemma CrashAtomicity(d: Disk, l: Layout, bs: seq<Word>, cs: seq<Block>, k: nat, ks: seq<nat>)
    requires Committable(d, l, bs, cs) && k <= 2 * |bs| + 2
    ensures ValidLog(CommitState(d, l, bs, cs, k), l)
    ensures var r := Recovered(CrashingRecoveries(CommitState(d, l, bs, cs, k), l, ks), l);
            && ValidLog(r, l) && HeaderOf(r[l.start]) == []
            && SameHome(r, if k <= |bs| then d else Apply(d, bs, cs), l)
  {
    CommitCrash(d, l, bs, cs, k);
    RecoverAfterCrashes(CommitState(d, l, bs, cs, k), l, ks);
  }

  lemma RecoverAfterCrashes(c: Disk, l: Layout, ks: seq<nat>)
    requires ValidLog(c, l)
    ensures var r := Recovered(CrashingRecoveries(c, l, ks), l);
            ValidLog(r, l) && HeaderOf(r[l.start]) == [] && SameHome(r, Recovered(c, l), l)
  {
    CrashingRecoveriesConverge(c, l, ks);
    RecoveredIsClean(CrashingRecoveries(c, l, ks), l);
  }
}
