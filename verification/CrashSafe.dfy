// The file system on top of the log: what a restarted kernel finds after a crash
// in the middle of filewrite or itrunc.
module CrashSafe {
  import opened Common
  import opened Blocks
  import opened RedoLog
  import opened FileTree
  import opened FileContent
  import opened Filling
  import opened LogRoom
  import opened FileSystem
  import opened Mount
  import opened FileWrite
  import opened Truncate
  import LogProtocol
  import LogRuns
  import SleepWakeup
  import Waiters

  // The log as initlog finds it.
  function LogOf(sb: Super): Layout { Layout(LOGSTART, sb.nlog) }

  // The files of s, whatever is in the log area.
  ghost predicate SameFiles(s: Snap, mem: seq<Inode>, disk: Disk) {
    && |mem| == |s.mem| && SizesOk(mem) && SizesOk(s.mem)
    && forall f :: 0 <= f < |mem| ==> mem[f] == s.mem[f] && Content(mem, disk, f) == Content(s.mem, s.disk, f)
  }

  // The blocks of a log area mean nothing to the file system.
  lemma HomeSame(sb: Super, s: Snap, d: Disk)
    requires Consistent(sb, s.disk, s.mem, s.owner) && SameHome(d, s.disk, LogOf(sb))
    ensures |d| == |s.disk| && forall b :: 0 <= b < |d| && (b == 1 || sb.inodestart <= b) ==> d[b] == s.disk[b]
    ensures sb.Ok(d) && Owned(s.mem, d, sb, s.owner)
    ensures forall r :: Shape(r, |s.mem|) ==> Ptr(s.mem, d, r) == Ptr(s.mem, s.disk, r)
  {
    hide Owned, BitmapOk, Flushed, ReadSuper, Ptr;
    assert sb.inodestart <= sb.bmapstart <= sb.DataStart();
    SameOwned(s.mem, s.disk, d, sb, s.owner) by {
      OwnedBounds(s.mem, s.disk, sb, s.owner);
    }
  }

  lemma BitmapSame(sb: Super, d: Disk, d': Disk, owner: map<nat, Role>)
    requires sb.Ok(d) && sb.Ok(d') && BitmapOk(d, sb, owner, {})
    requires forall b :: sb.inodestart <= b < |d| ==> d'[b] == d[b]
    ensures BitmapOk(d', sb, owner, {})
  {
  }

  lemma ConsistentHome(sb: Super, s: Snap, d: Disk)
    requires Consistent(sb, s.disk, s.mem, s.owner) && SameHome(d, s.disk, LogOf(sb))
    ensures Consistent(sb, d, s.mem, s.owner) && SameFiles(s, s.mem, d)
  {
    hide Owned, BitmapOk, ReadSuper, Ptr, GetInode;
    HomeSame(sb, s, d);
    BitmapSame(sb, s.disk, d, s.owner);
    forall i | 0 <= i < |s.mem|
      ensures Flushed(s.mem, d, sb, i)
    {
      assert Flushed(s.mem, s.disk, sb, i);
    }
    forall f | 0 <= f < |s.mem|
      ensures Content(s.mem, d, f) == Content(s.mem, s.disk, f)
    {
      ContentSame(sb, s, d, f);
    }
  }

  lemma ContentSame(sb: Super, s: Snap, d: Disk, f: nat)
    requires f < |s.mem| && s.mem[f].size <= MAXBYTES && |d| == |s.disk| && Owned(s.mem, s.disk, sb, s.owner)
    requires forall r :: Shape(r, |s.mem|) ==> Ptr(s.mem, d, r) == Ptr(s.mem, s.disk, r)
    requires forall b :: sb.DataStart() <= b < |d| ==> d[b] == s.disk[b]
    ensures Content(s.mem, d, f) == Content(s.mem, s.disk, f)
  {
    hide Ptr, Leaf;
    forall x | 0 <= x < s.mem[f].size
      ensures ByteAt(s.mem, d, f, x) == ByteAt(s.mem, s.disk, f, x)
    {
      var r := Leaf(f, x / BSIZE);
      assert Ptr(s.mem, s.disk, r) != 0 ==> Ptr(s.mem, s.disk, r) in s.owner;
    }
  }

  // bs lists the blocks of a set, each once.
  ghost predicate Lists(bs: seq<Word>, blocks: set<nat>) {
    && (forall i, j :: 0 <= i < j < |bs| ==> bs[i] != bs[j])
    && (forall i :: 0 <= i < |bs| ==> bs[i] in blocks)
    && (forall b :: b in blocks ==> exists i :: 0 <= i < |bs| && bs[i] == b)
  }

  lemma {:induction false} ListCount(bs: seq<Word>, blocks: set<nat>)
    requires Lists(bs, blocks)
    ensures |bs| == |blocks|
    decreases |bs|
  {
    if bs == [] {
      assert blocks == {};
    } else {
      var b, rest := bs[|bs| - 1], bs[..|bs| - 1];
      assert bs == rest + [b];
      forall x | x in blocks - {b}
        ensures exists i :: 0 <= i < |rest| && rest[i] == x
      {
        var i :| 0 <= i < |bs| && bs[i] == x;
        assert rest[i] == x;
      }
      ListCount(rest, blocks - {b});
    }
  }

  // The set of logged blocks stands for the list of the header: log_write and
  // begin_op decide the same on both.
  lemma HeaderAgrees(sb: Super, outstanding: nat, bs: seq<Word>, logged: set<nat>, b: Word)
    requires Lists(bs, logged)
    ensures CanLog(sb, outstanding, logged) <==> !LogProtocol.TooBig(bs, LogOf(sb)) && outstanding > 0
    ensures Admits(outstanding, logged) <==>
              Waiters.BeginOp(Waiters.LogData(false, |bs|, outstanding)) != [SleepWakeup.Sleep(Waiters.TheLog)]
    ensures Lists(LogProtocol.Absorb(bs, b), logged + {b})
  {
    ListCount(bs, logged);
    var r := LogProtocol.Absorb(bs, b);
    forall x | x in logged + {b}
      ensures exists i :: 0 <= i < |r| && r[i] == x
    {
      if x in logged {
        var i :| 0 <= i < |bs| && bs[i] == x;
        assert r[i] == x;
      } else {
        assert r[|r| - 1] == x;
      }
    }
  }

  // Their contents.
  ghost function ContentsOf(d: Disk, bs: seq<Word>): (cs: seq<Block>)
    ensures |cs| == |bs|
  {
    seq(|bs|, i requires 0 <= i < |bs| => if bs[i] < |d| then d[bs[i]] else ZeroBlock())
  }

  // The disk after k writes of the commit of blocks bs with contents cs, a crash,
  // recoveries that crash after ks writes, and a full recovery.
  ghost function AfterCrash(d: Disk, l: Layout, bs: seq<Word>, cs: seq<Block>, k: nat, ks: seq<nat>): Disk {
    if Committable(d, l, bs, cs) && k <= 2 * |bs| + 2 then
      CommitCrash(d, l, bs, cs, k);
      Recovered(CrashingRecoveries(CommitState(d, l, bs, cs, k), l, ks), l)
    else d
  }

  // A disk with the home blocks of s and an empty log.
  ghost predicate Shows(sb: Super, d: Disk, s: Snap) {
    ValidLog(d, LogOf(sb)) && HeaderOf(d[LOGSTART]) == [] && SameHome(d, s.disk, LogOf(sb))
  }

  lemma CommitReady(sb: Super, s: Snap, s': Snap, gave: set<nat>, d: Disk, bs: seq<Word>)
    requires Sound(sb, s) && s.logged == {} && Transaction(sb, s, s', gave) && Shows(sb, d, s) && Lists(bs, gave)
    ensures |s'.disk| == |d| && forall i :: 0 <= i < |bs| ==> bs[i] < |s'.disk|
    ensures Committable(d, LogOf(sb), bs, ContentsOf(s'.disk, bs))
  {
    hide Sound, Covered, HeaderOf, Lists, ContentsOf;
    SoundIs(sb, s);
    LogPlace(sb, s);
    ListCount(bs, gave);
    ListsOnly(bs, gave);
    assert {} + gave == gave;
    CoveredSize(s.disk, s'.disk, gave);
    EntriesOk(sb, d, bs, gave);
  }

  lemma EntriesOk(sb: Super, d: Disk, bs: seq<Word>, gave: set<nat>)
    requires LOGSTART + sb.nlog <= sb.inodestart && sb.size == |d| && |bs| == |gave|
    requires forall i :: 0 <= i < |bs| ==> bs[i] in gave
    requires forall b :: b in gave ==> sb.inodestart <= b < sb.size
    requires sb.nlog > 0 && (gave == {} || |gave| <= sb.HeaderLimit())
    ensures ValidEntries(d, LogOf(sb), bs)
  {
  }

  lemma ListsOnly(bs: seq<Word>, blocks: set<nat>)
    requires Lists(bs, blocks)
    ensures forall i :: 0 <= i < |bs| ==> bs[i] in blocks
  {
  }

  lemma CoveredSize(d: Disk, d': Disk, l: set<nat>)
    requires Covered(d, {}, d', l)
    ensures |d'| == |d|
  {
  }

  lemma LogPlace(sb: Super, s: Snap)
    requires Consistent(sb, s.disk, s.mem, s.owner)
    ensures LOGSTART + sb.nlog <= sb.inodestart && sb.size == |s.disk|
  {
  }

  // What installing the logged blocks leaves is the state after.
  lemma Installs(sb: Super, s: Snap, s': Snap, gave: set<nat>, d: Disk, bs: seq<Word>)
    requires s.logged == {} && Covered(s.disk, {}, s'.disk, gave) && SameHome(d, s.disk, LogOf(sb)) && Lists(bs, gave)
    requires forall i :: 0 <= i < |bs| ==> bs[i] < |s'.disk|
    ensures |d| == |s'.disk| && SameHome(Apply(d, bs, ContentsOf(s'.disk, bs)), s'.disk, LogOf(sb))
  {
    var cs := ContentsOf(s'.disk, bs);
    ApplyAt(d, bs, cs);
    var r := Apply(d, bs, cs);
    forall b | 0 <= b < |r| && !LogOf(sb).InLog(b)
      ensures r[b] == s'.disk[b]
    {
      if i :| 0 <= i < |bs| && bs[i] == b {
        assert r[bs[i]] == cs[i];
      }
    }
  }

  // A crash at any disk write of the commit of a transaction, any number of
  // crashes in recovery, and then a full recovery: the file system is the one
  // before or the one after, and one a kernel can be started on.
  lemma TransactionCrash(sb: Super, s: Snap, s': Snap, gave: set<nat>, d: Disk, bs: seq<Word>, k: nat, ks: seq<nat>)
    requires Sound(sb, s) && s.logged == {} && Transaction(sb, s, s', gave) && Shows(sb, d, s) && Lists(bs, gave)
    requires k <= 2 * |bs| + 2
    ensures var t, r := if k <= |bs| then s else s', AfterCrash(d, LogOf(sb), bs, ContentsOf(s'.disk, bs), k, ks);
            Shows(sb, r, t) && Consistent(sb, r, t.mem, t.owner) && SameFiles(t, t.mem, r)
  {
    hide Sound, Transaction, HeaderOf, Lists, Consistent, SameFiles, CommitState, ValidLog, CrashingRecoveries,
      Recovered, ContentsOf, Committable;
    var l, cs := LogOf(sb), ContentsOf(s'.disk, bs);
    CommitReady(sb, s, s', gave, d, bs);
    CrashAtomicity(d, l, bs, cs, k, ks);
    SoundIs(sb, s);
    TransactionIs(sb, s, s', gave);
    SoundIs(sb, s');
    Installs(sb, s, s', gave, d, bs);
    ConsistentHome(sb, if k <= |bs| then s else s', AfterCrash(d, l, bs, cs, k, ks));
  }

  lemma TransactionIs(sb: Super, s: Snap, s': Snap, gave: set<nat>)
    requires Transaction(sb, s, s', gave) && Sound(sb, s) && s.logged == {}
    ensures Sound(sb, s') && Covered(s.disk, {}, s'.disk, gave)
  {
    hide Sound, Covered;
    assert {} + gave == gave;
  }

  // Every state between the transactions of filewrite is sound.
  lemma {:induction false} StepsSound(sb: Super, i: nat, off: nat, src: seq<Byte>, ss: seq<Snap>, gaves: seq<set<nat>>,
                                      j: nat)
    requires Steps(sb, i, off, src, ss, gaves) && Sound(sb, ss[0]) && j <= |gaves|
    ensures Sound(sb, ss[j])
  {
    hide Sound, Covered, LogsExactly, Writing;
    if j > 0 {
      StepsSound(sb, i, off, src, ss, gaves, j - 1);
      assert Transaction(sb, ss[j - 1], ss[j], gaves[j - 1]);
    }
  }

  lemma StepAt(sb: Super, i: nat, off: nat, src: seq<Byte>, ss: seq<Snap>, gaves: seq<set<nat>>, j: nat)
    requires Steps(sb, i, off, src, ss, gaves) && j < |gaves|
    ensures Transaction(sb, ss[j], ss[j + 1], gaves[j])
    ensures Writing(sb, ss[0], ss[j], i, off, src, Upto(|src|, j))
    ensures Writing(sb, ss[0], ss[j + 1], i, off, src, Upto(|src|, j + 1))
  {
    hide Transaction, LogsExactly, Writing;
  }

  // A restart after a crash in transaction j of filewrite: the file has the bytes
  // of a whole number of transactions, and the other files are as before.
  method RestartAfterWrite(disk: Disk, ghost sb: Super, ghost i: nat, ghost off: nat, ghost src: seq<Byte>,
                           ghost ss: seq<Snap>, ghost gaves: seq<set<nat>>, ghost j: nat, ghost d: Disk,
                           ghost bs: seq<Word>, ghost k: nat, ghost ks: seq<nat>)
    returns (fs: FileSys, ghost done: nat)
    requires j < |gaves| == |ss| - 1 && ss[j].logged == {} && Lists(bs, gaves[j]) && k <= 2 * |bs| + 2
    requires disk == AfterCrash(d, LogOf(sb), bs, ContentsOf(ss[j + 1].disk, bs), k, ks)
    requires Shows(sb, d, ss[j]) && Sound(sb, ss[0]) && Steps(sb, i, off, src, ss, gaves)
    ensures fresh(fs) && fs.Valid() && fs.sb == sb && fs.loose == {} && fs.outstanding == 0 && fs.logged == {}
    ensures done == Upto(|src|, if k <= |bs| then j else j + 1)
    ensures i < |fs.mem| == |ss[0].mem| && SizesOk(fs.mem) && SizesOk(ss[0].mem) && off <= ss[0].mem[i].size
    ensures Content(fs.mem, fs.disk, i) == Splice(Content(ss[0].mem, ss[0].disk, i), off, src[..done])
    ensures forall f :: 0 <= f < |fs.mem| && f != i ==>
              Content(fs.mem, fs.disk, f) == Content(ss[0].mem, ss[0].disk, f)
  {
    hide Sound, Transaction, Steps, Shows, Lists, Consistent, AfterCrash, ContentsOf, Content, Splice, Writing,
      FileSys.Valid;
    StepsSound(sb, i, off, src, ss, gaves, j);
    ghost var t := if k <= |bs| then ss[j] else ss[j + 1];
    done := Upto(|src|, if k <= |bs| then j else j + 1);
    StepAt(sb, i, off, src, ss, gaves, j);
    TransactionCrash(sb, ss[j], ss[j + 1], gaves[j], d, bs, k, ks);
    WritingFacts(sb, ss[0], t, i, off, src, done);
    fs := Start(disk, sb, t.mem, t.owner);
  }

  // itrunc is a transaction as well.
  lemma TruncTransaction(sb: Super, i: nat, s0: Snap, s: Snap, gave: set<nat>)
    requires Good(sb, s) && Truncated(sb, i, s0, s) && s0.logged == {} && Covered(s0.disk, {}, s.disk, s.logged)
    requires Owned(s0.mem, s0.disk, sb, s0.owner) && HeaderOk(sb, 1, s.logged)
    requires gave == s.logged == MapBlocks(sb, FileBlocks(s0.owner, i)) + {Iblock(sb, i)}
    ensures Transaction(sb, s0, s.(logged := {}), gave)
  {
    hide Covered, Sound, Owned, BitmapOk;
    assert {} + gave == gave;
    if Sound(sb, s0) {
      TruncSound(sb, i, s0, s.(logged := {})) by { LogAside(sb, s0, s, {}, {}); TruncatedAside(sb, i, s0, s); }
    }
    TruncHome(sb, i, s0);
  }

  lemma TruncatedAside(sb: Super, i: nat, s0: Snap, s: Snap)
    requires Truncated(sb, i, s0, s)
    ensures Truncated(sb, i, s0, s.(logged := {}))
  {
    hide Content, Dense, GetInode, Used, NoAddrs;
  }

  lemma TruncHome(sb: Super, i: nat, s: Snap)
    requires sb.Ok(s.disk) && Owned(s.mem, s.disk, sb, s.owner) && i < sb.ninodes
    ensures forall b :: b in MapBlocks(sb, FileBlocks(s.owner, i)) + {Iblock(sb, i)} ==> sb.inodestart <= b < sb.size
  {
    hide Ptr;
    forall b | b in MapBlocks(sb, FileBlocks(s.owner, i))
      ensures sb.bmapstart <= b < sb.DataStart()
    {
      var x :| x in s.owner && b == sb.bmapstart + x / Bits.BPB;
      assert x < sb.size;
    }
  }

  lemma TruncSound(sb: Super, i: nat, s0: Snap, s: Snap)
    requires Sound(sb, s0) && Good(sb, s) && Truncated(sb, i, s0, s)
    ensures Sound(sb, s)
  {
    hide Owned, BitmapOk, Content, Dense, GetInode, ReadSuper, Used, NoAddrs;
    forall f | 0 <= f < |s.mem|
      ensures Flushed(s.mem, s.disk, sb, f)
    {
      assert Flushed(s0.mem, s0.disk, sb, f);
    }
  }

  // itrunc as iput and create call it, in a transaction of its own: what a crash
  // leaves is the whole file or an empty one.
  method TruncateAndCrash(fs: FileSys, i: nat, ghost d: Disk, ghost bs: seq<Word>, ghost k: nat, ghost ks: seq<nat>)
    returns (ok: bool, ghost s: Snap, ghost r: Disk)
    requires fs.Valid() && fs.loose == {} && i < |fs.mem| && fs.outstanding == 0 && Sound(fs.sb, fs.Now())
    requires Lists(bs, MapBlocks(fs.sb, FileBlocks(fs.owner, i)) + {Iblock(fs.sb, i)})
    requires Shows(fs.sb, d, fs.Now()) && k <= 2 * |bs| + 2 && SizesOk(fs.mem)
    modifies fs
    ensures ok <==> CanLog(fs.sb, 1, MapBlocks(fs.sb, FileBlocks(old(fs.owner), i)))
    ensures ok ==> fs.Valid() && Sound(fs.sb, fs.Now()) && fs.Now() == s && s.mem[i].size == 0
    ensures ok ==> var t := if k <= |bs| then old(fs.Now()) else s;
                   Shows(fs.sb, r, t) && Consistent(fs.sb, r, t.mem, t.owner) && SameFiles(t, t.mem, r)
  {
    hide Sound, Truncated, Shows, Lists, Consistent, AfterCrash, Content, SameFiles, FileSys.Valid, MapBlocks,
      FileBlocks, CanLog, Covered, Transaction;
    s, r := fs.Now(), d;
    fs.AloneClean();
    ghost var s0, gave := fs.Now(), MapBlocks(fs.sb, FileBlocks(fs.owner, i)) + {Iblock(fs.sb, i)};
    fs.FilledGood();
    GoodOwned(fs.sb, s0);
    var _ := fs.BeginOp();
    NothingLogged(MapBlocks(fs.sb, FileBlocks(fs.owner, i)));
    ok := Itrunc(fs, i);
    if !ok {
      return;
    }
    fs.FilledGood();
    fs.AloneClean();
    TruncTransaction(fs.sb, i, s0, fs.Now(), gave);
    TruncatedSize(fs.sb, i, s0, fs.Now());
    fs.EndOp();
    s := fs.Now();
    TransactionIs(fs.sb, s0, s, gave);
    TransactionCrash(fs.sb, s0, s, gave, d, bs, k, ks);
    r := AfterCrash(d, LogOf(fs.sb), bs, ContentsOf(s.disk, bs), k, ks);
  }

  lemma NothingLogged(s: set<nat>)
    ensures {} + s == s
  {
  }

  lemma TruncatedSize(sb: Super, i: nat, s0: Snap, s: Snap)
    requires Truncated(sb, i, s0, s)
    ensures i < |s.mem| && s.mem[i].size == 0
  {
    hide Content, Dense, GetInode, Used, NoAddrs;
  }

  // A disk that a kernel can be started on.
  ghost predicate Restartable(sb: Super, d: Disk) {
    exists mem, owner :: Consistent(sb, d, mem, owner)
  }

  lemma RestartableHome(sb: Super, d: Disk, d': Disk)
    requires Restartable(sb, d) && SameHome(d', d, LogOf(sb))
    ensures Restartable(sb, d')
  {
    hide Consistent;
    var mem, owner :| Consistent(sb, d, mem, owner);
    ConsistentHome(sb, Snap(mem, d, owner, {}), d');
  }

  // With any operations and readers at work, and crashes anywhere: if every
  // state that was committed is one a kernel can be started on, so is what every
  // recovery leaves.
  lemma RunsRestart(ss: seq<LogProtocol.State>, sts: seq<LogProtocol.Step>, sb: Super, n: nat)
    requires LogRuns.IsRun(ss, sts, LogOf(sb)) && LogProtocol.Inv(ss[0], LogOf(sb)) && 0 < n <= |sts|
    requires sts[n - 1].RecoverErase? && forall i :: 0 <= i < |ss| ==> ValidLog(ss[i].disk, LogOf(sb))
    requires Restartable(sb, LogProtocol.Durable(ss[0], LogOf(sb)))
    requires forall i :: 0 <= i < n && sts[i].WriteHeader? ==> Restartable(sb, LogProtocol.Current(ss[i], LogOf(sb)))
    ensures Restartable(sb, LogProtocol.Current(ss[n], LogOf(sb)))
  {
    hide Restartable, LogProtocol.Inv, LogProtocol.Current, LogProtocol.Durable, LogRuns.Next, ValidLog;
    LogRuns.RecoveryRestoresLastCommit(ss, sts, LogOf(sb), n);
    CommitsRestart(ss, sts, sb, n);
    RestartableHome(sb, LogRuns.LastCommit(ss, sts, LogOf(sb), n), LogProtocol.Current(ss[n], LogOf(sb)));
  }

  lemma {:induction false} CommitsRestart(ss: seq<LogProtocol.State>, sts: seq<LogProtocol.Step>, sb: Super, n: nat)
    requires n <= |sts| < |ss| && forall i :: 0 <= i < |ss| ==> ValidLog(ss[i].disk, LogOf(sb))
    requires Restartable(sb, LogProtocol.Durable(ss[0], LogOf(sb)))
    requires forall i :: 0 <= i < n && sts[i].WriteHeader? ==> Restartable(sb, LogProtocol.Current(ss[i], LogOf(sb)))
    ensures Restartable(sb, LogRuns.LastCommit(ss, sts, LogOf(sb), n))
  {
    hide Restartable, LogProtocol.Current, LogProtocol.Durable, ValidLog;
    if n > 0 && !sts[n - 1].WriteHeader? {
      CommitsRestart(ss, sts, sb, n - 1);
    }
  }
}
