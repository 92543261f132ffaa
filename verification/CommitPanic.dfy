// A run in which commit finds no buffer: three operations log as many blocks as
// fit the log header, and a reader holds the last buffer.
module CommitPanic {
  import opened Common
  import opened Blocks
  import opened RedoLog
  import opened BufferCache
  import opened Log

  const BASE := 100
  const LOGGED := 29 // as many as the log of mkfs takes

  // Blocks BASE..BASE+k.
  function Numbers(k: nat): (bs: seq<Word>)
    requires k <= LOGSIZE
    ensures |bs| == k && forall i :: 0 <= i < k ==> bs[i] == BASE + i
  {
    seq(k, i requires 0 <= i < k => BASE + i)
  }

  lemma NumbersNext(k: nat)
    requires k < LOGSIZE
    ensures BASE + k !in Numbers(k) && LogProtocol.Absorb(Numbers(k), BASE + k) == Numbers(k + 1)
  {
  }

  // Three operations are outstanding and have logged k blocks; nobody holds a
  // buffer.
  ghost predicate Loaded(log: Logger, k: nat)
    reads log, log.cache
  {
    && log.Valid() && k <= LOGGED && log.n == k && log.block[..k] == Numbers(k)
    && log.outstanding == 3 && !log.committing && |log.cache.disk| > BASE + LOGSIZE
    && forall j :: 0 <= j < |log.cache.bufs| ==> log.cache.bufs[j].refcnt == 0
  }

  // There is a buffer for one more block.
  lemma RoomFor(log: Logger, k: nat)
    requires Loaded(log, k)
    ensures |log.cache.bufs| == NBUF && Available(log.cache.bufs, 1, BASE + k)
    ensures forall j :: 0 <= j < NBUF ==> !log.cache.bufs[j].locked
    ensures forall j :: 0 <= j < NBUF && log.cache.bufs[j].Holds(1, BASE + k) ==> !log.cache.bufs[j].dirty
  {
    hide RingOk, HeaderOf, LogClean, ValidLog, Readers;
    var bufs := log.cache.bufs;
    BuffersLeft(bufs, log.cache.index, log.block[..k], log.slot) by { NoReaders(bufs); }
    NoReaders(bufs);
    AvailableIs(bufs, BASE + k);
    assert forall j :: 0 <= j < NBUF ==> BufOk(bufs[j], j in log.cache.changed, log.cache.disk);
    assert log.block[..k][0..] == log.block[..k];
  }

  lemma NoReaders(bufs: seq<Buf>)
    requires forall j :: 0 <= j < |bufs| ==> bufs[j].refcnt == 0
    ensures Readers(bufs) == {}
  {
  }

  // bread, a change, log_write and brelse of the next block.
  method LogOneMore(log: Logger, k: nat)
    requires Loaded(log, k) && k < LOGGED && log.l == Layout(2, LOGSIZE)
    modifies log, log.cache
    ensures Loaded(log, k + 1)
  {
    hide Cache.Valid, Unlogged, HeaderOf, LogClean, ValidLog, Available, ValidEntries;
    RoomFor(log, k);
    NumbersNext(k);
    assert log.block[..log.n] == Numbers(k);
    var r := log.Read(BASE + k);
    log.Change(r.b, ZeroBlock());
    var panic := log.LogWrite(r.b);
    log.Release(r.b);
  }

  // After booting a disk with the log of mkfs: the third end_op panics in bget.
  method CommitCanPanic(d: Disk) returns (ok: bool)
    requires ValidLog(d, Layout(2, LOGSIZE)) && |d| > BASE + LOGSIZE
    ensures !ok
  {
    hide Loaded, Cache.Valid, Unlogged, HeaderOf, LogClean, ValidLog, Recovered, Ready, Unheld;
    var log := Opened(d);
    for k := 0 to LOGGED
      invariant Loaded(log, k) && log.l == Layout(2, LOGSIZE) && fresh(log) && fresh(log.cache)
    {
      LogOneMore(log, k);
    }
    ok := LastEnd(log);
  }

  // initlog, and three begin_ops.
  method Opened(d: Disk) returns (log: Logger)
    requires ValidLog(d, Layout(2, LOGSIZE)) && |d| > BASE + LOGSIZE
    ensures fresh(log) && fresh(log.cache) && log.l == Layout(2, LOGSIZE) && Loaded(log, 0)
  {
    hide Cache.Valid, Unlogged, HeaderOf, LogClean, ValidLog, Recovered, RecoveryTrace;
    var cache := new Cache(d);
    log := new Logger(cache, Layout(2, LOGSIZE));
    CacheSize(cache);
    log.Recover();
    var admitted := log.BeginOp();
    admitted := log.BeginOp();
    admitted := log.BeginOp();
    CacheSize(cache);
  }

  // A reader holds one more block while the three operations end.
  method LastEnd(log: Logger) returns (ok: bool)
    requires Loaded(log, LOGGED) && log.l == Layout(2, LOGSIZE)
    modifies log, log.cache
    ensures !ok
  {
    hide Cache.Valid, Unlogged, HeaderOf, LogClean, ValidLog, Available, ValidEntries, Ready, Unheld;
    RoomFor(log, LOGGED);
    NumbersNext(LOGGED);
    var r := log.Read(BASE + LOGGED);
    HeldOnly(log, r.b);
    ok := log.EndOp();
    ok := log.EndOp();
    ok := log.EndOp();
  }

  // Every buffer is dirty with a logged block or held by the reader.
  lemma HeldOnly(log: Logger, b: nat)
    requires log.Valid() && log.n == LOGGED && log.block[..LOGGED] == Numbers(LOGGED) && log.l == Layout(2, LOGSIZE)
    requires b < NBUF && |log.cache.bufs| == NBUF && log.cache.bufs[b].Holds(1, BASE + LOGGED)
    requires log.cache.bufs[b].refcnt > 0 && !log.cache.bufs[b].dirty
    requires forall j :: 0 <= j < NBUF && j != b ==> log.cache.bufs[j].refcnt == 0
    ensures !Ready(log.cache.bufs, log.l, LOGGED) && Unheld(log.cache.bufs, log.l, log.block[..LOGGED])
  {
    hide RingOk, HeaderOf, LogClean, ValidLog;
    var bufs := log.cache.bufs;
    assert Readers(bufs) == {b};
    BuffersLeft(bufs, log.cache.index, log.block[..LOGGED], log.slot);
    assert forall j :: 0 <= j < NBUF ==> BufOk(bufs[j], j in log.cache.changed, log.cache.disk);
    forall j | 0 <= j < NBUF
      ensures bufs[j].dirty || j == b
    {
      assert !bufs[j].Free();
    }
    assert log.block[..LOGGED][0..] == log.block[..LOGGED];
    assert !Cached(bufs, 2);
  }
}
