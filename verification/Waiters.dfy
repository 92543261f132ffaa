// The code that sleeps and wakes in sleeplock.c and log.c, and that it loses no
// wakeup.
module Waiters {
  import opened Common
  import opened SleepWakeup

  // sleeplock.c: the data is the locked field.

  datatype LockChan = TheLock

  function AcquireSleep(locked: bool): seq<Op<bool, LockChan>> {
    if locked then [Sleep(TheLock)] else [Put(true)] + [Leave]
  }

  function ReleaseSleep(): seq<Op<bool, LockChan>> { [Put(false)] + ([Wakeup(TheLock)] + [Leave]) }

  const LockWaits: Waits<bool, LockChan> := (c, locked) => locked

  ghost const LockCode: Code<bool, LockChan> :=
    (locked, ops) => ops == AcquireSleep(locked) || ops == ReleaseSleep() || ops == [Leave]

  lemma OnlyLock(owed: iset<LockChan>)
    ensures owed - iset{TheLock} == iset{}
  {
    forall c | c in owed - iset{TheLock}
      ensures false
    {
      match c case TheLock =>
    }
  }

  lemma LockDisciplined()
    ensures AllDisciplined(LockWaits, LockCode)
  {
    var waits := LockWaits;
    forall d, ops | LockCode(d, ops)
      ensures Disciplined(waits, d, iset{}, ops)
    {
      if ops == ReleaseSleep() {
        var owed := NewOwed(waits, iset{}, d, false);
        OnlyLock(owed);
        DoWakeup(waits, false, owed, TheLock, iset{}, [Leave]);
        DoPut(waits, d, iset{}, false, owed, [Wakeup(TheLock)] + [Leave]);
      } else if ops == [Put(true)] + [Leave] {
        DoPut(waits, d, iset{}, true, iset{}, [Leave]);
      }
    }
  }

  // Whoever sleeps on a sleep lock finds it locked.
  lemma SleepLockWaiters(n: nat, a: Running<bool, LockChan>, b: Running<bool, LockChan>, q: nat)
    requires Start(a) && Reach(LockWaits, LockCode, n, a, b) && q < |b.s.pcs| && Sleeper(b.s.pcs[q], TheLock)
    ensures b.s.lk.None? ==> b.s.data
  {
    LockDisciplined();
    NoLostWakeup(LockWaits, LockCode, n, a, b, q, TheLock);
  }

  // log.c: operations that wait in begin_op.

  datatype LogData = LogData(committing: bool, n: nat, outstanding: nat)
  datatype LogChan = TheLog

  predicate NoRoom(d: LogData) { d.n + (d.outstanding + 1) * MAXOPBLOCKS > LOGSIZE }

  const LogWaits: Waits<LogData, LogChan> := (c: LogChan, d: LogData) => d.committing || NoRoom(d)

  function BeginOp(d: LogData): seq<Op<LogData, LogChan>> {
    if d.committing || NoRoom(d) then [Sleep(TheLog)] else [Put(d.(outstanding := d.outstanding + 1))] + [Leave]
  }

  // The first critical section of end_op; with an operation outstanding, nobody
  // is committing.
  function EndOp(d: LogData): seq<Op<LogData, LogChan>>
    requires d.outstanding > 0
  {
    var d' := d.(outstanding := d.outstanding - 1);
    if d'.outstanding == 0 then [Put(d')] + ([Put(d'.(committing := true))] + [Leave])
    else [Put(d')] + ([Wakeup(TheLog)] + [Leave])
  }

  // The second one, after commit.
  function EndCommit(d: LogData): seq<Op<LogData, LogChan>> {
    [Put(d.(committing := false))] + ([Wakeup(TheLog)] + [Leave])
  }

  // log_write of a block that is new to the transaction.
  function LogWriteNew(d: LogData): seq<Op<LogData, LogChan>> { [Put(d.(n := d.n + 1))] + [Leave] }

  ghost const LogCode: Code<LogData, LogChan> :=
    (d: LogData, ops: seq<Op<LogData, LogChan>>) =>
      || ops == BeginOp(d)
      || (d.outstanding > 0 && !d.committing && ops == EndOp(d))
      || (d.committing && ops == EndCommit(d))
      || (d.outstanding > 0 && !d.committing && (ops == LogWriteNew(d) || ops == [Leave]))

  lemma OnlyLog(owed: iset<LogChan>)
    ensures owed - iset{TheLog} == iset{}
  {
    forall c | c in owed - iset{TheLog}
      ensures false
    {
      match c case TheLog =>
    }
  }

  lemma LogDisciplined()
    ensures AllDisciplined(LogWaits, LogCode)
  {
    forall d, ops | LogCode(d, ops)
      ensures Disciplined(LogWaits, d, iset{}, ops)
    {
      LogSection(d, ops);
    }
  }

  lemma LogSection(d: LogData, ops: seq<Op<LogData, LogChan>>)
    requires LogCode(d, ops)
    ensures Disciplined(LogWaits, d, iset{}, ops)
  {
    var waits := LogWaits;
    if ops == BeginOp(d) {
      if !(d.committing || NoRoom(d)) {
        var d' := d.(outstanding := d.outstanding + 1);
        DoPut(waits, d, iset{}, d', iset{}, [Leave]);
      }
    } else if d.outstanding > 0 && ops == EndOp(d) {
      var d' := d.(outstanding := d.outstanding - 1);
      var owed := NewOwed(waits, iset{}, d, d');
      if d'.outstanding == 0 {
        var d'' := d'.(committing := true);
        DoPut(waits, d', owed, d'', iset{}, [Leave]);
        DoPut(waits, d, iset{}, d', owed, [Put(d'')] + [Leave]);
      } else {
        OnlyLog(owed);
        DoWakeup(waits, d', owed, TheLog, iset{}, [Leave]);
        DoPut(waits, d, iset{}, d', owed, [Wakeup(TheLog)] + [Leave]);
      }
    } else if ops == EndCommit(d) {
      var d' := d.(committing := false);
      var owed := NewOwed(waits, iset{}, d, d');
      OnlyLog(owed);
      DoWakeup(waits, d', owed, TheLog, iset{}, [Leave]);
      DoPut(waits, d, iset{}, d', owed, [Wakeup(TheLog)] + [Leave]);
    } else if ops == LogWriteNew(d) {
      var d' := d.(n := d.n + 1);
      DoPut(waits, d, iset{}, d', iset{}, [Leave]);
    }
  }

  // Whoever sleeps in begin_op finds a commit under way or the log without room.
  lemma LogWaiters(n: nat, a: Running<LogData, LogChan>, b: Running<LogData, LogChan>, q: nat)
    requires Start(a) && Reach(LogWaits, LogCode, n, a, b) && q < |b.s.pcs| && Sleeper(b.s.pcs[q], TheLog)
    ensures b.s.lk.None? ==> b.s.data.committing || NoRoom(b.s.data)
  {
    LogDisciplined();
    NoLostWakeup(LogWaits, LogCode, n, a, b, q, TheLog);
  }

  // commit may clear lh.n without log.lock: the waiters' condition stays.
  lemma CommitClearsAlone(s: State<LogData, LogChan>, p: nat)
    requires p < |s.pcs| && s.pcs[p].Out? && s.data.committing
    ensures Ready(LogWaits, s, SetAlone(p, s.data.(n := 0)))
  {
  }
}
