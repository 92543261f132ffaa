// The critical sections of log.c, as Waiters has them, and the steps of the log
// protocol are the same code.
module LogSections {
  import opened Common
  import opened RedoLog
  import opened LogProtocol
  import W = Waiters
  import opened SleepWakeup

  // What log.lock protects, once recovery is over.
  function Seen(s: LogProtocol.State): W.LogData { W.LogData(!s.phase.Running?, |s.lh|, |s.ops|) }

  lemma TwoOps(d: W.LogData, d': W.LogData, x: Op<W.LogData, W.LogChan>, y: Op<W.LogData, W.LogChan>)
    requires !y.Put?
    ensures Left(d, [Put(d')] + [y]) == d'
    ensures Left(d, [Put(d')] + ([x] + [y])) == if x.Put? then x.d else d'
  {
    var p: Op<W.LogData, W.LogChan> := Put(d');
    assert ([p] + [y])[1..] == [y] && ([p] + ([x] + [y]))[1..] == [x] + [y] && ([x] + [y])[1..] == [y];
    assert Left(d', [y]) == d' && (x.Put? ==> Left(x.d, [y]) == x.d);
  }

  // What each step of the protocol does to the data of log.lock.
  ghost predicate Agrees(s: LogProtocol.State, st: LogProtocol.Step, s': LogProtocol.State) {
    var d, d' := Seen(s), Seen(s');
    match st
    case BeginOp => d' == Left(d, W.BeginOp(d))
    case EndOp(_) => d.outstanding > 0 && !d.committing && d' == Left(d, W.EndOp(d))
    case OpWrite(_, b, _) =>
      d.outstanding > 0 && !d.committing && d' == if b in s.lh then d else Left(d, W.LogWriteNew(d))
    case CommitDone => d.committing && d.outstanding == 0 && d' == Left(d, W.EndCommit(d))
    case EraseHeader => d.committing && d' == d.(n := 0)
    case _ => d' == d
  }

  // Every step after recovery is the section of log.c it stands for, and an
  // operation may begin exactly when begin_op does not sleep.
  lemma SectionsAgree(s: LogProtocol.State, l: Layout, st: LogProtocol.Step)
    requires LogProtocol.Inv(s, l) && !s.phase.Booting? && !s.phase.Recovering?
    ensures LogProtocol.Can(s, l, LogProtocol.BeginOp) <==> W.BeginOp(Seen(s)) != [Sleep(W.TheLog)]
    ensures LogProtocol.Can(s, l, st) && !st.Crash? ==>
              ValidLog(s.disk, l) && |s.lh| <= LOGSIZE && Agrees(s, st, LogProtocol.Do(s, l, st))
  {
    hide Pinned, CacheOk, Recorded, Copied, Installed, Distinct, View, Room, PutHeader, HeaderOf, Left;
    InvValid(s, l);
    var d := Seen(s);
    var d' := d.(outstanding := if d.outstanding > 0 then d.outstanding - 1 else 0);
    TwoOps(d, d.(outstanding := d.outstanding + 1), Leave, Leave);
    TwoOps(d, d', Put(d'.(committing := true)), Leave);
    TwoOps(d, d', Wakeup(W.TheLog), Leave);
    TwoOps(d, d.(n := d.n + 1), Leave, Leave);
    TwoOps(d, d.(committing := false), Wakeup(W.TheLog), Leave);
  }
}
