// pipe.c: the processes that sleep in pipewrite and piperead.
module PipeWaiters {
  import opened Common
  import opened SleepWakeup
  import Buffer = Pipe

  datatype Pipe = Pipe(nread: Word, nwrite: Word, readopen: bool, writeopen: bool)
  datatype Chan = Readers | Writers // &p->nread, &p->nwrite

  predicate Full(d: Pipe) { d.nwrite == (d.nread + PIPESIZE) % WORD }
  predicate Empty(d: Pipe) { d.nread == d.nwrite }

  function Wrote(d: Pipe): Pipe { d.(nwrite := (d.nwrite + 1) % WORD) }
  function Took(d: Pipe): Pipe { d.(nread := (d.nread + 1) % WORD) }

  // pipewrite with n bytes to go, from a point where it holds the lock.
  function WriteOps(d: Pipe, n: nat, killed: bool): (ops: seq<Op<Pipe, Chan>>)
    decreases n
  {
    if n == 0 then [Wakeup(Readers)] + [Leave]
    else if Full(d) then
      if !d.readopen || killed then [Leave] else [Wakeup(Readers)] + [Sleep(Writers)]
    else [Put(Wrote(d))] + WriteOps(Wrote(d), n - 1, killed)
  }

  // The copying loop of piperead.
  function TakeOps(d: Pipe, n: nat): (ops: seq<Op<Pipe, Chan>>)
    decreases n
  {
    if n == 0 || Empty(d) then [Wakeup(Writers)] + [Leave]
    else [Put(Took(d))] + TakeOps(Took(d), n - 1)
  }

  function ReadOps(d: Pipe, n: nat, killed: bool): (ops: seq<Op<Pipe, Chan>>) {
    if Empty(d) && d.writeopen then if killed then [Leave] else [Sleep(Readers)]
    else TakeOps(d, n)
  }

  function CloseOps(d: Pipe, writable: bool): (ops: seq<Op<Pipe, Chan>>) {
    if writable then [Put(d.(writeopen := false))] + ([Wakeup(Readers)] + [Leave])
    else [Put(d.(readopen := false))] + ([Wakeup(Writers)] + [Leave])
  }

  // How a call ends when it gives up the lock.
  datatype Ending = Sleeps(c: Chan) | Fails | Returns(woken: Chan)

  predicate EndsIn(ops: seq<Op<Pipe, Chan>>, e: Ending) {
    && |ops| > 0
    && var last := ops[|ops| - 1];
    match e
    case Sleeps(c) => last == Sleep(c)
    case Fails => last == Leave && (|ops| > 1 ==> !ops[|ops| - 2].Wakeup?)
    case Returns(c) => last == Leave && |ops| > 1 && ops[|ops| - 2] == Wakeup(c)
  }

  // d is a pipe with that many bytes ever read and written.
  predicate Counts(d: Pipe, taken: nat, written: nat) {
    taken <= written <= taken + PIPESIZE && d.nread == taken % WORD && d.nwrite == written % WORD
  }

  lemma PutFirst(d: Pipe, d': Pipe, rest: seq<Op<Pipe, Chan>>, e: Ending)
    requires EndsIn(rest, e)
    ensures EndsIn([Put(d')] + rest, e) && Left(d, [Put(d')] + rest) == Left(d', rest)
  {
    assert ([Op<Pipe, Chan>.Put(d')] + rest)[1..] == rest;
  }

  lemma WakeLast(d: Pipe, c: Chan, last: Op<Pipe, Chan>)
    requires !last.Put?
    ensures Left(d, [last]) == d && Left(d, [Wakeup(c)] + [last]) == d
  {
    assert ([Op<Pipe, Chan>.Wakeup(c)] + [last])[1..] == [last];
  }

  // piperead takes what there is, up to n bytes, and wakes the writers.
  lemma {:induction false} TakeLeaves(d: Pipe, n: nat, taken: nat, written: nat)
    requires Counts(d, taken, written)
    ensures var k := if n < written - taken then n else written - taken;
            EndsIn(TakeOps(d, n), Returns(Writers)) && Left(d, TakeOps(d, n)) == d.(nread := (taken + k) % WORD)
    decreases n
  {
    Buffer.FullTest(taken, written);
    if n == 0 || Empty(d) {
      WakeLast(d, Writers, Leave);
    } else {
      Buffer.BumpCounts(taken);
      TakeLeaves(Took(d), n - 1, taken + 1, written);
      PutFirst(d, Took(d), TakeOps(Took(d), n - 1), Returns(Writers));
    }
  }

  // pipewrite puts in what fits, up to n bytes. It returns if that was all;
  // otherwise it fails without a wakeup or sleeps.
  lemma {:induction false} WriteLeaves(d: Pipe, n: nat, killed: bool, taken: nat, written: nat)
    requires Counts(d, taken, written)
    ensures var room := taken + PIPESIZE - written;
            && Left(d, WriteOps(d, n, killed)) == d.(nwrite := (written + if n < room then n else room) % WORD)
            && EndsIn(WriteOps(d, n, killed),
                 if n <= room then Returns(Readers) else if killed || !d.readopen then Fails else Sleeps(Writers))
    decreases n
  {
    Buffer.FullTest(taken, written);
    if n == 0 || Full(d) {
      WakeLast(d, Readers, Leave);
      WakeLast(d, Readers, Sleep(Writers));
    } else {
      Buffer.BumpCounts(written);
      WriteLeaves(Wrote(d), n - 1, killed, taken, written + 1);
      var room := taken + PIPESIZE - written;
      PutFirst(d, Wrote(d), WriteOps(Wrote(d), n - 1, killed),
        if n <= room then Returns(Readers) else if killed || !d.readopen then Fails else Sleeps(Writers));
    }
  }

  // pipeclose closes one end and wakes those at the other.
  lemma CloseLeaves(d: Pipe, writable: bool)
    ensures var r := Left(d, CloseOps(d, writable));
            && r.nread == d.nread && r.nwrite == d.nwrite
            && r.writeopen == (d.writeopen && !writable) && r.readopen == (d.readopen && writable)
    ensures EndsIn(CloseOps(d, writable), Returns(if writable then Readers else Writers))
  {
    var d' := if writable then d.(writeopen := false) else d.(readopen := false);
    var c := if writable then Readers else Writers;
    WakeLast(d', c, Leave);
    PutFirst(d, d', [Wakeup(c)] + [Leave], Returns(c));
  }

  // The counters of the buffer, with its ends.
  function View(b: Buffer.PipeBuf, readopen: bool, writeopen: bool): Pipe
    reads b
  {
    Pipe(b.nread, b.nwrite, readopen, writeopen)
  }

  // piperead from where it holds the lock, on the buffer itself: what it returns,
  // and that it leaves the counters as ReadOps says.
  method PipeRead(b: Buffer.PipeBuf, readopen: bool, writeopen: bool, n: nat, killed: bool)
    returns (e: Ending, addr: seq<char>)
    requires b.Valid()
    modifies b`nread, b`taken
    ensures b.Valid() && old(b.taken) <= b.taken
    ensures e == (if old(b.taken) == |b.written| && writeopen then if killed then Fails else Sleeps(Readers)
                  else Returns(Writers))
    ensures addr == b.written[old(b.taken)..b.taken]
    ensures e.Returns? ==> |addr| == if n < |b.written| - old(b.taken) then n else |b.written| - old(b.taken)
    ensures !e.Returns? ==> addr == []
    ensures var d := old(View(b, readopen, writeopen));
            EndsIn(ReadOps(d, n, killed), e) && View(b, readopen, writeopen) == Left(d, ReadOps(d, n, killed))
  {
    ghost var d := View(b, readopen, writeopen);
    Buffer.FullTest(b.taken, |b.written|);
    if b.nread == b.nwrite && writeopen {
      WakeLast(d, Readers, Leave);
      WakeLast(d, Readers, Sleep(Readers));
      return if killed then Fails else Sleeps(Readers), [];
    }
    TakeLeaves(d, n, b.taken, |b.written|);
    addr := b.Read(n);
    e := Returns(Writers);
  }

  // pipewrite of the bytes from i on, likewise.
  method PipeWrite(b: Buffer.PipeBuf, readopen: bool, writeopen: bool, addr: seq<char>, i: nat, killed: bool)
    returns (e: Ending, i': nat)
    requires b.Valid() && i <= |addr|
    modifies b`nwrite, b`written, b.data
    ensures b.Valid() && i <= i' <= |addr| && b.written == old(b.written) + addr[i..i']
    ensures e == (if i' == |addr| then Returns(Readers) else if killed || !readopen then Fails else Sleeps(Writers))
    ensures i' < |addr| ==> |b.written| == b.taken + PIPESIZE
    ensures var d := old(View(b, readopen, writeopen));
            && EndsIn(WriteOps(d, |addr| - i, killed), e)
            && View(b, readopen, writeopen) == Left(d, WriteOps(d, |addr| - i, killed))
  {
    WriteLeaves(View(b, readopen, writeopen), |addr| - i, killed, b.taken, |b.written|);
    i' := b.Write(addr, i);
    e := if i' == |addr| then Returns(Readers) else if killed || !readopen then Fails else Sleeps(Writers);
  }

  // When a writer goes to sleep; nothing is said of readers.
  const WriterWaits: Waits<Pipe, Chan> := (c: Chan, d: Pipe) => c == Readers || (Full(d) && d.readopen)

  // When a writer or a reader does.
  const PipeWaits: Waits<Pipe, Chan> :=
    (c: Chan, d: Pipe) => if c == Writers then Full(d) && d.readopen else Empty(d) && d.writeopen

  // All of pipe.c.
  ghost const PipeCode: Code<Pipe, Chan> :=
    (d: Pipe, ops: seq<Op<Pipe, Chan>>) =>
      || (exists n, killed :: ops == WriteOps(d, n, killed))
      || (exists n, killed :: ops == ReadOps(d, n, killed))
      || ops == CloseOps(d, true) || ops == CloseOps(d, false)

  // How many bytes can be written before the pipe is full.
  function Space(d: Pipe): nat { (d.nread + PIPESIZE - d.nwrite) % WORD }

  // A write that fills an empty pipe and then gives up, without a wakeup: the
  // writer was killed or the read end is closed. The counters of a pipe in use
  // leave no more space than PIPESIZE, and that much only when it is empty.
  predicate Silent(d: Pipe, n: nat, killed: bool) {
    (killed || !d.readopen) && d.writeopen && n > Space(d) >= PIPESIZE
  }

  // pipe.c without silent writes.
  ghost const CalmCode: Code<Pipe, Chan> :=
    (d: Pipe, ops: seq<Op<Pipe, Chan>>) =>
      || (exists n, killed :: !Silent(d, n, killed) && ops == WriteOps(d, n, killed))
      || (exists n, killed :: ops == ReadOps(d, n, killed))
      || ops == CloseOps(d, true) || ops == CloseOps(d, false)

  lemma OnlyChan(owed: iset<Chan>, c: Chan, other: Chan)
    requires other !in owed && c != other
    ensures owed <= iset{c} && owed - iset{c} == iset{}
  {
    forall x | x in owed
      ensures x == c
    {
      assert x == Readers || x == Writers;
    }
  }

  lemma {:induction false} WriterWrites(d: Pipe, n: nat, killed: bool)
    ensures Disciplined(WriterWaits, d, iset{}, WriteOps(d, n, killed))
    decreases n
  {
    var waits := WriterWaits;
    if n == 0 {
      DoWakeup(waits, d, iset{}, Readers, iset{}, [Leave]);
    } else if Full(d) {
      if d.readopen && !killed {
        DoWakeup(waits, d, iset{}, Readers, iset{}, [Sleep(Writers)]);
      }
    } else {
      WriterWrites(Wrote(d), n - 1, killed);
      DoPut(waits, d, iset{}, Wrote(d), iset{}, WriteOps(Wrote(d), n - 1, killed));
    }
  }

  // Taking bytes owes the writers at most.
  lemma {:induction false} Takes(waits: Waits<Pipe, Chan>, d: Pipe, n: nat, owed: iset<Chan>)
    requires waits == WriterWaits || waits == PipeWaits
    requires owed <= iset{Writers}
    ensures Disciplined(waits, d, owed, TakeOps(d, n))
    decreases n
  {
    if n == 0 || Empty(d) {
      DoWakeup(waits, d, owed, Writers, iset{}, [Leave]);
    } else {
      var owed' := NewOwed(waits, owed, d, Took(d));
      assert WriterWaits(Readers, Took(d)) && !PipeWaits(Readers, d);
      OnlyChan(owed', Writers, Readers);
      Takes(waits, Took(d), n - 1, owed');
      DoPut(waits, d, owed, Took(d), owed', TakeOps(Took(d), n - 1));
    }
  }

  lemma SpaceIs(d: Pipe)
    ensures Full(d) <==> Space(d) == 0
    ensures Empty(d) <==> Space(d) == PIPESIZE
    ensures !Full(d) ==> Space(Wrote(d)) == Space(d) - 1
  {
    Wraps(d.nread + PIPESIZE - d.nwrite);
    Wraps(d.nread + PIPESIZE);
    Wraps(d.nwrite + 1);
    Wraps(d.nread + PIPESIZE - Wrote(d).nwrite);
  }

  lemma Wraps(x: int)
    requires -WORD <= x < 2 * WORD
    ensures x % WORD == if x < 0 then x + WORD else if x < WORD then x else x - WORD
  {
  }

  // What is owed after one more byte.
  lemma OwedNext(d: Pipe, owed: iset<Chan>)
    requires owed <= iset{Readers} && !Full(d)
    ensures var owed' := NewOwed(PipeWaits, owed, d, Wrote(d));
            && owed' <= iset{Readers}
            && (Readers in owed' || (d.writeopen && Space(Wrote(d)) >= PIPESIZE) <==>
                Readers in owed || (d.writeopen && Space(d) >= PIPESIZE))
  {
    SpaceIs(d);
    SpaceIs(Wrote(d));
    var owed' := NewOwed(PipeWaits, owed, d, Wrote(d));
    OnlyChan(owed', Readers, Writers);
    assert Readers in owed' <==> (Readers in owed || PipeWaits(Readers, d)) && !PipeWaits(Readers, Wrote(d));
  }

  // When a write keeps the rule: unless it fills the pipe and gives up, owing the
  // readers a wakeup from before or from the byte that ended an empty pipe.
  lemma {:induction false} WriteExactly(d: Pipe, n: nat, killed: bool, owed: iset<Chan>)
    requires owed <= iset{Readers}
    ensures Disciplined(PipeWaits, d, owed, WriteOps(d, n, killed)) <==>
            !((killed || !d.readopen) && n > Space(d) &&
              (Readers in owed || (d.writeopen && Space(d) >= PIPESIZE)))
    decreases n
  {
    SpaceIs(d);
    if n == 0 {
      DoWakeup(PipeWaits, d, owed, Readers, iset{}, [Leave]);
    } else if Full(d) {
      if d.readopen && !killed {
        DoWakeup(PipeWaits, d, owed, Readers, iset{}, [Sleep(Writers)]);
      }
    } else {
      var owed', rest := NewOwed(PipeWaits, owed, d, Wrote(d)), WriteOps(Wrote(d), n - 1, killed);
      OwedNext(d, owed);
      WriteExactly(Wrote(d), n - 1, killed, owed');
      assert ([Op<Pipe, Chan>.Put(Wrote(d))] + rest)[1..] == rest;
    }
  }

  lemma Reads(waits: Waits<Pipe, Chan>, d: Pipe, n: nat, killed: bool)
    requires waits == WriterWaits || waits == PipeWaits
    ensures Disciplined(waits, d, iset{}, ReadOps(d, n, killed))
  {
    if !(Empty(d) && d.writeopen) {
      Takes(waits, d, n, iset{});
    }
  }

  lemma Closes(waits: Waits<Pipe, Chan>, d: Pipe, writable: bool)
    requires waits == WriterWaits || waits == PipeWaits
    ensures Disciplined(waits, d, iset{}, CloseOps(d, writable))
  {
    if writable {
      var d' := d.(writeopen := false);
      assert Full(d') == Full(d);
      assert WriterWaits(Writers, d') == WriterWaits(Writers, d) && PipeWaits(Writers, d') == PipeWaits(Writers, d);
      var owed := NewOwed(waits, iset{}, d, d');
      OnlyChan(owed, Readers, Writers);
      DoWakeup(waits, d', owed, Readers, iset{}, [Leave]);
      DoPut(waits, d, iset{}, d', owed, [Wakeup(Readers)] + [Leave]);
    } else {
      var d' := d.(readopen := false);
      assert Empty(d') == Empty(d);
      assert WriterWaits(Readers, d') == WriterWaits(Readers, d) && PipeWaits(Readers, d') == PipeWaits(Readers, d);
      var owed := NewOwed(waits, iset{}, d, d');
      OnlyChan(owed, Writers, Readers);
      DoWakeup(waits, d', owed, Writers, iset{}, [Leave]);
      DoPut(waits, d, iset{}, d', owed, [Wakeup(Writers)] + [Leave]);
    }
  }

  lemma WritersDisciplined()
    ensures AllDisciplined(WriterWaits, PipeCode)
  {
    forall d, ops | PipeCode(d, ops)
      ensures Disciplined(WriterWaits, d, iset{}, ops)
    {
      Closes(WriterWaits, d, true);
      Closes(WriterWaits, d, false);
      if n, killed :| ops == WriteOps(d, n, killed) {
        WriterWrites(d, n, killed);
      } else if n, killed :| ops == ReadOps(d, n, killed) {
        Reads(WriterWaits, d, n, killed);
      }
    }
  }

  // The code of pipe.c that keeps the rule is the code without silent writes.
  lemma CalmExactly(d: Pipe, ops: seq<Op<Pipe, Chan>>)
    requires PipeCode(d, ops)
    ensures CalmCode(d, ops) <==> Disciplined(PipeWaits, d, iset{}, ops)
  {
    hide WriteOps, ReadOps, CloseOps, Disciplined;
    forall n, killed
      ensures Disciplined(PipeWaits, d, iset{}, WriteOps(d, n, killed)) <==> !Silent(d, n, killed)
    {
      WriteExactly(d, n, killed, iset{});
    }
    forall n, killed
      ensures Disciplined(PipeWaits, d, iset{}, ReadOps(d, n, killed))
    {
      Reads(PipeWaits, d, n, killed);
    }
    Closes(PipeWaits, d, true);
    Closes(PipeWaits, d, false);
  }

  lemma CalmDisciplined()
    ensures AllDisciplined(PipeWaits, CalmCode)
  {
    hide WriteOps, ReadOps, CloseOps, Disciplined;
    forall d, ops | CalmCode(d, ops)
      ensures Disciplined(PipeWaits, d, iset{}, ops)
    {
      CalmExactly(d, ops);
    }
  }

  // A writer asleep finds the pipe full and its read end open.
  lemma PipeWriters(n: nat, a: Running<Pipe, Chan>, b: Running<Pipe, Chan>, q: nat)
    requires Start(a) && Reach(WriterWaits, PipeCode, n, a, b) && q < |b.s.pcs| && Sleeper(b.s.pcs[q], Writers)
    ensures b.s.lk.None? ==> Full(b.s.data) && b.s.data.readopen
  {
    WritersDisciplined();
    NoLostWakeup(WriterWaits, PipeCode, n, a, b, q, Writers);
  }

  // A reader asleep finds it empty and its write end open, if there was no silent
  // write.
  lemma PipeReaders(n: nat, a: Running<Pipe, Chan>, b: Running<Pipe, Chan>, q: nat)
    requires Start(a) && Reach(PipeWaits, CalmCode, n, a, b) && q < |b.s.pcs| && Sleeper(b.s.pcs[q], Readers)
    ensures b.s.lk.None? ==> Empty(b.s.data) && b.s.data.writeopen
  {
    CalmDisciplined();
    NoLostWakeup(PipeWaits, CalmCode, n, a, b, q, Readers);
  }

  // k bytes written to the empty pipe d.
  function Filled(d: Pipe, k: nat): (r: Pipe)
    requires k <= PIPESIZE && Empty(d)
    ensures Space(r) == PIPESIZE - k
  {
    d.(nwrite := (d.nwrite + k) % WORD)
  }

  // Process 0 reads and sleeps; process 1 holds the lock, and has written k of n
  // bytes to the empty pipe d.
  ghost function Writing(d: Pipe, n: nat, killed: bool, k: nat, owed: iset<Chan>): Running<Pipe, Chan>
    requires k <= PIPESIZE < n && Empty(d)
  {
    Running(State(Filled(d, k), Some(1), None, [Asleep(Readers), Inside(owed)]),
            [[], WriteOps(Filled(d, k), n - k, killed)])
  }

  lemma NextByte(d: Pipe, k: nat, n: nat, killed: bool)
    requires k < PIPESIZE && n > 0 && Empty(d)
    ensures WriteOps(Filled(d, k), n, killed) ==
              [Put(Filled(d, k + 1))] + WriteOps(Filled(d, k + 1), n - 1, killed)
  {
    hide Full, Wrote, Filled, Space;
    SpaceIs(Filled(d, k));
    OneMore(d, k);
  }

  lemma OneMore(d: Pipe, k: nat)
    requires k < PIPESIZE && Empty(d)
    ensures Wrote(Filled(d, k)) == Filled(d, k + 1)
  {
    assert ((d.nwrite + k) % WORD + 1) % WORD == (d.nwrite + k + 1) % WORD;
  }

  lemma WriteOne(d: Pipe, n: nat, killed: bool, k: nat, owed: iset<Chan>)
    requires k < PIPESIZE < n && Empty(d)
    ensures var r, owed' := Writing(d, n, killed, k, owed), NewOwed(PipeWaits, owed, Filled(d, k), Filled(d, k + 1));
            && CanMove(PipeWaits, PipeCode, r, Perform(1))
            && Moved(PipeWaits, PipeCode, r, Perform(1)) == Writing(d, n, killed, k + 1, owed')
  {
    hide WriteOps;
    var r := Writing(d, n, killed, k, owed);
    var rest := WriteOps(Filled(d, k + 1), n - k - 1, killed);
    NextByte(d, k, n - k, killed);
    assert r.todo[1] == [Put(Filled(d, k + 1))] + rest;
    assert r.todo[1][1..] == rest;
  }

  lemma {:induction false} WriteMany(d: Pipe, n: nat, killed: bool, k: nat, owed: iset<Chan>, m: nat)
    returns (owed': iset<Chan>)
    requires k + m == PIPESIZE < n && Empty(d)
    ensures Reach(PipeWaits, PipeCode, m, Writing(d, n, killed, k, owed), Writing(d, n, killed, PIPESIZE, owed'))
    decreases m
  {
    hide CanMove, Moved, WriteOps;
    if m == 0 {
      owed' := owed;
    } else {
      var owed1 := NewOwed(PipeWaits, owed, Filled(d, k), Filled(d, k + 1));
      owed' := WriteMany(d, n, killed, k + 1, owed1, m - 1);
      WriteOne(d, n, killed, k, owed);
    }
  }

  lemma {:induction false} ReachTrans(n: nat, m: nat, a: Running<Pipe, Chan>, b: Running<Pipe, Chan>,
                                      c: Running<Pipe, Chan>)
    requires Reach(PipeWaits, PipeCode, n, a, b) && Reach(PipeWaits, PipeCode, m, b, c)
    ensures Reach(PipeWaits, PipeCode, n + m, a, c)
  {
    hide CanMove, Moved;
    if n > 0 {
      var x :| CanMove(PipeWaits, PipeCode, a, x) &&
          Reach(PipeWaits, PipeCode, n - 1, Moved(PipeWaits, PipeCode, a, x), b);
      ReachTrans(n - 1, m, Moved(PipeWaits, PipeCode, a, x), b, c);
    }
  }

  lemma ReachOne(a: Running<Pipe, Chan>, x: Move<Pipe, Chan>)
    requires CanMove(PipeWaits, PipeCode, a, x)
    ensures Reach(PipeWaits, PipeCode, 1, a, Moved(PipeWaits, PipeCode, a, x))
  {
    hide CanMove, Moved;
    assert Reach(PipeWaits, PipeCode, 0, Moved(PipeWaits, PipeCode, a, x), Moved(PipeWaits, PipeCode, a, x));
  }

  // The pipe d, with process 0 on its way to sleep.
  ghost function Drowsy(d: Pipe, pc: Pc<Chan>, lk: Option<nat>, ptable: Option<nat>, ops: seq<Op<Pipe, Chan>>):
    Running<Pipe, Chan>
  {
    Running(State(d, lk, ptable, [pc, Out]), [ops, []])
  }

  lemma ReaderMoves(d: Pipe, ops: seq<Op<Pipe, Chan>>)
    requires ops == [Sleep(Readers)] && Empty(d) && d.writeopen
    ensures var r0, r1 := Drowsy(d, Out, None, None, []), Drowsy(d, Inside(iset{}), Some(0), None, ops);
            CanMove(PipeWaits, PipeCode, r0, Enter(0, ops)) && Moved(PipeWaits, PipeCode, r0, Enter(0, ops)) == r1
    ensures var r1, r2 := Drowsy(d, Inside(iset{}), Some(0), None, ops),
              Drowsy(d, Falling(Readers), Some(0), Some(0), []);
            CanMove(PipeWaits, PipeCode, r1, Perform(0)) && Moved(PipeWaits, PipeCode, r1, Perform(0)) == r2
    ensures var r2, r3 := Drowsy(d, Falling(Readers), Some(0), Some(0), []),
              Drowsy(d, Committed(Readers), None, Some(0), []);
            CanMove(PipeWaits, PipeCode, r2, Finish(0)) && Moved(PipeWaits, PipeCode, r2, Finish(0)) == r3
    ensures var r3, r4 := Drowsy(d, Committed(Readers), None, Some(0), []), Drowsy(d, Asleep(Readers), None, None, []);
            CanMove(PipeWaits, PipeCode, r3, Finish(0)) && Moved(PipeWaits, PipeCode, r3, Finish(0)) == r4
  {
    assert ReadOps(d, 1, false) == ops;
    assert PipeCode(d, ops);
  }

  // Process 0 finds the pipe empty and goes to sleep.
  lemma ReaderSleeps(d: Pipe)
    requires Empty(d) && d.writeopen
    ensures Reach(PipeWaits, PipeCode, 4, Drowsy(d, Out, None, None, []), Drowsy(d, Asleep(Readers), None, None, []))
  {
    hide Reach, CanMove, Moved;
    var ops := [Sleep(Readers)];
    var r0, r1 := Drowsy(d, Out, None, None, []), Drowsy(d, Inside(iset{}), Some(0), None, ops);
    var r2, r3 := Drowsy(d, Falling(Readers), Some(0), Some(0), []), Drowsy(d, Committed(Readers), None, Some(0), []);
    ReaderMoves(d, ops);
    ReachOne(r0, Enter(0, ops));
    ReachOne(r1, Perform(0));
    ReachOne(r2, Finish(0));
    ReachOne(r3, Finish(0));
    ReachTrans(1, 1, r0, r1, r2);
    ReachTrans(2, 1, r0, r2, r3);
    ReachTrans(3, 1, r0, r3, Drowsy(d, Asleep(Readers), None, None, []));
  }

  // Every silent write to an empty pipe can leave a reader asleep on a full one.
  lemma SilentWriteLosesWakeup(d: Pipe, n: nat, killed: bool)
    returns (m: nat, a: Running<Pipe, Chan>, b: Running<Pipe, Chan>)
    requires Empty(d) && Silent(d, n, killed)
    ensures Start(a) && a.s.data == d && Reach(PipeWaits, PipeCode, m, a, b)
    ensures b.s.lk.None? && b.s.ptable.None? && |b.s.pcs| > 0 && b.s.pcs[0] == Asleep(Readers)
    ensures Full(b.s.data) && !Empty(b.s.data) && b.s.data.writeopen && b.s.data.readopen == d.readopen
  {
    hide Reach, CanMove, Moved, WriteOps;
    SpaceIs(d);
    a := Drowsy(d, Out, None, None, []);
    var r := Drowsy(d, Asleep(Readers), None, None, []);
    ReaderSleeps(d);
    var ops := WriteOps(d, n, killed);
    assert PipeCode(d, ops);
    WriterEnters(d, n, killed, ops);
    ReachOne(r, Enter(1, ops));
    ReachTrans(4, 1, a, r, Writing(d, n, killed, 0, iset{}));
    var owed := WriteMany(d, n, killed, 0, iset{}, PIPESIZE);
    ReachTrans(5, PIPESIZE, a, Writing(d, n, killed, 0, iset{}), Writing(d, n, killed, PIPESIZE, owed));
    b := Running(State(Filled(d, PIPESIZE), None, None, [Asleep(Readers), Out]), [[], []]);
    WriterLeaves(d, n, killed, owed, b);
    ReachOne(Writing(d, n, killed, PIPESIZE, owed), Perform(1));
    ReachTrans(5 + PIPESIZE, 1, a, Writing(d, n, killed, PIPESIZE, owed), b);
    m := 6 + PIPESIZE;
    SpaceIs(b.s.data);
  }

  lemma WriterEnters(d: Pipe, n: nat, killed: bool, ops: seq<Op<Pipe, Chan>>)
    requires ops == WriteOps(d, n, killed) && Empty(d) && n > PIPESIZE
    ensures var r := Drowsy(d, Asleep(Readers), None, None, []);
            && CanMove(PipeWaits, PipeCode, r, Enter(1, ops))
            && Moved(PipeWaits, PipeCode, r, Enter(1, ops)) == Writing(d, n, killed, 0, iset{})
  {
    hide WriteOps;
    assert PipeCode(d, ops);
    assert Filled(d, 0) == d;
  }

  lemma WriterLeaves(d: Pipe, n: nat, killed: bool, owed: iset<Chan>, b: Running<Pipe, Chan>)
    requires Empty(d) && Silent(d, n, killed) && n > PIPESIZE
    requires b == Running(State(Filled(d, PIPESIZE), None, None, [Asleep(Readers), Out]), [[], []])
    ensures var r := Writing(d, n, killed, PIPESIZE, owed);
            CanMove(PipeWaits, PipeCode, r, Perform(1)) && Moved(PipeWaits, PipeCode, r, Perform(1)) == b
  {
    SpaceIs(Filled(d, PIPESIZE));
    assert WriteOps(Filled(d, PIPESIZE), n - PIPESIZE, killed) == [Leave];
    var r := Writing(d, n, killed, PIPESIZE, owed);
    assert r.todo[1][1..] == b.todo[1];
    assert r.todo[1 := b.todo[1]] == b.todo && r.s.pcs[1 := Out] == b.s.pcs;
  }
}
