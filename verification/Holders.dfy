// Calls that take and give back one unit of what lk protects: acquiresleep and
// releasesleep, begin_op and end_op. In every interleaving the data counts the
// processes between the two.
module Holders {
  import opened SleepWakeup
  import opened Waiters

  // Take waits for its unit; Use changes no count.
  datatype Kind = TakeOne | GiveOne | Use

  // Between calls, or in one, which may have stored the new count.
  datatype Phase = Idle(has: bool) | Called(kind: Kind, has: bool, stored: bool)

  datatype Clients<D, !C> = Clients(r: Running<D, C>, phases: seq<Phase>)

  // The code of each kind of call.
  type Calls<!D, !C> = (Kind, D, seq<Op<D, C>>) -> bool

  ghost function CodeOf<D(!new), C(!new)>(calls: Calls<D, C>): Code<D, C> {
    (d: D, ops: seq<Op<D, C>>) => exists k :: calls(k, d, ops)
  }

  // A process has what it took until it calls for giving it back; one that sleeps
  // in TakeOne tries again when it is woken.
  ghost predicate CanCall<D(!new), C(!new)>(waits: Waits<D, C>, calls: Calls<D, C>, units: D -> nat, c: Clients<D, C>,
                                            m: Move<D, C>, kind: Kind)
  {
    && |c.phases| == |c.r.todo| && CanMove(waits, CodeOf(calls), c.r, m)
    && (m.Other? && m.step.SetAlone? ==> units(m.step.d) == units(c.r.s.data))
    && (m.Enter? ==>
          && calls(kind, c.r.s.data, m.ops)
          && (c.phases[m.p] == Called(TakeOne, false, false) || c.phases[m.p].Idle?)
          && (c.phases[m.p].Called? ==> kind == TakeOne)
          && (kind == TakeOne ==> !c.phases[m.p].has) && (kind == GiveOne ==> c.phases[m.p].has))
  }

  ghost function PhaseAfter<D, C>(c: Clients<D, C>, m: Move<D, C>, kind: Kind): seq<Phase>
    requires !m.Other? ==> m.p < |c.phases| == |c.r.todo|
    requires m.Perform? ==> |c.r.todo[m.p]| > 0
  {
    match m
    case Enter(p, _) => c.phases[p := Called(kind, c.phases[p].has && kind != GiveOne, false)]
    case Perform(p) =>
      var was := c.phases[p];
      if was.Idle? then c.phases
      else if c.r.todo[p][0].Put? then c.phases[p := was.(stored := true)]
      else if c.r.todo[p][0].Leave? then c.phases[p := Idle(was.has || was.kind == TakeOne)]
      else c.phases
    case _ => c.phases
  }

  ghost function AfterCall<D(!new), C(!new)>(waits: Waits<D, C>, calls: Calls<D, C>, units: D -> nat, c: Clients<D, C>,
                                             m: Move<D, C>, kind: Kind): Clients<D, C>
    requires CanCall(waits, calls, units, c, m, kind)
  {
    Clients(Moved(waits, CodeOf(calls), c.r, m), PhaseAfter(c, m, kind))
  }

  // Until it leaves, the code keeps the count u.
  ghost predicate Steady<D, C>(units: D -> nat, u: nat, ops: seq<Op<D, C>>) {
    && |ops| > 0
    && match ops[0]
       case Put(d) => units(d) == u && Steady(units, u, ops[1..])
       case Wakeup(_) => Steady(units, u, ops[1..])
       case Leave => true
       case Sleep(_) => false
  }

  // What a call of each kind does to the count u: it moves it first and then
  // keeps it, or sleeps at once.
  ghost predicate Proper<D, C>(units: D -> nat, kind: Kind, u: nat, ops: seq<Op<D, C>>) {
    && |ops| > 0
    && match kind
       case Use => Steady(units, u, ops)
       case TakeOne => ops[0].Sleep? || (ops[0].Put? && units(ops[0].d) == u + 1 && Steady(units, u + 1, ops[1..]))
       case GiveOne => ops[0].Put? && units(ops[0].d) + 1 == u && Steady(units, u - 1, ops[1..])
  }

  ghost predicate AllProper<D(!new), C(!new)>(units: D -> nat, calls: Calls<D, C>) {
    forall k, d, ops :: calls(k, d, ops) && (k == GiveOne ==> units(d) > 0) ==> Proper(units, k, units(d), ops)
  }

  // The unit of the process is in the count.
  ghost predicate Counted(p: Phase) {
    match p
    case Idle(has) => has
    case Called(TakeOne, _, stored) => stored
    case Called(GiveOne, _, stored) => !stored
    case Called(Use, has, _) => has
  }

  ghost function One(p: Phase): nat { if Counted(p) then 1 else 0 }

  ghost function Count(phases: seq<Phase>): nat {
    if phases == [] then 0 else Count(phases[..|phases| - 1]) + One(phases[|phases| - 1])
  }

  lemma {:induction false} CountSet(phases: seq<Phase>, p: nat, x: Phase)
    requires p < |phases|
    ensures Count(phases[p := x]) + One(phases[p]) == Count(phases) + One(x)
  {
    var n := |phases| - 1;
    if p == n {
      assert phases[p := x][..n] == phases[..n];
    } else {
      assert phases[p := x][..n] == phases[..n][p := x];
      CountSet(phases[..n], p, x);
    }
  }

  // What the process still has to do fits where it is in its call.
  ghost predicate OnTrack<D, C>(units: D -> nat, u: nat, pc: Pc<C>, phase: Phase, todo: seq<Op<D, C>>) {
    && (phase.Called? && phase.kind == TakeOne ==> !phase.has)
    && (phase.Called? && phase.kind == GiveOne ==> !phase.has)
    && (phase.Idle? ==> pc.Out?)
    && (pc.Inside? || pc.Waking? ==>
          phase.Called? && if phase.stored then Steady(units, u, todo) else Proper(units, phase.kind, u, todo))
    && (pc.Waking? ==> phase.Called? && (phase.stored || phase.kind == Use))
    && (pc.Falling? || pc.Committed? || pc.Asleep? || pc.Woken? ==> phase == Called(TakeOne, false, false))
    && (pc.Out? ==> phase.Idle?)
  }

  ghost predicate Metered<D(!new), C(!new)>(waits: Waits<D, C>, units: D -> nat, c: Clients<D, C>) {
    && RunInv(waits, c.r) && |c.phases| == |c.r.todo| && Count(c.phases) == units(c.r.s.data)
    && forall p :: 0 <= p < |c.phases| ==> OnTrack(units, units(c.r.s.data), c.r.s.pcs[p], c.phases[p], c.r.todo[p])
  }

  // Whoever does not hold lk is on track whatever the count becomes.
  lemma OutsideTrack<D, C>(units: D -> nat, u: nat, u': nat, pc: Pc<C>, phase: Phase, todo: seq<Op<D, C>>)
    requires OnTrack(units, u, pc, phase, todo) && (u == u' || !HoldsLk(pc))
    ensures OnTrack(units, u', pc, phase, todo)
    ensures pc.Asleep? ==> OnTrack(units, u', Woken, phase, todo)
  {
  }

  // The first op of the code that is left, from where the process is.
  lemma OpTrack<D, C>(units: D -> nat, u: nat, pc: Pc<C>, phase: Phase, todo: seq<Op<D, C>>)
    requires OnTrack(units, u, pc, phase, todo) && pc.Inside?
    ensures phase.Called? && |todo| > 0
    ensures todo[0].Put? ==>
              && Steady(units, units(todo[0].d), todo[1..])
              && units(todo[0].d) + One(phase) == u + One(phase.(stored := true))
    ensures todo[0].Wakeup? ==> (phase.stored || phase.kind == Use) && Steady(units, u, todo[1..])
    ensures todo[0].Leave? ==> One(phase) == One(Idle(phase.has || phase.kind == TakeOne))
    ensures todo[0].Sleep? ==> phase == Called(TakeOne, false, false)
  {
  }

  lemma SteadyProper<D, C>(units: D -> nat, u: nat, ops: seq<Op<D, C>>)
    requires Steady(units, u, ops)
    ensures Proper(units, Use, u, ops)
  {
  }

  // The process that moves.
  ghost predicate Tracked<D, C>(units: D -> nat, c: Clients<D, C>, c': Clients<D, C>, p: nat) {
    && p < |c.phases| == |c.r.todo| == |c.r.s.pcs| && |c'.phases| == |c'.r.todo| == |c'.r.s.pcs| == |c.phases|
    && OnTrack(units, units(c'.r.s.data), c'.r.s.pcs[p], c'.phases[p], c'.r.todo[p])
    && units(c'.r.s.data) + One(c.phases[p]) == units(c.r.s.data) + One(c'.phases[p])
    && (c'.r.s.data != c.r.s.data ==> HoldsLk(c.r.s.pcs[p]))
    && c'.phases == c.phases[p := c'.phases[p]] && c'.r.todo == c.r.todo[p := c'.r.todo[p]]
    && forall q :: 0 <= q < |c.phases| && q != p ==>
         c'.r.s.pcs[q] == c.r.s.pcs[q] || (c.r.s.pcs[q].Asleep? && c'.r.s.pcs[q] == Woken)
  }

  lemma EnterTrack<D(!new), C(!new)>(waits: Waits<D, C>, calls: Calls<D, C>, units: D -> nat, c: Clients<D, C>,
                                     p: nat, ops: seq<Op<D, C>>, kind: Kind)
    requires AllProper(units, calls) && CanCall(waits, calls, units, c, Enter(p, ops), kind)
    requires kind == GiveOne ==> units(c.r.s.data) > 0
    ensures Tracked(units, c, AfterCall(waits, calls, units, c, Enter(p, ops), kind), p)
  {
    hide Steady, Proper;
  }

  lemma PerformTrack<D(!new), C(!new)>(waits: Waits<D, C>, calls: Calls<D, C>, units: D -> nat, c: Clients<D, C>,
                                       p: nat, kind: Kind)
    requires CanCall(waits, calls, units, c, Perform(p), kind)
    requires OnTrack(units, units(c.r.s.data), c.r.s.pcs[p], c.phases[p], c.r.todo[p])
    ensures Tracked(units, c, AfterCall(waits, calls, units, c, Perform(p), kind), p)
  {
    hide Steady, Proper, One, NewOwed;
    OpTrack(units, units(c.r.s.data), c.r.s.pcs[p], c.phases[p], c.r.todo[p]);
    if c.r.todo[p][0].Wakeup? {
      SteadyProper(units, units(c.r.s.data), c.r.todo[p][1..]);
    }
  }

  lemma FinishTrack<D(!new), C(!new)>(waits: Waits<D, C>, calls: Calls<D, C>, units: D -> nat, c: Clients<D, C>,
                                      p: nat, kind: Kind)
    requires CanCall(waits, calls, units, c, Finish(p), kind)
    requires OnTrack(units, units(c.r.s.data), c.r.s.pcs[p], c.phases[p], c.r.todo[p])
    ensures Tracked(units, c, AfterCall(waits, calls, units, c, Finish(p), kind), p)
  {
    hide Steady, Proper, One;
  }

  // Everybody is on track after p moved.
  lemma TrackedAll<D(!new), C(!new)>(waits: Waits<D, C>, units: D -> nat, c: Clients<D, C>, c': Clients<D, C>, p: nat)
    requires Metered(waits, units, c) && RunInv(waits, c'.r) && Tracked(units, c, c', p)
    ensures Metered(waits, units, c')
  {
    hide OnTrack, RunInv, Count, One;
    CountSet(c.phases, p, c'.phases[p]);
    var u, u' := units(c.r.s.data), units(c'.r.s.data);
    forall q | 0 <= q < |c'.phases|
      ensures OnTrack(units, u', c'.r.s.pcs[q], c'.phases[q], c'.r.todo[q])
    {
      if q != p {
        OneHolder(waits, c.r, p, q);
        OutsideTrack(units, u, u', c.r.s.pcs[q], c.phases[q], c.r.todo[q]);
      }
    }
  }

  lemma OneHolder<D(!new), C(!new)>(waits: Waits<D, C>, r: Running<D, C>, p: nat, q: nat)
    requires RunInv(waits, r) && p < |r.s.pcs| && q < |r.s.pcs| && p != q
    ensures !(HoldsLk(r.s.pcs[p]) && HoldsLk(r.s.pcs[q]))
  {
  }

  // Whoever has a unit is counted.
  lemma HasCounted<D(!new), C(!new)>(waits: Waits<D, C>, units: D -> nat, c: Clients<D, C>, p: nat)
    requires Metered(waits, units, c) && p < |c.phases| && c.phases[p].has
    ensures Counted(c.phases[p]) && units(c.r.s.data) > 0
  {
    hide Steady, Proper, RunInv;
    CountSet(c.phases, p, Idle(false));
  }

  lemma OtherMetered<D(!new), C(!new)>(waits: Waits<D, C>, calls: Calls<D, C>, units: D -> nat, c: Clients<D, C>,
                                       m: Move<D, C>, kind: Kind)
    requires Metered(waits, units, c) && CanCall(waits, calls, units, c, m, kind) && m.Other?
    requires RunInv(waits, AfterCall(waits, calls, units, c, m, kind).r)
    ensures Metered(waits, units, AfterCall(waits, calls, units, c, m, kind))
  {
    hide Count, Steady, Proper, Inv, Disciplined;
  }

  lemma CallMetered<D(!new), C(!new)>(waits: Waits<D, C>, calls: Calls<D, C>, units: D -> nat, c: Clients<D, C>,
                                      m: Move<D, C>, kind: Kind)
    requires AllProper(units, calls) && AllDisciplined(waits, CodeOf(calls)) && Metered(waits, units, c)
    requires CanCall(waits, calls, units, c, m, kind)
    ensures Metered(waits, units, AfterCall(waits, calls, units, c, m, kind))
  {
    hide OnTrack, RunInv, Count, One, Tracked, AllProper, AllDisciplined, Moved, PhaseAfter;
    MoveInv(waits, CodeOf(calls), c.r, m);
    match m
    case Enter(p, ops) =>
      if c.phases[p].has {
        HasCounted(waits, units, c, p);
      }
      EnterTrack(waits, calls, units, c, p, ops, kind);
      TrackedAll(waits, units, c, AfterCall(waits, calls, units, c, m, kind), p);
    case Perform(p) =>
      PerformTrack(waits, calls, units, c, p, kind);
      TrackedAll(waits, units, c, AfterCall(waits, calls, units, c, m, kind), p);
    case Finish(p) =>
      FinishTrack(waits, calls, units, c, p, kind);
      TrackedAll(waits, units, c, AfterCall(waits, calls, units, c, m, kind), p);
    case Other(_) => OtherMetered(waits, calls, units, c, m, kind);
  }

  ghost predicate Reached<D(!new), C(!new)>(waits: Waits<D, C>, calls: Calls<D, C>, units: D -> nat, n: nat,
                                            a: Clients<D, C>, b: Clients<D, C>)
  {
    if n == 0 then a == b
    else
      exists m, k ::
        CanCall(waits, calls, units, a, m, k) &&
        Reached(waits, calls, units, n - 1, AfterCall(waits, calls, units, a, m, k), b)
  }

  ghost predicate NoneYet<D, C>(units: D -> nat, a: Clients<D, C>) {
    Start(a.r) && |a.phases| == |a.r.todo| && units(a.r.s.data) == 0 &&
        forall p :: 0 <= p < |a.phases| ==> a.phases[p] == Idle(false)
  }

  lemma {:induction false} NoCount(phases: seq<Phase>)
    requires forall p :: 0 <= p < |phases| ==> phases[p] == Idle(false)
    ensures Count(phases) == 0
  {
    if phases != [] {
      NoCount(phases[..|phases| - 1]);
    }
  }

  lemma {:induction false} ReachedMetered<D(!new), C(!new)>(waits: Waits<D, C>, calls: Calls<D, C>, units: D -> nat,
                                                            n: nat, a: Clients<D, C>, b: Clients<D, C>)
    requires AllProper(units, calls) && AllDisciplined(waits, CodeOf(calls)) && Metered(waits, units, a)
    requires Reached(waits, calls, units, n, a, b)
    ensures Metered(waits, units, b)
  {
    hide Metered, CanCall, AfterCall, AllProper, AllDisciplined;
    if n > 0 {
      var m, k :| CanCall(waits, calls, units, a, m, k) &&
          Reached(waits, calls, units, n - 1, AfterCall(waits, calls, units, a, m, k), b);
      CallMetered(waits, calls, units, a, m, k);
      ReachedMetered(waits, calls, units, n - 1, AfterCall(waits, calls, units, a, m, k), b);
    }
  }

  // In every interleaving the data says how many processes have a unit.
  lemma AllMetered<D(!new), C(!new)>(waits: Waits<D, C>, calls: Calls<D, C>, units: D -> nat, n: nat,
                                        a: Clients<D, C>, b: Clients<D, C>)
    requires AllProper(units, calls) && AllDisciplined(waits, CodeOf(calls))
    requires NoneYet(units, a) && Reached(waits, calls, units, n, a, b)
    ensures Metered(waits, units, b)
  {
    hide Reached, AllProper, AllDisciplined, Count, RunInv;
    StartInv(waits, a.r);
    NoCount(a.phases);
    ReachedMetered(waits, calls, units, n, a, b);
  }

  // sleeplock.c. Only its holder calls releasesleep.
  ghost predicate LockCall(k: Kind, locked: bool, ops: seq<Op<bool, LockChan>>) {
    match k
    case TakeOne => ops == AcquireSleep(locked)
    case GiveOne => ops == ReleaseSleep()
    case Use => ops == [Leave]
  }

  ghost const LockCalls: Calls<bool, LockChan> :=
    (k: Kind, locked: bool, ops: seq<Op<bool, LockChan>>) => LockCall(k, locked, ops)

  const LockUnits: bool -> nat := (locked: bool) => if locked then 1 else 0

  lemma LockProper()
    ensures AllProper(LockUnits, LockCalls) && AllDisciplined(LockWaits, CodeOf(LockCalls))
  {
    hide Disciplined;
    LockDisciplined();
    assert forall d, ops :: CodeOf(LockCalls)(d, ops) ==> LockCode(d, ops);
    forall k, d, ops | LockCalls(k, d, ops) && (k == GiveOne ==> LockUnits(d) > 0)
      ensures Proper(LockUnits, k, LockUnits(d), ops)
    {
      var leave: seq<Op<bool, LockChan>> := [Leave];
      assert Steady(LockUnits, 0, leave) && Steady(LockUnits, 1, leave);
      if ops == ReleaseSleep() {
        assert ops[1..] == [Wakeup(TheLock)] + leave && ops[1..][1..] == leave;
      } else if ops == [Put(true)] + leave {
        assert ops[1..] == leave;
      }
    }
  }

  // Mutual exclusion: in every interleaving at most one process is between the
  // return of acquiresleep and the call of releasesleep, and then it is locked.
  lemma SleepLockExcludes(n: nat, a: Clients<bool, LockChan>, b: Clients<bool, LockChan>, p: nat, q: nat)
    requires NoneYet(LockUnits, a) && Reached(LockWaits, LockCalls, LockUnits, n, a, b)
    requires p < |b.phases| && q < |b.phases| && b.phases[p].has && b.phases[q].has
    ensures p == q && b.r.s.data
  {
    hide Reached, AllProper, AllDisciplined, Count, RunInv, OnTrack, Counted;
    LockProper();
    AllMetered(LockWaits, LockCalls, LockUnits, n, a, b);
    HasCounted(LockWaits, LockUnits, b, p);
    HasCounted(LockWaits, LockUnits, b, q);
    if p != q {
      BothCount(b.phases, p, q);
    }
  }

  lemma BothCount(phases: seq<Phase>, p: nat, q: nat)
    requires p < |phases| && q < |phases| && p != q && Counted(phases[p]) && Counted(phases[q])
    ensures Count(phases) >= 2
  {
    hide Count;
    CountSet(phases, p, Idle(false));
    CountSet(phases[p := Idle(false)], q, Idle(false));
  }

  // log.c: the units are the operations under way.
  ghost predicate LogCall(k: Kind, d: LogData, ops: seq<Op<LogData, LogChan>>) {
    match k
    case TakeOne => ops == BeginOp(d)
    case GiveOne => d.outstanding > 0 && !d.committing && ops == EndOp(d)
    case Use =>
      || (d.committing && ops == EndCommit(d))
      || (d.outstanding > 0 && !d.committing && (ops == LogWriteNew(d) || ops == [Leave]))
  }

  ghost const LogCalls: Calls<LogData, LogChan> :=
    (k: Kind, d: LogData, ops: seq<Op<LogData, LogChan>>) => LogCall(k, d, ops)

  const LogUnits: LogData -> nat := (d: LogData) => d.outstanding

  lemma LogProper()
    ensures AllProper(LogUnits, LogCalls) && AllDisciplined(LogWaits, CodeOf(LogCalls))
  {
    hide Disciplined;
    LogDisciplined();
    assert forall d, ops :: CodeOf(LogCalls)(d, ops) ==> LogCode(d, ops);
    forall k, d, ops | LogCalls(k, d, ops)
      ensures Proper(LogUnits, k, LogUnits(d), ops)
    {
      LogCallProper(k, d, ops);
    }
  }

  lemma LogCallProper(k: Kind, d: LogData, ops: seq<Op<LogData, LogChan>>)
    requires LogCalls(k, d, ops)
    ensures Proper(LogUnits, k, LogUnits(d), ops)
  {
    var leave: seq<Op<LogData, LogChan>> := [Leave];
    var u := if |ops| > 0 && ops[0].Put? then LogUnits(ops[0].d) else LogUnits(d);
    assert Steady(LogUnits, u, leave);
    if |ops| == 2 {
      assert ops[1..] == leave;
    } else if |ops| == 3 {
      assert ops[1..] == [ops[1]] + leave && ops[1..][1..] == leave;
    }
  }

  // In every interleaving outstanding is the number of processes that begin_op
  // let in and that have not yet left by end_op.
  lemma OutstandingCounts(n: nat, a: Clients<LogData, LogChan>, b: Clients<LogData, LogChan>)
    requires NoneYet(LogUnits, a) && Reached(LogWaits, LogCalls, LogUnits, n, a, b)
    ensures b.r.s.data.outstanding == Count(b.phases)
    ensures forall p :: 0 <= p < |b.phases| && b.phases[p].has ==> Counted(b.phases[p])
  {
    hide Reached, AllProper, AllDisciplined, Count, RunInv, Counted;
    LogProper();
    AllMetered(LogWaits, LogCalls, LogUnits, n, a, b);
    forall p | 0 <= p < |b.phases| && b.phases[p].has
      ensures Counted(b.phases[p])
    {
      HasCounted(LogWaits, LogUnits, b, p);
    }
  }
}
