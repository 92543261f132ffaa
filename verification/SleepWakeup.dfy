// sleep and wakeup (proc.c) as steps of processes that share data under a
// spinlock lk, with ptable.lock taken inside. C is the type of channels.
module SleepWakeup {
  import opened Common

  // Where a process is. `owed` are the channels whose condition it made false
  // and has not called wakeup for.
  datatype Pc<!C> =
    | Out                            // holds neither lock
    | Inside(owed: iset<C>)          // holds lk
    | Waking(owed: iset<C>, chan: C) // in wakeup, holds lk and ptable.lock
    | Falling(chan: C)               // in sleep, holds lk and ptable.lock
    | Committed(chan: C)             // in sleep, gave up lk
    | Asleep(chan: C)                // SLEEPING
    | Woken                          // RUNNABLE again, to take lk

  datatype State<D, !C> = State(data: D, lk: Option<nat>, ptable: Option<nat>, pcs: seq<Pc<C>>)

  datatype Step<D, !C> =
    | Acquire(p: nat)
    | Set(p: nat, d: D)      // writes the data, holding lk
    | SetAlone(p: nat, d: D) // writes the data without lk
    | Release(p: nat)
    | BeginWakeup(p: nat, c: C)
    | EndWakeup(p: nat)
    | BeginSleep(p: nat, c: C)
    | DropLock(p: nat)
    | Doze(p: nat)
    | Wake(p: nat, c: C)     // a wakeup by a process that does not hold lk
    | Kill(p: nat)

  // waits(c, d): with data d, a process goes to sleep on c.
  type Waits<!D, !C> = (C, D) -> bool

  ghost predicate HoldsLk<C>(pc: Pc<C>) { pc.Inside? || pc.Waking? || pc.Falling? }
  ghost predicate HoldsPtable<C>(pc: Pc<C>) { pc.Waking? || pc.Falling? || pc.Committed? }

  ghost function Owed<C>(pc: Pc<C>): iset<C> {
    match pc
    case Inside(o) => o
    case Waking(o, _) => o
    case _ => iset{}
  }

  // What is owed after the data went from d to d'.
  ghost function NewOwed<D, C(!new)>(waits: Waits<D, C>, owed: iset<C>, d: D, d': D): iset<C> {
    iset c: C | (c in owed || waits(c, d)) && !waits(c, d')
  }

  // wakeup1
  ghost function WakeAll<C>(pcs: seq<Pc<C>>, c: C): (r: seq<Pc<C>>)
    ensures |r| == |pcs|
    ensures forall p :: 0 <= p < |pcs| ==> r[p] == if pcs[p] == Asleep(c) then Woken else pcs[p]
  {
    seq(|pcs|, p requires 0 <= p < |pcs| => if pcs[p] == Asleep(c) then Woken else pcs[p])
  }

  // The process is at the step and the lock it takes is free.
  ghost predicate Ready<D, C(!new)>(waits: Waits<D, C>, s: State<D, C>, step: Step<D, C>) {
    && step.p < |s.pcs|
    && var pc := s.pcs[step.p];
    match step
    case Acquire(_) => (pc.Out? || pc.Woken?) && s.lk.None?
    case Set(_, _) => pc.Inside?
    case SetAlone(_, d) => pc.Out? && forall c :: waits(c, d) == waits(c, s.data)
    case Release(_) => pc.Inside?
    case BeginWakeup(_, _) => pc.Inside? && s.ptable.None?
    case EndWakeup(_) => pc.Waking?
    case BeginSleep(_, c) => pc.Inside? && s.ptable.None?
    case DropLock(_) => pc.Falling?
    case Doze(_) => pc.Committed?
    case Wake(_, _) => pc.Out? && s.ptable.None?
    case Kill(_) => pc.Asleep? && s.ptable.None?
  }

  // The rule for lk: give it up only when no wakeup is owed, and sleep only
  // while the condition for it holds.
  ghost predicate Can<D, C(!new)>(waits: Waits<D, C>, s: State<D, C>, step: Step<D, C>) {
    && Ready(waits, s, step)
    && (step.Release? || step.BeginSleep? ==> s.pcs[step.p] == Inside(iset{}))
    && (step.BeginSleep? ==> waits(step.c, s.data))
  }

  ghost function Do<D, C(!new)>(waits: Waits<D, C>, s: State<D, C>, step: Step<D, C>): State<D, C>
    requires Ready(waits, s, step)
  {
    var p := step.p;
    var pc := s.pcs[p];
    match step
    case Acquire(_) => s.(lk := Some(p), pcs := s.pcs[p := Inside(iset{})])
    case Set(_, d) => s.(data := d, pcs := s.pcs[p := Inside(NewOwed(waits, pc.owed, s.data, d))])
    case SetAlone(_, d) => s.(data := d)
    case Release(_) => s.(lk := None, pcs := s.pcs[p := Out])
    case BeginWakeup(_, c) => s.(ptable := Some(p), pcs := s.pcs[p := Waking(pc.owed, c)])
    case EndWakeup(_) => s.(ptable := None, pcs := WakeAll(s.pcs, pc.chan)[p := Inside(pc.owed - iset{pc.chan})])
    case BeginSleep(_, c) => s.(ptable := Some(p), pcs := s.pcs[p := Falling(c)])
    case DropLock(_) => s.(lk := None, pcs := s.pcs[p := Committed(pc.chan)])
    case Doze(_) => s.(ptable := None, pcs := s.pcs[p := Asleep(pc.chan)])
    case Wake(_, c) => s.(pcs := WakeAll(s.pcs, c))
    case Kill(_) => s.(pcs := s.pcs[p := Woken])
  }

  // In sleep on c, before being woken.
  ghost predicate Sleeper<C>(pc: Pc<C>, c: C) { pc == Falling(c) || pc == Committed(c) || pc == Asleep(c) }

  // The locks have the holders they say.
  ghost predicate Locks<D, C>(s: State<D, C>) {
    && (forall p :: 0 <= p < |s.pcs| ==> (HoldsLk(s.pcs[p]) <==> s.lk == Some(p)))
    && (forall p :: 0 <= p < |s.pcs| ==> (HoldsPtable(s.pcs[p]) <==> s.ptable == Some(p)))
    && (s.lk.Some? ==> s.lk.value < |s.pcs|)
    && (s.ptable.Some? ==> s.ptable.value < |s.pcs|)
  }

  // c's condition is made false and its wakeup is still to come.
  ghost predicate Promised<D, C>(s: State<D, C>, c: C) {
    s.lk.Some? && s.lk.value < |s.pcs| && c in Owed(s.pcs[s.lk.value])
  }

  // A sleeper waits for something that is not so, or the holder of lk is going
  // to wake it.
  ghost predicate Awaited<D, C(!new)>(waits: Waits<D, C>, s: State<D, C>) {
    && (forall q, c :: 0 <= q < |s.pcs| && Sleeper(s.pcs[q], c) ==> waits(c, s.data) || Promised(s, c))
    && (forall q, c :: 0 <= q < |s.pcs| && c in Owed(s.pcs[q]) ==> !waits(c, s.data))
  }

  ghost predicate Inv<D, C(!new)>(waits: Waits<D, C>, s: State<D, C>) { Locks(s) && Awaited(waits, s) }

  lemma StepLocks<D, C(!new)>(waits: Waits<D, C>, s: State<D, C>, step: Step<D, C>)
    requires Inv(waits, s) && Can(waits, s, step)
    ensures Locks(Do(waits, s, step))
  {
    hide Awaited, NewOwed;
  }

  // Steps of one process that leave the data as it is: it goes from pc to pc',
  // owing the same, or it takes or leaves lk owing nothing.
  lemma OneStep<D, C(!new)>(waits: Waits<D, C>, s: State<D, C>, s': State<D, C>, p: nat, pc': Pc<C>)
    requires Locks(s) && Awaited(waits, s) && p < |s.pcs|
    requires s'.data == s.data && s'.pcs == s.pcs[p := pc'] && Owed(pc') == Owed(s.pcs[p])
    requires s'.lk == s.lk || (Owed(pc') == iset{} && (s.lk == None || s.lk == Some(p)))
    requires forall c :: Sleeper(pc', c) ==> Sleeper(s.pcs[p], c) || waits(c, s.data)
    ensures Awaited(waits, s')
  {
    forall q, c | 0 <= q < |s'.pcs| && Sleeper(s'.pcs[q], c)
      ensures waits(c, s'.data) || Promised(s', c)
    {
      assert Sleeper(s.pcs[q], c) || waits(c, s.data);
      assert waits(c, s.data) || Promised(s, c);
    }
  }

  lemma SetStep<D, C(!new)>(waits: Waits<D, C>, s: State<D, C>, p: nat, d: D)
    requires Locks(s) && Awaited(waits, s) && p < |s.pcs| && s.pcs[p].Inside?
    ensures Awaited(waits, s.(data := d, pcs := s.pcs[p := Inside(NewOwed(waits, s.pcs[p].owed, s.data, d))]))
  {
    assert s.lk == Some(p);
    forall q, c | 0 <= q < |s.pcs| && q != p
      ensures c !in Owed(s.pcs[q])
    {
      assert !HoldsLk(s.pcs[q]);
    }
  }

  lemma SetAloneStep<D, C(!new)>(waits: Waits<D, C>, s: State<D, C>, d: D)
    requires Awaited(waits, s) && forall c :: waits(c, d) == waits(c, s.data)
    ensures Awaited(waits, s.(data := d))
  {
    forall q, c | 0 <= q < |s.pcs| && Sleeper(s.pcs[q], c)
      ensures waits(c, d) || Promised(s.(data := d), c)
    {
      assert waits(c, s.data) || Promised(s, c);
    }
  }

  lemma WakeStep<D, C(!new)>(waits: Waits<D, C>, s: State<D, C>, c: C)
    requires Locks(s) && Awaited(waits, s)
    ensures Awaited(waits, s.(pcs := WakeAll(s.pcs, c)))
    ensures forall q :: 0 <= q < |s.pcs| && Sleeper(WakeAll(s.pcs, c)[q], c) ==> s.ptable == Some(q)
  {
    var s' := s.(pcs := WakeAll(s.pcs, c));
    forall q, x | 0 <= q < |s'.pcs| && Sleeper(s'.pcs[q], x)
      ensures waits(x, s.data) || Promised(s', x)
    {
      assert s'.pcs[q] == s.pcs[q];
      assert waits(x, s.data) || Promised(s, x);
    }
  }

  lemma EndWakeupStep<D, C(!new)>(waits: Waits<D, C>, s: State<D, C>, p: nat)
    requires Locks(s) && Awaited(waits, s) && p < |s.pcs| && s.pcs[p].Waking?
    ensures var pc := s.pcs[p];
            Awaited(waits, s.(ptable := None, pcs := WakeAll(s.pcs, pc.chan)[p := Inside(pc.owed - iset{pc.chan})]))
  {
    var pc := s.pcs[p];
    var s1 := s.(pcs := WakeAll(s.pcs, pc.chan));
    var s' := s.(ptable := None, pcs := s1.pcs[p := Inside(pc.owed - iset{pc.chan})]);
    WakeStep(waits, s, pc.chan);
    assert s.lk == Some(p) && s.ptable == Some(p);
    forall q, x | 0 <= q < |s'.pcs| && Sleeper(s'.pcs[q], x)
      ensures waits(x, s'.data) || Promised(s', x)
    {
      assert Sleeper(s1.pcs[q], x) && q != p;
      assert waits(x, s.data) || Promised(s1, x);
    }
  }

  lemma StepAwaited<D, C(!new)>(waits: Waits<D, C>, s: State<D, C>, step: Step<D, C>)
    requires Inv(waits, s) && Can(waits, s, step)
    ensures Awaited(waits, Do(waits, s, step))
  {
    hide Awaited, Locks, NewOwed;
    var s', p := Do(waits, s, step), step.p;
    match step
    case Set(_, d) => SetStep(waits, s, p, d);
    case SetAlone(_, d) => SetAloneStep(waits, s, d);
    case EndWakeup(_) => EndWakeupStep(waits, s, p);
    case Wake(_, c) => WakeStep(waits, s, c);
    case _ =>
      HolderIs(s, p);
      OneStep(waits, s, s', p, s'.pcs[p]);
  }

  lemma HolderIs<D, C>(s: State<D, C>, p: nat)
    requires Locks(s) && p < |s.pcs|
    ensures HoldsLk(s.pcs[p]) <==> s.lk == Some(p)
  {
  }

  lemma StepInv<D, C(!new)>(waits: Waits<D, C>, s: State<D, C>, step: Step<D, C>)
    requires Inv(waits, s) && Can(waits, s, step)
    ensures Inv(waits, Do(waits, s, step))
  {
    hide Locks, Awaited, Do;
    StepLocks(waits, s, step);
    StepAwaited(waits, s, step);
  }

  // After a wakeup nobody is in sleep on its channel.
  lemma WakeupReachesAll<D, C(!new)>(waits: Waits<D, C>, s: State<D, C>, p: nat, q: nat)
    requires Inv(waits, s) && Ready(waits, s, EndWakeup(p)) && q < |s.pcs|
    ensures !Sleeper(Do(waits, s, EndWakeup(p)).pcs[q], s.pcs[p].chan)
  {
  }

  // A process asleep on c stays so until a wakeup of c, or until it is killed; then
  // it takes lk again when it can.
  lemma SleepsUntil<D, C(!new)>(waits: Waits<D, C>, s: State<D, C>, step: Step<D, C>, q: nat, c: C)
    requires Inv(waits, s) && Ready(waits, s, step) && q < |s.pcs| && s.pcs[q] == Asleep(c)
    ensures var s' := Do(waits, s, step);
            var called := (step.EndWakeup? && s.pcs[step.p].chan == c) || (step.Wake? && step.c == c) ||
                          (step.Kill? && step.p == q);
            && (!called ==> s'.pcs[q] == Asleep(c))
            && (called && s'.lk.None? ==> Ready(waits, s', Acquire(q)))
  {
    hide NewOwed, Awaited;
  }

  // What a process does between acquire(lk) and giving lk up.
  datatype Op<D, !C> = Put(d: D) | Wakeup(c: C) | Leave | Sleep(c: C)

  // The data it leaves.
  function Left<D, C>(d: D, ops: seq<Op<D, C>>): D
    decreases |ops|
  {
    if ops == [] then d else Left(if ops[0].Put? then ops[0].d else d, ops[1..])
  }

  // Code that keeps the rule when it runs from data d.
  ghost predicate Disciplined<D, C(!new)>(waits: Waits<D, C>, d: D, owed: iset<C>, ops: seq<Op<D, C>>) {
    && |ops| > 0
    && match ops[0]
       case Put(d') => Disciplined(waits, d', NewOwed(waits, owed, d, d'), ops[1..])
       case Wakeup(c) => Disciplined(waits, d, owed - iset{c}, ops[1..])
       case Leave => owed == iset{}
       case Sleep(c) => owed == iset{} && waits(c, d)
  }

  lemma {:induction false} SameDiscipline<D, C(!new)>(waits: Waits<D, C>, d: D, d': D, owed: iset<C>,
                                                      ops: seq<Op<D, C>>)
    requires Disciplined(waits, d, owed, ops) && forall c :: waits(c, d) == waits(c, d')
    ensures Disciplined(waits, d', owed, ops)
    decreases |ops|
  {
    match ops[0]
    case Put(e) =>
      assert NewOwed(waits, owed, d, e) == NewOwed(waits, owed, d', e);
    case Wakeup(c) =>
      SameDiscipline(waits, d, d', owed - iset{c}, ops[1..]);
    case _ =>
  }

  // The processes running such code. todo[p] is what p has left to do.
  datatype Running<D, !C> = Running(s: State<D, C>, todo: seq<seq<Op<D, C>>>)

  datatype Move<D, !C> =
    | Enter(p: nat, ops: seq<Op<D, C>>) // acquire(lk), and go on with ops
    | Perform(p: nat)                   // the next op, or its first half
    | Finish(p: nat)                    // the next half of wakeup or sleep
    | Other(step: Step<D, C>)

  // The code of an instance: what may be run after acquire(lk) finds data d.
  type Code<!D, !C> = (D, seq<Op<D, C>>) -> bool

  ghost function StepOf<D, C>(r: Running<D, C>, m: Move<D, C>): Step<D, C>
    requires !m.Other? ==> m.p < |r.s.pcs| == |r.todo|
    requires m.Perform? ==> |r.todo[m.p]| > 0
  {
    match m
    case Enter(p, _) => Acquire(p)
    case Perform(p) =>
      (match r.todo[p][0]
       case Put(d) => Set(p, d)
       case Wakeup(c) => BeginWakeup(p, c)
       case Leave => Release(p)
       case Sleep(c) => BeginSleep(p, c))
    case Finish(p) =>
      if r.s.pcs[p].Waking? then EndWakeup(p) else if r.s.pcs[p].Falling? then DropLock(p) else Doze(p)
    case Other(step) => step
  }

  ghost predicate CanMove<D(!new), C(!new)>(waits: Waits<D, C>, code: Code<D, C>, r: Running<D, C>, m: Move<D, C>) {
    && |r.todo| == |r.s.pcs|
    && (!m.Other? ==> m.p < |r.todo|)
    && (m.Enter? ==> code(r.s.data, m.ops))
    && (m.Perform? ==> r.s.pcs[m.p].Inside? && |r.todo[m.p]| > 0)
    && (m.Other? ==> m.step.SetAlone? || m.step.Wake? || m.step.Kill?)
    && Ready(waits, r.s, StepOf(r, m))
  }

  ghost function Moved<D(!new), C(!new)>(waits: Waits<D, C>, code: Code<D, C>, r: Running<D, C>,
                                         m: Move<D, C>): Running<D, C>
    requires CanMove(waits, code, r, m)
  {
    Running(Do(waits, r.s, StepOf(r, m)), match m
            case Enter(p, ops) => r.todo[p := ops]
            case Perform(p) => r.todo[p := r.todo[p][1..]]
            case _ => r.todo)
  }

  ghost predicate AllDisciplined<D(!new), C(!new)>(waits: Waits<D, C>, code: Code<D, C>) {
    forall d, ops :: code(d, ops) ==> Disciplined(waits, d, iset{}, ops)
  }

  ghost predicate RunInv<D(!new), C(!new)>(waits: Waits<D, C>, r: Running<D, C>) {
    && Inv(waits, r.s) && |r.todo| == |r.s.pcs|
    && (forall p :: 0 <= p < |r.todo| && r.s.pcs[p].Inside? ==>
        Disciplined(waits, r.s.data, r.s.pcs[p].owed, r.todo[p]))
    && (forall p :: 0 <= p < |r.todo| && r.s.pcs[p].Waking? ==>
          Disciplined(waits, r.s.data, r.s.pcs[p].owed - iset{r.s.pcs[p].chan}, r.todo[p]))
  }

  lemma MoveInv<D(!new), C(!new)>(waits: Waits<D, C>, code: Code<D, C>, r: Running<D, C>, m: Move<D, C>)
    requires AllDisciplined(waits, code) && RunInv(waits, r) && CanMove(waits, code, r, m)
    ensures Can(waits, r.s, StepOf(r, m)) && RunInv(waits, Moved(waits, code, r, m))
  {
    var step := StepOf(r, m);
    StepInv(waits, r.s, step);
    var r' := Moved(waits, code, r, m);
    forall p | 0 <= p < |r'.todo|
      ensures r'.s.pcs[p].Inside? ==> Disciplined(waits, r'.s.data, r'.s.pcs[p].owed, r'.todo[p])
      ensures r'.s.pcs[p].Waking? ==> Disciplined(waits, r'.s.data, r'.s.pcs[p].owed - iset{r'.s.pcs[p].chan},
          r'.todo[p])
    {
      if step.SetAlone? && r.s.pcs[p].Inside? {
        SameDiscipline(waits, r.s.data, r'.s.data, r.s.pcs[p].owed, r.todo[p]);
      } else if step.SetAlone? && r.s.pcs[p].Waking? {
        SameDiscipline(waits, r.s.data, r'.s.data, r.s.pcs[p].owed - iset{r.s.pcs[p].chan}, r.todo[p]);
      }
    }
  }

  ghost predicate Start<D, C>(r: Running<D, C>) {
    && r.s.lk.None? && r.s.ptable.None? && |r.todo| == |r.s.pcs| && forall p :: 0 <= p < |r.s.pcs| ==> r.s.pcs[p] == Out
  }

  // b is reached from a in n moves, in any order of the processes.
  ghost predicate Reach<D(!new), C(!new)>(waits: Waits<D, C>, code: Code<D, C>, n: nat, a: Running<D, C>,
                                          b: Running<D, C>)
  {
    if n == 0 then a == b
    else exists m :: CanMove(waits, code, a, m) && Reach(waits, code, n - 1, Moved(waits, code, a, m), b)
  }

  lemma {:induction false} ReachInv<D(!new), C(!new)>(waits: Waits<D, C>, code: Code<D, C>, n: nat, a: Running<D, C>,
                                                      b: Running<D, C>)
    requires AllDisciplined(waits, code) && RunInv(waits, a) && Reach(waits, code, n, a, b)
    ensures RunInv(waits, b)
  {
    hide RunInv, CanMove, Moved, AllDisciplined;
    if n > 0 {
      var m :| CanMove(waits, code, a, m) && Reach(waits, code, n - 1, Moved(waits, code, a, m), b);
      MoveInv(waits, code, a, m);
      ReachInv(waits, code, n - 1, Moved(waits, code, a, m), b);
    }
  }

  // Before it gives up lk, the code calls wakeup(c) or makes the condition of c
  // hold again.
  ghost predicate Settles<D, C>(waits: Waits<D, C>, c: C, ops: seq<Op<D, C>>) {
    && |ops| > 0
    && match ops[0]
       case Put(d) => waits(c, d) || Settles(waits, c, ops[1..])
       case Wakeup(c') => c' == c || Settles(waits, c, ops[1..])
       case _ => false
  }

  lemma {:induction false} DisciplineSettles<D, C(!new)>(waits: Waits<D, C>, d: D, owed: iset<C>, ops: seq<Op<D, C>>,
                                                         c: C)
    requires Disciplined(waits, d, owed, ops) && c in owed
    ensures Settles(waits, c, ops)
    decreases |ops|
  {
    match ops[0]
    case Put(e) =>
      if !waits(c, e) {
        DisciplineSettles(waits, e, NewOwed(waits, owed, d, e), ops[1..], c);
      }
    case Wakeup(c') =>
      if c' != c {
        DisciplineSettles(waits, d, owed - iset{c'}, ops[1..], c);
      }
    case _ =>
  }

  // No wakeup is lost: in every interleaving, while lk is free, whoever is in
  // sleep on c waits for something that is not so; and while lk is held, its
  // holder settles with the sleepers before it gives lk up.
  lemma NoLostWakeup<D(!new), C(!new)>(waits: Waits<D, C>, code: Code<D, C>, n: nat, a: Running<D, C>, b: Running<D, C>,
                                       q: nat, c: C)
    requires AllDisciplined(waits, code) && Start(a) && Reach(waits, code, n, a, b)
    requires q < |b.s.pcs| && Sleeper(b.s.pcs[q], c)
    ensures b.s.lk.None? ==> waits(c, b.s.data)
    ensures b.s.lk.Some? && !waits(c, b.s.data) ==>
              && b.s.lk.value < |b.s.pcs| == |b.todo|
              && var pc := b.s.pcs[b.s.lk.value];
              (pc.Waking? && pc.chan == c) || Settles(waits, c, b.todo[b.s.lk.value])
  {
    hide RunInv, CanMove, Moved, AllDisciplined, Reach, Sleeper, Settles;
    StartInv(waits, a);
    ReachInv(waits, code, n, a, b);
    InvSettles(waits, b, q, c);
  }

  lemma StartInv<D(!new), C(!new)>(waits: Waits<D, C>, a: Running<D, C>)
    requires Start(a)
    ensures RunInv(waits, a)
  {
  }

  lemma InvSettles<D(!new), C(!new)>(waits: Waits<D, C>, b: Running<D, C>, q: nat, c: C)
    requires RunInv(waits, b) && q < |b.s.pcs| && Sleeper(b.s.pcs[q], c)
    ensures b.s.lk.None? ==> waits(c, b.s.data)
    ensures b.s.lk.Some? && !waits(c, b.s.data) ==>
              && b.s.lk.value < |b.s.pcs| == |b.todo|
              && var pc := b.s.pcs[b.s.lk.value];
              (pc.Waking? && pc.chan == c) || Settles(waits, c, b.todo[b.s.lk.value])
  {
    hide Disciplined, Settles;
    if b.s.lk.Some? && !waits(c, b.s.data) {
      var p := b.s.lk.value;
      var pc := b.s.pcs[p];
      if pc.Inside? {
        DisciplineSettles(waits, b.s.data, pc.owed, b.todo[p], c);
      } else if pc.chan != c {
        DisciplineSettles(waits, b.s.data, pc.owed - iset{pc.chan}, b.todo[p], c);
      }
    }
  }

  // Code one op at a time.
  lemma DoPut<D, C(!new)>(waits: Waits<D, C>, d: D, owed: iset<C>, d': D, owed': iset<C>, rest: seq<Op<D, C>>)
    requires Disciplined(waits, d', owed', rest) && NewOwed(waits, owed, d, d') == owed'
    ensures Disciplined(waits, d, owed, [Put(d')] + rest)
  {
    assert ([Put(d')] + rest)[1..] == rest;
  }

  lemma DoWakeup<D, C(!new)>(waits: Waits<D, C>, d: D, owed: iset<C>, c: C, owed': iset<C>, rest: seq<Op<D, C>>)
    requires Disciplined(waits, d, owed', rest) && owed - iset{c} == owed'
    ensures Disciplined(waits, d, owed, [Wakeup(c)] + rest)
  {
    assert ([Op<D, C>.Wakeup(c)] + rest)[1..] == rest;
  }
}
