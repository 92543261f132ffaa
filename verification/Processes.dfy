// The life of processes (proc.c): each step is what one holder of ptable.lock
// does, or a store that fork makes without it.
module Processes {
  import opened Common

  datatype ProcState = UNUSED | EMBRYO | SLEEPING | RUNNABLE | RUNNING | ZOMBIE

  // wait sleeps on the address of the process itself.
  datatype Chan = NoChan | Self(p: nat) | Other(id: nat)

  datatype Proc = Proc(state: ProcState, pid: nat, parent: Option<nat>, chan: Chan, killed: bool)

  // ptable.proc, cpus[k].proc, nextpid and initproc; processes are their slots.
  datatype Sys = Sys(procs: seq<Proc>, cpus: seq<Option<nat>>, nextpid: nat, init: nat)

  datatype Step =
    | Alloc(p: nat)              // allocproc
    | GiveBack(p: nat)           // its failure, or that of copyuvm
    | Adopt(c: nat, p: nat)      // fork sets the parent
    | Ready(p: nat)              // the end of fork
    | Exit(c: nat)
    | Reap(c: nat, z: nat)       // wait finds zombie z
    | WaitSleep(c: nat)          // wait finds none
    | Sleep(c: nat, chan: nat)   // sleep on another channel
    | Yield(c: nat)
    | Pick(k: nat, p: nat)       // scheduler
    | Wakeup(chan: nat)
    | Kill(p: nat)

  predicate Alive(s: ProcState) { s == SLEEPING || s == RUNNABLE || s == RUNNING }

  // wakeup1
  function WakeOn(procs: seq<Proc>, chan: Chan): (r: seq<Proc>)
    ensures |r| == |procs|
    ensures forall p {:trigger r[p]} :: 0 <= p < |procs| ==>
              r[p] == if procs[p].state == SLEEPING &&
                  procs[p].chan == chan then procs[p].(state := RUNNABLE) else procs[p]
  {
    seq(|procs|, p requires 0 <= p < |procs| =>
      if procs[p].state == SLEEPING && procs[p].chan == chan then procs[p].(state := RUNNABLE) else procs[p])
  }

  // What a process pointer is as a channel.
  function ChanOf(p: Option<nat>): Chan { if p.Some? then Self(p.value) else NoChan }

  function HasZombie(procs: seq<Proc>, c: nat, n: nat): (b: bool)
    requires n <= |procs|
    ensures b <==> exists z :: 0 <= z < n && procs[z].parent == Some(c) && procs[z].state == ZOMBIE
  {
    n > 0 && ((procs[n - 1].parent == Some(c) && procs[n - 1].state == ZOMBIE) || HasZombie(procs, c, n - 1))
  }

  // The children of c given to init.
  function Orphaned(procs: seq<Proc>, c: nat, init: nat): (r: seq<Proc>)
    ensures |r| == |procs|
    ensures forall p {:trigger r[p]} :: 0 <= p < |procs| ==>
              r[p] == if procs[p].parent == Some(c) then procs[p].(parent := Some(init)) else procs[p]
  {
    seq(|procs|,
        p requires 0 <= p < |procs| => if procs[p].parent == Some(c) then procs[p].(parent := Some(init)) else procs[p])
  }

  // exit, up to the state of c.
  function Exited(procs: seq<Proc>, c: nat, init: nat): (r: seq<Proc>)
    requires c < |procs|
  {
    var a := WakeOn(procs, ChanOf(procs[c].parent));
    var b := if HasZombie(a, c, |a|) then WakeOn(Orphaned(a, c, init), Self(init)) else Orphaned(a, c, init);
    b[c := b[c].(state := ZOMBIE)]
  }

  // c gives up the CPU it is on.
  function OffCpu(cpus: seq<Option<nat>>, c: nat): (r: seq<Option<nat>>)
    ensures |r| == |cpus|
    ensures forall k {:trigger r[k]} :: 0 <= k < |cpus| ==> r[k] == if cpus[k] == Some(c) then None else cpus[k]
  {
    seq(|cpus|, k requires 0 <= k < |cpus| => if cpus[k] == Some(c) then None else cpus[k])
  }

  predicate Can(s: Sys, step: Step) {
    match step
    case Alloc(p) => p < |s.procs| && s.procs[p].state == UNUSED
    case GiveBack(p) => p < |s.procs| && s.procs[p].state == EMBRYO && s.procs[p].parent == None
    case Adopt(c, p) =>
      && p < |s.procs| && s.procs[p].state == EMBRYO && s.procs[p].parent == None
      && c < |s.procs| && s.procs[c].state == RUNNING
    case Ready(p) => p < |s.procs| && s.procs[p].state == EMBRYO && s.procs[p].parent != None
    case Exit(c) => c < |s.procs| && s.procs[c].state == RUNNING && c != s.init
    case Reap(c, z) =>
      && c < |s.procs| && s.procs[c].state == RUNNING
      && z < |s.procs| && s.procs[z].parent == Some(c) && s.procs[z].state == ZOMBIE
    case WaitSleep(c) => c < |s.procs| && s.procs[c].state == RUNNING && !HasZombie(s.procs, c, |s.procs|)
    case Sleep(c, _) => c < |s.procs| && s.procs[c].state == RUNNING
    case Yield(c) => c < |s.procs| && s.procs[c].state == RUNNING
    case Pick(k, p) => k < |s.cpus| && s.cpus[k] == None && p < |s.procs| && s.procs[p].state == RUNNABLE
    case Wakeup(_) => true
    case Kill(p) => p < |s.procs|
  }

  function Do(s: Sys, step: Step): Sys
    requires Can(s, step)
  {
    match step
    case Alloc(p) => s.(procs := s.procs[p := s.procs[p].(state := EMBRYO, pid := s.nextpid)], nextpid := s.nextpid + 1)
    case GiveBack(p) => s.(procs := s.procs[p := s.procs[p].(state := UNUSED)])
    case Adopt(c, p) => s.(procs := s.procs[p := s.procs[p].(parent := Some(c))])
    case Ready(p) => s.(procs := s.procs[p := s.procs[p].(state := RUNNABLE)])
    case Exit(c) => s.(procs := Exited(s.procs, c, s.init), cpus := OffCpu(s.cpus, c))
    case Reap(c, z) =>
      s.(procs := s.procs[z := s.procs[z].(state := UNUSED, pid := 0, parent := None, killed := false)])
    case WaitSleep(c) =>
      s.(procs := s.procs[c := s.procs[c].(state := SLEEPING, chan := Self(c))], cpus := OffCpu(s.cpus, c))
    case Sleep(c, chan) =>
      s.(procs := s.procs[c := s.procs[c].(state := SLEEPING, chan := Other(chan))], cpus := OffCpu(s.cpus, c))
    case Yield(c) => s.(procs := s.procs[c := s.procs[c].(state := RUNNABLE)], cpus := OffCpu(s.cpus, c))
    case Pick(k, p) => s.(procs := s.procs[p := s.procs[p].(state := RUNNING)], cpus := s.cpus[k := Some(p)])
    case Wakeup(chan) => s.(procs := WakeOn(s.procs, Other(chan)))
    case Kill(p) =>
      var proc := s.procs[p].(killed := true);
      s.(procs := s.procs[p := if proc.state == SLEEPING then proc.(state := RUNNABLE) else proc])
  }

  // s' is s after the step.
  predicate Took(s: Sys, step: Step, s': Sys) { Can(s, step) && s' == Do(s, step) }

  // Nobody's parent is a zombie or gone.
  ghost predicate Parents(s: Sys) {
    && s.init < |s.procs| && Alive(s.procs[s.init].state) && s.procs[s.init].parent == None
    && (forall p :: 0 <= p < |s.procs| && s.procs[p].parent.Some? ==>
          s.procs[p].parent.value < |s.procs| && s.procs[p].parent.value != p &&
              Alive(s.procs[s.procs[p].parent.value].state))
    && (forall p :: 0 <= p < |s.procs| && s.procs[p].state == UNUSED ==> s.procs[p].parent == None)
    && (forall p :: 0 <= p < |s.procs| && p != s.init && (Alive(s.procs[p].state) || s.procs[p].state == ZOMBIE) ==>
        s.procs[p].parent.Some?)
  }

  // Nobody sleeps in wait beside a zombie child.
  ghost predicate Waiters(s: Sys) {
    && (forall p :: 0 <= p < |s.procs| && s.procs[p].state == SLEEPING && s.procs[p].chan.Self? ==>
        s.procs[p].chan.p == p)
    && (forall z ::
          0 <= z < |s.procs| && s.procs[z].state == ZOMBIE && s.procs[z].parent.Some? &&
              s.procs[z].parent.value < |s.procs| ==>
          var q := s.procs[s.procs[z].parent.value];
          !(q.state == SLEEPING && q.chan.Self?))
  }

  // A process runs iff it is on exactly one CPU.
  ghost predicate Cpus(s: Sys) {
    && (forall k :: 0 <= k < |s.cpus| && s.cpus[k].Some? ==> s.cpus[k].value < |s.procs| &&
                                                             s.procs[s.cpus[k].value].state == RUNNING)
    && (forall p :: 0 <= p < |s.procs| && s.procs[p].state == RUNNING ==> Some(p) in s.cpus)
    && (forall j, k :: 0 <= j < k < |s.cpus| && s.cpus[j].Some? ==> s.cpus[j] != s.cpus[k])
  }

  ghost predicate Pids(s: Sys) {
    && s.nextpid > 0
    && (forall p :: 0 <= p < |s.procs| && s.procs[p].state != UNUSED ==> 0 < s.procs[p].pid < s.nextpid)
    && (forall p, q :: 0 <= p < q < |s.procs| && s.procs[p].state != UNUSED && s.procs[q].state != UNUSED ==>
        s.procs[p].pid != s.procs[q].pid)
  }

  ghost predicate Inv(s: Sys) { Parents(s) && Waiters(s) && Cpus(s) && Pids(s) }

  // One slot changes: what each part of the invariant asks of the new value.
  lemma SetParents(s: Sys, p: nat, x: Proc, s': Sys)
    requires Parents(s) && p < |s.procs| && s'.procs == s.procs[p := x] && s'.init == s.init
    requires x.parent.Some? ==> x.parent.value < |s.procs| && x.parent.value != p &&
                                Alive(s.procs[x.parent.value].state)
    requires x.state == UNUSED ==> x.parent == None
    requires p != s.init && (Alive(x.state) || x.state == ZOMBIE) ==> x.parent.Some?
    requires p == s.init ==> x.parent == None
    requires Alive(s.procs[p].state) && !Alive(x.state) ==> p != s.init && forall q :: 0 <= q < |s.procs| ==>
        s.procs[q].parent != Some(p)
    ensures Parents(s')
  {
    hide Alive;
  }

  lemma SetWaiters(s: Sys, p: nat, x: Proc, s': Sys)
    requires Waiters(s) && p < |s.procs| && s'.procs == s.procs[p := x]
    requires x.state == SLEEPING && x.chan.Self? ==>
               x.chan.p == p && forall z :: 0 <= z < |s.procs| && s.procs[z].parent == Some(p) ==>
                   s.procs[z].state != ZOMBIE
    requires x.state == ZOMBIE ==>
               (s.procs[p].state == ZOMBIE && s.procs[p].parent == x.parent) ||
               (x.parent.Some? && x.parent.value < |s.procs| && x.parent.value != p &&
                !(s.procs[x.parent.value].state == SLEEPING && s.procs[x.parent.value].chan.Self?))
    requires x.state == SLEEPING && x.chan.Self? ==> s.procs[p].state != ZOMBIE
    ensures Waiters(s')
  {
  }

  lemma SetPids(s: Sys, p: nat, x: Proc, s': Sys)
    requires Pids(s) && p < |s.procs| && s'.procs == s.procs[p := x] && s'.nextpid >= s.nextpid
    requires x.state != UNUSED ==>
               (s.procs[p].state != UNUSED && x.pid == s.procs[p].pid) || (x.pid == s.nextpid && s'.nextpid > s.nextpid)
    ensures Pids(s')
  {
  }

  // A slot that is neither RUNNING before nor after.
  lemma SetCpus(s: Sys, p: nat, x: Proc, s': Sys)
    requires Cpus(s) && p < |s.procs| && s'.procs == s.procs[p := x] && s'.cpus == s.cpus
    requires (s.procs[p].state == RUNNING) == (x.state == RUNNING)
    ensures Cpus(s')
  {
  }

  lemma LeaveCpu(s: Sys, p: nat, x: Proc, s': Sys)
    requires Cpus(s) && p < |s.procs| && s'.procs == s.procs[p := x] && s'.cpus == OffCpu(s.cpus, p) &&
             x.state != RUNNING
    ensures Cpus(s')
  {
    hide OffCpu;
    forall q | 0 <= q < |s'.procs| && s'.procs[q].state == RUNNING
      ensures Some(q) in s'.cpus
    {
      var k :| 0 <= k < |s.cpus| && s.cpus[k] == Some(q);
      assert s'.cpus[k] == Some(q);
    }
  }

  lemma TakeCpu(s: Sys, p: nat, x: Proc, k: nat, s': Sys)
    requires Cpus(s) && p < |s.procs| && s'.procs == s.procs[p := x] && x.state == RUNNING &&
             s.procs[p].state != RUNNING
    requires k < |s.cpus| && s.cpus[k] == None && s'.cpus == s.cpus[k := Some(p)]
    ensures Cpus(s')
  {
    forall q | 0 <= q < |s'.procs| && s'.procs[q].state == RUNNING
      ensures Some(q) in s'.cpus
    {
      if q == p {
        assert s'.cpus[k] == Some(q);
      } else {
        var j :| 0 <= j < |s.cpus| && s.cpus[j] == Some(q);
        assert s'.cpus[j] == Some(q);
      }
    }
  }

  // Sleepers may become RUNNABLE.
  lemma Softly(s: Sys, s': Sys)
    requires Inv(s) && s' == s.(procs := s'.procs) && |s'.procs| == |s.procs|
    requires forall p :: 0 <= p < |s.procs| ==>
               s'.procs[p] == s.procs[p] || (s.procs[p].state == SLEEPING &&
                   s'.procs[p] == s.procs[p].(state := RUNNABLE))
    ensures Inv(s')
  {
    SoftParents(s, s');
    SoftRest(s, s');
  }

  lemma SoftParents(s: Sys, s': Sys)
    requires Parents(s) && s' == s.(procs := s'.procs) && |s'.procs| == |s.procs|
    requires forall p :: 0 <= p < |s.procs| ==>
               s'.procs[p] == s.procs[p] || (s.procs[p].state == SLEEPING &&
                   s'.procs[p] == s.procs[p].(state := RUNNABLE))
    ensures Parents(s')
  {
  }

  lemma SoftRest(s: Sys, s': Sys)
    requires Waiters(s) && Cpus(s) && Pids(s) && s' == s.(procs := s'.procs) && |s'.procs| == |s.procs|
    requires forall p :: 0 <= p < |s.procs| ==>
               s'.procs[p] == s.procs[p] || (s.procs[p].state == SLEEPING &&
                   s'.procs[p] == s.procs[p].(state := RUNNABLE))
    ensures Waiters(s') && Cpus(s') && Pids(s')
  {
  }

  lemma SimpleStep(s: Sys, step: Step)
    requires Inv(s) && Can(s, step) && (step.Alloc? || step.GiveBack? || step.Adopt? || step.Ready? || step.Reap? ||
        step.Kill?)
    ensures Inv(Do(s, step))
  {
    hide Parents, Waiters, Cpus, Pids, HasZombie, Exited, OffCpu, WakeOn;
    var p := if step.Reap? then step.z else step.p;
    var s' := Do(s, step);
    Roots(s);
    if step.Adopt? {
      RootOf(s, step.c);
    } else {
      RootOf(s, p);
    }
    SetParents(s, p, s'.procs[p], s');
    SetWaiters(s, p, s'.procs[p], s');
    SetPids(s, p, s'.procs[p], s');
    SetCpus(s, p, s'.procs[p], s');
  }

  lemma Roots(s: Sys)
    requires Inv(s)
    ensures s.init < |s.procs| && Alive(s.procs[s.init].state) && s.procs[s.init].parent == None
    ensures forall p :: 0 <= p < |s.procs| && !Alive(s.procs[p].state) ==> forall q :: 0 <= q < |s.procs| ==>
        s.procs[q].parent != Some(p)
  {
  }

  lemma RootOf(s: Sys, p: nat)
    requires Inv(s) && p < |s.procs|
    ensures var x := s.procs[p];
            && (x.parent.Some? ==> x.parent.value < |s.procs| && x.parent.value != p &&
                                   Alive(s.procs[x.parent.value].state))
            && (x.state == UNUSED ==> x.parent == None)
            && (p != s.init && (Alive(x.state) || x.state == ZOMBIE) ==> x.parent.Some?)
            && (x.state == SLEEPING && x.chan.Self? ==> x.chan.p == p)
  {
  }

  // A RUNNING process gives up its CPU.
  lemma CpuStep(s: Sys, step: Step)
    requires Inv(s) && Can(s, step) && (step.WaitSleep? || step.Sleep? || step.Yield?)
    ensures Inv(Do(s, step))
  {
    hide Parents, Waiters, Cpus, Pids, Exited, OffCpu, WakeOn;
    var c := step.c;
    var s' := Do(s, step);
    Roots(s);
    RootOf(s, c);
    SetParents(s, c, s'.procs[c], s');
    SetWaiters(s, c, s'.procs[c], s');
    SetPids(s, c, s'.procs[c], s');
    LeaveCpu(s, c, s'.procs[c], s');
  }

  lemma PickStep(s: Sys, k: nat, p: nat)
    requires Inv(s) && Can(s, Pick(k, p))
    ensures Inv(Do(s, Pick(k, p)))
  {
    hide Parents, Waiters, Cpus, Pids, HasZombie, Exited, OffCpu, WakeOn;
    var s' := Do(s, Pick(k, p));
    Roots(s);
    RootOf(s, p);
    SetParents(s, p, s'.procs[p], s');
    SetWaiters(s, p, s'.procs[p], s');
    SetPids(s, p, s'.procs[p], s');
    TakeCpu(s, p, s'.procs[p], k, s');
  }

  lemma WakeStep(s: Sys, chan: Chan)
    requires Inv(s)
    ensures Inv(s.(procs := WakeOn(s.procs, chan)))
  {
    hide Parents, Waiters, Cpus, Pids, WakeOn;
    Softly(s, s.(procs := WakeOn(s.procs, chan)));
  }

  // Giving the children of c to init, with init awake if one is a zombie.
  lemma OrphanParents(s: Sys, c: nat, s': Sys)
    requires Parents(s) && c < |s.procs| && c != s.init && s' == s.(procs := Orphaned(s.procs, c, s.init))
    ensures Parents(s') && forall p :: 0 <= p < |s'.procs| ==> s'.procs[p].parent != Some(c)
  {
    hide Orphaned, Alive;
    assert forall p :: 0 <= p < |s.procs| ==> s'.procs[p].state == s.procs[p].state;
    forall p | 0 <= p < |s'.procs| && s'.procs[p].parent.Some?
      ensures s'.procs[p].parent.value < |s'.procs| && s'.procs[p].parent.value != p
      ensures s'.procs[p].parent.value != c && Alive(s'.procs[s'.procs[p].parent.value].state)
    {
      assert s.procs[p].parent.Some?;
    }
  }

  lemma OrphanCpus(s: Sys, c: nat, s': Sys)
    requires Cpus(s) && Pids(s) && s' == s.(procs := Orphaned(s.procs, c, s.init))
    ensures Cpus(s') && Pids(s')
  {
    hide Orphaned;
  }

  // A zombie among the children, or init not asleep in wait.
  lemma OrphanWaiters(s: Sys, c: nat, s': Sys)
    requires Waiters(s) && s.init < |s.procs| && |s'.procs| == |s.procs| && s'.init == s.init
    requires forall p :: 0 <= p < |s.procs| ==>
               s'.procs[p] == if s.procs[p].parent == Some(c) then s.procs[p].(parent := Some(s.init)) else s.procs[p]
    requires !(s.procs[s.init].state == SLEEPING && s.procs[s.init].chan.Self?) ||
             forall p :: 0 <= p < |s.procs| && s.procs[p].parent == Some(c) ==> s.procs[p].state != ZOMBIE
    ensures Waiters(s')
  {
  }

  // Waking init first and then giving it the children is the same.
  lemma WakeOrphans(procs: seq<Proc>, c: nat, init: nat, chan: Chan)
    ensures WakeOn(Orphaned(procs, c, init), chan) == Orphaned(WakeOn(procs, chan), c, init)
  {
    hide Orphaned, WakeOn;
    var a, b := WakeOn(Orphaned(procs, c, init), chan), Orphaned(WakeOn(procs, chan), c, init);
    forall p | 0 <= p < |procs|
      ensures a[p] == b[p]
    {
      assert Orphaned(procs, c,
          init)[p] == if procs[p].parent == Some(c) then procs[p].(parent := Some(init)) else procs[p];
      assert WakeOn(procs, chan)[p] == if procs[p].state == SLEEPING &&
          procs[p].chan == chan then procs[p].(state := RUNNABLE) else procs[p];
    }
  }

  lemma OrphanStep(s: Sys, c: nat, s': Sys)
    requires Inv(s) && c < |s.procs| && c != s.init && s' == s.(procs := Orphaned(s.procs, c, s.init))
    requires s.init < |s.procs| && (InWait(s.procs[s.init]) ==> !HasZombie(s.procs, c, |s.procs|))
    ensures Inv(s') && forall p :: 0 <= p < |s'.procs| ==> s'.procs[p].parent != Some(c)
  {
    hide Parents, Waiters, Cpus, Pids, Orphaned, HasZombie;
    Roots(s);
    OrphanParents(s, c, s');
    OrphanCpus(s, c, s');
    OrphanWaiters(s, c, s');
  }

  ghost predicate InWait(p: Proc) { p.state == SLEEPING && p.chan.Self? }

  // After wakeup1(q), q is not asleep in wait, and the RUNNING are as before.
  lemma WakeOne(s: Sys, q: nat, s': Sys)
    requires Inv(s) && q < |s.procs| && s' == s.(procs := WakeOn(s.procs, Self(q)))
    ensures |s'.procs| == |s.procs| && Inv(s') && !InWait(s'.procs[q])
    ensures forall p :: 0 <= p < |s.procs| ==> (!InWait(s.procs[p]) ==> !InWait(s'.procs[p])) &&
                                               s'.procs[p].parent == s.procs[p].parent
    ensures forall p :: 0 <= p < |s.procs| ==> (s'.procs[p].state == ZOMBIE <==> s.procs[p].state == ZOMBIE)
    ensures forall p :: 0 <= p < |s.procs| && s.procs[p].state == RUNNING ==> s'.procs[p] == s.procs[p]
  {
    hide Parents, Waiters, Cpus, Pids, WakeOn;
    WakeStep(s, Self(q));
    RootOf(s, q);
  }

  lemma ExitLast(b: Sys, c: nat, q: nat, s': Sys)
    requires Inv(b) && c < |b.procs| && c != b.init && b.procs[c].state == RUNNING && b.procs[c].parent == Some(q)
    requires q < |b.procs| && !InWait(b.procs[q]) && forall p :: 0 <= p < |b.procs| ==> b.procs[p].parent != Some(c)
    requires s' == b.(procs := b.procs[c := b.procs[c].(state := ZOMBIE)], cpus := OffCpu(b.cpus, c))
    ensures Inv(s')
  {
    hide Parents, Waiters, Cpus, Pids, OffCpu;
    Roots(b);
    RootOf(b, c);
    var x := s'.procs[c];
    SetParents(b, c, x, s');
    SetWaiters(b, c, x, s');
    SetPids(b, c, x, s');
    LeaveCpu(b, c, x, s');
  }

  lemma OrphanAt(s: Sys, c: nat, s': Sys, p: nat)
    requires s' == s.(procs := Orphaned(s.procs, c, s.init)) && p < |s.procs|
    ensures |s'.procs| == |s.procs| && InWait(s'.procs[p]) == InWait(s.procs[p])
    ensures s.procs[p].parent != Some(c) ==> s'.procs[p] == s.procs[p]
  {
  }

  lemma ExitStep(s: Sys, c: nat)
    requires Inv(s) && Can(s, Exit(c))
    ensures Inv(Do(s, Exit(c)))
  {
    hide Inv, Orphaned, HasZombie, WakeOn, OffCpu, InWait;
    Roots(s);
    RootOf(s, c);
    var q := s.procs[c].parent.value;
    var a := s.(procs := WakeOn(s.procs, Self(q)));
    WakeOne(s, q, a);
    var a' := if HasZombie(a.procs, c, |a.procs|) then a.(procs := WakeOn(a.procs, Self(s.init))) else a;
    if HasZombie(a.procs, c, |a.procs|) {
      WakeOne(a, s.init, a');
    }
    var b := a'.(procs := Orphaned(a'.procs, c, s.init));
    OrphanStep(a', c, b);
    OrphanAt(a', c, b, c);
    OrphanAt(a', c, b, q);
    WakeOrphans(a.procs, c, s.init, Self(s.init));
    ExitLast(b, c, q, Do(s, Exit(c)));
  }

  lemma StepInv(s: Sys, step: Step)
    requires Inv(s) && Can(s, step)
    ensures Inv(Do(s, step))
  {
    hide Inv, HasZombie, Exited, OffCpu, WakeOn;
    match step
    case Exit(c) => ExitStep(s, c);
    case Pick(k, p) => PickStep(s, k, p);
    case Wakeup(chan) => WakeStep(s, Other(chan));
    case WaitSleep(_) => CpuStep(s, step);
    case Sleep(_, _) => CpuStep(s, step);
    case Yield(_) => CpuStep(s, step);
    case _ => SimpleStep(s, step);
  }

  // userinit: slot 0 is init, the rest is free.
  ghost predicate Boot(s: Sys) {
    && s.init == 0 < |s.procs| && s.nextpid == 2 && (forall k :: 0 <= k < |s.cpus| ==> s.cpus[k] == None)
    && s.procs[0] == Proc(RUNNABLE, 1, None, NoChan, false)
    && forall p :: 0 < p < |s.procs| ==> s.procs[p] == Proc(UNUSED, 0, None, NoChan, false)
  }

  lemma BootInv(s: Sys)
    requires Boot(s)
    ensures Inv(s)
  {
  }

  ghost predicate IsRun(run: seq<Sys>, steps: seq<Step>) {
    && |run| == |steps| + 1 && Boot(run[0])
    && forall i :: 0 <= i < |steps| ==> Can(run[i], steps[i]) && run[i + 1] == Do(run[i], steps[i])
  }

  // Over every run: no process has a ZOMBIE or UNUSED parent, none sleeps in
  // wait beside a zombie child, RUNNING means on exactly one CPU, and pids are
  // distinct.
  lemma {:induction false} RunInv(run: seq<Sys>, steps: seq<Step>, i: nat)
    requires IsRun(run, steps) && i < |run|
    ensures Inv(run[i])
  {
    hide Inv, Can, Do;
    if i == 0 {
      BootInv(run[0]);
    } else {
      RunInv(run, steps, i - 1);
      StepInv(run[i - 1], steps[i - 1]);
    }
  }

  // pid x was given out and no process has it any more.
  ghost predicate Gone(s: Sys, x: nat) {
    x < s.nextpid && forall p :: 0 <= p < |s.procs| && s.procs[p].state != UNUSED ==> s.procs[p].pid != x
  }

  lemma GoneStays(s: Sys, step: Step, x: nat)
    requires Gone(s, x) && Can(s, step)
    ensures Gone(Do(s, step), x)
  {
    hide HasZombie, OffCpu;
  }

  lemma {:induction false} GoneForGood(run: seq<Sys>, steps: seq<Step>, x: nat, i: nat, j: nat)
    requires IsRun(run, steps) && i <= j < |run| && Gone(run[i], x)
    ensures Gone(run[j], x)
  {
    hide Gone, Can, Do;
    if i < j {
      GoneForGood(run, steps, x, i, j - 1);
      GoneStays(run[j - 1], steps[j - 1], x);
    }
  }

  lemma ReapGone(s: Sys, c: nat, z: nat)
    requires Inv(s) && Can(s, Reap(c, z))
    ensures Gone(Do(s, Reap(c, z)), s.procs[z].pid)
  {
    hide Parents, Waiters, Cpus;
  }

  // An exited process is reaped at most once, and by its parent of the moment.
  lemma ReapedOnce(run: seq<Sys>, steps: seq<Step>, i: nat, j: nat)
    requires IsRun(run, steps) && i < j < |steps| && steps[i].Reap? && steps[j].Reap?
    ensures Can(run[i], steps[i]) && Can(run[j], steps[j])
    ensures run[i].procs[steps[i].z].pid != run[j].procs[steps[j].z].pid
    ensures run[j].procs[steps[j].z].parent == Some(steps[j].c)
  {
    hide Gone, Inv;
    RunInv(run, steps, i);
    ReapGone(run[i], steps[i].c, steps[i].z);
    var x := run[i].procs[steps[i].z].pid;
    GoneForGood(run, steps, x, i + 1, j);
    GoneAt(run[j], x, steps[j].z);
  }

  lemma GoneAt(s: Sys, x: nat, p: nat)
    requires Gone(s, x) && p < |s.procs| && s.procs[p].state != UNUSED
    ensures s.procs[p].pid != x
  {
  }

  // The process itself goes to sleep in step, or is reaped.
  predicate SleepsOrGone(step: Step, p: nat) {
    (step.Sleep? && step.c == p) || (step.WaitSleep? && step.c == p) || (step.Reap? && step.z == p)
  }

  ghost predicate Doomed(s: Sys, p: nat) { p < |s.procs| && s.procs[p].killed && s.procs[p].state != SLEEPING }

  lemma DoomedStays(s: Sys, step: Step, p: nat)
    requires Can(s, step) && Doomed(s, p) && !SleepsOrGone(step, p)
    ensures Doomed(Do(s, step), p)
  {
    hide HasZombie, OffCpu;
  }

  // kill leaves its victim awake and killed, in every run, until it is reaped or
  // calls sleep itself.
  lemma {:induction false} KillWakes(run: seq<Sys>, steps: seq<Step>, p: nat, i: nat, j: nat)
    requires IsRun(run, steps) && i < j < |run| && steps[i] == Kill(p)
    requires forall k :: i < k < j ==> !SleepsOrGone(steps[k], p)
    ensures Doomed(run[j], p)
  {
    hide Boot, Can, Do, Doomed, SleepsOrGone;
    if i + 1 == j {
      KillDooms(run[i], p);
    } else {
      KillWakes(run, steps, p, i, j - 1);
      DoomedStays(run[j - 1], steps[j - 1], p);
    }
  }

  lemma KillDooms(s: Sys, p: nat)
    requires Can(s, Kill(p))
    ensures Doomed(Do(s, Kill(p)), p)
  {
  }

  // A zombie stays as it is until it is reaped ...
  lemma ZombieStays(s: Sys, step: Step, z: nat)
    requires Can(s, step) && z < |s.procs| && s.procs[z].state == ZOMBIE && !(step.Reap? && step.z == z)
    ensures var s' := Do(s, step);
            |s'.procs| == |s.procs| && s'.procs[z].state == ZOMBIE && s'.procs[z].pid == s.procs[z].pid
  {
    hide HasZombie, OffCpu, WakeOn, Orphaned;
  }

  // ... and its parent is alive and not asleep in wait.
  lemma ZombieHasParent(s: Sys, z: nat)
    requires Inv(s) && z < |s.procs| && s.procs[z].state == ZOMBIE
    ensures s.procs[z].parent.Some? && s.procs[z].parent.value < |s.procs|
    ensures var q := s.procs[s.procs[z].parent.value]; Alive(q.state) && !InWait(q)
  {
    hide Cpus, Pids;
  }

  // No free slot is marked killed.
  ghost predicate Clean(s: Sys) { forall p :: 0 <= p < |s.procs| && s.procs[p].state == UNUSED ==> !s.procs[p].killed }

  // allocproc does not clear killed. A kill that hits a free slot, or a killed
  // EMBRYO that is given back, leaves it for the next process; nothing else
  // does.
  lemma CleanExactly(s: Sys, step: Step)
    requires Clean(s) && Can(s, step)
    ensures Clean(Do(s, step)) <==>
              !(step.Kill? && s.procs[step.p].state == UNUSED) && !(step.GiveBack? && s.procs[step.p].killed)
  {
    hide HasZombie, OffCpu;
    var s' := Do(s, step);
    if step.Kill? || step.GiveBack? {
      assert s'.procs[step.p].killed || s'.procs[step.p].state != UNUSED || !s.procs[step.p].killed;
    }
  }

  // The first process runs and calls kill(0), which finds a free slot; then it
  // forks, and the child is born killed.
  lemma BornKilled(s: Sys)
    requires Boot(s) && |s.procs| > 1 && |s.cpus| > 0
    ensures s.procs[0].pid != 0 && s.procs[1].pid == 0
    ensures Can(s, Pick(0, 0)) && Do(s, Pick(0, 0)).procs[0].state == RUNNING && Can(Do(s, Pick(0, 0)), Kill(1))
    ensures var s1 := Do(s, Pick(0, 0));
            var s2 := Do(s1, Kill(1));
            && Can(s2, Alloc(1)) && var s3 := Do(s2, Alloc(1));
               && IsRun([s, s1, s2, s3], [Pick(0, 0), Kill(1), Alloc(1)])
               && s3.procs[1].state == EMBRYO && s3.procs[1].pid == 2 && s3.procs[1].killed
  {
  }
}
