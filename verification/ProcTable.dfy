// The loops of proc.c over ptable.proc, each against the step of Processes that
// it takes.
module ProcTable {
  import opened Common
  import opened Processes

  datatype WaitResult = Reaped(pid: nat) | NoChildren | Asleep

  // Process c runs, on CPU k and on no other.
  ghost predicate OnCpu(s: Sys, c: nat, k: nat) {
    && c < |s.procs| && s.procs[c].state == RUNNING && k < |s.cpus| && s.cpus[k] == Some(c)
    && forall j :: 0 <= j < |s.cpus| && s.cpus[j] == Some(c) ==> j == k
  }

  // The invariant gives every CPU that is not idle such a process.
  lemma CpuRuns(s: Sys, k: nat)
    requires Cpus(s) && k < |s.cpus| && s.cpus[k].Some?
    ensures OnCpu(s, s.cpus[k].value, k)
  {
  }

  // Only slot p of the table may differ.
  ghost predicate OnlySlot(before: seq<Proc>, after: seq<Proc>, p: nat) {
    |after| == |before| && p < |after| && forall q :: 0 <= q < |after| && q != p ==> after[q] == before[q]
  }

  // Only CPU k may differ.
  ghost predicate OnlyCpu(before: seq<Option<nat>>, after: seq<Option<nat>>, k: nat) {
    |after| == |before| && k < |after| && forall j :: 0 <= j < |after| && j != k ==> after[j] == before[j]
  }

  // What exit by c makes of a slot: a zombie of c, children of init, and awake
  // those that slept in wait as the parent of c or, if c leaves a zombie, as init.
  ghost predicate ExitSlot(before: seq<Proc>, p: nat, x: Proc, c: nat, init: nat)
    requires c < |before| && p < |before|
  {
    var o := before[p];
    var up := if before[c].parent == None then NoChan else Self(before[c].parent.value);
    var left := exists z :: 0 <= z < |before| && before[z].parent == Some(c) && before[z].state == ZOMBIE;
    var called := o.chan == up || (o.chan == Self(init) && left);
    && x.pid == o.pid && x.chan == o.chan && x.killed == o.killed
    && x.parent == (if o.parent == Some(c) then Some(init) else o.parent)
    && x.state == if p == c then ZOMBIE else if o.state == SLEEPING && called then RUNNABLE else o.state
  }

  predicate HasChild(procs: seq<Proc>, c: nat) { exists p :: 0 <= p < |procs| && procs[p].parent == Some(c) }

  class Table {
    var procs: seq<Proc>
    var cpus: seq<Option<nat>>
    var nextpid: nat
    const init: nat

    function View(): Sys
      reads this
    {
      Sys(procs, cpus, nextpid, init)
    }

    // userinit
    constructor (nproc: nat, ncpu: nat)
      requires nproc > 0
      ensures Boot(View()) && |procs| == nproc && |cpus| == ncpu
    {
      procs := [Proc(RUNNABLE, 1, None, NoChan, false)] + seq(nproc - 1, i => Proc(UNUSED, 0, None, NoChan, false));
      cpus := seq(ncpu, i => None);
      nextpid, init := 2, 0;
    }

    // The first free slot becomes an EMBRYO with a new pid.
    method Allocproc() returns (np: Option<nat>)
      modifies this`procs, this`nextpid
      ensures np == None ==> View() == old(View()) && forall p :: 0 <= p < |procs| ==> procs[p].state != UNUSED
      ensures np.Some? ==> Took(old(View()), Alloc(np.value), View())
      ensures np.Some? ==> np.value < |old(procs)| && forall p :: 0 <= p < np.value ==> old(procs)[p].state != UNUSED
      ensures np.Some? ==> OnlySlot(old(procs), procs, np.value) && nextpid == old(nextpid) + 1
      ensures np.Some? ==> var o, x := old(procs)[np.value], procs[np.value];
                && o.state == UNUSED && x.state == EMBRYO && x.pid == old(nextpid)
                && x.parent == o.parent && x.chan == o.chan && x.killed == o.killed
    {
      var p := 0;
      while p < |procs|
        invariant 0 <= p <= |procs|
        invariant forall q :: 0 <= q < p ==> procs[q].state != UNUSED
      {
        if procs[p].state == UNUSED {
          procs := procs[p := procs[p].(state := EMBRYO)];
          procs := procs[p := procs[p].(pid := nextpid)];
          nextpid := nextpid + 1;
          return Some(p);
        }
        p := p + 1;
      }
      return None;
    }

    method Wakeup1(chan: Chan)
      modifies this`procs
      ensures procs == WakeOn(old(procs), chan) && |procs| == |old(procs)|
      ensures forall p :: 0 <= p < |procs| ==> var o := old(procs)[p];
                procs[p] == if o.state == SLEEPING && o.chan == chan then o.(state := RUNNABLE) else o
    {
      var p := 0;
      while p < |procs|
        invariant 0 <= p <= |procs| == |old(procs)|
        invariant forall q :: 0 <= q < p ==> procs[q] == WakeOn(old(procs), chan)[q]
        invariant forall q :: p <= q < |procs| ==> procs[q] == old(procs)[q]
      {
        if procs[p].state == SLEEPING && procs[p].chan == chan {
          procs := procs[p := procs[p].(state := RUNNABLE)];
        }
        p := p + 1;
      }
    }

    // The loop of exit that passes the children of c to init.
    method Reparent(c: nat)
      requires c < |procs|
      modifies this`procs
      ensures procs == var b := Orphaned(old(procs), c, init);
                       if HasZombie(old(procs), c, |old(procs)|) then WakeOn(b, Self(init)) else b
    {
      hide WakeOn, Orphaned, HasZombie, OrphanedTo;
      ghost var a := procs;
      var p := 0;
      OrphanedNone(a, c, init);
      while p < |procs|
        invariant 0 <= p <= |procs| == |a|
        invariant procs == OrphanedTo(a, c, init, p)
      {
        OrphanedNext(a, c, init, p);
        if procs[p].parent == Some(c) {
          procs := procs[p := procs[p].(parent := Some(init))];
          if procs[p].state == ZOMBIE {
            Wakeup1(Self(init));
          }
        }
        p := p + 1;
      }
      OrphanedAll(a, c, init);
    }

    // exit by the process of CPU k (myproc); init must not.
    method ExitProc(k: nat) returns (panic: bool)
      requires Cpus(View()) && k < |cpus| && cpus[k].Some?
      modifies this`procs, this`cpus
      ensures panic <==> old(cpus)[k] == Some(init)
      ensures panic ==> View() == old(View())
      ensures !panic ==> Took(old(View()), Exit(old(cpus)[k].value), View())
      ensures !panic ==> cpus[k] == None && OnlyCpu(old(cpus), cpus, k) && |procs| == |old(procs)|
      ensures !panic ==> old(cpus)[k].value < |procs| && forall p :: 0 <= p < |procs| ==>
                ExitSlot(old(procs), p, procs[p], old(cpus)[k].value, init)
    {
      hide WakeOn, Orphaned, HasZombie, OffCpu, Cpus;
      CpuRuns(View(), k);
      var c := cpus[k].value;
      if c == init {
        return true;
      }
      ghost var s := View();
      Wakeup1(ChanOf(procs[c].parent));
      Reparent(c);
      procs := procs[c := procs[c].(state := ZOMBIE)];
      SchedFrom(s, c, k);
      cpus := cpus[k := None];
      ExitedSlots(old(procs), c, init, procs);
      panic := false;
    }

    // wait by the process c of CPU k: one pass over the table and, if it finds
    // nothing, sleep(c, &ptable.lock).
    method Wait(k: nat) returns (r: WaitResult, c: nat, ghost z: nat)
      requires Cpus(View()) && k < |cpus| && cpus[k].Some?
      modifies this`procs, this`cpus
      ensures old(cpus)[k] == Some(c)
      ensures r.Reaped? <==> HasZombie(old(procs), c, |old(procs)|)
      ensures r.Reaped? ==> Took(old(View()), Reap(c, z), View()) && z < |old(procs)| && r.pid == old(procs)[z].pid
      ensures r.Reaped? ==> !HasZombie(old(procs), c, z)
      ensures r.NoChildren? ==> View() == old(View())
      ensures r.NoChildren? ==> c < |old(procs)| && (old(procs)[c].killed || !HasChild(old(procs), c))
      ensures r.Asleep? ==> c < |old(procs)| && !old(procs)[c].killed && HasChild(old(procs), c)
      ensures r.Asleep? ==> Took(old(View()), WaitSleep(c), View())
      ensures r.Reaped? ==> cpus == old(cpus) && OnlySlot(old(procs), procs, z) &&
                            procs[z] == Proc(UNUSED, 0, None, old(procs)[z].chan, false)
      ensures r.Asleep? ==> cpus[k] == None && OnlyCpu(old(cpus), cpus, k) && OnlySlot(old(procs), procs, c) &&
                            procs[c] == old(procs)[c].(state := SLEEPING, chan := Self(c))
    {
      hide OffCpu, Cpus;
      CpuRuns(View(), k);
      c := cpus[k].value;
      ghost var s := View();
      var havekids := false;
      var p := 0;
      z := 0;
      while p < |procs|
        invariant 0 <= p <= |procs| && View() == s
        invariant !HasZombie(procs, c, p)
        invariant havekids <==> HasChild(procs[..p], c)
      {
        ChildNext(procs, c, p);
        if procs[p].parent == Some(c) {
          havekids := true;
          if procs[p].state == ZOMBIE {
            z := p;
            var pid := procs[p].pid;
            procs := procs[p := procs[p].(pid := 0, parent := None, killed := false, state := UNUSED)];
            return Reaped(pid), c, z;
          }
        }
        p := p + 1;
      }
      assert procs[..p] == procs;
      if !havekids || procs[c].killed {
        return NoChildren, c, z;
      }
      procs := procs[c := procs[c].(chan := Self(c), state := SLEEPING)];
      SchedFrom(s, c, k);
      cpus := cpus[k := None];
      r := Asleep;
    }

    // The scheduler of CPU k, which is free: the first RUNNABLE process from
    // slot `from` on runs.
    method Schedule(k: nat, from: nat) returns (next: Option<nat>)
      requires k < |cpus| && cpus[k] == None && from <= |procs|
      modifies this`procs, this`cpus
      ensures next == None ==> View() == old(View()) && forall p :: from <= p < |procs| ==> procs[p].state != RUNNABLE
      ensures next.Some? ==>
                && from <= next.value < |old(procs)| && Took(old(View()), Pick(k, next.value), View())
                && forall p :: from <= p < next.value ==> old(procs)[p].state != RUNNABLE
      ensures next.Some? ==>
                && cpus[k] == next && OnlyCpu(old(cpus), cpus, k) && OnlySlot(old(procs), procs, next.value)
                && old(procs)[next.value].state == RUNNABLE
                && procs[next.value] == old(procs)[next.value].(state := RUNNING)
    {
      var p := from;
      while p < |procs|
        invariant from <= p <= |procs| && View() == old(View())
        invariant forall q :: from <= q < p ==> procs[q].state != RUNNABLE
      {
        if procs[p].state == RUNNABLE {
          cpus := cpus[k := Some(p)];
          procs := procs[p := procs[p].(state := RUNNING)];
          return Some(p);
        }
        p := p + 1;
      }
      return None;
    }

    // kill: the first slot with the pid, whatever its state.
    method KillPid(pid: nat) returns (r: int, ghost hit: nat)
      modifies this`procs
      ensures r == 0 || r == -1
      ensures r == -1 <==> forall p :: 0 <= p < |old(procs)| ==> old(procs)[p].pid != pid
      ensures r == -1 ==> View() == old(View())
      ensures r == 0 ==> hit < |old(procs)| && old(procs)[hit].pid == pid && Took(old(View()), Kill(hit), View())
      ensures r == 0 ==> forall p :: 0 <= p < hit ==> old(procs)[p].pid != pid
      ensures r == 0 ==> OnlySlot(old(procs), procs, hit) && var o, x := old(procs)[hit], procs[hit];
                && x.killed && x.state == (if o.state == SLEEPING then RUNNABLE else o.state)
                && x.pid == o.pid && x.parent == o.parent && x.chan == o.chan
    {
      hit := 0;
      var p := 0;
      while p < |procs|
        invariant 0 <= p <= |procs| && View() == old(View())
        invariant forall q :: 0 <= q < p ==> procs[q].pid != pid
      {
        if procs[p].pid == pid {
          hit := p;
          procs := procs[p := procs[p].(killed := true)];
          if procs[p].state == SLEEPING {
            procs := procs[p := procs[p].(state := RUNNABLE)];
          }
          return 0, hit;
        }
        p := p + 1;
      }
      return -1, hit;
    }

    // yield by the process of CPU k.
    method YieldCpu(k: nat) returns (c: nat)
      requires Cpus(View()) && k < |cpus| && cpus[k].Some?
      modifies this`procs, this`cpus
      ensures old(cpus)[k] == Some(c) && Took(old(View()), Yield(c), View())
      ensures cpus[k] == None && OnlyCpu(old(cpus), cpus, k) && OnlySlot(old(procs), procs, c)
      ensures procs[c] == old(procs)[c].(state := RUNNABLE)
    {
      hide OffCpu, Cpus;
      CpuRuns(View(), k);
      c := cpus[k].value;
      SchedFrom(View(), c, k);
      procs := procs[c := procs[c].(state := RUNNABLE)];
      cpus := cpus[k := None];
    }

    // sleep by the process of CPU k, up to sched.
    method SleepOn(k: nat, chan: nat) returns (c: nat)
      requires Cpus(View()) && k < |cpus| && cpus[k].Some?
      modifies this`procs, this`cpus
      ensures old(cpus)[k] == Some(c) && Took(old(View()), Sleep(c, chan), View())
      ensures cpus[k] == None && OnlyCpu(old(cpus), cpus, k) && OnlySlot(old(procs), procs, c)
      ensures procs[c] == old(procs)[c].(state := SLEEPING, chan := Other(chan))
    {
      hide OffCpu, Cpus;
      CpuRuns(View(), k);
      c := cpus[k].value;
      SchedFrom(View(), c, k);
      procs := procs[c := procs[c].(chan := Other(chan))];
      procs := procs[c := procs[c].(state := SLEEPING)];
      cpus := cpus[k := None];
    }

    // wakeup
    method WakeupChan(chan: nat)
      modifies this`procs
      ensures Took(old(View()), Wakeup(chan), View()) && |procs| == |old(procs)|
      ensures forall p :: 0 <= p < |procs| ==> var o := old(procs)[p];
                procs[p] == if o.state == SLEEPING && o.chan == Other(chan) then o.(state := RUNNABLE) else o
    {
      Wakeup1(Other(chan));
    }

    // fork by the process of CPU k; copied says whether copyuvm succeeds. If not,
    // the slot is free again.
    method Fork(k: nat, copied: bool) returns (r: int, np: Option<nat>)
      requires Inv(View()) && k < |cpus| && cpus[k].Some?
      modifies this`procs, this`nextpid
      ensures Inv(View()) && cpus == old(cpus)
      ensures np == None <==> forall p :: 0 <= p < |old(procs)| ==> old(procs)[p].state != UNUSED
      ensures np == None ==> r == -1 && View() == old(View())
      ensures np.Some? ==> OnlySlot(old(procs), procs, np.value) && nextpid == old(nextpid) + 1
      ensures np.Some? && !copied ==> r == -1 && procs[np.value].state == UNUSED
      ensures np.Some? && copied ==> r == old(nextpid) && var x := procs[np.value];
                && x.state == RUNNABLE && x.pid == old(nextpid) && x.parent == old(cpus)[k]
                && x.killed == old(procs)[np.value].killed
    {
      hide Inv, Cpus;
      CpuParent(View(), k);
      np := Allocproc();
      if np == None {
        return -1, np;
      }
      var p, c := np.value, cpus[k].value;
      StepInv(old(View()), Alloc(p));
      FreeSlot(old(View()), p);
      ghost var s1 := View();
      if !copied {
        StepInv(s1, GiveBack(p));
        procs := procs[p := procs[p].(state := UNUSED)];
        return -1, np;
      }
      StepInv(s1, Adopt(c, p));
      procs := procs[p := procs[p].(parent := Some(c))];
      ghost var s2 := View();
      StepInv(s2, Ready(p));
      procs := procs[p := procs[p].(state := RUNNABLE)];
      r := procs[p].pid;
    }
  }

  lemma CpuParent(s: Sys, k: nat)
    requires Inv(s) && k < |s.cpus| && s.cpus[k].Some?
    ensures s.cpus[k].value < |s.procs| && s.procs[s.cpus[k].value].state == RUNNING
  {
  }

  lemma FreeSlot(s: Sys, p: nat)
    requires Inv(s) && p < |s.procs| && s.procs[p].state == UNUSED
    ensures s.procs[p].parent == None
  {
  }

  lemma ExitedSlots(procs: seq<Proc>, c: nat, init: nat, after: seq<Proc>)
    requires c < |procs| && after == Exited(procs, c, init)
    ensures |after| == |procs| && forall p :: 0 <= p < |after| ==> ExitSlot(procs, p, after[p], c, init)
  {
    hide WakeOn, Orphaned, HasZombie;
    var a := WakeOn(procs, ChanOf(procs[c].parent));
    assert forall z :: 0 <= z < |a| ==> a[z].parent == procs[z].parent &&
                                        (a[z].state == ZOMBIE <==> procs[z].state == ZOMBIE);
    var b := Orphaned(a, c, init);
    assert forall p :: 0 <= p < |a| ==> b[p].state == a[p].state && b[p].chan == procs[p].chan;
    var w := WakeOn(b, Self(init));
    var left := exists z :: 0 <= z < |procs| && procs[z].parent == Some(c) && procs[z].state == ZOMBIE;
    assert HasZombie(a, c, |a|) == left;
    forall p | 0 <= p < |after|
      ensures ExitSlot(procs, p, after[p], c, init)
    {
      assert after[p] == if p == c then (if HasZombie(a, c, |a|) then w[p] else b[p]).(state := ZOMBIE)
                         else if HasZombie(a, c, |a|) then w[p] else b[p];
    }
  }

  lemma ChildNext(procs: seq<Proc>, c: nat, p: nat)
    requires p < |procs|
    ensures HasChild(procs[..p + 1], c) <==> HasChild(procs[..p], c) || procs[p].parent == Some(c)
  {
    var a, b := procs[..p], procs[..p + 1];
    assert b[p] == procs[p] && forall q :: 0 <= q < p ==> a[q] == b[q];
  }

  // sched, to the scheduler of CPU k, frees the CPU of c.
  lemma SchedFrom(s: Sys, c: nat, k: nat)
    requires OnCpu(s, c, k)
    ensures s.cpus[k := None] == OffCpu(s.cpus, c)
  {
  }

  // The table after the first n slots were handed over, and init woken if a
  // zombie was among them.
  ghost function OrphanedTo(procs: seq<Proc>, c: nat, init: nat, n: nat): (r: seq<Proc>)
    requires n <= |procs|
  {
    var b := Orphaned(procs[..n], c, init) + procs[n..];
    if HasZombie(procs, c, n) then WakeOn(b, Self(init)) else b
  }

  lemma OrphanedNone(procs: seq<Proc>, c: nat, init: nat)
    ensures OrphanedTo(procs, c, init, 0) == procs
  {
  }

  lemma OrphanedAll(procs: seq<Proc>, c: nat, init: nat)
    ensures OrphanedTo(procs, c, init, |procs|) ==
              var b := Orphaned(procs, c, init); if HasZombie(procs, c, |procs|) then WakeOn(b, Self(init)) else b
  {
    assert procs[..|procs|] == procs && Orphaned(procs, c, init) + procs[|procs|..] == Orphaned(procs, c, init);
  }

  lemma OrphanedNext(procs: seq<Proc>, c: nat, init: nat, n: nat)
    requires n < |procs|
    ensures var r, r' := OrphanedTo(procs, c, init, n), OrphanedTo(procs, c, init, n + 1);
            && |r| == |r'| == |procs|
            && r[n].parent == procs[n].parent && (r[n].state == ZOMBIE <==> procs[n].state == ZOMBIE)
            && r' == if procs[n].parent != Some(c) then r
                     else var x := r[n := r[n].(parent := Some(init))];
                       if procs[n].state == ZOMBIE then WakeOn(x, Self(init)) else x
  {
    var b, b' := Orphaned(procs[..n], c, init) + procs[n..], Orphaned(procs[..n + 1], c, init) + procs[n + 1..];
    assert forall q :: 0 <= q < |procs| ==> b[q] == if q < n &&
        procs[q].parent == Some(c) then procs[q].(parent := Some(init)) else procs[q];
    assert forall q :: 0 <= q < |procs| ==> b'[q] == if q <= n &&
        procs[q].parent == Some(c) then procs[q].(parent := Some(init)) else procs[q];
    if procs[n].parent != Some(c) {
      assert b == b';
    } else {
      assert b' == b[n := b[n].(parent := Some(init))];
      WakeSet(b, n, init, Self(init));
    }
  }

  // Waking twice is waking once, and does not mind the parent of a slot.
  lemma WakeSet(b: seq<Proc>, n: nat, init: nat, chan: Chan)
    requires n < |b|
    ensures WakeOn(WakeOn(b, chan), chan) == WakeOn(b, chan)
    ensures var b' := b[n := b[n].(parent := Some(init))];
            var w := WakeOn(b, chan);
            WakeOn(b', chan) == w[n := w[n].(parent := Some(init))] &&
                WakeOn(w[n := w[n].(parent := Some(init))], chan) == WakeOn(b', chan)
  {
    hide WakeOn;
    var b' := b[n := b[n].(parent := Some(init))];
    var w := WakeOn(b, chan);
    var x := w[n := w[n].(parent := Some(init))];
    assert forall q :: 0 <= q < |b| ==>
        WakeOn(b', chan)[q] == x[q] && WakeOn(x, chan)[q] == x[q] && WakeOn(w, chan)[q] == w[q];
  }
}
