// A commit, and a recovery after a crash, can always be brought to an end: the
// steps they need are never stuck, whatever is on the disk and in the cache.
module LogProgress {
  import opened Common
  import opened Blocks
  import opened RedoLog
  import opened LogProtocol
  import opened LogRuns

  // Steps that no operation makes, and no crash.
  predicate Quiet(st: Step) { !st.OpWrite? && !st.BeginOp? && !st.EndOp? && !st.Crash? }

  // b is reached from a by n such steps.
  ghost predicate Leads(l: Layout, n: nat, a: State, b: State) {
    if n == 0 then a == b
    else exists st, m :: Quiet(st) && Next(a, l, st, m) && Leads(l, n - 1, m, b)
  }

  lemma {:induction false} LeadsOn(l: Layout, n: nat, m: nat, a: State, b: State, c: State)
    requires Leads(l, n, a, b) && Leads(l, m, b, c)
    ensures Leads(l, n + m, a, c)
  {
    hide Next;
    if n > 0 {
      var st, x :| Quiet(st) && Next(a, l, st, x) && Leads(l, n - 1, x, b);
      LeadsOn(l, n - 1, m, x, b, c);
    }
  }

  lemma LeadsOne(l: Layout, st: Step, a: State, b: State)
    requires Quiet(st) && Next(a, l, st, b)
    ensures Leads(l, 1, a, b)
  {
    hide Next;
    assert Leads(l, 0, b, b);
  }

  // What the operations see stays.
  lemma {:induction false} LeadsKeeps(l: Layout, n: nat, a: State, b: State)
    requires Inv(a, l) && Leads(l, n, a, b)
    ensures Inv(b, l) && ValidLog(a.disk, l) && ValidLog(b.disk, l) && SameHome(Current(b, l), Current(a, l), l)
  {
    hide Inv, Next, Current, ValidLog;
    InvValid(a, l);
    if n > 0 {
      var st, m :| Quiet(st) && Next(a, l, st, m) && Leads(l, n - 1, m, b);
      StepKeeps(l, st, a, m);
      LeadsKeeps(l, n - 1, m, b);
    }
  }

  lemma StepKeeps(l: Layout, st: Step, a: State, b: State)
    requires Inv(a, l) && Quiet(st) && Next(a, l, st, b)
    ensures Inv(b, l) && ValidLog(a.disk, l) && ValidLog(b.disk, l) && SameHome(Current(b, l), Current(a, l), l)
  {
    hide Inv, Current, Durable, Do;
    NextRefines(a, l, st, b);
    InvValid(a, l);
    InvValid(b, l);
  }

  // The buffers that bget cannot recycle.
  ghost function Held(s: State): set<nat> { set b | b in s.cache && (s.cache[b].refcnt > 0 || s.cache[b].dirty) }

  ghost function Tidy(s: State): State { s.(cache := map b | b in s.cache && b in Held(s) :: s.cache[b]) }

  lemma EvictOne(s: State, l: Layout, b: nat)
    requires l.Fits(s.disk) && ValidLog(s.disk, l) && |s.lh| <= LOGSIZE && b in s.cache && b !in Held(s)
    ensures var s' := s.(cache := s.cache - {b});
            Next(s, l, Evict(b), s') && Tidy(s') == Tidy(s) && |s'.cache| < |s.cache|
  {
    hide ValidLog;
    var s' := s.(cache := s.cache - {b});
    assert s'.cache.Keys == s.cache.Keys - {b} && |s'.cache| == |s'.cache.Keys| && |s.cache| == |s.cache.Keys|;
    assert Tidy(s').cache == Tidy(s).cache;
  }

  lemma AllHeld(s: State)
    requires forall b :: b in s.cache ==> b in Held(s)
    ensures Tidy(s) == s
  {
    assert Tidy(s).cache == s.cache;
  }

  // bget recycles the rest.
  lemma {:induction false} Evicting(s: State, l: Layout) returns (n: nat)
    requires l.Fits(s.disk) && ValidLog(s.disk, l) && |s.lh| <= LOGSIZE
    ensures Leads(l, n, s, Tidy(s))
    decreases |s.cache|
  {
    hide ValidLog, Next, Tidy, Held;
    if forall b :: b in s.cache ==> b in Held(s) {
      AllHeld(s);
      return 0;
    }
    var b :| b in s.cache && b !in Held(s);
    EvictOne(s, l, b);
    var s' := s.(cache := s.cache - {b});
    var m := Evicting(s', l);
    LeadsOne(l, Evict(b), s, s');
    LeadsOn(l, 1, m, s, s', Tidy(s));
    n := 1 + m;
  }

  // Nobody holds a sleep lock, and some buffer is free or can be recycled.
  ghost predicate Calm(s: State) { |Held(s)| < NBUF && forall b :: b in s.cache ==> !s.cache[b].locked }

  // With everything evicted that can be, one more block fits in.
  lemma TidyIs(s: State)
    requires Calm(s)
    ensures Calm(Tidy(s)) && Held(Tidy(s)) == Held(s) == Tidy(s).cache.Keys
  {
    assert Tidy(s).cache.Keys == Held(s) && Held(Tidy(s)) == Held(s);
  }

  lemma OneMore(s: State, b: nat, c: nat)
    requires Calm(s) && s.cache.Keys == Held(s) && (b in s.cache || b == c)
    ensures Room(s, {b, c}) && !Busy(s, b) && !Busy(s, c)
  {
    Subset(s.cache.Keys + {b, c}, Held(s) + {c});
  }

  lemma Subset(a: set<nat>, b: set<nat>)
    requires a <= b
    ensures |a| <= |b|
  {
    assert b == a + (b - a);
  }

  // A write of the log leaves nothing held that was not.
  lemma WrittenCalm(s: State, b: nat, data: Block, next: Phase, lh: seq<Word>)
    requires Calm(s) && b < |s.disk|
    ensures Calm(Written(s.(lh := lh), b, data, next)) && Held(Written(s.(lh := lh), b, data, next)) <= Held(s)
  {
    var s' := Written(s.(lh := lh), b, data, next);
    assert Held(s') <= Held(s);
    Subset(Held(s'), Held(s));
  }

  // What commit does next.
  function Turn(s: State): Step {
    match s.phase
    case Copying(k) => if k < |s.lh| then CopyNext else if s.lh == [] then EraseHeader else WriteHeader
    case Installing(k) => if k < |s.lh| then InstallNext else EraseHeader
    case _ => CommitDone
  }

  predicate Committing(s: State) { s.phase.Copying? || s.phase.Installing? || s.phase.Erased? }

  function Remaining(s: State): int {
    match s.phase
    case Copying(k) => 2 * |s.lh| - k + 3
    case Installing(k) => |s.lh| - k + 2
    case Erased => 1
    case _ => 0
  }

  lemma HeaderRoom(s: State, b: nat)
    requires Calm(s) && s.cache.Keys == Held(s)
    ensures Room(s, {b}) && !Busy(s, b)
  {
    OneMore(s, b, b);
    assert {b, b} == {b};
  }

  lemma PhaseCalm(s: State, p: Phase)
    requires Calm(s)
    ensures Calm(s.(phase := p))
  {
    assert Held(s.(phase := p)) == Held(s);
  }

  lemma EntryIs(s: State, l: Layout, k: nat)
    requires Inv(s, l) && (s.phase == Copying(k) || s.phase == Installing(k)) && k < |s.lh|
    ensures s.lh[k] in s.cache && s.lh[k] < |s.disk| && |s.lh| < l.size && l.Fits(s.disk)
  {
    hide HeaderOf, CacheOk, Recorded, Copied, Installed, Distinct;
  }

  lemma CopyGoes(s: State, l: Layout, k: nat) returns (s': State)
    requires Inv(s, l) && Calm(s) && s.cache.Keys == Held(s) && k < |s.lh|
    requires s.phase == Copying(k) || s.phase == Installing(k)
    ensures Next(s, l, Turn(s), s') && Calm(s')
  {
    hide Inv, Held, Calm, Room, Busy, View, Written, ValidLog;
    InvValid(s, l);
    EntryIs(s, l, k);
    OneMore(s, s.lh[k], l.start + 1 + k);
    assert s.(lh := s.lh) == s;
    if s.phase.Copying? {
      WrittenCalm(s, l.start + 1 + k, View(s, s.lh[k]), Copying(k + 1), s.lh);
    } else {
      WrittenCalm(s, s.lh[k], View(s, l.start + 1 + k), Installing(k + 1), s.lh);
    }
    s' := Do(s, l, Turn(s));
  }

  lemma HeaderGoes(s: State, l: Layout) returns (s': State)
    requires Inv(s, l) && Calm(s) && s.cache.Keys == Held(s)
    requires s.lh != [] && (s.phase == Copying(|s.lh|) || s.phase == Installing(|s.lh|))
    ensures Next(s, l, Turn(s), s') && Calm(s')
  {
    hide Inv, Held, Calm, Room, Busy, View, Written, PutHeader, ValidLog;
    InvValid(s, l);
    HeaderRoom(s, l.start);
    assert s.(lh := s.lh) == s;
    WrittenCalm(s, l.start, PutHeader(View(s, l.start), s.lh), Installing(0), s.lh);
    WrittenCalm(s, l.start, PutHeader(View(s, l.start), []), Erased, []);
    s' := Do(s, l, Turn(s));
  }

  lemma EntryBound(s: State, l: Layout)
    requires Inv(s, l)
    ensures s.phase.Copying? || s.phase.Installing? ==> s.phase.k <= |s.lh|
    ensures s.phase.Installing? ==> s.lh != []
  {
    hide HeaderOf, CacheOk, Recorded, Copied, Installed, Distinct, Pinned, ValidLog;
  }

  // Nothing stops it.
  lemma TurnGoes(s: State, l: Layout) returns (s': State)
    requires Inv(s, l) && Calm(s) && s.cache.Keys == Held(s) && Committing(s)
    ensures Next(s, l, Turn(s), s') && Calm(s')
  {
    hide Inv, Held, Calm, Room, Busy, Written, PutHeader, ValidLog;
    InvValid(s, l);
    EntryBound(s, l);
    if s.phase.Erased? || s.lh == [] {
      PhaseCalm(s, Erased);
      PhaseCalm(s, Running);
      s' := Do(s, l, Turn(s));
    } else if s.phase.k < |s.lh| {
      s' := CopyGoes(s, l, s.phase.k);
    } else {
      s' := HeaderGoes(s, l);
    }
  }

  lemma TurnNearer(s: State, l: Layout, s': State)
    requires Inv(s, l) && Committing(s) && Next(s, l, Turn(s), s')
    ensures Quiet(Turn(s)) && 0 <= Remaining(s') < Remaining(s)
    ensures Committing(s') || (s'.phase.Running? && s'.lh == [])
  {
    hide Room, Busy, View, PutHeader, HeaderOf, CacheOk, Recorded, Copied, Installed, Distinct, ValidLog, Pinned;
  }

  lemma {:induction false} CommitEnds(s: State, l: Layout) returns (n: nat, s': State)
    requires Inv(s, l) && Calm(s) && (Committing(s) || (s.phase.Running? && s.lh == []))
    ensures Leads(l, n, s, s') && Inv(s', l) && s'.phase.Running? && s'.lh == []
    decreases Remaining(s)
  {
    hide Inv, Next, Calm, Held, Turn;
    if s.phase.Running? {
      return 0, s;
    }
    InvValid(s, l);
    var m := Evicting(s, l);
    var t := Tidy(s);
    LeadsKeeps(l, m, s, t);
    TidyIs(s);
    var u := TurnGoes(t, l);
    TurnNearer(t, l, u);
    LeadsOne(l, Turn(t), t, u);
    LeadsOn(l, m, 1, s, t, u);
    LeadsKeeps(l, 1, t, u);
    var k, v := CommitEnds(u, l);
    LeadsOn(l, m + 1, k, s, u, v);
    return m + 1 + k, v;
  }

  // Once the last operation has ended, the commit can be finished whenever nobody
  // keeps a buffer locked and one buffer is left; then everything is durable.
  lemma CommitCompletes(s: State, l: Layout) returns (n: nat, s': State)
    requires Inv(s, l) && Calm(s) && s.phase.Copying?
    ensures Leads(l, n, s, s') && s'.phase.Running? && s'.lh == [] && ValidLog(s.disk, l) && ValidLog(s'.disk, l)
    ensures SameHome(Current(s', l), Current(s, l), l) && SameHome(Durable(s', l), Current(s, l), l)
  {
    hide Inv, Calm, Leads, Current, Durable, ValidLog;
    n, s' := CommitEnds(s, l);
    LeadsKeeps(l, n, s, s');
    NothingLogged(s', l);
  }

  // Recovery with an empty cache, from entry k on.
  lemma {:induction false} RecoveryEnds(s: State, l: Layout) returns (n: nat, s': State)
    requires Inv(s, l) && s.phase.Recovering? && s.cache == map[]
    ensures Leads(l, n, s, s') && Inv(s', l) && s'.phase.Running? && s'.lh == [] && s'.ops == []
    decreases |s.lh| - s.phase.k
  {
    hide Inv, Next;
    InvValid(s, l);
    var st := if s.phase.k < |s.lh| then RecoverNext else RecoverErase;
    var t := RecoverGoes(s, l, st);
    LeadsOne(l, st, s, t);
    LeadsKeeps(l, 1, s, t);
    if st.RecoverErase? {
      return 1, t;
    }
    var m := Evicting(t, l);
    NoneHeld(t);
    LeadsOn(l, 1, m, s, t, Tidy(t));
    LeadsKeeps(l, m, t, Tidy(t));
    var k, v := RecoveryEnds(Tidy(t), l);
    LeadsOn(l, 1 + m, k, s, Tidy(t), v);
    return 1 + m + k, v;
  }

  lemma RecoverGoes(s: State, l: Layout, st: Step) returns (s': State)
    requires Inv(s, l) && s.phase.Recovering? && s.cache == map[]
    requires st == if s.phase.k < |s.lh| then RecoverNext else RecoverErase
    ensures Quiet(st) && Next(s, l, st, s') && s'.ops == []
    ensures st.RecoverNext? ==>
              && s'.phase == Recovering(s.phase.k + 1) && s'.lh == s.lh && |s'.lh| <= LOGSIZE
              && forall b :: b in s'.cache ==> s'.cache[b].refcnt == 0 && !s'.cache[b].dirty
    ensures st.RecoverErase? ==> s'.phase.Running? && s'.lh == []
  {
    hide View, PutHeader, HeaderOf, Recorded, Copied, Installed, Distinct, Pinned;
    InvValid(s, l);
    assert s.cache.Keys == {};
    s' := Do(s, l, st);
  }

  lemma NoneHeld(s: State)
    requires forall b :: b in s.cache ==> s.cache[b].refcnt == 0 && !s.cache[b].dirty
    ensures Tidy(s) == s.(cache := map[])
  {
    assert Held(s) == {};
    assert Tidy(s).cache == map[];
  }

  // After a crash at any moment recovery can be finished, and leaves what was
  // durable then.
  lemma RecoveryCompletes(s: State, l: Layout) returns (n: nat, a: State, s': State)
    requires Inv(s, l)
    ensures Next(s, l, Crash, a) && Leads(l, n, a, s') && s'.phase.Running? && s'.lh == [] && s'.ops == []
    ensures ValidLog(s.disk, l) && ValidLog(s'.disk, l) && SameHome(Current(s', l), Durable(s, l), l)
  {
    hide Inv, Leads, Current, Durable;
    InvValid(s, l);
    a := Do(s, l, Crash);
    NextRefines(s, l, Crash, a);
    InvValid(a, l);
    var b := HeaderRead(a, l);
    LeadsOne(l, ReadHeader, a, b);
    LeadsKeeps(l, 1, a, b);
    var m, c := RecoveryEnds(b, l);
    LeadsOn(l, 1, m, a, b, c);
    n, s' := 1 + m, c;
    LeadsKeeps(l, n, a, s');
    assert SameHome(Current(a, l), Durable(s, l), l);
  }

  lemma HeaderRead(s: State, l: Layout) returns (s': State)
    requires Inv(s, l) && s.phase.Booting? && s.cache == map[]
    ensures Next(s, l, ReadHeader, s') && s'.phase == Recovering(0) && s'.cache == map[]
  {
    hide HeaderOf, Pinned, CacheOk, Recorded, Distinct;
    InvValid(s, l);
    assert s.cache.Keys + {l.start} == {l.start};
    s' := Do(s, l, ReadHeader);
  }
}
