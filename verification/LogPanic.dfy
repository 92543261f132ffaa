// The reservation of begin_op does not keep log_write from panicking: runs in
// which every operation stays within MAXOPBLOCKS blocks and the panic test of
// log_write fires all the same.
module LogPanic {
  import opened Common
  import opened Blocks
  import opened RedoLog
  import opened LogProtocol
  import opened LogRuns
  import opened LogBudget

  const BASE := 100

  function Interval(lo: nat, hi: int): (r: set<nat>)
    ensures forall x :: x in r <==> lo <= x < hi
    ensures |r| == if lo <= hi then hi - lo else 0
    decreases hi - lo
  {
    if lo < hi then Interval(lo, hi - 1) + {hi - 1} else {}
  }

  // What the j-th of three operations has logged after k blocks in all.
  function Share(j: nat, k: nat): set<nat> {
    Interval(BASE + 10 * j, if k < 10 * j + 10 then BASE + k else BASE + 10 * j + 10)
  }

  function Blocks100(k: nat): seq<Word>
    requires k <= LOGSIZE
  {
    seq(k, i requires 0 <= i < k => BASE + i)
  }

  // Three operations are outstanding and have logged k blocks, which are all
  // that is cached; nobody holds a buffer.
  ghost predicate Loaded(s: State, l: Layout, k: nat) {
    && k <= LOGSIZE && Inv(s, l) && s.phase.Running? && |s.disk| > BASE + LOGSIZE
    && s.lh == Blocks100(k)
    && s.ops == [Share(0, k), Share(1, k), Share(2, k)]
    && s.cache.Keys == Interval(BASE, BASE + k) && (forall b :: b in s.cache ==> !s.cache[b].locked)
  }

  // A run from boot to s in which every operation keeps to its budget.
  ghost predicate Reaches(ss: seq<State>, sts: seq<Step>, l: Layout, s: State) {
    && IsRun(ss, sts, l) && Boot(ss[0], l) && ss[|ss| - 1] == s
    && forall i :: 0 <= i < |sts| ==> Thrifty(ss[i], sts[i])
  }

  // Operation op holds block b and is about to log it, within its budget.
  ghost predicate Calls(s: State, l: Layout, op: nat, b: nat) {
    && s.phase.Running? && op < |s.ops| && b in s.cache && s.cache[b].locked && b < |s.disk| && !l.InLog(b)
    && |s.ops[op] + {b}| <= MAXOPBLOCKS
  }

  lemma Extend(ss: seq<State>, sts: seq<Step>, l: Layout, s: State, st: Step)
    requires Reaches(ss, sts, l, s) && Inv(s, l) && Can(s, l, st) && Thrifty(s, st)
    ensures Inv(Do(s, l, st), l)
    ensures Reaches(ss + [Do(s, l, st)], sts + [st], l, Do(s, l, st))
  {
    hide Inv, Do, Can, Boot, Thrifty;
    InvValid(s, l);
    StepRefines(s, l, st);
    Append(ss, sts, l, s, st, Do(s, l, st));
  }

  lemma Append(ss: seq<State>, sts: seq<Step>, l: Layout, s: State, st: Step, s': State)
    requires Reaches(ss, sts, l, s) && Next(s, l, st, s') && Thrifty(s, st)
    ensures Reaches(ss + [s'], sts + [st], l, s')
  {
    hide Next, Boot, Thrifty;
    var ss', sts' := ss + [s'], sts + [st];
    forall i | 0 <= i < |sts'|
      ensures Next(ss'[i], l, sts'[i], ss'[i + 1]) && Thrifty(ss'[i], sts'[i])
    {
      if i < |sts| {
        assert ss'[i] == ss[i] && ss'[i + 1] == ss[i + 1] && sts'[i] == sts[i];
      }
    }
  }

  // Booting a disk with an empty log, and recycling the buffer of the header.
  lemma Booted(d: Disk, l: Layout) returns (ss: seq<State>, sts: seq<Step>, s: State)
    requires ValidLog(d, l) && HeaderOf(d[l.start]) == []
    ensures |ss| > 0 && Reaches(ss, sts, l, s) && ss[|ss| - 1] == s && Inv(s, l)
    ensures s.phase.Running? && s.lh == [] && s.ops == [] && s.cache == map[] && |s.disk| == |d|
  {
    hide Reaches, Inv, Recovered, PutHeader;
    s := State(d, map[], [], [], Booting);
    BootInv(s, l);
    ss, sts := [s], [];
    assert Reaches(ss, sts, l, s) by { Started(s, l); }
    ss, sts, s := Take(ss, sts, l, s, ReadHeader);
    assert s == State(d, map[], [], [], Recovering(0));
    ss, sts, s := Take(ss, sts, l, s, RecoverErase);
    assert s.cache.Keys == {l.start};
    ss, sts, s := Take(ss, sts, l, s, Evict(l.start));
    assert s.cache.Keys == {};
  }

  // Three begin_ops after that.
  lemma Start(d: Disk, l: Layout) returns (ss: seq<State>, sts: seq<Step>)
    requires ValidLog(d, l) && HeaderOf(d[l.start]) == [] && |d| > BASE + LOGSIZE && l.start < BASE
    ensures |ss| > 0 && Reaches(ss, sts, l, ss[|ss| - 1]) && Loaded(ss[|ss| - 1], l, 0)
  {
    hide Reaches, Inv, ValidLog;
    var s;
    ss, sts, s := Booted(d, l);
    ss, sts, s := Take(ss, sts, l, s, BeginOp);
    ss, sts, s := Take(ss, sts, l, s, BeginOp);
    ss, sts, s := Take(ss, sts, l, s, BeginOp);
    assert s.ops == [{}, {}, {}];
    assert Share(0, 0) == {} && Share(1, 0) == {} && Share(2, 0) == {};
  }

  lemma Started(s: State, l: Layout)
    requires Boot(s, l)
    ensures Reaches([s], [], l, s)
  {
  }

  lemma Take(ss: seq<State>, sts: seq<Step>, l: Layout, s: State, st: Step)
    returns (ss': seq<State>, sts': seq<Step>, s': State)
    requires Reaches(ss, sts, l, s) && Inv(s, l) && Can(s, l, st) && Thrifty(s, st)
    ensures Inv(s', l) && ValidLog(s.disk, l) && |s.lh| <= LOGSIZE && s' == Do(s, l, st)
    ensures |ss'| > 0 && Reaches(ss', sts', l, s') && ss'[|ss'| - 1] == s'
  {
    hide Inv, Do, Can, Thrifty;
    InvValid(s, l);
    Extend(ss, sts, l, s, st);
    s' := Do(s, l, st);
    ss', sts' := ss + [s'], sts + [st];
  }

  lemma ShareGrows(j: nat, k: nat)
    requires 10 * j <= k < 10 * j + 10
    ensures Share(j, k + 1) == Share(j, k) + {BASE + k} && |Share(j, k + 1)| <= MAXOPBLOCKS
  {
  }

  lemma ShareSame(j: nat, k: nat)
    requires k < 10 * j || 10 * j + 10 <= k
    ensures Share(j, k + 1) == Share(j, k)
  {
  }

  // bread of an uncached block.
  lemma ReadBlock(ss: seq<State>, sts: seq<Step>, l: Layout, s: State, b: nat)
    returns (ss': seq<State>, sts': seq<Step>, s': State)
    requires Reaches(ss, sts, l, s) && Inv(s, l) && b < |s.disk| && b !in s.cache && Room(s, {b})
    ensures |ss'| > 0 && Reaches(ss', sts', l, s') && ss'[|ss'| - 1] == s' && Inv(s', l)
    ensures s' == s.(cache := s.cache[b := Cell(s.disk[b], false, 1, true)])
  {
    hide Reaches, Inv;
    ss', sts', s' := Take(ss, sts, l, s, Fill(b));
    ss', sts', s' := Take(ss', sts', l, s', Get(b));
    ss', sts', s' := Take(ss', sts', l, s', Lock(b));
  }

  // One more block: read it, lock it, change it, log it and release it.
  lemma LogOneMore(ss: seq<State>, sts: seq<Step>, l: Layout, s: State, k: nat, data: Block)
    returns (ss': seq<State>, sts': seq<Step>, s': State)
    requires Reaches(ss, sts, l, s) && Loaded(s, l, k) && k < LOGSIZE && k + 1 < l.size && l.start + l.size <= BASE
    ensures |ss'| > 0 && Reaches(ss', sts', l, s') && ss'[|ss'| - 1] == s' && Loaded(s', l, k + 1)
  {
    hide Reaches, Inv, Share, Interval, Blocks100, Absorb, Room;
    var b, op := BASE + k, k / 10;
    RoomFor(s, k);
    ss', sts', s' := ReadBlock(ss, sts, l, s, b);
    NextShares(k);
    BlocksGrow(k);
    assert !TooBig(s.lh, l);
    ss', sts', s' := Take(ss', sts', l, s', OpWrite(op, b, data));
    ss', sts', s' := Take(ss', sts', l, s', Release(b));
    assert s'.cache.Keys == s.cache.Keys + {b};
  }

  // With k blocks cached there is room for one more.
  lemma RoomFor(s: State, k: nat)
    requires k < LOGSIZE && s.cache.Keys == Interval(BASE, BASE + k)
    ensures BASE + k !in s.cache && Room(s, {BASE + k}) && s.cache.Keys + {BASE + k} == Interval(BASE, BASE + (k + 1))
  {
  }

  lemma NextShares(k: nat)
    requires k < LOGSIZE
    ensures var ops, op := [Share(0, k), Share(1, k), Share(2, k)], k / 10;
            && |ops[op] + {BASE + k}| <= MAXOPBLOCKS
            && ops[op := ops[op] + {BASE + k}] == [Share(0, k + 1), Share(1, k + 1), Share(2, k + 1)]
  {
    hide Share;
    ShareGrows(k / 10, k);
    forall j | 0 <= j < 3 && j != k / 10
      ensures Share(j, k + 1) == Share(j, k)
    {
      ShareSame(j, k);
    }
  }

  lemma BlocksGrow(k: nat)
    requires k < LOGSIZE
    ensures |Blocks100(k)| == k && Absorb(Blocks100(k), BASE + k) == Blocks100(k + 1)
  {
  }

  // For every k up to the panic limit there is a run that logs k blocks.
  lemma {:induction false} LogMany(d: Disk, l: Layout, k: nat) returns (ss: seq<State>, sts: seq<Step>, s: State)
    requires ValidLog(d, l) && HeaderOf(d[l.start]) == [] && |d| > BASE + LOGSIZE && l.start + l.size <= BASE
    requires k <= LOGSIZE && k < l.size
    ensures |ss| > 0 && Reaches(ss, sts, l, s) && ss[|ss| - 1] == s && Loaded(s, l, k)
  {
    hide Reaches, Loaded, ValidLog;
    if k == 0 {
      ss, sts := Start(d, l);
      s := ss[|ss| - 1];
    } else {
      ss, sts, s := LogMany(d, l, k - 1);
      ss, sts, s := LogOneMore(ss, sts, l, s, k - 1, ZeroBlock());
    }
  }

  // With the log area mkfs makes (LOGSIZE blocks) the thirtieth new block
  // panics, although begin_op had reserved room for it.
  lemma NewBlockCanPanic(d: Disk, l: Layout) returns (ss: seq<State>, sts: seq<Step>, s: State)
    requires ValidLog(d, l) && HeaderOf(d[l.start]) == [] && |d| > BASE + LOGSIZE
    requires l == Layout(2, LOGSIZE)
    ensures Reaches(ss, sts, l, s) && Calls(s, l, 2, BASE + LOGSIZE - 1)
    ensures BASE + LOGSIZE - 1 !in s.lh && TooBig(s.lh, l)
  {
    hide Reaches, Inv, Room;
    ss, sts, s := LogMany(d, l, LOGSIZE - 1);
    RoomFor(s, LOGSIZE - 1);
    ss, sts, s := ReadBlock(ss, sts, l, s, BASE + LOGSIZE - 1);
    ShareGrows(2, LOGSIZE - 1);
  }

  // With a larger log area the list can fill up, and then even a write to a
  // block that is already logged panics instead of being absorbed.
  lemma AbsorbedWriteCanPanic(d: Disk, l: Layout) returns (ss: seq<State>, sts: seq<Step>, s: State)
    requires ValidLog(d, l) && HeaderOf(d[l.start]) == [] && |d| > BASE + LOGSIZE
    requires l == Layout(2, LOGSIZE + 1)
    ensures Reaches(ss, sts, l, s) && Calls(s, l, 0, BASE)
    ensures BASE in s.lh && TooBig(s.lh, l)
  {
    hide Reaches, Inv, Interval, Share, Blocks100;
    ss, sts, s := LogMany(d, l, LOGSIZE);
    ss, sts, s := Take(ss, sts, l, s, Get(BASE));
    ss, sts, s := Take(ss, sts, l, s, Lock(BASE));
    FirstShare();
    FirstListed();
  }

  lemma FirstShare()
    ensures |Share(0, LOGSIZE) + {BASE}| <= MAXOPBLOCKS
  {
    hide Interval;
    assert Share(0, LOGSIZE) + {BASE} == Share(0, LOGSIZE);
  }

  lemma FirstListed()
    ensures |Blocks100(LOGSIZE)| == LOGSIZE && Blocks100(LOGSIZE)[0] == BASE
  {
  }
}
