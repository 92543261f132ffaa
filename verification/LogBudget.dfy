// The reservation of begin_op: in runs in which every operation logs at most
// MAXOPBLOCKS blocks the list in memory does not outgrow LOGSIZE, and what is
// left of the panic test of log_write.
module LogBudget {
  import opened Common
  import opened RedoLog
  import opened LogProtocol
  import opened LogRuns

  // Sum of MAXOPBLOCKS - |ops[i]|: what the outstanding operations may still log.
  ghost function Unused(ops: seq<set<nat>>): (n: int) {
    if ops == [] then 0 else Unused(ops[..|ops| - 1]) + MAXOPBLOCKS - |ops[|ops| - 1]|
  }

  lemma {:induction false} UnusedBounds(ops: seq<set<nat>>)
    requires forall i :: 0 <= i < |ops| ==> |ops[i]| <= MAXOPBLOCKS
    ensures 0 <= Unused(ops) <= |ops| * MAXOPBLOCKS
  {
    if ops != [] {
      UnusedBounds(ops[..|ops| - 1]);
    }
  }

  lemma {:induction false} UnusedUpdate(ops: seq<set<nat>>, i: nat, x: set<nat>)
    requires i < |ops|
    ensures Unused(ops[i := x]) == Unused(ops) + |ops[i]| - |x|
  {
    var n := |ops| - 1;
    if i == n {
      assert ops[i := x][..n] == ops[..n];
    } else {
      UnusedUpdate(ops[..n], i, x);
      assert ops[i := x][..n] == ops[..n][i := x];
    }
  }

  lemma UnusedLast(ops: seq<set<nat>>, i: nat)
    requires i < |ops| - 1
    ensures var n := |ops| - 1;
            Unused(ops[..i] + ops[i + 1..]) == Unused(ops[..n][..i] + ops[..n][i + 1..]) + MAXOPBLOCKS - |ops[n]|
  {
    var n, r := |ops| - 1, ops[..i] + ops[i + 1..];
    assert r[n - 1] == ops[n];
    assert r[..n - 1] == ops[..n][..i] + ops[..n][i + 1..];
  }

  lemma {:induction false} UnusedRemove(ops: seq<set<nat>>, i: nat)
    requires i < |ops|
    ensures Unused(ops[..i] + ops[i + 1..]) == Unused(ops) + |ops[i]| - MAXOPBLOCKS
  {
    var n := |ops| - 1;
    if i == n {
      assert ops[..i] + ops[i + 1..] == ops[..n];
    } else {
      UnusedRemove(ops[..n], i);
      UnusedLast(ops, i);
    }
  }

  // Every operation is within its budget, and lh plus the unused budgets fits
  // in the log.
  ghost predicate Budgeted(s: State) {
    (forall i :: 0 <= i < |s.ops| ==> |s.ops[i]| <= MAXOPBLOCKS) && |s.lh| + Unused(s.ops) <= LOGSIZE
  }

  // The step does not take an operation over its budget.
  ghost predicate Thrifty(s: State, st: Step) {
    st.OpWrite? && st.op < |s.ops| ==> |s.ops[st.op] + {st.b}| <= MAXOPBLOCKS
  }

  lemma WriteBudgeted(s: State, s': State, op: nat, b: Word)
    requires Recorded(s) && Budgeted(s) && op < |s.ops| && |s.ops[op] + {b}| <= MAXOPBLOCKS
    requires s'.lh == Absorb(s.lh, b) && s'.ops == s.ops[op := s.ops[op] + {b}]
    ensures Budgeted(s')
  {
    UnusedUpdate(s.ops, op, s.ops[op] + {b});
    if b in s.ops[op] {
      assert s.ops[op] + {b} == s.ops[op];
    }
  }

  lemma EndBudgeted(s: State, s': State, op: nat)
    requires Budgeted(s) && op < |s.ops| && s'.lh == s.lh && s'.ops == s.ops[..op] + s.ops[op + 1..]
    ensures Budgeted(s')
  {
    UnusedRemove(s.ops, op);
    forall i | 0 <= i < |s'.ops|
      ensures s'.ops[i] == s.ops[if i < op then i else i + 1]
    {
    }
  }

  lemma BeginBudgeted(s: State, s': State)
    requires Budgeted(s) && s'.lh == s.lh && s'.ops == s.ops + [{}]
    requires |s.lh| + (|s.ops| + 1) * MAXOPBLOCKS <= LOGSIZE
    ensures Budgeted(s')
  {
    UnusedBounds(s.ops);
    assert s'.ops[..|s.ops|] == s.ops;
  }

  lemma StepBudgeted(s: State, l: Layout, st: Step, s': State)
    requires Inv(s, l) && Next(s, l, st, s') && Budgeted(s) && Thrifty(s, st)
    ensures Budgeted(s')
  {
    hide Inv, Budgeted, View, PutHeader, Room, TooBig, Absorb, Unused;
    match st
    case BeginOp => BeginBudgeted(s, s');
    case OpWrite(op, b, _) =>
      InvRecorded(s, l);
      WriteBudgeted(s, s', op, b);
    case EndOp(op) => EndBudgeted(s, s', op);
    case ReadHeader => NoOpsBudgeted(s, l, s');
    case EraseHeader => NoOpsBudgeted(s, l, s');
    case RecoverErase => NoOpsBudgeted(s, l, s');
    case Crash => EmptyBudgeted(s');
    case _ => SameBudgeted(s, s');
  }

  lemma InvRecorded(s: State, l: Layout)
    requires Inv(s, l)
    ensures Recorded(s)
  {
  }

  lemma SameBudgeted(s: State, s': State)
    requires Budgeted(s) && s'.lh == s.lh && s'.ops == s.ops
    ensures Budgeted(s')
  {
  }

  lemma EmptyBudgeted(s: State)
    requires s.ops == [] && |s.lh| <= LOGSIZE
    ensures Budgeted(s)
  {
  }

  lemma NoOpsBudgeted(s: State, l: Layout, s': State)
    requires Inv(s, l) && !s.phase.Running? && s'.ops == s.ops && |s'.lh| <= LOGSIZE
    ensures Budgeted(s')
  {
    NoOps(s, l);
    EmptyBudgeted(s');
  }

  // In a run from boot in which no operation exceeds its budget the
  // reservations hold throughout.
  lemma {:induction false} RunBudgeted(ss: seq<State>, sts: seq<Step>, l: Layout, n: nat)
    requires IsRun(ss, sts, l) && Boot(ss[0], l) && n <= |sts|
    requires forall i :: 0 <= i < n ==> Thrifty(ss[i], sts[i])
    ensures Budgeted(ss[n])
  {
    hide Inv, Next, Budgeted, Thrifty;
    if n == 0 {
      EmptyBudgeted(ss[0]);
    } else {
      RunBudgeted(ss, sts, l, n - 1);
      BootInv(ss[0], l);
      RunInv(ss, sts, l, n - 1);
      assert Next(ss[n - 1], l, sts[n - 1], ss[n]) && Thrifty(ss[n - 1], sts[n - 1]);
      StepBudgeted(ss[n - 1], l, sts[n - 1], ss[n]);
    }
  }

  // A new block always finds a slot: with budget left, lh is not full.
  lemma NewBlockFits(s: State, op: nat, b: nat)
    requires Recorded(s) && Budgeted(s) && op < |s.ops| && b !in s.lh && |s.ops[op] + {b}| <= MAXOPBLOCKS
    ensures |s.lh| < LOGSIZE
  {
    assert b !in s.ops[op];
    var rest := s.ops[..op] + s.ops[op + 1..];
    UnusedRemove(s.ops, op);
    forall i | 0 <= i < |rest|
      ensures |rest[i]| <= MAXOPBLOCKS
    {
      assert rest[i] == s.ops[if i < op then i else i + 1];
    }
    UnusedBounds(rest);
  }

  // When log_write panics although no operation has exceeded its budget: when
  // the log area has no slot left for a new header entry, or when all LOGSIZE
  // entries are used and the block is already listed.
  lemma PanicExactly(s: State, l: Layout, op: nat, b: nat)
    requires Inv(s, l) && Budgeted(s) && op < |s.ops| && |s.ops[op] + {b}| <= MAXOPBLOCKS
    ensures TooBig(s.lh, l) <==> |s.lh| >= l.size - 1 || (|s.lh| == LOGSIZE && b in s.lh)
  {
    if b !in s.lh {
      NewBlockFits(s, op, b);
    }
  }
}
