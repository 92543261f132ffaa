// Open files (file.c): reference counts against descriptor slots, and the ends
// of pipes against the files that use them. Values and lemmas.
module FileTable {
  import opened Common

  // struct file: type, and what it refers to.
  datatype Kind = NoKind | PipeEnd(pipe: nat, writable: bool) | InodeFile(ip: nat)
  datatype File = File(ref: nat, kind: Kind)

  // struct pipe, as far as open ends go. A pipe that was freed is not in the map.
  datatype Ends = Ends(readopen: bool, writeopen: bool)

  type Row = seq<Option<nat>> // the ofile array of a process

  function IsOpen(e: Ends, writable: bool): bool { if writable then e.writeopen else e.readopen }

  // How many descriptors point to f.
  ghost function InRow(row: Row, f: nat): nat {
    if row == [] then 0 else InRow(row[..|row| - 1], f) + if row[|row| - 1] == Some(f) then 1 else 0
  }

  ghost function InAll(rows: seq<Row>, f: nat): nat {
    if rows == [] then 0 else InAll(rows[..|rows| - 1], f) + InRow(rows[|rows| - 1], f)
  }

  ghost function One(x: Option<nat>, f: nat): nat { if x == Some(f) then 1 else 0 }

  lemma {:induction false} RowSet(row: Row, i: nat, x: Option<nat>, f: nat)
    requires i < |row|
    ensures InRow(row[i := x], f) + One(row[i], f) == InRow(row, f) + One(x, f)
  {
    var n := |row| - 1;
    if i == n {
      assert row[i := x][..n] == row[..n];
    } else {
      assert row[i := x][..n] == row[..n][i := x];
      RowSet(row[..n], i, x, f);
    }
  }

  lemma {:induction false} AllSet(rows: seq<Row>, p: nat, row: Row, f: nat)
    requires p < |rows|
    ensures InAll(rows[p := row], f) + InRow(rows[p], f) == InAll(rows, f) + InRow(row, f)
  {
    var n := |rows| - 1;
    if p == n {
      assert rows[p := row][..n] == rows[..n];
    } else {
      assert rows[p := row][..n] == rows[..n][p := row];
      AllSet(rows[..n], p, row, f);
    }
  }

  function SetSlot(rows: seq<Row>, p: nat, i: nat, x: Option<nat>): (r: seq<Row>)
    requires p < |rows| && i < |rows[p]|
  {
    rows[p := rows[p][i := x]]
  }

  lemma SlotTwice(rows: seq<Row>, p: nat, i: nat, x: Option<nat>)
    requires p < |rows| && i < |rows[p]|
    ensures SetSlot(rows, p, i, rows[p][i]) == rows
    ensures var r := SetSlot(rows, p, i, None);
            p < |r| && |r| == |rows| && |r[p]| == |rows[p]| && r[p][i] == None &&
                SetSlot(r, p, i, x) == SetSlot(rows, p, i, x)
    ensures forall j :: 0 <= j < |rows[p]| && j != i ==> SetSlot(rows, p, i, None)[p][j] == rows[p][j]
  {
    assert rows[p][i := rows[p][i]] == rows[p];
    assert rows[p][i := None][i := x] == rows[p][i := x];
  }

  // Storing x in a slot takes one from the count of what was there.
  lemma SlotSet(rows: seq<Row>, p: nat, i: nat, x: Option<nat>, f: nat)
    requires p < |rows| && i < |rows[p]|
    ensures InAll(SetSlot(rows, p, i, x), f) + One(rows[p][i], f) == InAll(rows, f) + One(x, f)
  {
    RowSet(rows[p], i, x, f);
    AllSet(rows, p, rows[p][i := x], f);
  }

  lemma {:induction false} RowCounts(row: Row, i: nat, f: nat)
    requires i < |row| && row[i] == Some(f)
    ensures InRow(row, f) > 0
  {
    if i < |row| - 1 {
      RowCounts(row[..|row| - 1], i, f);
    }
  }

  lemma {:induction false} SlotCounts(rows: seq<Row>, p: nat, i: nat, f: nat)
    requires p < |rows| && i < |rows[p]| && rows[p][i] == Some(f)
    ensures InAll(rows, f) > 0
  {
    if p == |rows| - 1 {
      RowCounts(rows[p], i, f);
    } else {
      SlotCounts(rows[..|rows| - 1], p, i, f);
    }
  }

  // Every count is the number of slots, plus the references in hand.
  ghost predicate Counts(files: seq<File>, rows: seq<Row>, held: multiset<nat>) {
    && (forall f :: 0 <= f < |files| ==> files[f].ref == InAll(rows, f) + held[f])
    && (forall p, i :: 0 <= p < |rows| && 0 <= i < |rows[p]| && rows[p][i].Some? ==> rows[p][i].value < |files|)
    && (forall f :: f in held ==> f < |files|)
  }

  // A file in use as a pipe end has a pipe with that end open, and an open end
  // has exactly one file: ends names it.
  ghost predicate Pipes(files: seq<File>, pipes: map<nat, Ends>, ends: map<(nat, bool), nat>) {
    && (forall f :: 0 <= f < |files| && files[f].ref == 0 ==> files[f].kind == NoKind)
    && (forall f :: 0 <= f < |files| && files[f].kind.PipeEnd? ==>
          var e := (files[f].kind.pipe, files[f].kind.writable);
          e.0 in pipes && IsOpen(pipes[e.0], e.1) && e in ends && ends[e] == f)
    && (forall q :: q in pipes ==> pipes[q].readopen || pipes[q].writeopen)
    && (forall q, w :: q in pipes && IsOpen(pipes[q], w) ==>
          (q, w) in ends && ends[(q, w)] < |files| && files[ends[(q, w)]].kind == PipeEnd(q, w))
  }

  ghost predicate Inv(files: seq<File>, rows: seq<Row>, pipes: map<nat, Ends>, ends: map<(nat, bool), nat>,
                      held: multiset<nat>)
  {
    Counts(files, rows, held) && Pipes(files, pipes, ends)
  }

  // Every file that is still open was open and is what it was.
  ghost predicate Kept(files0: seq<File>, files: seq<File>) {
    |files| == |files0| && forall f :: 0 <= f < |files| && files[f].ref > 0 ==>
        files0[f].ref > 0 && files[f].kind == files0[f].kind
  }

  // Then a pipe end is open iff it was and its file still is.
  lemma EndsKept(files0: seq<File>, pipes0: map<nat, Ends>, files: seq<File>, pipes: map<nat, Ends>,
                 ends: map<(nat, bool), nat>, q: nat, w: bool)
    requires Pipes(files0, pipes0, ends) && Pipes(files, pipes, ends) && Kept(files0, files)
    ensures q in pipes && IsOpen(pipes[q], w) <==>
              q in pipes0 && IsOpen(pipes0[q], w) && files[ends[(q, w)]].ref > 0
  {
  }

  // A reference moves from a slot to the hand, or back.
  lemma TakeOut(files: seq<File>, rows: seq<Row>, held: multiset<nat>, p: nat, i: nat)
    requires Counts(files, rows, held) && p < |rows| && i < |rows[p]| && rows[p][i].Some?
    ensures Counts(files, SetSlot(rows, p, i, None), held + multiset{rows[p][i].value})
  {
    var x := rows[p][i];
    forall f | 0 <= f < |files|
      ensures files[f].ref == InAll(SetSlot(rows, p, i, None), f) + (held + multiset{x.value})[f]
    {
      SlotSet(rows, p, i, None, f);
    }
  }

  lemma PutIn(files: seq<File>, rows: seq<Row>, held: multiset<nat>, p: nat, i: nat, g: nat)
    requires Counts(files, rows, held) && p < |rows| && i < |rows[p]| && rows[p][i] == None && g in held
    ensures Counts(files, SetSlot(rows, p, i, Some(g)), held - multiset{g})
  {
    forall f | 0 <= f < |files|
      ensures files[f].ref == InAll(SetSlot(rows, p, i, Some(g)), f) + (held - multiset{g})[f]
    {
      SlotSet(rows, p, i, Some(g), f);
    }
  }

  // filedup
  lemma AddRef(files: seq<File>, rows: seq<Row>, pipes: map<nat, Ends>, ends: map<(nat, bool), nat>,
               held: multiset<nat>, g: nat)
    requires Inv(files, rows, pipes, ends, held) && g < |files| && files[g].ref > 0
    ensures Inv(files[g := files[g].(ref := files[g].ref + 1)], rows, pipes, ends, held + multiset{g})
  {
  }

  // fileclose, while other references remain
  lemma DropRef(files: seq<File>, rows: seq<Row>, pipes: map<nat, Ends>, ends: map<(nat, bool), nat>,
                held: multiset<nat>, g: nat)
    requires Inv(files, rows, pipes, ends, held) && g in held && g < |files| && files[g].ref > 1
    ensures Inv(files[g := files[g].(ref := files[g].ref - 1)], rows, pipes, ends, held - multiset{g})
  {
  }

  // filealloc
  lemma NewRef(files: seq<File>, rows: seq<Row>, pipes: map<nat, Ends>, ends: map<(nat, bool), nat>,
               held: multiset<nat>, g: nat)
    requires Inv(files, rows, pipes, ends, held) && g < |files| && files[g].ref == 0
    ensures Inv(files[g := files[g].(ref := 1)], rows, pipes, ends, held + multiset{g})
  {
  }

  // fileclose of the last reference to a file that is not a pipe end
  lemma LastRef(files: seq<File>, rows: seq<Row>, pipes: map<nat, Ends>, ends: map<(nat, bool), nat>,
                held: multiset<nat>, g: nat)
    requires Inv(files, rows, pipes, ends, held) && g in held && g < |files| && files[g].ref == 1 &&
             !files[g].kind.PipeEnd?
    ensures Inv(files[g := File(0, NoKind)], rows, pipes, ends, held - multiset{g})
  {
  }

  // The pipe after one of its ends was closed: gone if both are.
  function EndClosed(pipes: map<nat, Ends>, q: nat, w: bool): (r: map<nat, Ends>)
    requires q in pipes
  {
    var e := if w then pipes[q].(writeopen := false) else pipes[q].(readopen := false);
    if e.readopen || e.writeopen then pipes[q := e] else pipes - {q}
  }

  // ... and to one that is
  lemma LastEnd(files: seq<File>, rows: seq<Row>, pipes: map<nat, Ends>, ends: map<(nat, bool), nat>,
                held: multiset<nat>, g: nat)
    requires Inv(files, rows, pipes, ends, held) && g in held && g < |files| && files[g].ref == 1 &&
             files[g].kind.PipeEnd?
    ensures var q, w := files[g].kind.pipe, files[g].kind.writable;
            q in pipes && Inv(files[g := File(0, NoKind)], rows, EndClosed(pipes, q, w), ends, held - multiset{g})
  {
    hide Pipes, EndClosed;
    LastEndPipes(files, pipes, ends, g);
  }

  lemma LastEndPipes(files: seq<File>, pipes: map<nat, Ends>, ends: map<(nat, bool), nat>, g: nat)
    requires Pipes(files, pipes, ends) && g < |files| && files[g].kind.PipeEnd?
    ensures var q, w := files[g].kind.pipe, files[g].kind.writable;
            q in pipes && Pipes(files[g := File(0, NoKind)], EndClosed(pipes, q, w), ends)
  {
    var q, w := files[g].kind.pipe, files[g].kind.writable;
    var files', pipes' := files[g := File(0, NoKind)], EndClosed(pipes, q, w);
    forall f | 0 <= f < |files'| && files'[f].kind.PipeEnd?
      ensures var e := (files'[f].kind.pipe, files'[f].kind.writable);
              e.0 in pipes' && IsOpen(pipes'[e.0], e.1) && e in ends && ends[e] == f
    {
      assert files'[f] == files[f];
      var e := (files[f].kind.pipe, files[f].kind.writable);
      assert e != (q, w);
    }
    forall q', w' | q' in pipes' && IsOpen(pipes'[q'], w')
      ensures (q', w') in ends && ends[(q', w')] < |files'| && files'[ends[(q', w')]].kind == PipeEnd(q', w')
    {
      assert IsOpen(pipes[q'], w');
      assert (q', w') != (q, w);
    }
  }

  // pipealloc: two new files become the ends of a new pipe.
  lemma NewPipe(files: seq<File>, rows: seq<Row>, pipes: map<nat, Ends>, ends: map<(nat, bool), nat>,
                held: multiset<nat>, r: nat, w: nat, q: nat)
    requires Inv(files, rows, pipes, ends, held) && q !in pipes && r < |files| && w < |files| && r != w
    requires files[r] == File(1, NoKind) && files[w] == File(1, NoKind)
    ensures Inv(files[r := File(1, PipeEnd(q, false))][w := File(1, PipeEnd(q, true))], rows,
              pipes[q := Ends(true, true)],
                ends[(q, false) := r][(q, true) := w], held)
  {
  }

  ghost predicate AllOpen(row: Row, n: nat) {
    forall i :: 0 <= i < n && i < |row| ==> row[i].Some?
  }

  // What pipe needs besides a page: two files ...
  ghost predicate TwoFreeFiles(files: seq<File>) {
    exists f, g :: 0 <= f < g < |files| && files[f].ref == 0 && files[g].ref == 0
  }

  // ... and two descriptors.
  ghost predicate TwoFreeSlots(row: Row) {
    exists i, j :: 0 <= i < j < |row| && row[i] == None && row[j] == None
  }
}
