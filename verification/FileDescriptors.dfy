// The descriptor system calls (sysfile.c) and the file functions under them
// (file.c, pipe.c).
module FileDescriptors {
  import opened Common
  import opened FileTable

  class Descriptors {
    var files: seq<File>
    // p->ofile, by process.
    var ofile: seq<Row>
    var pipes: map<nat, Ends>

    ghost var ends: map<(nat, bool), nat>
    // References of system calls under way.
    ghost var held: multiset<nat>

    ghost predicate Valid()
      reads this
    {
      Inv(files, ofile, pipes, ends, held)
    }

    constructor (nfile: nat, nproc: nat, nofile: nat)
      ensures Valid() && held == multiset{} && |files| == nfile && |ofile| == nproc && pipes == map[]
      ensures forall p :: 0 <= p < nproc ==> |ofile[p]| == nofile && forall fd :: 0 <= fd < nofile ==>
          ofile[p][fd] == None
    {
      files := seq(nfile, f => File(0, NoKind));
      ofile := seq(nproc, p => seq(nofile, fd => None));
      pipes, ends, held := map[], map[], multiset{};
      new;
      forall f | 0 <= f < nfile
        ensures InAll(ofile, f) == 0
      {
        NoneOpen(ofile, f);
      }
    }

    method Filealloc(ghost rows: seq<Row>) returns (r: Option<nat>)
      requires Inv(files, rows, pipes, ends, held)
      modifies this`files, this`held
      ensures Inv(files, rows, pipes, ends, held)
      ensures r == None ==> files == old(files) && held == old(held) && forall f :: 0 <= f < |files| ==>
          files[f].ref > 0
      ensures r.Some? ==> r.value < |old(files)| && old(files)[r.value].ref == 0 &&
                          held == old(held) + multiset{r.value}
      ensures r.Some? ==> files == old(files)[r.value := File(1, NoKind)]
    {
      hide Counts;
      var f := 0;
      while f < |files|
        invariant 0 <= f <= |files| && forall g :: 0 <= g < f ==> files[g].ref > 0
      {
        if files[f].ref == 0 {
          NewRef(files, rows, pipes, ends, held, f);
          files := files[f := files[f].(ref := 1)];
          held := held + multiset{f};
          return Some(f);
        }
        f := f + 1;
      }
      return None;
    }

    // false is panic("filedup").
    method Filedup(f: nat, ghost rows: seq<Row>) returns (ok: bool)
      requires Inv(files, rows, pipes, ends, held) && f < |files|
      modifies this`files, this`held
      ensures ok <==> old(files)[f].ref > 0
      ensures ok ==> Inv(files, rows, pipes, ends, held) && held == old(held) + multiset{f}
      ensures ok ==> files == old(files)[f := old(files)[f].(ref := old(files)[f].ref + 1)]
      ensures !ok ==> files == old(files) && held == old(held)
    {
      hide Counts, Pipes;
      if files[f].ref < 1 {
        return false;
      }
      AddRef(files, rows, pipes, ends, held, f);
      files := files[f := files[f].(ref := files[f].ref + 1)];
      held := held + multiset{f};
      ok := true;
    }

    // pipeclose; false would be a second kfree of the page.
    method Pipeclose(q: nat, writable: bool) returns (ok: bool)
      modifies this`pipes
      ensures ok <==> q in old(pipes)
      ensures ok ==> pipes == EndClosed(old(pipes), q, writable)
      ensures !ok ==> pipes == old(pipes)
    {
      if q !in pipes {
        return false;
      }
      if writable {
        pipes := pipes[q := pipes[q].(writeopen := false)];
      } else {
        pipes := pipes[q := pipes[q].(readopen := false)];
      }
      if !pipes[q].readopen && !pipes[q].writeopen {
        pipes := pipes - {q};
        assert pipes == EndClosed(old(pipes), q, writable);
      }
      ok := true;
    }

    // false is panic("fileclose"), or a pipe freed twice.
    method Fileclose(f: nat, ghost rows: seq<Row>) returns (ok: bool)
      requires Inv(files, rows, pipes, ends, held) && f in held
      modifies this`files, this`pipes, this`held
      ensures ok && Inv(files, rows, pipes, ends, held) && held == old(held) - multiset{f} && |files| == |old(files)|
      ensures forall g :: 0 <= g < |files| && g != f ==> files[g] == old(files)[g]
      ensures f < |files| && files[f].ref == old(files)[f].ref - 1
      ensures var ff := old(files)[f];
              && files[f].kind == (if ff.ref > 1 then ff.kind else NoKind)
              && (ff.ref == 1 && ff.kind.PipeEnd? ==> ff.kind.pipe in old(pipes))
              && pipes == (if ff.ref == 1 && ff.kind.PipeEnd?
                           then EndClosed(old(pipes), ff.kind.pipe, ff.kind.writable) else old(pipes))
    {
      hide Counts, Pipes;
      InHand(files, rows, held, f);
      ok := files[f].ref >= 1;
      if files[f].ref > 1 {
        DropRef(files, rows, pipes, ends, held, f);
        files := files[f := files[f].(ref := files[f].ref - 1)];
        held := held - multiset{f};
        return;
      }
      var ff := files[f];
      ghost var files0 := files;
      files := files[f := File(0, NoKind)];
      if ff.kind.PipeEnd? {
        LastEnd(files0, rows, pipes, ends, held, f);
        var once := Pipeclose(ff.kind.pipe, ff.kind.writable);
        ok := ok && once;
      } else {
        LastRef(files0, rows, pipes, ends, held, f);
      }
      held := held - multiset{f};
    }

    // filedup for an empty slot: the reference it takes belongs there.
    method DupFor(f: nat, ghost rows: seq<Row>, ghost p: nat, ghost fd: nat)
      requires Inv(files, rows, pipes, ends, held) && f < |files| && files[f].ref > 0
      requires p < |rows| && fd < |rows[p]| && rows[p][fd] == None
      modifies this`files, this`held
      ensures Inv(files, SetSlot(rows, p, fd, Some(f)), pipes, ends, held) && held == old(held)
      ensures files == old(files)[f := old(files)[f].(ref := old(files)[f].ref + 1)]
    {
      hide Counts, Pipes, SetSlot;
      var _ := Filedup(f, rows);
      PutIn(files, rows, held, p, fd, f);
      held := held - multiset{f};
      assert held == old(held);
    }

    // fileclose of what a slot points to.
    method CloseFrom(f: nat, ghost rows: seq<Row>, ghost p: nat, ghost fd: nat)
      requires Inv(files, rows, pipes, ends, held)
      requires p < |rows| && fd < |rows[p]| && rows[p][fd] == Some(f)
      modifies this`files, this`pipes, this`held
      ensures Inv(files, SetSlot(rows, p, fd, None), pipes, ends, held) && held == old(held) && Kept(old(files), files)
    {
      hide Counts, Pipes, SetSlot;
      TakeOut(files, rows, held, p, fd);
      held := held + multiset{f};
      var _ := Fileclose(f, SetSlot(rows, p, fd, None));
      assert held == old(held);
    }

    // The lowest free slot of process p takes f; -1 without one.
    method Fdalloc(p: nat, f: nat) returns (fd: int)
      requires p < |ofile|
      modifies this`ofile
      ensures -1 <= fd < |old(ofile)[p]|
      ensures fd == -1 <==> AllOpen(old(ofile)[p], |old(ofile)[p]|)
      ensures fd == -1 ==> ofile == old(ofile)
      ensures fd >= 0 ==>
                old(ofile)[p][fd] == None && AllOpen(old(ofile)[p], fd) && ofile == SetSlot(old(ofile), p, fd, Some(f))
    {
      fd := 0;
      while fd < |ofile[p]|
        invariant 0 <= fd <= |ofile[p]| && AllOpen(ofile[p], fd)
      {
        if ofile[p][fd] == None {
          ofile := ofile[p := ofile[p][fd := Some(f)]];
          return;
        }
        fd := fd + 1;
      }
      return -1;
    }

    // argfd
    function Argfd(p: nat, fd: int): (f: Option<nat>)
      requires p < |ofile|
      reads this
    {
      if 0 <= fd < |ofile[p]| then ofile[p][fd] else None
    }

    method Dup(p: nat, fd: int) returns (r: int)
      requires Valid() && p < |ofile|
      modifies this`files, this`ofile, this`held
      ensures Valid() && held == old(held) && pipes == old(pipes)
      ensures r == -1 <==> old(Argfd(p, fd)) == None || AllOpen(old(ofile)[p], |old(ofile)[p]|)
      ensures r == -1 ==> ofile == old(ofile) && files == old(files)
      ensures r != -1 ==> 0 <= r < |old(ofile)[p]| && old(ofile)[p][r] == None && AllOpen(old(ofile)[p], r)
      ensures r != -1 ==> ofile == SetSlot(old(ofile), p, r, old(Argfd(p, fd)))
      ensures r != -1 ==> var f := old(Argfd(p, fd)).value;
                f < |old(files)| && files == old(files)[f := old(files)[f].(ref := old(files)[f].ref + 1)]
    {
      hide Counts, Pipes, AllOpen;
      var f := Argfd(p, fd);
      if f == None {
        return -1;
      }
      InSlot(files, ofile, held, p, fd);
      r := Fdalloc(p, f.value);
      if r < 0 {
        return -1;
      }
      DupFor(f.value, old(ofile), p, r);
    }

    // dup2, which closes fd2 before it takes a reference for it.
    method Dup2(p: nat, fd: int, fd2: int) returns (r: int)
      requires Valid() && p < |ofile|
      modifies this`files, this`ofile, this`pipes, this`held
      ensures Valid() && held == old(held)
      ensures r == if old(Argfd(p, fd)) == None || fd2 < 0 || fd2 >= |old(ofile)[p]| then -1 else fd2
      ensures r == -1 || fd == fd2 ==> ofile == old(ofile) && files == old(files) && pipes == old(pipes)
      ensures r != -1 ==> ofile == SetSlot(old(ofile), p, fd2, old(Argfd(p, fd)))
      ensures Kept(old(files), files)
    {
      hide Counts, Pipes, SetSlot;
      var f1 := Argfd(p, fd);
      if f1 == None || fd2 < 0 || fd2 >= |ofile[p]| {
        return -1;
      }
      SlotTwice(ofile, p, fd2, f1);
      if fd == fd2 {
        return fd2;
      }
      InSlot(files, ofile, held, p, fd);
      ghost var rows := SetSlot(ofile, p, fd2, None);
      var f2 := ofile[p][fd2];
      if f2 != None {
        CloseFrom(f2.value, ofile, p, fd2);
      }
      ofile := SetSlot(ofile, p, fd2, f1);
      InSlot(files, rows, held, p, fd);
      DupFor(f1.value, rows, p, fd2);
      return fd2;
    }

    method Close(p: nat, fd: int) returns (r: int)
      requires Valid() && p < |ofile|
      modifies this`files, this`ofile, this`pipes, this`held
      ensures Valid() && held == old(held)
      ensures r == if old(Argfd(p, fd)) == None then -1 else 0
      ensures r == -1 ==> ofile == old(ofile) && files == old(files) && pipes == old(pipes)
      ensures r == 0 ==> ofile == SetSlot(old(ofile), p, fd, None)
      ensures Kept(old(files), files)
    {
      hide Counts, Pipes;
      var f := Argfd(p, fd);
      if f == None {
        return -1;
      }
      ofile := ofile[p := ofile[p][fd := None]];
      CloseFrom(f.value, old(ofile), p, fd);
      return 0;
    }

    // pipealloc; page is what kalloc returned.
    method Pipealloc(page: Option<nat>, ghost rows: seq<Row>) returns (ok: bool, rf: nat, wf: nat)
      requires Inv(files, rows, pipes, ends, held) && (page.Some? ==> page.value !in pipes)
      modifies this`files, this`pipes, this`held, this`ends
      ensures Inv(files, rows, pipes, ends, held) && |files| == |old(files)|
      ensures ok <==> page.Some? && TwoFreeFiles(old(files))
      ensures !ok ==> files == old(files) && pipes == old(pipes) && held == old(held)
      ensures ok ==> page.Some? && rf < |files| && wf < |files| && rf != wf &&
                     held == old(held) + multiset{rf} + multiset{wf}
      ensures ok ==> old(files)[rf].ref == 0 && old(files)[wf].ref == 0 &&
                     pipes == old(pipes)[page.value := Ends(true, true)]
      ensures ok ==>
                files == old(files)[rf := File(1, PipeEnd(page.value, false))][wf := File(1, PipeEnd(page.value, true))]
    {
      hide Counts, Pipes, EndClosed, TwoFreeFiles;
      rf, wf := 0, 0;
      NoFile(files);
      var f0 := Filealloc(rows);
      if f0 == None {
        return false, 0, 0;
      }
      rf := f0.value;
      FreeFile(old(files), old(pipes), old(ends), rf);
      var f1 := Filealloc(rows);
      if f1 == None {
        NoSecondFile(old(files), rf, files);
        CloseNew(rf, old(files), old(held), rows);
        return false, 0, 0;
      }
      wf := f1.value;
      SecondFile(old(files), rf, wf);
      FreeFile(old(files), old(pipes), old(ends), wf);
      if page == None {
        assert files == old(files)[wf := File(1, NoKind)][rf := File(1, NoKind)];
        assert held == old(held) + multiset{wf} + multiset{rf};
        CloseNew(rf, old(files)[wf := File(1, NoKind)], old(held) + multiset{wf}, rows);
        CloseNew(wf, old(files), old(held), rows);
        return false, 0, 0;
      }
      NewPipe(files, rows, pipes, ends, held, rf, wf, page.value);
      pipes := pipes[page.value := Ends(true, true)];
      ghost var files1 := files;
      files := files[rf := File(1, PipeEnd(page.value, false))][wf := File(1, PipeEnd(page.value, true))];
      assert files == old(files)[rf := File(1, PipeEnd(page.value, false))][wf := File(1, PipeEnd(page.value, true))];
      ends := ends[(page.value, false) := rf][(page.value, true) := wf];
      ok := true;
    }

    // fileclose of a file just allocated.
    method CloseNew(f: nat, ghost files0: seq<File>, ghost held0: multiset<nat>, ghost rows: seq<Row>)
      requires Inv(files, rows, pipes, ends, held) && f < |files0| && files0[f] == File(0, NoKind)
      requires files == files0[f := File(1, NoKind)] && held == held0 + multiset{f}
      modifies this`files, this`held, this`pipes
      ensures Inv(files, rows, pipes, ends, held) && files == files0 && held == held0 && pipes == old(pipes)
    {
      hide Counts, Pipes, EndClosed;
      var _ := Fileclose(f, rows);
      assert files == files0;
    }

    // Two calls of fdalloc, the first undone if the second fails.
    method FdallocBoth(p: nat, rf: nat, wf: nat) returns (ok: bool, fd0: int, fd1: int)
      requires p < |ofile|
      modifies this`ofile
      ensures ok <==> TwoFreeSlots(old(ofile)[p])
      ensures !ok ==> ofile == old(ofile)
      ensures ok ==> 0 <= fd0 < fd1 < |old(ofile)[p]| && AllOpen(old(ofile)[p], fd0) && old(ofile)[p][fd0] == None &&
                     old(ofile)[p][fd1] == None
      ensures ok ==> forall i :: 0 <= i < fd1 && i != fd0 ==> old(ofile)[p][i].Some?
      ensures ok ==> |SetSlot(old(ofile), p, fd0, Some(rf))| == |old(ofile)|
      ensures ok ==> |SetSlot(old(ofile), p, fd0, Some(rf))[p]| == |old(ofile)[p]|
      ensures ok ==> ofile == SetSlot(SetSlot(old(ofile), p, fd0, Some(rf)), p, fd1, Some(wf))
    {
      hide AllOpen, SetSlot, TwoFreeSlots;
      fd1 := -1;
      fd0 := Fdalloc(p, rf);
      if fd0 < 0 {
        NoSlot(old(ofile)[p]);
        return false, fd0, fd1;
      }
      SlotFacts(old(ofile), p, fd0, Some(rf));
      fd1 := Fdalloc(p, wf);
      if fd1 < 0 {
        NoSecondSlot(old(ofile)[p], fd0, Some(rf));
        SlotBack(old(ofile), p, fd0, Some(rf));
        ofile := SetSlot(ofile, p, fd0, None);
        return false, fd0, fd1;
      }
      LowerFirst(old(ofile)[p], fd0, Some(rf), fd1);
      ok := true;
    }

    // pipe: both ends in descriptors of p, or nothing.
    method SysPipe(p: nat, page: Option<nat>) returns (r: int, fd0: int, fd1: int, ghost rf: nat, ghost wf: nat)
      requires Valid() && p < |ofile| && (page.Some? ==> page.value !in pipes)
      modifies this
      ensures Valid() && held == old(held) && (r == 0 || r == -1)
      ensures r == 0 <==> page.Some? && TwoFreeFiles(old(files)) && TwoFreeSlots(old(ofile)[p])
      ensures r == -1 ==> files == old(files) && ofile == old(ofile) && pipes == old(pipes)
      ensures r == 0 ==> page.Some? && pipes == old(pipes)[page.value := Ends(true, true)] && rf < |files| &&
                         wf < |files|
      ensures r == 0 ==> rf != wf && |files| == |old(files)| && old(files)[rf].ref == 0 && old(files)[wf].ref == 0
      ensures r == 0 ==>
                files == old(files)[rf := File(1, PipeEnd(page.value, false))][wf := File(1, PipeEnd(page.value, true))]
      ensures r == 0 ==> 0 <= fd0 < fd1 < |old(ofile)[p]| && AllOpen(old(ofile)[p], fd0) &&
                         old(ofile)[p][fd0] == None && old(ofile)[p][fd1] == None
      ensures r == 0 ==> forall i :: 0 <= i < fd1 && i != fd0 ==> old(ofile)[p][i].Some?
      ensures r == 0 ==> |SetSlot(old(ofile), p, fd0, Some(rf))| == |old(ofile)|
      ensures r == 0 ==> |SetSlot(old(ofile), p, fd0, Some(rf))[p]| == |old(ofile)[p]|
      ensures r == 0 ==> ofile == SetSlot(SetSlot(old(ofile), p, fd0, Some(rf)), p, fd1, Some(wf))
    {
      hide Counts, Pipes, AllOpen, SetSlot, TwoFreeFiles, TwoFreeSlots;
      fd0, fd1 := -1, -1;
      var ok, f0, f1 := Pipealloc(page, ofile);
      rf, wf := f0, f1;
      if !ok {
        return -1, fd0, fd1, rf, wf;
      }
      ok, fd0, fd1 := FdallocBoth(p, f0, f1);
      if !ok {
        FreeFile(old(files), old(pipes), old(ends), f0);
        FreeFile(old(files), old(pipes), old(ends), f1);
        CloseBoth(f0, f1, page.value, old(files), old(pipes), old(held), ofile);
        return -1, fd0, fd1, rf, wf;
      }
      PutBoth(files, old(ofile), old(held), p, fd0, fd1, rf, wf);
      held := old(held);
      r := 0;
    }

    // fileclose of both ends of a pipe nobody else has.
    method CloseBoth(rf: nat, wf: nat, ghost q: nat, ghost files0: seq<File>, ghost pipes0: map<nat, Ends>,
                     ghost held0: multiset<nat>, ghost rows: seq<Row>)
      requires Inv(files, rows, pipes, ends, held) && held == held0 + multiset{rf} + multiset{wf}
      requires rf < |files| && wf < |files| && rf != wf && q !in pipes0 && pipes == pipes0[q := Ends(true, true)]
      requires |files0| == |files| && files0[rf] == File(0, NoKind) && files0[wf] == File(0, NoKind)
      requires files == files0[rf := File(1, PipeEnd(q, false))][wf := File(1, PipeEnd(q, true))]
      modifies this`files, this`pipes, this`held
      ensures Inv(files, rows, pipes, ends, held) && held == held0 && pipes == pipes0 && files == files0
    {
      hide Counts, Pipes;
      var _ := Fileclose(rf, rows);
      var _ := Fileclose(wf, rows);
      assert files == files0;
    }

    // The loop of exit over the descriptors.
    method CloseAll(p: nat)
      requires Valid() && p < |ofile|
      modifies this`files, this`ofile, this`pipes, this`held
      ensures Valid() && held == old(held) && |ofile| == |old(ofile)| && |ofile[p]| == |old(ofile)[p]|
      ensures forall fd :: 0 <= fd < |ofile[p]| ==> ofile[p][fd] == None
      ensures forall q :: 0 <= q < |ofile| && q != p ==> ofile[q] == old(ofile)[q]
      ensures Kept(old(files), files)
    {
      hide Inv;
      for fd := 0 to |ofile[p]|
        invariant Valid() && held == old(held) && |ofile| == |old(ofile)| && |ofile[p]| == |old(ofile)[p]|
        invariant forall i :: 0 <= i < fd ==> ofile[p][i] == None
        invariant forall q :: 0 <= q < |ofile| && q != p ==> ofile[q] == old(ofile)[q]
        invariant Kept(old(files), files)
      {
        if ofile[p][fd] != None {
          var _ := Close(p, fd);
        }
      }
    }

    // The loop of fork: the child c gets what the parent p has.
    method CopyAll(p: nat, c: nat)
      requires Valid() && p < |ofile| && c < |ofile| && p != c && |ofile[c]| == |ofile[p]|
      requires forall fd :: 0 <= fd < |ofile[c]| ==> ofile[c][fd] == None
      modifies this`files, this`ofile, this`held
      ensures Valid() && held == old(held)
      ensures ofile == old(ofile)[c := old(ofile)[p]] && pipes == old(pipes)
      ensures |files| == |old(files)| && forall f :: 0 <= f < |files| ==> files[f].kind == old(files)[f].kind
    {
      hide Counts, Pipes;
      ghost var rows0 := ofile;
      for fd := 0 to |ofile[p]|
        invariant Valid() && held == old(held) && |ofile| == |rows0| && |ofile[c]| == |rows0[c]|
        invariant forall i :: 0 <= i < |ofile[c]| ==> ofile[c][i] == if i < fd then rows0[p][i] else None
        invariant forall q :: 0 <= q < |ofile| && q != c ==> ofile[q] == rows0[q]
        invariant |files| == |old(files)| && forall f :: 0 <= f < |files| ==> files[f].kind == old(files)[f].kind
      {
        if ofile[p][fd] != None {
          var f := ofile[p][fd].value;
          InSlot(files, ofile, held, p, fd);
          DupFor(f, ofile, c, fd);
          ofile := ofile[c := ofile[c][fd := Some(f)]];
        }
      }
      assert ofile[c] == rows0[p];
      assert ofile == rows0[c := rows0[p]];
    }
  }

  lemma PutBoth(files: seq<File>, rows: seq<Row>, held: multiset<nat>, p: nat, i: nat, j: nat, rf: nat, wf: nat)
    requires Counts(files, rows, held + multiset{rf} + multiset{wf}) && p < |rows| && i < j < |rows[p]| &&
             rows[p][i] == None && rows[p][j] == None
    ensures var r := SetSlot(rows, p, i, Some(rf));
            |r| == |rows| && |r[p]| == |rows[p]| && Counts(files, SetSlot(r, p, j, Some(wf)), held)
  {
    hide Counts, SetSlot;
    SlotFacts(rows, p, i, Some(rf));
    var h := held + multiset{rf} + multiset{wf};
    PutIn(files, rows, h, p, i, rf);
    PutIn(files, SetSlot(rows, p, i, Some(rf)), h - multiset{rf}, p, j, wf);
    assert h - multiset{rf} - multiset{wf} == held;
  }

  lemma {:induction false} NoneOpen(rows: seq<Row>, f: nat)
    requires forall p, i :: 0 <= p < |rows| && 0 <= i < |rows[p]| ==> rows[p][i] == None
    ensures InAll(rows, f) == 0
  {
    if rows != [] {
      NoneOpen(rows[..|rows| - 1], f);
      NoneInRow(rows[|rows| - 1], f);
    }
  }

  lemma {:induction false} NoneInRow(row: Row, f: nat)
    requires forall i :: 0 <= i < |row| ==> row[i] == None
    ensures InRow(row, f) == 0
  {
    if row != [] {
      NoneInRow(row[..|row| - 1], f);
    }
  }

  lemma FreeFile(files: seq<File>, pipes: map<nat, Ends>, ends: map<(nat, bool), nat>, f: nat)
    requires Pipes(files, pipes, ends) && f < |files| && files[f].ref == 0
    ensures files[f] == File(0, NoKind)
  {
  }

  lemma SlotFacts(rows: seq<Row>, p: nat, i: nat, x: Option<nat>)
    requires p < |rows| && i < |rows[p]|
    ensures var r := SetSlot(rows, p, i, x); |r| == |rows| && r[p] == rows[p][i := x]
  {
  }

  lemma SlotBack(rows: seq<Row>, p: nat, i: nat, x: Option<nat>)
    requires p < |rows| && i < |rows[p]| && rows[p][i] == None
    ensures var r := SetSlot(rows, p, i, x); p < |r| && i < |r[p]| && SetSlot(r, p, i, None) == rows
  {
    assert rows[p][i := x][i := None] == rows[p];
  }

  // The second of two lowest free slots comes after the first.
  lemma LowerFirst(row: Row, i: nat, x: Option<nat>, j: nat)
    requires i < |row| && x.Some? && AllOpen(row, i) && j < |row| && row[i := x][j] == None && AllOpen(row[i := x], j)
    requires row[i] == None
    ensures i < j && row[j] == None && TwoFreeSlots(row) && forall k :: 0 <= k < j && k != i ==> row[k].Some?
  {
    forall k | 0 <= k < j && k != i
      ensures row[k].Some?
    {
      assert row[i := x][k] == row[k];
    }
  }

  lemma NoSlot(row: Row)
    requires AllOpen(row, |row|)
    ensures !TwoFreeSlots(row)
  {
  }

  lemma NoSecondSlot(row: Row, i: nat, x: Option<nat>)
    requires i < |row| && AllOpen(row[i := x], |row|)
    ensures !TwoFreeSlots(row)
  {
    forall k | 0 <= k < |row| && k != i
      ensures row[k].Some?
    {
      assert row[i := x][k] == row[k];
    }
  }

  lemma NoFile(files: seq<File>)
    ensures (forall f :: 0 <= f < |files| ==> files[f].ref > 0) ==> !TwoFreeFiles(files)
  {
  }

  lemma NoSecondFile(files: seq<File>, f: nat, files': seq<File>)
    requires f < |files| && files' == files[f := File(1, NoKind)] && forall g :: 0 <= g < |files'| ==> files'[g].ref > 0
    ensures !TwoFreeFiles(files)
  {
    forall g | 0 <= g < |files| && g != f
      ensures files[g].ref > 0
    {
      assert files'[g] == files[g];
    }
  }

  lemma SecondFile(files: seq<File>, f: nat, g: nat)
    requires f < |files| && g < |files| && files[f].ref == 0 && files[f := File(1, NoKind)][g].ref == 0
    ensures f != g && TwoFreeFiles(files)
  {
    assert files[if f < g then f else g].ref == 0 && files[if f < g then g else f].ref == 0;
  }

  // The file of an open descriptor is in use.
  lemma InSlot(files: seq<File>, rows: seq<Row>, held: multiset<nat>, p: nat, fd: nat)
    requires Counts(files, rows, held) && p < |rows| && fd < |rows[p]| && rows[p][fd].Some?
    ensures rows[p][fd].value < |files| && files[rows[p][fd].value].ref > 0
  {
    SlotCounts(rows, p, fd, rows[p][fd].value);
  }

  lemma InHand(files: seq<File>, rows: seq<Row>, held: multiset<nat>, f: nat)
    requires Counts(files, rows, held) && f in held
    ensures f < |files| && files[f].ref > 0
  {
  }
}
