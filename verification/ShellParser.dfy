// The parser of sh.c as it runs: a cursor that gettoken and peek move along the
// line, and the NULs nulterminate puts into it.
module ShellParser {
  import opened Shell

  // Looking past white space first changes nothing.
  lemma SkipTwice(s: string, i: nat)
    requires i <= |s|
    ensures var j := Skip(s, i);
            Skip(s, j) == j && Gettoken(s, j) == Gettoken(s, i) && forall toks :: Peek(s, j, toks) == Peek(s, i, toks)
  {
  }

  lemma RedirsSkip(s: string, i: nat)
    requires i <= |s|
    ensures Redirs(s, Skip(s, i)) == Redirs(s, i)
  {
    SkipTwice(s, i);
  }

  // What is left of parseredirs after the redirections rs.
  function Later(rs: seq<Redirection>, r: Parsed<seq<Redirection>>): Parsed<seq<Redirection>> {
    match r
    case Bad => Bad
    case Ok(more, p) => Ok(rs + more, p)
  }

  class Parser {
    const s: string
    var pos: nat

    constructor (line: string)
      ensures s == line && pos == 0
    {
      s, pos := line, 0;
    }

    method SkipSpace()
      requires pos <= |s|
      modifies this
      ensures pos == Skip(s, old(pos))
    {
      while pos < |s| && IsWs(s[pos])
        invariant pos <= |s| && Skip(s, pos) == Skip(s, old(pos))
      {
        pos := pos + 1;
      }
    }

    method GetToken() returns (t: Token)
      requires pos <= |s|
      modifies this
      ensures t == Gettoken(s, old(pos)) && pos == t.pos
    {
      SkipSpace();
      var q := pos;
      var tok;
      if pos == |s| {
        tok := Eof;
      } else if s[pos] == '>' {
        tok := Sym('>');
        pos := pos + 1;
        if pos < |s| && s[pos] == '>' {
          tok := Append;
          pos := pos + 1;
        }
      } else if IsSym(s[pos]) {
        tok := Sym(s[pos]);
        pos := pos + 1;
      } else {
        tok := Word;
        while pos < |s| && !IsWs(s[pos]) && !IsSym(s[pos])
          invariant q <= pos <= |s| && WordEnd(s, pos) == WordEnd(s, q)
        {
          pos := pos + 1;
        }
      }
      var eq := pos;
      SkipSpace();
      t := Token(tok, Span(q, eq), pos);
    }

    method PeekAt(toks: string) returns (b: bool)
      requires pos <= |s|
      modifies this
      ensures b == Peek(s, old(pos), toks) && pos == Skip(s, old(pos))
    {
      SkipSpace();
      b := pos < |s| && s[pos] in toks;
    }

    // The redirections at the cursor; a panic is Bad.
    method ParseRedirs() returns (r: Parsed<seq<Redirection>>)
      requires pos <= |s|
      modifies this
      ensures r == Redirs(s, old(pos)) && pos <= |s| && (r.Ok? ==> pos == r.pos)
    {
      hide Gettoken, Skip, Peek, Good;
      var rs: seq<Redirection> := [];
      ghost var i := pos;
      LaterNone(Redirs(s, i));
      while true
        invariant old(pos) <= i <= |s| && pos == i && Redirs(s, old(pos)) == Later(rs, Redirs(s, i))
        decreases |s| - i
      {
        var more := PeekAt("<>");
        SkipTwice(s, i);
        if !more {
          LaterEnd(rs, Skip(s, i));
          return Ok(rs, pos);
        }
        var tok := GetToken();
        var file := GetToken();
        if file.tok != Word {
          return Bad;
        }
        LaterNext(rs, Redirection(file.span, tok.tok != Sym('<')), Redirs(s, file.pos));
        rs := rs + [Redirection(file.span, tok.tok != Sym('<'))];
        i := pos;
      }
    }

    method ParseExecCmd() returns (r: Parsed<Cmd>)
      requires pos <= |s|
      modifies this
      ensures r == ParseExec(s, old(pos)) && pos <= |s| && (r.Ok? ==> pos == r.pos)
      decreases |s| - pos, 1
    {
      hide Skip, Redirs, Args, Good;
      SkipTwice(s, pos);
      ghost var start := pos;
      var block := PeekAt("(");
      if block {
        BlockSkip(s, start);
        r := ParseBlockCmd();
        return;
      }
      RedirsSkip(s, start);
      var rs0 := ParseRedirs();
      if rs0 == Bad {
        return Bad;
      }
      r := ParseArgs(rs0.value);
    }

    // The loop of parseexec.
    method ParseArgs(rs0: seq<Redirection>) returns (r: Parsed<Cmd>)
      requires pos <= |s| && forall k :: 0 <= k < |rs0| ==> Good(s, rs0[k].file)
      modifies this
      ensures r == Args(s, old(pos), [], rs0) && pos <= |s| && (r.Ok? ==> pos == r.pos)
    {
      hide Skip, Gettoken, Redirs, Peek, Good;
      var argv, rs := [], rs0;
      ghost var i := pos;
      while true
        invariant pos == i <= |s| && |argv| < MAXARGS
        invariant (forall k :: 0 <= k < |argv| ==> Good(s, argv[k])) && forall k :: 0 <= k < |rs| ==>
                  Good(s, rs[k].file)
        invariant Args(s, old(pos), [], rs0) == Args(s, i, argv, rs)
        decreases |s| - i
      {
        SkipTwice(s, i);
        var stop := PeekAt("|)&;");
        if stop {
          return Ok(Wrap(Exec(argv), rs), pos);
        }
        var t := GetToken();
        if t.tok == Eof {
          return Ok(Wrap(Exec(argv), rs), pos);
        }
        if t.tok != Word {
          return Bad;
        }
        if |argv| + 1 >= MAXARGS {
          return Bad;
        }
        var more := ParseRedirs();
        if more == Bad {
          return Bad;
        }
        argv, rs := argv + [t.span], rs + more.value;
        i := pos;
      }
    }

    method ParseBlockCmd() returns (r: Parsed<Cmd>)
      requires pos <= |s| && Peek(s, pos, "(")
      modifies this
      ensures r == ParseBlock(s, old(pos)) && pos <= |s| && (r.Ok? ==> pos == r.pos)
      decreases |s| - pos, 0
    {
      hide Skip, Gettoken, Redirs, Peek, ParseLine;
      OpenParen(s, pos);
      var _ := GetToken();
      var c := ParseLineCmd();
      if c == Bad {
        return Bad;
      }
      SkipTwice(s, pos);
      var close := PeekAt(")");
      if !close {
        return Bad;
      }
      var _ := GetToken();
      var rs := ParseRedirs();
      if rs == Bad {
        return Bad;
      }
      r := Ok(Wrap(c.value, rs.value), pos);
    }

    method ParsePipeCmd() returns (r: Parsed<Cmd>)
      requires pos <= |s|
      modifies this
      ensures r == ParsePipe(s, old(pos)) && pos <= |s| && (r.Ok? ==> pos == r.pos)
      decreases |s| - pos, 2
    {
      hide Skip, Gettoken, Peek, ParseExec;
      r := ParseExecCmd();
      if r == Bad {
        return;
      }
      SkipTwice(s, pos);
      ghost var p := pos;
      var bar := PeekAt("|");
      if bar {
        SymbolHere(s, p, "|");
        var _ := GetToken();
        var d := ParsePipeCmd();
        if d == Bad {
          return Bad;
        }
        r := Ok(Pipe(r.value, d.value), pos);
      } else {
        r := Ok(r.value, pos);
      }
    }

    method ParseLineCmd() returns (r: Parsed<Cmd>)
      requires pos <= |s|
      modifies this
      ensures r == ParseLine(s, old(pos)) && pos <= |s| && (r.Ok? ==> pos == r.pos)
      decreases |s| - pos, 3
    {
      hide Skip, Gettoken, Peek, ParsePipe;
      ghost var start := pos;
      r := ParsePipeCmd();
      if r == Bad {
        return;
      }
      var c := ParseBacks(r.value);
      SkipTwice(s, pos);
      ghost var p := pos;
      var semi := PeekAt(";");
      if semi {
        SymbolHere(s, p, ";");
        var _ := GetToken();
        var d := ParseLineCmd();
        if d == Bad {
          return Bad;
        }
        r := Ok(List(c, d.value), pos);
      } else {
        r := Ok(c, pos);
      }
    }

    // The & loop of parseline.
    method ParseBacks(c: Cmd) returns (d: Cmd)
      requires pos <= |s| && GoodCmd(s, c)
      modifies this
      ensures Backs(s, old(pos), c) == Ok(d, pos) && old(pos) <= pos <= |s| && GoodCmd(s, d)
    {
      hide Skip, Gettoken, Peek;
      d := c;
      ghost var i := pos;
      while true
        invariant old(pos) <= i == pos <= |s| && GoodCmd(s, d) && Backs(s, old(pos), c) == Backs(s, i, d)
        decreases |s| - i
      {
        SkipTwice(s, i);
        var amp := PeekAt("&");
        if !amp {
          return;
        }
        SymbolHere(s, i, "&");
        var _ := GetToken();
        d := Back(d);
        i := pos;
      }
    }

    // parsecmd; leftovers are a panic.
    method ParseCommand() returns (r: Parsed<Cmd>)
      requires pos == 0
      modifies this
      ensures r == ParseCmd(s)
    {
      hide Skip, ParseLine;
      var c := ParseLineCmd();
      if c == Bad {
        return Bad;
      }
      var _ := PeekAt("");
      if pos != |s| {
        return Bad;
      }
      r := Ok(c.value, pos);
    }
  }

  lemma BlockSkip(s: string, i: nat)
    requires i <= |s| && Peek(s, i, "(")
    ensures Peek(s, Skip(s, i), "(") && ParseBlock(s, Skip(s, i)) == ParseBlock(s, i)
  {
    hide Skip;
    SkipTwice(s, i);
  }

  lemma OpenParen(s: string, i: nat)
    requires i <= |s| && Peek(s, i, "(")
    ensures i < Gettoken(s, i).pos <= |s|
  {
  }

  lemma SymbolHere(s: string, i: nat, toks: string)
    requires i <= |s| && Peek(s, i, toks)
    ensures Gettoken(s, i).tok != Eof && i < Gettoken(s, i).pos <= |s|
  {
  }

  lemma LaterNone(r: Parsed<seq<Redirection>>)
    ensures Later([], r) == r
  {
    assert r.Ok? ==> [] + r.value == r.value;
  }

  lemma LaterEnd(rs: seq<Redirection>, p: nat)
    ensures Later(rs, Ok([], p)) == Ok(rs, p)
  {
    assert rs + [] == rs;
  }

  lemma LaterNext(rs: seq<Redirection>, x: Redirection, r: Parsed<seq<Redirection>>)
    ensures Later(rs, Later([x], r)) == Later(rs + [x], r)
  {
    if r.Ok? {
      assert rs + ([x] + r.value) == rs + [x] + r.value;
    }
  }

  // The tokens of a command.
  ghost function Spans(c: Cmd): (r: set<Span>) {
    match c
    case Exec(argv) => set k | 0 <= k < |argv| :: argv[k]
    case Redir(d, f, _) => Spans(d) + {f}
    case Pipe(l, r) => Spans(l) + Spans(r)
    case List(l, r) => Spans(l) + Spans(r)
    case Back(d) => Spans(d)
  }

  ghost predicate EndOf(ts: set<Span>, k: nat) { exists t :: t in ts && t.eq == k }

  lemma {:induction false} AllGood(s: string, c: Cmd, t: Span)
    requires GoodCmd(s, c) && t in Spans(c)
    ensures Good(s, t)
  {
    match c
    case Exec(argv) =>
    case Redir(d, f, _) => if t != f { AllGood(s, d, t); }
    case Pipe(l, r) => if t in Spans(l) { AllGood(s, l, t); } else { AllGood(s, r, t); }
    case List(l, r) => if t in Spans(l) { AllGood(s, l, t); } else { AllGood(s, r, t); }
    case Back(d) => AllGood(s, d, t);
  }

  // The line after NULs were stored behind the tokens in ts.
  ghost predicate Marked(before: seq<char>, after: seq<char>, ts: set<Span>) {
    |after| == |before| && forall k :: 0 <= k < |before| ==> after[k] == if EndOf(ts, k) then '\0' else before[k]
  }

  lemma MarkedMore(a: seq<char>, b: seq<char>, c: seq<char>, ts: set<Span>, us: set<Span>)
    requires Marked(a, b, ts) && Marked(b, c, us)
    ensures Marked(a, c, ts + us)
  {
    forall k | 0 <= k < |a|
      ensures EndOf(ts + us, k) <==> EndOf(ts, k) || EndOf(us, k)
    {
      if t :| t in ts && t.eq == k {
        assert t in ts + us;
      }
      if t :| t in us && t.eq == k {
        assert t in ts + us;
      }
    }
  }

  lemma MarkedOne(a: seq<char>, t: Span)
    requires t.eq < |a|
    ensures Marked(a, a[t.eq := '\0'], {t})
  {
    assert EndOf({t}, t.eq) by { assert t in {t}; }
  }

  lemma MarkedNone(a: seq<char>)
    ensures Marked(a, a, {})
  {
  }

  // nulterminate
  method Nulterminate(line: array<char>, c: Cmd, ghost s: string)
    requires GoodCmd(s, c) && line.Length == |s| + 1
    modifies line
    ensures Marked(old(line[..]), line[..], Spans(c))
    decreases c
  {
    hide Marked, Good;
    ghost var a := line[..];
    match c
    case Exec(argv) =>
      MarkedNone(a);
      ghost var done: set<Span> := {};
      for i := 0 to |argv|
        invariant done == (set k | 0 <= k < i :: argv[k]) && Marked(a, line[..], done)
      {
        ghost var b := line[..];
        InLine(s, argv[i]);
        MarkedOne(b, argv[i]);
        line[argv[i].eq] := '\0';
        assert line[..] == b[argv[i].eq := '\0'];
        MarkedMore(a, b, line[..], done, {argv[i]});
        done := done + {argv[i]};
      }
    case Redir(d, f, _) =>
      Nulterminate(line, d, s);
      ghost var b := line[..];
      InLine(s, f);
      MarkedOne(b, f);
      line[f.eq] := '\0';
      assert line[..] == b[f.eq := '\0'];
      MarkedMore(a, b, line[..], Spans(d), {f});
    case Pipe(l, r) =>
      Nulterminate(line, l, s);
      ghost var b := line[..];
      Nulterminate(line, r, s);
      MarkedMore(a, b, line[..], Spans(l), Spans(r));
    case List(l, r) =>
      Nulterminate(line, l, s);
      ghost var b := line[..];
      Nulterminate(line, r, s);
      MarkedMore(a, b, line[..], Spans(l), Spans(r));
    case Back(d) =>
      Nulterminate(line, d, s);
  }

  lemma InLine(s: string, t: Span)
    requires Good(s, t)
    ensures t.eq <= |s|
  {
  }

  // Every token reads back as a string: its characters are as they were, and a
  // NUL is right behind them.
  lemma TokensIntact(s: string, c: Cmd, after: seq<char>, t: Span)
    requires GoodCmd(s, c) && Marked(s + ['\0'], after, Spans(c)) && t in Spans(c)
    ensures t.q < t.eq < |after| && after[t.q..t.eq] == s[t.q..t.eq] && after[t.eq] == '\0'
  {
    AllGood(s, c, t);
    assert EndOf(Spans(c), t.eq);
    forall k | t.q <= k < t.eq
      ensures after[k] == s[k]
    {
      if u :| u in Spans(c) && u.eq == k {
        AllGood(s, c, u);
      }
    }
  }
}
