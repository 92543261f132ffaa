// The recursive descent of sh.c as functions from a position in the line to a
// command and the position after it. A panic is Bad.
module Shell {
  const MAXARGS := 10

  // q and eq of a token.
  datatype Span = Span(q: nat, eq: nat)

  datatype Cmd =
    | Exec(argv: seq<Span>)
    | Redir(cmd: Cmd, file: Span, write: bool) // fd 1, O_WRONLY|O_CREATE, or fd 0, O_RDONLY
    | Pipe(left: Cmd, right: Cmd)
    | List(left: Cmd, right: Cmd)
    | Back(cmd: Cmd)

  datatype Redirection = Redirection(file: Span, write: bool)

  datatype Parsed<T> = Ok(value: T, pos: nat) | Bad

  datatype Tok = Eof | Sym(c: char) | Append | Word
  datatype Token = Token(tok: Tok, span: Span, pos: nat)

  predicate IsWs(c: char) { c == ' ' || c == '\t' || c == '\r' || c == '\n' || c == '\U{0B}' }
  predicate IsSym(c: char) { c == '<' || c == '|' || c == '>' || c == '&' || c == ';' || c == '(' || c == ')' }
  predicate IsPlain(c: char) { !IsWs(c) && !IsSym(c) }

  function Skip(s: string, i: nat): (j: nat)
    requires i <= |s|
    ensures i <= j <= |s| && (j < |s| ==> !IsWs(s[j])) && forall k :: i <= k < j ==> IsWs(s[k])
    decreases |s| - i
  {
    if i < |s| && IsWs(s[i]) then Skip(s, i + 1) else i
  }

  function WordEnd(s: string, i: nat): (j: nat)
    requires i <= |s|
    ensures i <= j <= |s| && (j < |s| ==> !IsPlain(s[j])) && forall k :: i <= k < j ==> IsPlain(s[k])
    decreases |s| - i
  {
    if i < |s| && IsPlain(s[i]) then WordEnd(s, i + 1) else i
  }

  // A token: plain characters, as many as there are.
  predicate Good(s: string, t: Span) {
    t.q < t.eq <= |s| && (forall k :: t.q <= k < t.eq ==> IsPlain(s[k])) && (t.eq < |s| ==> !IsPlain(s[t.eq]))
  }

  predicate GoodCmd(s: string, c: Cmd) {
    match c
    case Exec(argv) => |argv| < MAXARGS && forall k :: 0 <= k < |argv| ==> Good(s, argv[k])
    case Redir(d, f, _) => GoodCmd(s, d) && Good(s, f)
    case Pipe(l, r) => GoodCmd(s, l) && GoodCmd(s, r)
    case List(l, r) => GoodCmd(s, l) && GoodCmd(s, r)
    case Back(d) => GoodCmd(s, d)
  }

  function Gettoken(s: string, i: nat): (t: Token)
    requires i <= |s|
    ensures i <= t.span.q <= t.span.eq <= t.pos <= |s| && (t.tok != Eof ==> i < t.pos)
    ensures t.tok == Word ==> Good(s, t.span)
  {
    var a := Skip(s, i);
    if a == |s| then Token(Eof, Span(a, a), a)
    else if s[a] == '>' && a + 1 < |s| && s[a + 1] == '>' then Token(Append, Span(a, a + 2), Skip(s, a + 2))
    else if IsSym(s[a]) then Token(Sym(s[a]), Span(a, a + 1), Skip(s, a + 1))
    else var e := WordEnd(s, a); Token(Word, Span(a, e), Skip(s, e))
  }

  // Whether the next character is one of toks; peek also moves to Skip(s, i).
  predicate Peek(s: string, i: nat, toks: string)
    requires i <= |s|
  {
    var a := Skip(s, i);
    a < |s| && s[a] in toks
  }

  function Redirs(s: string, i: nat): (r: Parsed<seq<Redirection>>)
    requires i <= |s|
    ensures r.Ok? ==> i <= r.pos <= |s| && forall k :: 0 <= k < |r.value| ==> Good(s, r.value[k].file)
    decreases |s| - i
  {
    if Peek(s, i, "<>") then
      var t := Gettoken(s, i);
      var f := Gettoken(s, t.pos);
      if f.tok != Word then Bad
      else
        match Redirs(s, f.pos)
        case Bad => Bad
        case Ok(rs, p) => Ok([Redirection(f.span, t.tok != Sym('<'))] + rs, p)
    else Ok([], Skip(s, i))
  }

  // The last redirection is the outermost.
  function Wrap(c: Cmd, rs: seq<Redirection>): (r: Cmd) {
    if rs == [] then c else Redir(Wrap(c, rs[..|rs| - 1]), rs[|rs| - 1].file, rs[|rs| - 1].write)
  }

  lemma {:induction false} WrapGood(s: string, c: Cmd, rs: seq<Redirection>)
    requires GoodCmd(s, c) && forall k :: 0 <= k < |rs| ==> Good(s, rs[k].file)
    ensures GoodCmd(s, Wrap(c, rs))
  {
    if rs != [] {
      WrapGood(s, c, rs[..|rs| - 1]);
    }
  }

  // The loop of parseexec, with argv and the redirections so far.
  function Args(s: string, i: nat, argv: seq<Span>, rs: seq<Redirection>): (r: Parsed<Cmd>)
    requires i <= |s| && |argv| < MAXARGS
    requires (forall k :: 0 <= k < |argv| ==> Good(s, argv[k])) && forall k :: 0 <= k < |rs| ==> Good(s, rs[k].file)
    ensures r.Ok? ==> i <= r.pos <= |s| && GoodCmd(s, r.value)
    decreases |s| - i
  {
    WrapGood(s, Exec(argv), rs);
    if Peek(s, i, "|)&;") then Ok(Wrap(Exec(argv), rs), Skip(s, i))
    else
      var t := Gettoken(s, i);
      if t.tok == Eof then Ok(Wrap(Exec(argv), rs), t.pos)
      else if t.tok != Word then Bad
      else if |argv| + 1 >= MAXARGS then Bad
      else
        match Redirs(s, t.pos)
        case Bad => Bad
        case Ok(more, p) => Args(s, p, argv + [t.span], rs + more)
  }

  function ParseExec(s: string, i: nat): (r: Parsed<Cmd>)
    requires i <= |s|
    ensures r.Ok? ==> i <= r.pos <= |s| && GoodCmd(s, r.value)
    decreases |s| - i, 1
  {
    if Peek(s, i, "(") then ParseBlock(s, i)
    else
      match Redirs(s, i)
      case Bad => Bad
      case Ok(rs, p) => Args(s, p, [], rs)
  }

  function ParseBlock(s: string, i: nat): (r: Parsed<Cmd>)
    requires i <= |s| && Peek(s, i, "(")
    ensures r.Ok? ==> i <= r.pos <= |s| && GoodCmd(s, r.value)
    decreases |s| - i, 0
  {
    match ParseLine(s, Gettoken(s, i).pos)
    case Bad => Bad
    case Ok(c, p) =>
      if !Peek(s, p, ")") then Bad
      else
        match Redirs(s, Gettoken(s, p).pos)
        case Bad => Bad
        case Ok(rs, p') => WrapGood(s, c, rs); Ok(Wrap(c, rs), p')
  }

  function ParsePipe(s: string, i: nat): (r: Parsed<Cmd>)
    requires i <= |s|
    ensures r.Ok? ==> i <= r.pos <= |s| && GoodCmd(s, r.value)
    decreases |s| - i, 2
  {
    match ParseExec(s, i)
    case Bad => Bad
    case Ok(c, p) =>
      if !Peek(s, p, "|") then Ok(c, Skip(s, p))
      else
        match ParsePipe(s, Gettoken(s, p).pos)
        case Bad => Bad
        case Ok(d, p') => Ok(Pipe(c, d), p')
  }

  // The & loop of parseline.
  function Backs(s: string, i: nat, c: Cmd): (r: Parsed<Cmd>)
    requires i <= |s| && GoodCmd(s, c)
    ensures r.Ok? && i <= r.pos <= |s| && GoodCmd(s, r.value)
    decreases |s| - i
  {
    if Peek(s, i, "&") then Backs(s, Gettoken(s, i).pos, Back(c)) else Ok(c, Skip(s, i))
  }

  function ParseLine(s: string, i: nat): (r: Parsed<Cmd>)
    requires i <= |s|
    ensures r.Ok? ==> i <= r.pos <= |s| && GoodCmd(s, r.value)
    decreases |s| - i, 3
  {
    match ParsePipe(s, i)
    case Bad => Bad
    case Ok(c, p) =>
      var b := Backs(s, p, c);
      if !Peek(s, b.pos, ";") then Ok(b.value, Skip(s, b.pos))
      else
        match ParseLine(s, Gettoken(s, b.pos).pos)
        case Bad => Bad
        case Ok(d, p') => Ok(List(b.value, d), p')
  }

  function ParseCmd(s: string): (r: Parsed<Cmd>)
    ensures r.Ok? ==> r.pos == |s| && GoodCmd(s, r.value)
  {
    match ParseLine(s, 0)
    case Bad => Bad
    case Ok(c, p) => if Skip(s, p) != |s| then Bad else Ok(c, |s|)
  }
}
