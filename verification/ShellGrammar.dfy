// What a command line is and what it means, apart from any parser, and that the
// parser of sh.c accepts exactly these lines with that meaning.
module ShellGrammar {
  import opened Shell

  // A command with its words in place of spans.
  datatype Tree =
    | TExec(args: seq<string>)
    | TRedir(cmd: Tree, file: string, write: bool)
    | TPipe(left: Tree, right: Tree)
    | TList(left: Tree, right: Tree)
    | TBack(cmd: Tree)

  function TextOf(s: string, t: Span): string
    requires t.q <= t.eq <= |s|
  {
    s[t.q..t.eq]
  }

  // The words a parsed command refers to.
  function Text(s: string, c: Cmd): Tree
    requires GoodCmd(s, c)
  {
    match c
    case Exec(argv) => TExec(seq(|argv|, k requires 0 <= k < |argv| => TextOf(s, argv[k])))
    case Redir(d, f, w) => TRedir(Text(s, d), TextOf(s, f), w)
    case Pipe(l, r) => TPipe(Text(s, l), Text(s, r))
    case List(l, r) => TList(Text(s, l), Text(s, r))
    case Back(d) => TBack(Text(s, d))
  }

  datatype Lexeme = W(word: string) | S(c: char) | Twice // >>

  predicate LegalWord(w: string) { w != "" && forall k :: 0 <= k < |w| ==> IsPlain(w[k]) }

  function Spelling(x: Lexeme): string {
    match x
    case W(w) => w
    case S(c) => [c]
    case Twice => ">>"
  }

  predicate LegalLexeme(x: Lexeme) {
    match x
    case W(w) => LegalWord(w)
    case S(c) => IsSym(c)
    case Twice => true
  }

  // x, if it stands just before e, ends there: a word goes on as long as it can,
  // and so does >.
  predicate EndsAt(s: string, e: nat, x: Lexeme) {
    e < |s| ==> !(x.W? && IsPlain(s[e])) && !(x == S('>') && s[e] == '>')
  }

  // After white space from i on, x stands at a.
  ghost predicate StandsAt(s: string, i: nat, a: nat, x: Lexeme) {
    var e := a + |Spelling(x)|;
    && i <= a && e <= |s| && (forall k :: i <= k < a ==> IsWs(s[k]))
    && s[a..e] == Spelling(x) && LegalLexeme(x) && EndsAt(s, e, x)
  }

  // From i on, s is xs with any white space before, between and after.
  ghost predicate Spells(s: string, i: nat, xs: seq<Lexeme>)
    decreases |xs|
  {
    if xs == [] then i <= |s| && forall k :: i <= k < |s| ==> IsWs(s[k])
    else exists a: nat :: StandsAt(s, i, a, xs[0]) && Spells(s, a + |Spelling(xs[0])|, xs[1..])
  }

  function LexemeOf(s: string, t: Token): Lexeme
    requires t.tok != Eof && t.span.q <= t.span.eq <= |s|
  {
    if t.tok == Word then W(TextOf(s, t.span)) else if t.tok == Append then Twice else S(t.tok.c)
  }

  // What gettoken returns, again and again.
  function Lexemes(s: string, i: nat): seq<Lexeme>
    requires i <= |s|
    decreases |s| - i
  {
    var t := Gettoken(s, i);
    if t.tok == Eof then [] else [LexemeOf(s, t)] + Lexemes(s, t.pos)
  }

  lemma SkipLexemes(s: string, i: nat)
    requires i <= |s|
    ensures Lexemes(s, Skip(s, i)) == Lexemes(s, i)
  {
    assert Gettoken(s, Skip(s, i)) == Gettoken(s, i);
  }

  lemma TokenAt(s: string, i: nat, a: nat, x: Lexeme)
    requires StandsAt(s, i, a, x)
    ensures var t := Gettoken(s, i);
            t.tok != Eof && LexemeOf(s, t) == x && t.span == Span(a, a + |Spelling(x)|) && t.pos == Skip(s, t.span.eq)
  {
    hide Skip, WordEnd;
    var e := a + |Spelling(x)|;
    assert forall k :: a <= k < e ==> s[k] == s[a..e][k - a] == Spelling(x)[k - a];
    assert !IsWs(s[a]);
    assert Skip(s, i) == a;
    if x.W? {
      assert WordEnd(s, a) == e;
    }
  }

  lemma TokenStands(s: string, i: nat)
    requires i <= |s| && Gettoken(s, i).tok != Eof
    ensures var t := Gettoken(s, i);
            var x := LexemeOf(s, t);
            StandsAt(s, i, t.span.q, x) && t.span.eq == t.span.q + |Spelling(x)| && t.pos == Skip(s, t.span.eq)
  {
    hide Skip, WordEnd;
  }

  // gettoken splits a line into xs iff the line spells xs.
  lemma {:induction false} SpellsExactly(s: string, i: nat, xs: seq<Lexeme>)
    requires i <= |s|
    ensures Spells(s, i, xs) <==> Lexemes(s, i) == xs
    decreases |xs|
  {
    hide Gettoken, StandsAt, LexemeOf, Spelling;
    if xs == [] {
      NoToken(s, i);
    } else {
      if Spells(s, i, xs) {
        var a: nat :| StandsAt(s, i, a, xs[0]) && Spells(s, a + |Spelling(xs[0])|, xs[1..]);
        TokenAt(s, i, a, xs[0]);
        SpellsExactly(s, Gettoken(s, i).span.eq, xs[1..]);
        SkipLexemes(s, Gettoken(s, i).span.eq);
      }
      if Lexemes(s, i) == xs {
        var t := Gettoken(s, i);
        TokenStands(s, i);
        assert Lexemes(s, t.pos) == xs[1..];
        SkipLexemes(s, t.span.eq);
        SpellsExactly(s, t.span.eq, xs[1..]);
        assert StandsAt(s, i, t.span.q, xs[0]);
      }
    }
  }

  lemma NoToken(s: string, i: nat)
    requires i <= |s|
    ensures Gettoken(s, i).tok == Eof <==> forall k :: i <= k < |s| ==> IsWs(s[k])
  {
  }

  // A redirection, by < or > or >>.
  datatype Op = Less | More | MoreMore
  datatype Red = Red(op: Op, file: string)

  // The parts of a simple command, in any order.
  datatype Item = Arg(word: string) | To(red: Red)

  datatype Part = Simple(items: seq<Item>) | Group(line: Line, reds: seq<Red>)
  datatype Pipes = One(part: Part) | Bar(part: Part, rest: Pipes)
  datatype Line = Last(pipes: Pipes, amps: nat) | Then(pipes: Pipes, amps: nat, rest: Line)

  function OpLexeme(op: Op): Lexeme {
    match op
    case Less => S('<')
    case More => S('>')
    case MoreMore => Twice
  }

  function OneRed(r: Red): seq<Lexeme> { [OpLexeme(r.op), W(r.file)] }

  function RedLexemes(xs: seq<Red>): seq<Lexeme> {
    if xs == [] then [] else OneRed(xs[0]) + RedLexemes(xs[1..])
  }

  function ItemLexemes(items: seq<Item>): seq<Lexeme> {
    if items == [] then []
    else (if items[0].Arg? then [W(items[0].word)] else OneRed(items[0].red)) + ItemLexemes(items[1..])
  }

  function PartLexemes(p: Part): seq<Lexeme> {
    match p
    case Simple(items) => ItemLexemes(items)
    case Group(line, reds) => [S('(')] + LineLexemes(line) + [S(')')] + RedLexemes(reds)
  }

  function PipesLexemes(p: Pipes): seq<Lexeme> {
    match p
    case One(part) => PartLexemes(part)
    case Bar(part, rest) => PartLexemes(part) + [S('|')] + PipesLexemes(rest)
  }

  function Amps(n: nat): seq<Lexeme> { seq(n, _ => S('&')) }

  function LineLexemes(l: Line): seq<Lexeme> {
    match l
    case Last(p, n) => PipesLexemes(p) + Amps(n)
    case Then(p, n, rest) => PipesLexemes(p) + Amps(n) + [S(';')] + LineLexemes(rest)
  }

  function WordsOf(items: seq<Item>): seq<string> {
    if items == [] then [] else (if items[0].Arg? then [items[0].word] else []) + WordsOf(items[1..])
  }

  function RedsOf(items: seq<Item>): seq<Red> {
    if items == [] then [] else (if items[0].To? then [items[0].red] else []) + RedsOf(items[1..])
  }

  // The last redirection is the outermost.
  function Redirected(t: Tree, xs: seq<Red>): Tree {
    if xs == [] then t
    else var n := |xs| - 1; TRedir(Redirected(t, xs[..n]), xs[n].file, xs[n].op != Less)
  }

  function InBackground(t: Tree, n: nat): Tree { if n == 0 then t else TBack(InBackground(t, n - 1)) }

  // The words of a simple command in order, and around them the redirections.
  function PartMeans(p: Part): Tree {
    match p
    case Simple(items) => Redirected(TExec(WordsOf(items)), RedsOf(items))
    case Group(line, reds) => Redirected(LineMeans(line), reds)
  }

  function PipesMeans(p: Pipes): Tree {
    match p
    case One(part) => PartMeans(part)
    case Bar(part, rest) => TPipe(PartMeans(part), PipesMeans(rest))
  }

  function LineMeans(l: Line): Tree {
    match l
    case Last(p, n) => InBackground(PipesMeans(p), n)
    case Then(p, n, rest) => TList(InBackground(PipesMeans(p), n), LineMeans(rest))
  }

  predicate FitsPart(p: Part) {
    match p
    case Simple(items) => |WordsOf(items)| < MAXARGS
    case Group(line, _) => Fits(line)
  }

  predicate FitsPipes(p: Pipes) {
    match p
    case One(part) => FitsPart(part)
    case Bar(part, rest) => FitsPart(part) && FitsPipes(rest)
  }

  // No simple command has more words than argv.
  predicate Fits(l: Line) {
    match l
    case Last(p, _) => FitsPipes(p)
    case Then(p, _, rest) => FitsPipes(p) && Fits(rest)
  }

  // peek, on lexemes.
  predicate Starts(xs: seq<Lexeme>, toks: string) {
    xs != [] && ((xs[0].S? && xs[0].c in toks) || (xs[0] == Twice && '>' in toks))
  }

  // What may come after a line in parentheses, a pipeline and a part.
  predicate AfterLine(xs: seq<Lexeme>) { xs == [] || Starts(xs, ")") }
  predicate AfterPipes(xs: seq<Lexeme>) { xs == [] || Starts(xs, ")&;") }
  predicate AfterPart(xs: seq<Lexeme>) { xs == [] || Starts(xs, "|)&;") }

  lemma PeekLexeme(s: string, i: nat, toks: string)
    requires i <= |s| && forall c :: c in toks ==> IsSym(c)
    ensures Peek(s, i, toks) <==> Starts(Lexemes(s, i), toks)
  {
  }

  lemma NextLexeme(s: string, i: nat, x: Lexeme, xs: seq<Lexeme>)
    requires i <= |s| && Lexemes(s, i) == [x] + xs
    ensures var t := Gettoken(s, i);
            t.tok != Eof && LexemeOf(s, t) == x && i < t.pos <= |s| && Lexemes(s, t.pos) == xs
  {
    assert ([x] + xs)[1..] == xs;
  }

  // The redirections of the parser are xs.
  ghost predicate RedsAre(s: string, rs: seq<Redirection>, xs: seq<Red>) {
    |rs| == |xs| && forall k :: 0 <= k < |rs| ==>
        Good(s, rs[k].file) && TextOf(s, rs[k].file) == xs[k].file && rs[k].write == (xs[k].op != Less)
  }

  lemma {:induction false} WrapText(s: string, c: Cmd, rs: seq<Redirection>, xs: seq<Red>)
    requires GoodCmd(s, c) && RedsAre(s, rs, xs)
    ensures GoodCmd(s, Wrap(c, rs)) && Text(s, Wrap(c, rs)) == Redirected(Text(s, c), xs)
  {
    if rs != [] {
      WrapText(s, c, rs[..|rs| - 1], xs[..|xs| - 1]);
    }
  }

  ghost predicate ReadsReds(s: string, r: Parsed<seq<Redirection>>, xs: seq<Red>, rest: seq<Lexeme>) {
    r.Ok? && r.pos <= |s| && RedsAre(s, r.value, xs) && Lexemes(s, r.pos) == rest
  }

  // r is a command that means t, and rest comes after it.
  ghost predicate Reads(s: string, r: Parsed<Cmd>, t: Tree, rest: seq<Lexeme>) {
    r.Ok? && r.pos <= |s| && GoodCmd(s, r.value) && Text(s, r.value) == t && Lexemes(s, r.pos) == rest
  }

  lemma {:induction false} RedsRead(s: string, i: nat, xs: seq<Red>, rest: seq<Lexeme>)
    requires i <= |s| && Lexemes(s, i) == RedLexemes(xs) + rest && !Starts(rest, "<>")
    ensures ReadsReds(s, Redirs(s, i), xs, rest)
    decreases |xs|
  {
    hide Lexemes, Peek, Gettoken, Good, Skip;
    PeekLexeme(s, i, "<>");
    if xs == [] {
      assert RedLexemes(xs) + rest == rest;
      SkipLexemes(s, i);
    } else {
      var more := RedLexemes(xs[1..]) + rest;
      var file := W(xs[0].file);
      assert RedLexemes(xs) + rest == [OpLexeme(xs[0].op)] + ([file] + more);
      NextLexeme(s, i, OpLexeme(xs[0].op), [file] + more);
      var t := Gettoken(s, i);
      NextLexeme(s, t.pos, file, more);
      RedsRead(s, Gettoken(s, t.pos).pos, xs[1..], rest);
    }
  }

  function Tos(xs: seq<Red>): seq<Item> { seq(|xs|, k requires 0 <= k < |xs| => To(xs[k])) }

  // The redirections before the next word, and what comes from there.
  function Lead(items: seq<Item>): seq<Red> {
    if items == [] || items[0].Arg? then [] else [items[0].red] + Lead(items[1..])
  }

  function Past(items: seq<Item>): (r: seq<Item>)
    ensures (r == [] || r[0].Arg?) && |r| <= |items|
  {
    if items == [] || items[0].Arg? then items else Past(items[1..])
  }

  lemma {:induction false} LeadPast(items: seq<Item>)
    ensures items == Tos(Lead(items)) + Past(items)
  {
    TosNext(Lead(items), Past(items));
    if items != [] && items[0].To? {
      LeadPast(items[1..]);
      assert Lead(items)[1..] == Lead(items[1..]);
    }
  }

  lemma {:induction false} TosNext(xs: seq<Red>, items: seq<Item>)
    ensures var all := Tos(xs) + items;
            if xs == [] then all == items else |all| > 0 && all[0] == To(xs[0]) && all[1..] == Tos(xs[1..]) + items
  {
  }

  lemma {:induction false} TosParts(xs: seq<Red>, items: seq<Item>)
    ensures WordsOf(Tos(xs) + items) == WordsOf(items) && RedsOf(Tos(xs) + items) == xs + RedsOf(items)
  {
    hide Tos;
    TosNext(xs, items);
    if xs != [] {
      TosParts(xs[1..], items);
    }
  }

  lemma {:induction false} TosLexemes(xs: seq<Red>, items: seq<Item>)
    ensures ItemLexemes(Tos(xs) + items) == RedLexemes(xs) + ItemLexemes(items)
  {
    hide OneRed, Tos;
    TosNext(xs, items);
    if xs != [] {
      TosLexemes(xs[1..], items);
    }
  }

  lemma RedsMore(s: string, rs: seq<Redirection>, xs: seq<Red>, rs': seq<Redirection>, xs': seq<Red>)
    requires RedsAre(s, rs, xs) && RedsAre(s, rs', xs')
    ensures RedsAre(s, rs + rs', xs + xs')
  {
  }

  function Args0(s: string, argv: seq<Span>): seq<string>
    requires GoodCmd(s, Exec(argv))
  {
    Text(s, Exec(argv)).args
  }

  lemma ArgMore(s: string, argv: seq<Span>, t: Span)
    requires GoodCmd(s, Exec(argv)) && Good(s, t) && |argv| + 1 < MAXARGS
    ensures GoodCmd(s, Exec(argv + [t])) && Args0(s, argv + [t]) == Args0(s, argv) + [TextOf(s, t)]
  {
  }

  lemma ArgsStop(s: string, i: nat, argv: seq<Span>, rs: seq<Redirection>, xs: seq<Red>)
    requires i <= |s| && GoodCmd(s, Exec(argv)) && RedsAre(s, rs, xs) && AfterPart(Lexemes(s, i))
    ensures Reads(s, Args(s, i, argv, rs), Redirected(TExec(Args0(s, argv)), xs), Lexemes(s, i))
  {
    hide Skip, Gettoken, Redirs, Peek, Good;
    PeekLexeme(s, i, "|)&;");
    SkipLexemes(s, i);
    WrapText(s, Exec(argv), rs, xs);
    EofStays(s, i);
  }

  lemma EofStays(s: string, i: nat)
    requires i <= |s|
    ensures Gettoken(s, i).tok == Eof ==> Lexemes(s, Gettoken(s, i).pos) == [] == Lexemes(s, i)
  {
  }

  lemma NoItems(items: seq<Item>, rest: seq<Lexeme>)
    requires items == []
    ensures ItemLexemes(items) + rest == rest && WordsOf(items) == [] && RedsOf(items) == []
  {
  }

  lemma ArgParts(items: seq<Item>)
    requires items != [] && items[0].Arg?
    ensures WordsOf(items) == [items[0].word] + WordsOf(Past(items[1..]))
    ensures RedsOf(items) == Lead(items[1..]) + RedsOf(Past(items[1..]))
  {
    hide Tos;
    LeadPast(items[1..]);
    TosParts(Lead(items[1..]), Past(items[1..]));
  }

  lemma ArgLexemes(items: seq<Item>, rest: seq<Lexeme>)
    requires items != [] && items[0].Arg?
    ensures ItemLexemes(items) + rest ==
              [W(items[0].word)] + (RedLexemes(Lead(items[1..])) + (ItemLexemes(Past(items[1..])) + rest))
  {
    hide RedLexemes;
    LeadPast(items[1..]);
    TosLexemes(Lead(items[1..]), Past(items[1..]));
    assert ItemLexemes(items) == [W(items[0].word)] + ItemLexemes(items[1..]);
  }

  lemma WordIs(s: string, t: Token, w: string)
    requires t.tok != Eof && t.span.q <= t.span.eq <= |s| && LexemeOf(s, t) == W(w)
    ensures t.tok == Word && TextOf(s, t.span) == w
  {
  }

  lemma NoRedNext(items: seq<Item>, rest: seq<Lexeme>)
    requires (items == [] || items[0].Arg?) && AfterPart(rest)
    ensures !Starts(ItemLexemes(items) + rest, "<>")
  {
  }

  lemma ReadsRedsAre(s: string, r: Parsed<seq<Redirection>>, xs: seq<Red>, rest: seq<Lexeme>)
    requires ReadsReds(s, r, xs, rest)
    ensures r.Ok? && r.pos <= |s| && RedsAre(s, r.value, xs) && Lexemes(s, r.pos) == rest
  {
  }

  // One turn of the loop.
  lemma {:induction false} ArgsNext(s: string, i: nat, argv: seq<Span>, rs: seq<Redirection>, xs: seq<Red>)
    requires i <= |s| && GoodCmd(s, Exec(argv)) && RedsAre(s, rs, xs)
    requires Gettoken(s, i).tok == Word && |argv| + 1 < MAXARGS && Redirs(s, Gettoken(s, i).pos).Ok?
    ensures var t, r := Gettoken(s, i), Redirs(s, Gettoken(s, i).pos);
            Args(s, i, argv, rs) == Args(s, r.pos, argv + [t.span], rs + r.value)
  {
    PeekLexeme(s, i, "|)&;");
  }

  lemma {:induction false} ArgsTurn(s: string, i: nat, argv: seq<Span>, rs: seq<Redirection>, xs: seq<Red>,
                                    items: seq<Item>, rest: seq<Lexeme>)
    returns (j: nat, argv': seq<Span>, rs': seq<Redirection>)
    requires i <= |s| && GoodCmd(s, Exec(argv)) && RedsAre(s, rs, xs) && items != [] && items[0].Arg?
    requires Lexemes(s, i) == ItemLexemes(items) + rest && AfterPart(rest) && |argv| + 1 < MAXARGS
    ensures j <= |s| && Lexemes(s, j) == ItemLexemes(Past(items[1..])) + rest && |argv'| == |argv| + 1
    ensures GoodCmd(s, Exec(argv')) && Args0(s, argv') == Args0(s, argv) + [items[0].word]
    ensures RedsAre(s, rs', xs + Lead(items[1..])) && Args(s, i, argv, rs) == Args(s, j, argv', rs')
  {
    hide Skip, Gettoken, Redirs, Peek, Good, Args0, Lexemes, RedsAre, ItemLexemes, Args;
    var lead, past := Lead(items[1..]), Past(items[1..]);
    ArgLexemes(items, rest);
    NextLexeme(s, i, W(items[0].word), RedLexemes(lead) + (ItemLexemes(past) + rest));
    var t := Gettoken(s, i);
    WordIs(s, t, items[0].word);
    NoRedNext(past, rest);
    RedsRead(s, t.pos, lead, ItemLexemes(past) + rest);
    var r := Redirs(s, t.pos);
    ReadsRedsAre(s, r, lead, ItemLexemes(past) + rest);
    ArgMore(s, argv, t.span);
    RedsMore(s, rs, xs, r.value, lead);
    ArgsNext(s, i, argv, rs, xs);
    return r.pos, argv + [t.span], rs + r.value;
  }

  // The loop of parseexec, over items that begin with a word.
  lemma {:induction false} ArgsRead(s: string, i: nat, argv: seq<Span>, rs: seq<Redirection>, xs: seq<Red>,
                                    items: seq<Item>, rest: seq<Lexeme>)
    requires i <= |s| && GoodCmd(s, Exec(argv)) && RedsAre(s, rs, xs) && (items == [] || items[0].Arg?)
    requires Lexemes(s, i) == ItemLexemes(items) + rest && AfterPart(rest) && |argv| + |WordsOf(items)| < MAXARGS
    ensures Reads(s, Args(s, i, argv, rs),
              Redirected(TExec(Args0(s, argv) + WordsOf(items)), xs + RedsOf(items)), rest)
    decreases |items|
  {
    hide Args0, Lexemes, RedsAre, Reads, Redirected, ItemLexemes, Args, Lead, Past, WordsOf, RedsOf, GoodCmd;
    if items == [] {
      NoItems(items, rest);
      ArgsStop(s, i, argv, rs, xs);
      assert Args0(s, argv) + [] == Args0(s, argv) && xs + [] == xs;
    } else {
      var lead, past := Lead(items[1..]), Past(items[1..]);
      ArgParts(items);
      var j, argv', rs' := ArgsTurn(s, i, argv, rs, xs, items, rest);
      ArgsRead(s, j, argv', rs', xs + lead, past, rest);
      assert Args0(s, argv') + WordsOf(past) == Args0(s, argv) + WordsOf(items);
      assert xs + lead + RedsOf(past) == xs + RedsOf(items);
    }
  }

  lemma {:induction false} SimpleRead(items: seq<Item>, s: string, i: nat, rest: seq<Lexeme>)
    requires i <= |s| && |WordsOf(items)| < MAXARGS && Lexemes(s, i) == ItemLexemes(items) + rest && AfterPart(rest)
    ensures Reads(s, ParseExec(s, i), PartMeans(Simple(items)), rest)
  {
    hide Peek, Redirs, Args, Lexemes, ItemLexemes, WordsOf, RedsOf, RedLexemes, Tos, Lead, Past, RedsAre, Redirected,
         ParseBlock, Reads;
    var lead, past := Lead(items), Past(items);
    NoParen(items, rest);
    PeekLexeme(s, i, "(");
    LeadPast(items);
    TosParts(lead, past);
    TosLexemes(lead, past);
    assert RedLexemes(lead) + ItemLexemes(past) + rest == RedLexemes(lead) + (ItemLexemes(past) + rest);
    NoRedNext(past, rest);
    RedsRead(s, i, lead, ItemLexemes(past) + rest);
    var r := Redirs(s, i);
    ArgsRead(s, r.pos, [], r.value, lead, past, rest);
    NoArgs(s, WordsOf(past));
  }

  lemma NoParen(items: seq<Item>, rest: seq<Lexeme>)
    requires AfterPart(rest)
    ensures !Starts(ItemLexemes(items) + rest, "(")
  {
    if items == [] {
      NoItems(items, rest);
    }
  }

  lemma NoArgs(s: string, words: seq<string>)
    ensures GoodCmd(s, Exec([])) && Args0(s, []) + words == words
  {
  }

  lemma {:induction false} AmpsNext(n: nat, t: Tree)
    ensures Amps(n) == if n == 0 then [] else [S('&')] + Amps(n - 1)
    ensures n > 0 ==> InBackground(TBack(t), n - 1) == InBackground(t, n)
  {
    if n > 1 {
      AmpsNext(n - 1, t);
    }
  }

  lemma {:induction false} BacksRead(s: string, i: nat, c: Cmd, n: nat, rest: seq<Lexeme>)
    requires i <= |s| && GoodCmd(s, c) && Lexemes(s, i) == Amps(n) + rest && !Starts(rest, "&")
    ensures Reads(s, Backs(s, i, c), InBackground(Text(s, c), n), rest)
    decreases n
  {
    hide Peek, Lexemes, Amps, Gettoken, InBackground;
    AmpsNext(n, Text(s, c));
    PeekLexeme(s, i, "&");
    if n == 0 {
      assert Amps(n) + rest == rest;
      SkipLexemes(s, i);
      assert InBackground(Text(s, c), n) == Text(s, c) by { NotBack(Text(s, c)); }
    } else {
      assert Amps(n) + rest == [S('&')] + (Amps(n - 1) + rest);
      NextLexeme(s, i, S('&'), Amps(n - 1) + rest);
      BacksRead(s, Gettoken(s, i).pos, Back(c), n - 1, rest);
    }
  }

  lemma NotBack(t: Tree)
    ensures InBackground(t, 0) == t
  {
  }

  lemma {:induction false} PartRead(p: Part, s: string, i: nat, rest: seq<Lexeme>)
    requires i <= |s| && FitsPart(p) && Lexemes(s, i) == PartLexemes(p) + rest && AfterPart(rest)
    ensures Reads(s, ParseExec(s, i), PartMeans(p), rest)
    decreases p
  {
    hide Lexemes, Reads, ParseExec, PartLexemes, PartMeans, RedLexemes, LineLexemes, LineMeans, Gettoken, AfterLine;
    match p
    case Simple(items) =>
      SimpleLexemes(items);
      SimpleRead(items, s, i, rest);
    case Group(line, reds) =>
      var tail := RedLexemes(reds) + rest;
      GroupLexemes(line, reds, rest);
      NextLexeme(s, i, S('('), LineLexemes(line) + ([S(')')] + tail));
      var j := Gettoken(s, i).pos;
      LineRead(line, s, j, [S(')')] + tail);
      GroupRead(line, reds, s, i, rest);
  }

  lemma SimpleLexemes(items: seq<Item>)
    ensures PartLexemes(Simple(items)) == ItemLexemes(items)
  {
  }

  lemma GroupLexemes(line: Line, reds: seq<Red>, rest: seq<Lexeme>)
    ensures PartLexemes(Group(line, reds)) + rest ==
              [S('(')] + (LineLexemes(line) + ([S(')')] + (RedLexemes(reds) + rest)))
    ensures AfterLine([S(')')] + (RedLexemes(reds) + rest))
  {
    hide LineLexemes, RedLexemes;
  }

  // parseblock, given how the line in it parses.
  lemma GroupRead(line: Line, reds: seq<Red>, s: string, i: nat, rest: seq<Lexeme>)
    requires i <= |s| && AfterPart(rest) && Gettoken(s, i).pos <= |s|
    requires Lexemes(s, i) == [S('(')] + (LineLexemes(line) + ([S(')')] + (RedLexemes(reds) + rest)))
    requires Reads(s, ParseLine(s, Gettoken(s, i).pos), LineMeans(line), [S(')')] + (RedLexemes(reds) + rest))
    ensures Reads(s, ParseExec(s, i), PartMeans(Group(line, reds)), rest)
  {
    hide Peek, Lexemes, Gettoken, ParseLine, Redirs, RedLexemes, LineLexemes, LineMeans, RedsAre, Redirected, Text;
    PeekLexeme(s, i, "(");
    var c := ParseLine(s, Gettoken(s, i).pos);
    PeekLexeme(s, c.pos, ")");
    NextLexeme(s, c.pos, S(')'), RedLexemes(reds) + rest);
    var p := Gettoken(s, c.pos).pos;
    RedsRead(s, p, reds, rest);
    WrapText(s, c.value, Redirs(s, p).value, reds);
  }

  lemma {:induction false} PipesRead(p: Pipes, s: string, i: nat, rest: seq<Lexeme>)
    requires i <= |s| && FitsPipes(p) && Lexemes(s, i) == PipesLexemes(p) + rest && AfterPipes(rest)
    ensures Reads(s, ParsePipe(s, i), PipesMeans(p), rest)
    decreases p
  {
    hide Peek, Lexemes, Gettoken, ParseExec, PartLexemes, PartMeans, FitsPart, Text, GoodCmd;
    match p
    case One(part) =>
      PartRead(part, s, i, rest);
      PeekLexeme(s, ParseExec(s, i).pos, "|");
      SkipLexemes(s, ParseExec(s, i).pos);
    case Bar(part, more) =>
      var tail := PipesLexemes(more) + rest;
      assert PipesLexemes(p) + rest == PartLexemes(part) + ([S('|')] + tail);
      PartRead(part, s, i, [S('|')] + tail);
      var j := ParseExec(s, i).pos;
      PeekLexeme(s, j, "|");
      NextLexeme(s, j, S('|'), tail);
      PipesRead(more, s, Gettoken(s, j).pos, rest);
      assert Text(s, ParsePipe(s, i).value) == PipesMeans(p) by { TextPipe(s, ParsePipe(s, i).value); }
  }

  lemma TextPipe(s: string, c: Cmd)
    requires GoodCmd(s, c) && c.Pipe?
    ensures GoodCmd(s, c.left) && GoodCmd(s, c.right) && Text(s, c) == TPipe(Text(s, c.left), Text(s, c.right))
  {
  }

  lemma {:induction false} LineRead(l: Line, s: string, i: nat, rest: seq<Lexeme>)
    requires i <= |s| && Fits(l) && Lexemes(s, i) == LineLexemes(l) + rest && AfterLine(rest)
    ensures Reads(s, ParseLine(s, i), LineMeans(l), rest)
    decreases l
  {
    hide Peek, Lexemes, Gettoken, ParsePipe, PipesLexemes, PipesMeans, FitsPipes, Text, GoodCmd, Backs, Amps,
         InBackground;
    var after := match l { case Last(_, _) => rest case Then(_, _, more) => [S(';')] + (LineLexemes(more) + rest) };
    assert LineLexemes(l) + rest == PipesLexemes(l.pipes) + (Amps(l.amps) + after);
    AmpsNext(l.amps, TExec([]));
    PipesRead(l.pipes, s, i, Amps(l.amps) + after);
    var c := ParsePipe(s, i);
    BacksRead(s, c.pos, c.value, l.amps, after);
    var b := Backs(s, c.pos, c.value);
    PeekLexeme(s, b.pos, ";");
    match l
    case Last(_, _) => SkipLexemes(s, b.pos);
    case Then(_, _, more) =>
      NextLexeme(s, b.pos, S(';'), LineLexemes(more) + rest);
      LineRead(more, s, Gettoken(s, b.pos).pos, rest);
      assert Text(s, ParseLine(s, i).value) == LineMeans(l) by { TextList(s, ParseLine(s, i).value); }
  }

  lemma TextList(s: string, c: Cmd)
    requires GoodCmd(s, c) && c.List?
    ensures GoodCmd(s, c.left) && GoodCmd(s, c.right) && Text(s, c) == TList(Text(s, c.left), Text(s, c.right))
  {
  }

  lemma FirstLexeme(s: string, i: nat)
    requires i <= |s| && Gettoken(s, i).tok != Eof
    ensures var t := Gettoken(s, i); i < t.pos <= |s| && Lexemes(s, i) == [LexemeOf(s, t)] + Lexemes(s, t.pos)
  {
  }

  // The other way: what the parser accepted is a line, and means that.
  lemma {:induction false} RedsAccepted(s: string, i: nat) returns (xs: seq<Red>)
    requires i <= |s| && Redirs(s, i).Ok?
    ensures var r := Redirs(s, i);
            RedsAre(s, r.value, xs) && r.pos <= |s| && Lexemes(s, i) == RedLexemes(xs) + Lexemes(s, r.pos)
    decreases |s| - i
  {
    hide Peek, Lexemes, Gettoken, Good, RedLexemes, RedsAre;
    PeekLexeme(s, i, "<>");
    if !Peek(s, i, "<>") {
      SkipLexemes(s, i);
      NoReds(s, Lexemes(s, i));
      return [];
    }
    PeekNotEof(s, i, "<>");
    var t := Gettoken(s, i);
    FirstLexeme(s, i);
    var f := Gettoken(s, t.pos);
    FirstLexeme(s, t.pos);
    var more := RedsAccepted(s, f.pos);
    var op := if t.tok == Sym('<') then Less else if t.tok == Append then MoreMore else More;
    xs := [Red(op, TextOf(s, f.span))] + more;
    RedsNext(xs, Lexemes(s, Redirs(s, i).pos));
    RedsAreNext(s, Redirection(f.span, op != Less), Redirs(s, f.pos).value, xs[0], more);
  }

  lemma RedsAreNext(s: string, r: Redirection, rs: seq<Redirection>, x: Red, xs: seq<Red>)
    requires Good(s, r.file) && TextOf(s, r.file) == x.file && r.write == (x.op != Less) && RedsAre(s, rs, xs)
    ensures RedsAre(s, [r] + rs, [x] + xs)
  {
  }

  lemma NoReds(s: string, xs: seq<Lexeme>)
    ensures RedLexemes([]) + xs == xs && RedsAre(s, [], [])
  {
  }

  lemma PeekNotEof(s: string, i: nat, toks: string)
    requires i <= |s| && Peek(s, i, toks)
    ensures Gettoken(s, i).tok != Eof
  {
  }

  lemma RedsNext(xs: seq<Red>, rest: seq<Lexeme>)
    requires xs != []
    ensures RedLexemes(xs) + rest == [OpLexeme(xs[0].op)] + ([W(xs[0].file)] + (RedLexemes(xs[1..]) + rest))
  {
  }

  lemma {:induction false} ArgsAccepted(s: string, i: nat, argv: seq<Span>, rs: seq<Redirection>, xs: seq<Red>)
    returns (items: seq<Item>)
    requires i <= |s| && GoodCmd(s, Exec(argv)) && RedsAre(s, rs, xs) && Args(s, i, argv, rs).Ok?
    ensures var r := Args(s, i, argv, rs);
            && r.pos <= |s| && Lexemes(s, i) == ItemLexemes(items) + Lexemes(s, r.pos)
            && |argv| + |WordsOf(items)| < MAXARGS && GoodCmd(s, r.value)
            && Text(s, r.value) == Redirected(TExec(Args0(s, argv) + WordsOf(items)), xs + RedsOf(items))
    decreases |s| - i
  {
    hide Peek, Lexemes, Gettoken, Good, Skip, Redirs, ItemLexemes, WordsOf, RedsOf, Redirected, Args0, Text;
    PeekLexeme(s, i, "|)&;");
    var t := Gettoken(s, i);
    EofStays(s, i);
    if Peek(s, i, "|)&;") || t.tok == Eof {
      ArgsStop(s, i, argv, rs, xs);
      NoItems([], Lexemes(s, i));
      assert Args0(s, argv) + [] == Args0(s, argv) && xs + [] == xs;
      return [];
    }
    FirstLexeme(s, i);
    var lead := RedsAccepted(s, t.pos);
    var r := Redirs(s, t.pos);
    ArgMore(s, argv, t.span);
    RedsMore(s, rs, xs, r.value, lead);
    var past := ArgsAccepted(s, r.pos, argv + [t.span], rs + r.value, xs + lead);
    items := [Arg(TextOf(s, t.span))] + (Tos(lead) + past);
    ItemsJoin(TextOf(s, t.span), lead, past, Lexemes(s, Args(s, i, argv, rs).pos));
    assert Args0(s, argv + [t.span]) + WordsOf(past) == Args0(s, argv) + WordsOf(items);
    assert xs + lead + RedsOf(past) == xs + RedsOf(items);
  }

  lemma ItemsJoin(w: string, lead: seq<Red>, past: seq<Item>, rest: seq<Lexeme>)
    ensures var items := [Arg(w)] + (Tos(lead) + past);
            && ItemLexemes(items) + rest == [W(w)] + (RedLexemes(lead) + (ItemLexemes(past) + rest))
            && WordsOf(items) == [w] + WordsOf(past) && RedsOf(items) == lead + RedsOf(past)
  {
    hide Tos, RedLexemes;
    TosParts(lead, past);
    TosLexemes(lead, past);
    var items := [Arg(w)] + (Tos(lead) + past);
    assert items[1..] == Tos(lead) + past;
  }

  // What r, parsed from i on, and the grammar say agree.
  ghost predicate Agrees(s: string, i: nat, r: Parsed<Cmd>, xs: seq<Lexeme>, t: Tree) {
    && i <= |s| && r.Ok? && r.pos <= |s| && GoodCmd(s, r.value) && Text(s, r.value) == t
    && Lexemes(s, i) == xs + Lexemes(s, r.pos)
  }

  lemma {:induction false} SimpleAccepted(s: string, i: nat) returns (items: seq<Item>)
    requires i <= |s| && ParseExec(s, i).Ok? && !Peek(s, i, "(")
    ensures FitsPart(Simple(items))
    ensures Agrees(s, i, ParseExec(s, i), PartLexemes(Simple(items)), PartMeans(Simple(items)))
  {
    hide Peek, Lexemes, Redirs, Args, ItemLexemes, WordsOf, RedsOf, RedsAre, Redirected, ParseBlock, RedLexemes, Text,
         GoodCmd, Tos;
    var r := Redirs(s, i);
    var lead := RedsAccepted(s, i);
    NoArgs(s, []);
    var past := ArgsAccepted(s, r.pos, [], r.value, lead);
    NoArgs(s, WordsOf(past));
    items := Tos(lead) + past;
    TosParts(lead, past);
    TosLexemes(lead, past);
    SimpleLexemes(items);
    var rest := Lexemes(s, ParseExec(s, i).pos);
    assert RedLexemes(lead) + (ItemLexemes(past) + rest) == RedLexemes(lead) + ItemLexemes(past) + rest;
  }

  lemma {:induction false} PartAccepted(s: string, i: nat) returns (p: Part)
    requires i <= |s| && ParseExec(s, i).Ok?
    ensures FitsPart(p) && Agrees(s, i, ParseExec(s, i), PartLexemes(p), PartMeans(p))
    decreases |s| - i, 1
  {
    hide Peek, Lexemes, Redirs, Gettoken, Agrees, PartLexemes, PartMeans, ParseLine, LineLexemes, LineMeans, RedsAre,
         Args;
    if Peek(s, i, "(") {
      PeekNotEof(s, i, "(");
      FirstLexeme(s, i);
      var c := ParseLine(s, Gettoken(s, i).pos);
      var line := LineAccepted(s, Gettoken(s, i).pos);
      PeekNotEof(s, c.pos, ")");
      FirstLexeme(s, c.pos);
      var reds := RedsAccepted(s, Gettoken(s, c.pos).pos);
      GroupAccepted(line, reds, s, i);
      p := Group(line, reds);
    } else {
      var items := SimpleAccepted(s, i);
      p := Simple(items);
    }
  }

  lemma GroupAccepted(line: Line, reds: seq<Red>, s: string, i: nat)
    requires i <= |s| && Peek(s, i, "(") && ParseExec(s, i).Ok? && Gettoken(s, i).pos <= |s|
    requires var c := ParseLine(s, Gettoken(s, i).pos);
             && c.Ok? && c.pos <= |s| && Peek(s, c.pos, ")") && Gettoken(s, c.pos).pos <= |s|
             && Agrees(s, Gettoken(s, i).pos, c, LineLexemes(line), LineMeans(line))
             && var r := Redirs(s, Gettoken(s, c.pos).pos);
                && r.Ok? && r.pos <= |s| && RedsAre(s, r.value, reds)
                && Lexemes(s, Gettoken(s, c.pos).pos) == RedLexemes(reds) + Lexemes(s, r.pos)
    ensures Agrees(s, i, ParseExec(s, i), PartLexemes(Group(line, reds)), PartMeans(Group(line, reds)))
  {
    hide Peek, Lexemes, Redirs, Gettoken, ParseLine, LineLexemes, LineMeans, RedsAre, RedLexemes, Text, GoodCmd,
         Redirected, PartLexemes, LexemeOf;
    var c := ParseLine(s, Gettoken(s, i).pos);
    var r := Redirs(s, Gettoken(s, c.pos).pos);
    SymbolLexeme(s, i, '(');
    SymbolLexeme(s, c.pos, ')');
    WrapText(s, c.value, r.value, reds);
    GroupLexemes(line, reds, Lexemes(s, r.pos));
  }

  lemma SymbolLexeme(s: string, i: nat, c: char)
    requires i <= |s| && IsSym(c) && c != '>' && Peek(s, i, [c])
    ensures Gettoken(s, i).tok == Sym(c) && i < Gettoken(s, i).pos <= |s|
    ensures Lexemes(s, i) == [S(c)] + Lexemes(s, Gettoken(s, i).pos)
  {
  }

  lemma {:induction false} PipesAccepted(s: string, i: nat) returns (p: Pipes)
    requires i <= |s| && ParsePipe(s, i).Ok?
    ensures FitsPipes(p) && Agrees(s, i, ParsePipe(s, i), PipesLexemes(p), PipesMeans(p))
    decreases |s| - i, 2
  {
    hide Peek, Lexemes, Gettoken, ParseExec, PartLexemes, PartMeans, FitsPart, Text, GoodCmd;
    var c := ParseExec(s, i);
    var part := PartAccepted(s, i);
    if !Peek(s, c.pos, "|") {
      SkipLexemes(s, c.pos);
      return One(part);
    }
    SymbolLexeme(s, c.pos, '|');
    var more := PipesAccepted(s, Gettoken(s, c.pos).pos);
    p := Bar(part, more);
    var rest := Lexemes(s, ParsePipe(s, i).pos);
    assert PartLexemes(part) + ([S('|')] + (PipesLexemes(more) + rest)) == PipesLexemes(p) + rest;
    TextPipe(s, ParsePipe(s, i).value);
  }

  lemma {:induction false} BacksAccepted(s: string, i: nat, c: Cmd) returns (n: nat)
    requires i <= |s| && GoodCmd(s, c)
    ensures Agrees(s, i, Backs(s, i, c), Amps(n), InBackground(Text(s, c), n))
    decreases |s| - i
  {
    hide Peek, Lexemes, Gettoken, Amps, InBackground;
    if !Peek(s, i, "&") {
      SkipLexemes(s, i);
      AmpsNext(0, Text(s, c));
      NotBack(Text(s, c));
      assert [] + Lexemes(s, i) == Lexemes(s, i);
      return 0;
    }
    SymbolLexeme(s, i, '&');
    var m := BacksAccepted(s, Gettoken(s, i).pos, Back(c));
    n := m + 1;
    AmpsNext(n, Text(s, c));
    var rest := Lexemes(s, Backs(s, i, c).pos);
    assert [S('&')] + (Amps(m) + rest) == Amps(n) + rest;
  }

  lemma {:induction false} LineAccepted(s: string, i: nat) returns (l: Line)
    requires i <= |s| && ParseLine(s, i).Ok?
    ensures Fits(l) && Agrees(s, i, ParseLine(s, i), LineLexemes(l), LineMeans(l))
    decreases |s| - i, 3
  {
    hide Peek, Lexemes, Gettoken, ParsePipe, PipesLexemes, PipesMeans, FitsPipes, Text, GoodCmd, Backs, Amps,
         InBackground;
    var c := ParsePipe(s, i);
    var p := PipesAccepted(s, i);
    var b := Backs(s, c.pos, c.value);
    var n := BacksAccepted(s, c.pos, c.value);
    var end := Lexemes(s, b.pos);
    assert PipesLexemes(p) + (Amps(n) + end) == PipesLexemes(p) + Amps(n) + end;
    if !Peek(s, b.pos, ";") {
      SkipLexemes(s, b.pos);
      return Last(p, n);
    }
    SymbolLexeme(s, b.pos, ';');
    var more := LineAccepted(s, Gettoken(s, b.pos).pos);
    l := Then(p, n, more);
    var rest := Lexemes(s, ParseLine(s, i).pos);
    assert PipesLexemes(p) + Amps(n) + ([S(';')] + (LineLexemes(more) + rest)) == LineLexemes(l) + rest;
    TextList(s, ParseLine(s, i).value);
  }

  // l is a line that s spells, and it means t.
  ghost predicate Derives(s: string, l: Line, t: Tree) { Fits(l) && Spells(s, 0, LineLexemes(l)) && LineMeans(l) == t }

  // parsecmd accepts exactly the spellings of lines, with their meaning.
  lemma ParsesExactly(s: string, t: Tree)
    ensures (ParseCmd(s).Ok? && Text(s, ParseCmd(s).value) == t) <==> exists l :: Derives(s, l, t)
  {
    hide Lexemes, ParseLine, Text, Spells, LineLexemes, LineMeans, Fits, GoodCmd;
    if ParseCmd(s).Ok? && Text(s, ParseCmd(s).value) == t {
      var l := LineAccepted(s, 0);
      AtEnd(s, ParseLine(s, 0).pos);
      assert LineLexemes(l) + [] == LineLexemes(l);
      SpellsExactly(s, 0, LineLexemes(l));
      assert Derives(s, l, t);
    }
    if l :| Derives(s, l, t) {
      ParseSpelled(s, l);
    }
  }

  lemma AtEnd(s: string, i: nat)
    requires i <= |s|
    ensures Lexemes(s, i) == [] <==> Skip(s, i) == |s|
  {
  }

  // Any spelling of a line parses as its meaning.
  lemma ParseSpelled(s: string, l: Line)
    requires Fits(l) && Spells(s, 0, LineLexemes(l))
    ensures ParseCmd(s).Ok? && Text(s, ParseCmd(s).value) == LineMeans(l)
  {
    hide Lexemes, ParseLine, Text, Spells, LineLexemes, LineMeans, Fits, GoodCmd;
    SpellsExactly(s, 0, LineLexemes(l));
    assert LineLexemes(l) + [] == LineLexemes(l);
    LineRead(l, s, 0, []);
    AtEnd(s, ParseLine(s, 0).pos);
  }
}
