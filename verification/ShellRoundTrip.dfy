// Printing a command with every part in parentheses, and parsing it back.
module ShellRoundTrip {
  import opened Shell
  import opened ShellGrammar

  predicate Legal(t: Tree) {
    match t
    case TExec(args) => |args| < MAXARGS && forall k :: 0 <= k < |args| ==> LegalWord(args[k])
    case TRedir(c, f, _) => Legal(c) && LegalWord(f)
    case TPipe(l, r) => Legal(l) && Legal(r)
    case TList(l, r) => Legal(l) && Legal(r)
    case TBack(c) => Legal(c)
  }

  function Words(args: seq<string>): string {
    if args == [] then "" else args[0] + (" " + Words(args[1..]))
  }

  function Paren(p: string): (r: string)
    ensures |r| == |p| + 2
  {
    "(" + (p + ")")
  }

  function Print(t: Tree): string {
    match t
    case TExec(args) => Words(args)
    case TRedir(c, f, w) => Paren(Print(c)) + ((if w then ">" else "<") + f)
    case TPipe(l, r) => Paren(Print(l)) + ("|" + Paren(Print(r)))
    case TList(l, r) => Paren(Print(l)) + (";" + Paren(Print(r)))
    case TBack(c) => Paren(Print(c)) + "&"
  }

  function Args(args: seq<string>): seq<Item> {
    if args == [] then [] else [Arg(args[0])] + Args(args[1..])
  }

  // The line that is printed.
  function Printed(t: Tree): Line {
    match t
    case TExec(args) => Last(One(Simple(Args(args))), 0)
    case TRedir(c, f, w) => Last(One(Group(Printed(c), [Red(if w then More else Less, f)])), 0)
    case TPipe(l, r) => Last(Bar(Group(Printed(l), []), One(Group(Printed(r), []))), 0)
    case TList(l, r) => Then(One(Group(Printed(l), [])), 0, Last(One(Group(Printed(r), [])), 0))
    case TBack(c) => Last(One(Group(Printed(c), [])), 1)
  }

  lemma {:induction false} ArgsAre(args: seq<string>)
    ensures WordsOf(Args(args)) == args && RedsOf(Args(args)) == []
  {
    if args != [] {
      ArgsAre(args[1..]);
    }
  }

  lemma {:induction false} PrintedMeans(t: Tree)
    requires Legal(t)
    ensures Fits(Printed(t)) && LineMeans(Printed(t)) == t
  {
    match t
    case TExec(args) =>
      ArgsAre(args);
      LastOne(Simple(Args(args)));
    case TRedir(c, f, w) =>
      PrintedMeans(c);
      var xs := [Red(if w then More else Less, f)];
      assert xs[..0] == [] && Redirected(c, xs) == TRedir(Redirected(c, xs[..0]), f, w);
      LastOne(Group(Printed(c), xs));
    case TPipe(l, r) =>
      PrintedMeans(l);
      PrintedMeans(r);
      LastOne(Group(Printed(l), []));
      LastOne(Group(Printed(r), []));
    case TList(l, r) =>
      PrintedMeans(l);
      PrintedMeans(r);
      LastOne(Group(Printed(l), []));
      LastOne(Group(Printed(r), []));
    case TBack(c) =>
      PrintedMeans(c);
      LastOne(Group(Printed(c), []));
      assert InBackground(c, 1) == TBack(InBackground(c, 0));
  }

  // A part alone.
  lemma LastOne(p: Part)
    ensures LineLexemes(Last(One(p), 0)) == PartLexemes(p) && LineMeans(Last(One(p), 0)) == PartMeans(p)
    ensures Fits(Last(One(p), 0)) == FitsPart(p) && PipesMeans(One(p)) == PartMeans(p)
    ensures p.Group? && p.reds == [] ==> PartMeans(p) == LineMeans(p.line)
  {
    hide PartLexemes;
  }

  // x stands in s at i.
  predicate At(s: string, i: nat, x: string) { i + |x| <= |s| && s[i..i + |x|] == x }

  predicate LineEnds(s: string, j: nat) { j == |s| || (j < |s| && s[j] == ')') }

  lemma AtSplit(s: string, i: nat, x: string, y: string)
    requires At(s, i, x + y)
    ensures At(s, i, x) && At(s, i + |x|, y)
  {
    assert s[i..i + |x + y|][..|x|] == x && s[i..i + |x + y|][|x|..] == y;
    assert s[i..i + |x|] == s[i..i + |x + y|][..|x|];
    assert s[i + |x|..i + |x| + |y|] == s[i..i + |x + y|][|x|..];
  }

  // The next lexeme is what stands there, and a space is none.
  lemma OneLexeme(s: string, i: nat, x: Lexeme)
    requires At(s, i, Spelling(x)) && LegalLexeme(x) && EndsAt(s, i + |Spelling(x)|, x)
    ensures Lexemes(s, i) == [x] + Lexemes(s, i + |Spelling(x)|)
  {
    hide Gettoken, Spelling, LegalLexeme, LexemeOf;
    TokenAt(s, i, i, x);
    SkipLexemes(s, i + |Spelling(x)|);
  }

  lemma Symbol(s: string, i: nat, c: char)
    requires At(s, i, [c]) && IsSym(c) && c != '>'
    ensures Lexemes(s, i) == [S(c)] + Lexemes(s, i + 1)
  {
    OneLexeme(s, i, S(c));
  }

  lemma Space(s: string, i: nat)
    requires At(s, i, " ")
    ensures Lexemes(s, i) == Lexemes(s, i + 1)
  {
    assert s[i] == s[i..i + 1][0];
    SkipLexemes(s, i);
    SkipLexemes(s, i + 1);
  }

  lemma {:induction false} WordsLexemes(args: seq<string>, s: string, i: nat)
    requires At(s, i, Words(args)) && forall k :: 0 <= k < |args| ==> LegalWord(args[k])
    ensures Lexemes(s, i) == ItemLexemes(Args(args)) + Lexemes(s, i + |Words(args)|)
    decreases |args|
  {
    hide Lexemes, At, LegalWord;
    if args != [] {
      var w, more := args[0], args[1..];
      var j := i + |w|;
      AtSplit(s, i, w, " " + Words(more));
      AtSplit(s, j, " ", Words(more));
      WordEnds(s, j);
      OneLexeme(s, i, W(w));
      Space(s, j);
      WordsLexemes(more, s, j + 1);
      assert Args(args)[1..] == Args(more);
    }
  }

  lemma WordEnds(s: string, j: nat)
    requires At(s, j, " ")
    ensures j < |s| && !IsPlain(s[j])
  {
    assert s[j] == s[j..j + 1][0];
  }

  // < or > and a file, at the end of the line.
  lemma RedLexeme(s: string, i: nat, f: string, w: bool)
    requires At(s, i, (if w then ">" else "<") + f) && LegalWord(f) && LineEnds(s, i + 1 + |f|)
    ensures Lexemes(s, i) == RedLexemes([Red(if w then More else Less, f)]) + Lexemes(s, i + 1 + |f|)
  {
    hide Lexemes;
    AtSplit(s, i, if w then ">" else "<", f);
    assert s[i + 1] == s[i + 1..i + 1 + |f|][0];
    OneLexeme(s, i, if w then S('>') else S('<'));
    OneLexeme(s, i + 1, W(f));
  }

  lemma {:induction false} PrintLexemes(t: Tree, s: string, i: nat)
    requires Legal(t) && At(s, i, Print(t)) && LineEnds(s, i + |Print(t)|)
    ensures Lexemes(s, i) == LineLexemes(Printed(t)) + Lexemes(s, i + |Print(t)|)
    decreases t, 1
  {
    hide Lexemes, At, LineEnds, LegalWord, PartLexemes, RedLexemes, ItemLexemes;
    match t
    case TExec(args) =>
      WordsLexemes(args, s, i);
      SimpleLexemes(Args(args));
      LastOne(Simple(Args(args)));
    case TRedir(c, f, w) =>
      AtSplit(s, i, Paren(Print(c)), (if w then ">" else "<") + f);
      ParenLexemes(c, s, i);
      RedLexeme(s, i + |Print(c)| + 2, f, w);
      var xs := [Red(if w then More else Less, f)];
      LastOne(Group(Printed(c), xs));
      GroupReds(Printed(c), xs);
    case TPipe(l, r) =>
      TwoLexemes(t, l, '|', r, s, i);
      LastOne(Group(Printed(r), []));
    case TList(l, r) =>
      TwoLexemes(t, l, ';', r, s, i);
      LastOne(Group(Printed(r), []));
    case TBack(c) =>
      AtSplit(s, i, Paren(Print(c)), "&");
      ParenLexemes(c, s, i);
      Symbol(s, i + |Print(c)| + 2, '&');
      assert Amps(1) == [S('&')];
  }

  lemma GroupReds(l: Line, xs: seq<Red>)
    ensures PartLexemes(Group(l, xs)) == PartLexemes(Group(l, [])) + RedLexemes(xs)
  {
    hide LineLexemes;
  }

  lemma {:induction false} TwoLexemes(t: Tree, l: Tree, c: char, r: Tree, s: string, i: nat)
    requires t == TPipe(l, r) || t == TList(l, r)
    requires Legal(l) && Legal(r) && IsSym(c) && c != '>' && At(s, i, Paren(Print(l)) + ([c] + Paren(Print(r))))
    ensures Lexemes(s, i) == PartLexemes(Group(Printed(l), [])) + [S(c)] + PartLexemes(Group(Printed(r), [])) +
                             Lexemes(s, i + |Print(l)| + |Print(r)| + 5)
    decreases t, 0
  {
    hide Lexemes, At, Paren, PartLexemes;
    var j := i + |Print(l)| + 2;
    AtSplit(s, i, Paren(Print(l)), [c] + Paren(Print(r)));
    AtSplit(s, j, [c], Paren(Print(r)));
    ParenLexemes(l, s, i);
    Symbol(s, j, c);
    ParenLexemes(r, s, j + 1);
  }

  lemma {:induction false} ParenLexemes(t: Tree, s: string, i: nat)
    requires Legal(t) && At(s, i, Paren(Print(t)))
    ensures Lexemes(s, i) == PartLexemes(Group(Printed(t), [])) + Lexemes(s, i + |Print(t)| + 2)
    decreases t, 2
  {
    hide Lexemes, Print, Printed, LineLexemes, Legal;
    var p := Print(t);
    AtSplit(s, i, "(", p + ")");
    AtSplit(s, i + 1, p, ")");
    assert s[i + 1 + |p|] == s[i + 1 + |p|..i + 2 + |p|][0];
    Symbol(s, i, '(');
    PrintLexemes(t, s, i + 1);
    Symbol(s, i + 1 + |p|, ')');
  }

  // Parsing what was printed gives the same command back.
  lemma ParsePrint(t: Tree)
    requires Legal(t)
    ensures ParseCmd(Print(t)).Ok? && Text(Print(t), ParseCmd(Print(t)).value) == t
  {
    hide ParseCmd, Text, Print, Printed, LineLexemes, Legal, Spells, Fits, LineMeans;
    var s := Print(t);
    assert s[0..|s|] == s;
    PrintLexemes(t, s, 0);
    AtEnd(s, |s|);
    assert LineLexemes(Printed(t)) + [] == LineLexemes(Printed(t));
    SpellsExactly(s, 0, LineLexemes(Printed(t)));
    PrintedMeans(t);
    ParseSpelled(s, Printed(t));
  }
}
