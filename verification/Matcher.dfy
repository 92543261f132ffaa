// The regular-expression matcher of grep.c against the language of the
// expression. Strings hold no NUL: the end of the sequence is the end.
module Matcher {
  datatype Item = One(c: char) | Star(c: char) | End

  // The reading of an expression: c*, a final $, and single characters.
  function Items(re: string): (r: seq<Item>) {
    if re == "" then []
    else if |re| > 1 && re[1] == '*' then [Star(re[0])] + Items(re[2..])
    else if re == "$" then [End]
    else [One(re[0])] + Items(re[1..])
  }

  predicate Fits(c: char, x: char) { c == '.' || c == x }

  // The strings an item stands for; rest is the text that follows.
  predicate Denotes(item: Item, s: string, rest: string) {
    match item
    case One(c) => |s| == 1 && Fits(c, s[0])
    case Star(c) => forall k :: 0 <= k < |s| ==> Fits(c, s[k])
    case End => s == "" && rest == ""
  }

  function Concat(pieces: seq<string>): string {
    if pieces == [] then "" else pieces[0] + Concat(pieces[1..])
  }

  // pieces cut w, a start of text, into what the items stand for.
  ghost predicate Cuts(items: seq<Item>, pieces: seq<string>, text: string) {
    && |pieces| == |items| && Concat(pieces) <= text
    && forall k :: 0 <= k < |items| ==> Denotes(items[k], pieces[k], text[|Concat(pieces)|..])
  }

  // Some start of text is in the language of re.
  ghost predicate Here(re: string, text: string) { exists pieces :: Cuts(Items(re), pieces, text) }

  // Some substring of text is, at the start if re begins with ^.
  ghost predicate Somewhere(re: string, text: string) {
    if re != "" && re[0] == '^' then Here(re[1..], text)
    else exists i :: 0 <= i <= |text| && Here(re, text[i..])
  }

  lemma CutFirst(items: seq<Item>, pieces: seq<string>, text: string)
    requires |items| > 0 && Cuts(items, pieces, text)
    ensures pieces[0] <= text && Cuts(items[1..], pieces[1..], text[|pieces[0]|..])
  {
    var n, w := |pieces[0]|, Concat(pieces);
    assert w == pieces[0] + Concat(pieces[1..]);
    assert text == w + text[|w|..];
    assert text[n..] == Concat(pieces[1..]) + text[|w|..];
    assert text[n..][|Concat(pieces[1..])|..] == text[|w|..];
  }

  lemma CutJoin(item: Item, items: seq<Item>, s: string, pieces: seq<string>, text: string)
    requires s <= text && Cuts(items, pieces, text[|s|..])
    requires Denotes(item, s, text[|s|..][|Concat(pieces)|..])
    ensures Cuts([item] + items, [s] + pieces, text)
  {
    var all := [s] + pieces;
    assert all[1..] == pieces;
    assert Concat(all) == s + Concat(pieces);
    assert text == s + text[|s|..];
    assert text[|Concat(all)|..] == text[|s|..][|Concat(pieces)|..];
    forall k | 0 <= k < |all|
      ensures Denotes(([item] + items)[k], all[k], text[|Concat(all)|..])
    {
      if k > 0 {
        assert ([item] + items)[k] == items[k - 1] && all[k] == pieces[k - 1];
      }
    }
  }

  lemma HereEmpty(text: string)
    ensures Here("", text)
  {
    assert Cuts(Items(""), [], text);
  }

  lemma HereEnd(text: string)
    ensures Here("$", text) <==> text == ""
  {
    if Here("$", text) {
      var pieces :| Cuts(Items("$"), pieces, text);
      CutFirst(Items("$"), pieces, text);
      assert pieces[1..] == [];
    } else if text == "" {
      assert Concat([""]) == "" + Concat([""][1..]);
      assert Cuts(Items("$"), [""], text);
    }
  }

  lemma HereOne(re: string, text: string)
    requires re != "" && !(|re| > 1 && re[1] == '*') && re != "$"
    ensures Here(re, text) <==> text != "" && Fits(re[0], text[0]) && Here(re[1..], text[1..])
  {
    var items := Items(re);
    assert items == [One(re[0])] + Items(re[1..]) && items[1..] == Items(re[1..]);
    if Here(re, text) {
      var pieces :| Cuts(items, pieces, text);
      CutFirst(items, pieces, text);
      assert Denotes(items[0], pieces[0], text[|Concat(pieces)|..]);
      assert Cuts(Items(re[1..]), pieces[1..], text[1..]);
    }
    if text != "" && Fits(re[0], text[0]) && Here(re[1..], text[1..]) {
      var pieces :| Cuts(Items(re[1..]), pieces, text[1..]);
      CutJoin(One(re[0]), Items(re[1..]), text[..1], pieces, text);
    }
  }

  // c* takes k characters, and the rest of the expression goes on from there.
  ghost predicate Starred(c: char, re: string, text: string, k: nat) {
    k <= |text| && (forall m :: 0 <= m < k ==> Fits(c, text[m])) && Here(re, text[k..])
  }

  lemma HereStar(re: string, text: string)
    requires |re| > 1 && re[1] == '*'
    ensures Here(re, text) <==> exists k :: Starred(re[0], re[2..], text, k)
  {
    var items := Items(re);
    assert items == [Star(re[0])] + Items(re[2..]) && items[1..] == Items(re[2..]);
    if Here(re, text) {
      var pieces :| Cuts(items, pieces, text);
      CutFirst(items, pieces, text);
      assert Denotes(items[0], pieces[0], text[|Concat(pieces)|..]);
      var k := |pieces[0]|;
      assert Cuts(Items(re[2..]), pieces[1..], text[k..]);
      assert Starred(re[0], re[2..], text, k);
    }
    if k: nat :| Starred(re[0], re[2..], text, k) {
      var pieces :| Cuts(Items(re[2..]), pieces, text[k..]);
      CutJoin(Star(re[0]), Items(re[2..]), text[..k], pieces, text);
    }
  }

  // No star, and no $ that ends the expression.
  predicate StarFree(re: string) {
    (forall k :: 0 < k < |re| ==> re[k] != '*') && (re != "" ==> re[|re| - 1] != '$')
  }

  ghost predicate StandsFirst(re: string, text: string) {
    |re| <= |text| && forall k :: 0 <= k < |re| ==> re[k] == '.' || re[k] == text[k]
  }

  // Without a star the language is what one reads: each character, or any for a
  // dot, and with a final $ nothing after them.
  lemma {:induction false} StarFreeHere(re: string, text: string)
    requires StarFree(re)
    ensures Here(re, text) <==> StandsFirst(re, text)
    ensures Here(re + "$", text) <==> StandsFirst(re, text) && |text| == |re|
    decreases |re|
  {
    hide Here;
    if re == "" {
      HereEmpty(text);
      assert re + "$" == "$";
      HereEnd(text);
    } else {
      HereOne(re, text);
      assert (re + "$")[1..] == re[1..] + "$";
      HereOne(re + "$", text);
      if text != "" {
        StarFreeHere(re[1..], text[1..]);
        assert StandsFirst(re, text) <==> Fits(re[0], text[0]) && StandsFirst(re[1..], text[1..]) by {
          FirstStands(re, text);
        }
      }
    }
  }

  lemma FirstStands(re: string, text: string)
    requires re != "" && text != ""
    ensures StandsFirst(re, text) <==> Fits(re[0], text[0]) && StandsFirst(re[1..], text[1..])
  {
    if StandsFirst(re[1..], text[1..]) && Fits(re[0], text[0]) {
      forall k | 0 <= k < |re|
        ensures re[k] == '.' || re[k] == text[k]
      {
        if k > 0 {
          assert re[k] == re[1..][k - 1] && text[k] == text[1..][k - 1];
        }
      }
    }
  }

  method MatchHere(re: string, text: string) returns (r: bool)
    ensures r <==> Here(re, text)
    decreases |re|, 0
  {
    if re == "" {
      HereEmpty(text);
      return true;
    }
    if |re| > 1 && re[1] == '*' {
      HereStar(re, text);
      r := MatchStar(re[0], re[2..], text);
      return;
    }
    if re == "$" {
      HereEnd(text);
      return text == "";
    }
    HereOne(re, text);
    if text != "" && (re[0] == '.' || re[0] == text[0]) {
      r := MatchHere(re[1..], text[1..]);
      return;
    }
    return false;
  }

  // The loop of matchstar; t is how far text was advanced.
  method MatchStar(c: char, re: string, text: string) returns (r: bool)
    ensures r <==> exists k :: Starred(c, re, text, k)
    decreases |re|, 1
  {
    hide Here;
    var t := 0;
    while true
      invariant 0 <= t <= |text| && forall m :: 0 <= m < t ==> Fits(c, text[m])
      invariant forall k :: 0 <= k < t ==> !Here(re, text[k..])
      decreases |text| - t
    {
      r := MatchHere(re, text[t..]);
      if r {
        assert Starred(c, re, text, t);
        return;
      }
      if t == |text| || !(text[t] == c || c == '.') {
        return false;
      }
      t := t + 1;
    }
  }

  method Match(re: string, text: string) returns (r: bool)
    ensures r <==> Somewhere(re, text)
  {
    hide Here;
    if re != "" && re[0] == '^' {
      r := MatchHere(re[1..], text);
      return;
    }
    var t := 0;
    while true
      invariant 0 <= t <= |text| && forall k :: 0 <= k < t ==> !Here(re, text[k..])
      decreases |text| - t
    {
      r := MatchHere(re, text[t..]);
      if r {
        return;
      }
      if t == |text| {
        return false;
      }
      t := t + 1;
    }
  }
}
