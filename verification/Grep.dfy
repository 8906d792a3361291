/** grep.c's regular expression matcher, from The Practice of Programming,
    chapter 9, against a declarative meaning of its patterns.

    A C string is its characters before the terminating NUL, so reading at its
    length gives NUL; a pointer into it is a suffix. */
module Grep {
  const NUL: char := '\0'

  function At(s: string, i: nat): char {
    if i < |s| then s[i] else NUL
  }

  // ---- what patterns mean ----

  datatype Item =
    | One(c: char)   // c, or any character if c is '.'
    | Many(c: char)  // any number of those

  datatype Pattern = Pattern(items: seq<Item>, toEnd: bool) {
    function Before(item: Item): Pattern { Pattern([item] + items, toEnd) }
  }

  // c* binds first, and $ is an anchor only as the last character.
  function Parse(re: string): Pattern {
    if re == [] then Pattern([], false)
    else if |re| >= 2 && re[1] == '*' then Parse(re[2..]).Before(Many(re[0]))
    else if re == "$" then Pattern([], true)
    else Parse(re[1..]).Before(One(re[0]))
  }

  predicate Accepts(c: char, t: char) {
    c == '.' || c == t
  }

  ghost predicate Instance(item: Item, u: string) {
    match item
    case One(c) => |u| == 1 && Accepts(c, u[0])
    case Many(c) => forall i :: 0 <= i < |u| ==> Accepts(c, u[i])
  }

  function Concat(pieces: seq<string>): string {
    if pieces == [] then [] else pieces[0] + Concat(pieces[1..])
  }

  // pieces are instances of the items that stand at the start of the text, and
  // make up all of it if the pattern is anchored to the end.
  ghost predicate Witness(p: Pattern, pieces: seq<string>, text: string) {
    && |pieces| == |p.items|
    && (forall i :: 0 <= i < |pieces| ==> Instance(p.items[i], pieces[i]))
    && Concat(pieces) <= text
    && (p.toEnd ==> Concat(pieces) == text)
  }

  ghost predicate Fits(p: Pattern, text: string) {
    exists pieces :: Witness(p, pieces, text)
  }

  ghost predicate MatchesHere(re: string, text: string) {
    Fits(Parse(re), text)
  }

  // What grep promises: ^ anchors the pattern to the start of the text, any
  // other pattern may match from any position on, the end included.
  ghost predicate Matches(re: string, text: string) {
    if re != [] && re[0] == '^' then MatchesHere(re[1..], text)
    else exists k :: 0 <= k <= |text| && MatchesHere(re, text[k..])
  }

  ghost predicate Starred(c: char, re: string, text: string, k: int) {
    0 <= k <= |text| && (forall i :: 0 <= i < k ==> Accepts(c, text[i])) && MatchesHere(re, text[k..])
  }

  // ---- the meaning, item by item ----

  // The first k characters are an instance of the item, and p fits what follows.
  ghost predicate SplitAt(item: Item, p: Pattern, text: string, k: int) {
    0 <= k <= |text| && Instance(item, text[..k]) && Fits(p, text[k..])
  }

  lemma FirstPiece(item: Item, p: Pattern, text: string, pieces: seq<string>)
    requires Witness(p.Before(item), pieces, text)
    ensures |pieces| > 0 && SplitAt(item, p, text, |pieces[0]|)
  {
    var k := |pieces[0]|;
    assert text[..k] == pieces[0];
    assert Concat(pieces) == pieces[0] + Concat(pieces[1..]);
    assert forall i :: 0 <= i < |p.items| ==>
      p.Before(item).items[i + 1] == p.items[i] && pieces[1..][i] == pieces[i + 1];
    assert Witness(p, pieces[1..], text[k..]);
  }

  lemma FirstItem(item: Item, p: Pattern, text: string)
    ensures Fits(p.Before(item), text) <==> exists k :: SplitAt(item, p, text, k)
  {
    if pieces :| Witness(p.Before(item), pieces, text) {
      FirstPiece(item, p, text, pieces);
    }
    if k :| SplitAt(item, p, text, k) {
      var rest :| Witness(p, rest, text[k..]);
      var pieces := [text[..k]] + rest;
      assert pieces[1..] == rest;
      assert Witness(p.Before(item), pieces, text);
    }
  }

  lemma EmptyPattern(text: string)
    ensures MatchesHere("", text) && (MatchesHere("$", text) <==> text == [])
  {
    assert Witness(Parse(""), [], text);
    if text == [] { assert Witness(Parse("$"), [], text); }
  }

  lemma StarItem(re: string, text: string)
    requires |re| >= 2 && re[1] == '*'
    ensures MatchesHere(re, text) <==> exists k :: Starred(re[0], re[2..], text, k)
  {
    var item, p := Many(re[0]), Parse(re[2..]);
    FirstItem(item, p, text);
    forall k | 0 <= k <= |text| ensures SplitAt(item, p, text, k) <==> Starred(re[0], re[2..], text, k) {
      assert forall i :: 0 <= i < k ==> text[..k][i] == text[i];
    }
    if k :| SplitAt(item, p, text, k) { assert Starred(re[0], re[2..], text, k); }
    if k :| Starred(re[0], re[2..], text, k) { assert SplitAt(item, p, text, k); }
  }

  lemma OneItem(re: string, text: string)
    requires re != [] && !(|re| >= 2 && re[1] == '*') && re != "$"
    ensures MatchesHere(re, text) <==> text != [] && Accepts(re[0], text[0]) && MatchesHere(re[1..], text[1..])
  {
    var item, p := One(re[0]), Parse(re[1..]);
    FirstItem(item, p, text);
    if k :| SplitAt(item, p, text, k) { assert k == 1; }
    if text != [] && Accepts(re[0], text[0]) && MatchesHere(re[1..], text[1..]) {
      assert SplitAt(item, p, text, 1);
    }
  }

  // ---- grep.c ----

  // search for re at the beginning of text
  method MatchHere(re: string, text: string) returns (r: bool)
    requires NUL !in re && NUL !in text
    ensures r <==> MatchesHere(re, text)
    decreases |re|, 0
  {
    EmptyPattern(text);
    if At(re, 0) == NUL {
      return true;
    }
    if At(re, 1) == '*' {
      StarItem(re, text);
      r := MatchStar(re[0], re[2..], text);
      return r;
    }
    if At(re, 0) == '$' && At(re, 1) == NUL {
      assert re == "$";
      return At(text, 0) == NUL;
    }
    OneItem(re, text);
    if At(text, 0) != NUL && (At(re, 0) == '.' || At(re, 0) == At(text, 0)) {
      r := MatchHere(re[1..], text[1..]);
      return r;
    }
    return false;
  }

  // search for c*re at the beginning of text
  method MatchStar(c: char, re: string, text: string) returns (r: bool)
    requires NUL !in re && NUL !in text
    ensures r <==> exists k :: Starred(c, re, text, k)
    decreases |re|, 1
  {
    var k := 0;
    while true
      invariant 0 <= k <= |text|
      invariant forall i :: 0 <= i < k ==> Accepts(c, text[i]) && !MatchesHere(re, text[i..])
      decreases |text| - k
    {
      r := MatchHere(re, text[k..]);
      if r {
        assert Starred(c, re, text, k);
        return true;
      }
      if At(text, k) != NUL && (At(text, k) == c || c == '.') {
        k := k + 1;
      } else {
        return false;
      }
    }
  }

  /** match: the pattern's meaning, for every pattern and every text. */
  method Match(re: string, text: string) returns (r: bool)
    requires NUL !in re && NUL !in text
    ensures r <==> Matches(re, text)
  {
    if At(re, 0) == '^' {
      r := MatchHere(re[1..], text);
      return r;
    }
    var k := 0;
    while true
      invariant 0 <= k <= |text|
      invariant forall i :: 0 <= i < k ==> !MatchesHere(re, text[i..])
      decreases |text| - k
    {
      r := MatchHere(re, text[k..]);
      if r {
        return true;
      }
      if At(text, k) == NUL {
        return false;
      }
      k := k + 1;
    }
  }
}
