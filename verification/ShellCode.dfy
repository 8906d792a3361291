/** The shell's parser (sh.c): a recursive descent over a cursor, proved equal to the
    functions of module ShellGrammar, and the termination of its strings in place. */
module ShellCode {
  import opened ShellLex
  import opened ShellGrammar

  // gettoken from cursor ps: its kind, its text q to eq, and the new cursor s.
  method Gettoken(text: string, ps: nat) returns (ret: char, q: nat, eq: nat, s: nat)
    requires Line(text) && ps <= |text|
    ensures q == Next(text, ps) && eq == TokEnd(text, q) && s == After(text, ps)
    ensures ret == Peek(text, ps)
    ensures ps <= q <= eq <= s <= |text|
    ensures forall i :: ps <= i < q || eq <= i < s ==> Ws(text[i])
    ensures ret == NUL ==> q == eq == |text|
    ensures ret != NUL && ret != '+' && ret != 'a' ==> text[q..eq] == [ret] && Symbol(ret)
    ensures ret == '+' <==> text[q..eq] == ">>"
    ensures ret == '>' ==> At(text, eq) != '>'
    ensures ret == 'a' ==> q < eq && (forall i :: q <= i < eq ==> WordChar(text[i])) && !WordChar(At(text, eq))
  {
    s := SkipWs(text, ps);
    q := s;
    var c := At(text, s);
    ret := c;
    if c == NUL {
    } else if c == '|' || c == '(' || c == ')' || c == ';' || c == '&' || c == '<' {
      s := s + 1;
    } else if c == '>' {
      s := s + 1;
      if At(text, s) == '>' {
        ret := '+';
        s := s + 1;
      }
    } else {
      ret := 'a';
      while s < |text| && !Ws(text[s]) && !Symbol(text[s])
        invariant q <= s <= |text| && WordEnd(text, s) == WordEnd(text, q)
      {
        assert text[s] in text;
        s := s + 1;
      }
      assert s < |text| ==> !WordChar(text[s]);
    }
    eq := s;
    s := SkipWs(text, s);
  }

  method SkipWs(text: string, ps: nat) returns (s: nat)
    requires ps <= |text|
    ensures s == Next(text, ps)
  {
    s := ps;
    while s < |text| && Ws(text[s])
      invariant ps <= s <= |text| && Next(text, s) == Next(text, ps)
    {
      s := s + 1;
    }
  }

  // peek: skip whitespace and look for one of toks.
  method PeekFor(text: string, ps: nat, toks: string) returns (found: bool, s: nat)
    requires Line(text) && ps <= |text|
    ensures s == Next(text, ps) && (found <==> OneOf(At(text, s), toks))
  {
    s := SkipWs(text, ps);
    found := At(text, s) != NUL && At(text, s) in toks;
  }

  predicate OneOf(c: char, toks: string) {
    c != NUL && c in toks
  }

  // What peek finds is the kind of the next token.
  lemma PeekIsKind(text: string, s: nat)
    requires Line(text) && s <= |text|
    ensures OneOf(At(text, Next(text, s)), "&") <==> Peek(text, s) == '&'
    ensures OneOf(At(text, Next(text, s)), ";") <==> Peek(text, s) == ';'
    ensures OneOf(At(text, Next(text, s)), "|") <==> Peek(text, s) == '|'
    ensures OneOf(At(text, Next(text, s)), "(") <==> Peek(text, s) == '('
    ensures OneOf(At(text, Next(text, s)), ")") <==> Peek(text, s) == ')'
    ensures OneOf(At(text, Next(text, s)), "<>") <==> RedirKind(Peek(text, s))
    ensures OneOf(At(text, Next(text, s)), "|)&;") <==> Stops(Peek(text, s))
  {
  }

  predicate Stops(k: char) {
    k == '|' || k == ')' || k == '&' || k == ';'
  }

  // parseline's loop over ampersands
  method ReadBacks(text: string, c: Cmd, ps: nat) returns (cmd: Cmd, s: nat)
    requires Line(text) && ps <= |text|
    ensures Ok(cmd, s) == ParseBacks(text, c, ps)
  {
    cmd := c;
    PeekIsKind(text, ps);
    AtNext(text, ps);
    var found;
    found, s := PeekFor(text, ps, "&");
    while found
      invariant ps <= s <= |text| && s == Next(text, s) && (found <==> Peek(text, s) == '&')
      invariant ParseBacks(text, cmd, s) == ParseBacks(text, c, ps)
      decreases |text| - s
    {
      var ret, q, eq, s1 := Gettoken(text, s);
      cmd := Back(cmd);
      PeekIsKind(text, s1);
      found, s := PeekFor(text, s1, "&");
    }
  }

  // parseline
  method Parseline(text: string, ps: nat) returns (r: Parse)
    requires Line(text) && ps <= |text|
    ensures r == ParseLine(text, ps)
    decreases |text| - ps, 5
  {
    r := Parsepipe(text, ps);
    if r.Err? { return; }
    var cmd, s := ReadBacks(text, r.c, r.s);
    PeekIsKind(text, s);
    var found, s1 := PeekFor(text, s, ";");
    if found {
      var ret, q, eq, s2 := Gettoken(text, s1);
      var rest := Parseline(text, s2);
      return if rest.Err? then Err else Ok(List(cmd, rest.c), rest.s);
    }
    return Ok(cmd, s1);
  }

  // parsepipe
  method Parsepipe(text: string, ps: nat) returns (r: Parse)
    requires Line(text) && ps <= |text|
    ensures r == ParsePipe(text, ps)
    decreases |text| - ps, 3
  {
    r := Parseexec(text, ps);
    if r.Err? { return; }
    PeekIsKind(text, r.s);
    var found, s := PeekFor(text, r.s, "|");
    if found {
      var ret, q, eq, s1 := Gettoken(text, s);
      var rest := Parsepipe(text, s1);
      return if rest.Err? then Err else Ok(Pipe(r.c, rest.c), rest.s);
    }
    return Ok(r.c, s);
  }

  // The body of parseredirs' loop: a redirection symbol and its file.
  method ReadRedir(text: string, c: Cmd, ps: nat) returns (r: Parse)
    requires Line(text) && ps <= |text| && RedirKind(Peek(text, ps))
    ensures r == if Peek(text, After(text, ps)) != 'a' then Err
      else Ok(RedirOf(text, c, ps), After(text, After(text, ps)))
  {
    var tok, q0, eq0, s := Gettoken(text, ps);
    var ret, q, eq, s1 := Gettoken(text, s);
    if ret != 'a' { return Err; }
    if tok == '<' {
      return Ok(Redir(c, Span(q, eq), O_RDONLY, 0), s1);
    } else {
      return Ok(Redir(c, Span(q, eq), O_WRONLY_CREATE, 1), s1);
    }
  }

  // parseredirs
  method Parseredirs(text: string, c: Cmd, ps: nat) returns (r: Parse)
    requires Line(text) && ps <= |text|
    ensures r == ParseRedirs(text, c, ps)
  {
    var cmd := c;
    PeekIsKind(text, ps);
    AtNext(text, ps);
    var found, s := PeekFor(text, ps, "<>");
    while found
      invariant ps <= s <= |text| && s == Next(text, s) && (found <==> RedirKind(Peek(text, s)))
      invariant ParseRedirs(text, cmd, s) == ParseRedirs(text, c, ps)
      decreases |text| - s
    {
      r := ReadRedir(text, cmd, s);
      if r.Err? { return; }
      cmd := r.c;
      PeekIsKind(text, r.s);
      found, s := PeekFor(text, r.s, "<>");
    }
    return Ok(cmd, s);
  }

  // parseblock
  method Parseblock(text: string, ps: nat) returns (r: Parse)
    requires Line(text) && ps <= |text|
    ensures r == ParseBlock(text, ps)
    decreases |text| - ps, 1
  {
    PeekIsKind(text, ps);
    AtNext(text, ps);
    var found, s := PeekFor(text, ps, "(");
    if !found { return Err; }
    var ret, q, eq, s1 := Gettoken(text, s);
    r := Parseline(text, s1);
    if r.Err? { return; }
    PeekIsKind(text, r.s);
    var s2;
    found, s2 := PeekFor(text, r.s, ")");
    if !found { return Err; }
    var s3;
    ret, q, eq, s3 := Gettoken(text, s2);
    r := Parseredirs(text, r.c, s3);
  }

  // Redirections read first are redirections read among words.
  lemma {:induction false} RedirsAreItems(text: string, c: Cmd, s: nat)
    requires Line(text) && s <= |text| && IsChain(c)
    ensures var r := ParseRedirs(text, c, s);
      if r.Err? then ParseItems(text, c, s) == Err
      else
        && ParseItems(text, r.c, r.s) == ParseItems(text, c, s) && IsChain(r.c) && Args(r.c) == Args(c)
        && !RedirKind(Peek(text, r.s))
    decreases |text| - s
  {
    if RedirKind(Peek(text, s)) {
      if Peek(text, After(text, s)) == 'a' {
        RedirsAreItems(text, RedirOf(text, c, s), After(text, After(text, s)));
      }
    } else {
      AtNext(text, s);
    }
  }

  // The body of parseexec's loop after gettoken read the word at ps: store it, then
  // read redirections.
  method AddArg(text: string, c: Cmd, argc: nat, q: nat, eq: nat, s: nat, ghost ps: nat) returns (r: Parse)
    requires Line(text) && ps <= |text| && Peek(text, ps) == 'a' && IsChain(c) && argc == |Args(c)|
    requires Span(q, eq) == WordOf(text, ps) && s == After(text, ps)
    ensures r.Ok? ==> ps < r.s <= |text| && r.s == Next(text, r.s) && IsChain(r.c) && |Args(r.c)| == argc + 1
    ensures r.Ok? ==> !RedirKind(Peek(text, r.s))
    ensures ParseItems(text, c, ps) == if r.Ok? then ParseItems(text, r.c, r.s) else Err
  {
    ArgAdded(c, Span(q, eq));
    var cmd := WithArg(c, Span(q, eq));
    if argc + 1 >= MAXARGS { return Err; }
    RedirsAreItems(text, cmd, s);
    r := Parseredirs(text, cmd, s);
  }

  // parseexec on a simple command
  method ReadSimple(text: string, ps: nat) returns (r: Parse)
    requires Line(text) && ps <= |text| && ps == Next(text, ps)
    ensures r == ParseItems(text, Exec([]), ps)
  {
    var argc := 0;
    RedirsAreItems(text, Exec([]), ps);
    r := Parseredirs(text, Exec([]), ps);
    if r.Err? { return; }
    PeekIsKind(text, r.s);
    var found, s := PeekFor(text, r.s, "|)&;");
    while !found
      invariant r.Ok? && ps <= s <= |text| && s == r.s == Next(text, s) && (found <==> Stops(Peek(text, s)))
      invariant IsChain(r.c) && argc == |Args(r.c)| && !RedirKind(Peek(text, s))
      invariant ParseItems(text, r.c, s) == ParseItems(text, Exec([]), ps)
      decreases |text| - s
    {
      var tok, q, eq, s1 := Gettoken(text, s);
      if tok == NUL { break; }
      if tok != 'a' { return Err; }
      r := AddArg(text, r.c, argc, q, eq, s1, s);
      argc := argc + 1;
      if r.Err? { return; }
      PeekIsKind(text, r.s);
      found, s := PeekFor(text, r.s, "|)&;");
    }
    return Ok(r.c, s);
  }

  // parseexec
  method Parseexec(text: string, ps: nat) returns (r: Parse)
    requires Line(text) && ps <= |text|
    ensures r == ParseExec(text, ps)
    decreases |text| - ps, 2
  {
    PeekIsKind(text, ps);
    AtNext(text, ps);
    var found, s := PeekFor(text, ps, "(");
    if found {
      r := Parseblock(text, ps);
    } else {
      r := ReadSimple(text, s);
    }
  }

  // ---- termination in place ----

  // Position i is the end of a word of c.
  ghost predicate IsEnd(c: Cmd, i: nat) {
    exists w :: w in WordsOf(c) && w.eq == i
  }

  ghost predicate EndsBelow(c: Cmd, n: nat) {
    forall w :: w in WordsOf(c) ==> w.eq < n
  }

  ghost predicate ArgEnds(args: seq<Span>, n: nat, i: nat)
    requires n <= |args|
  {
    exists k :: 0 <= k < n && args[k].eq == i
  }

  // The same, by the parts of c.
  ghost predicate EndsIn(c: Cmd, i: nat) {
    match c
    case Exec(args) => ArgEnds(args, |args|, i)
    case Redir(cmd, file, _, _) => IsEnd(cmd, i) || file.eq == i
    case Pipe(left, right) => IsEnd(left, i) || IsEnd(right, i)
    case List(left, right) => IsEnd(left, i) || IsEnd(right, i)
    case Back(cmd) => IsEnd(cmd, i)
  }

  lemma EndsOf(c: Cmd, i: nat)
    ensures IsEnd(c, i) <==> EndsIn(c, i)
  {
    if c.Redir? { assert c.file in WordsOf(c); }
  }

  lemma PartsBelow(c: Cmd, n: nat)
    requires EndsBelow(c, n)
    ensures match c
      case Exec(args) => forall k :: 0 <= k < |args| ==> args[k].eq < n
      case Redir(cmd, file, _, _) => EndsBelow(cmd, n) && file.eq < n
      case Pipe(left, right) => EndsBelow(left, n) && EndsBelow(right, n)
      case List(left, right) => EndsBelow(left, n) && EndsBelow(right, n)
      case Back(cmd) => EndsBelow(cmd, n)
  {
    if c.Redir? { assert c.file in WordsOf(c); }
  }

  // nulterminate: a NUL at the end of every word of the tree, and nowhere else.
  method Nulterminate(buf: array<char>, c: Cmd)
    requires EndsBelow(c, buf.Length)
    modifies buf
    ensures forall i :: 0 <= i < buf.Length ==> buf[i] == if IsEnd(c, i) then NUL else old(buf[i])
    decreases c
  {
    PartsBelow(c, buf.Length);
    match c
    case Exec(args) => TerminateArgs(buf, args);
    case Redir(cmd, file, mode, fd) =>
      Nulterminate(buf, cmd);
      buf[file.eq] := NUL;
    case Pipe(left, right) =>
      Nulterminate(buf, left);
      Nulterminate(buf, right);
    case List(left, right) =>
      Nulterminate(buf, left);
      Nulterminate(buf, right);
    case Back(cmd) => Nulterminate(buf, cmd);
    forall i | 0 <= i < buf.Length ensures buf[i] == if IsEnd(c, i) then NUL else old(buf[i]) {
      EndsOf(c, i);
    }
  }

  method TerminateArgs(buf: array<char>, args: seq<Span>)
    requires forall k :: 0 <= k < |args| ==> args[k].eq < buf.Length
    modifies buf
    ensures forall i :: 0 <= i < buf.Length ==> buf[i] == if ArgEnds(args, |args|, i) then NUL else old(buf[i])
  {
    var i := 0;
    while i < |args|
      invariant 0 <= i <= |args|
      invariant forall j :: 0 <= j < buf.Length ==> buf[j] == if ArgEnds(args, i, j) then NUL else old(buf[j])
    {
      buf[args[i].eq] := NUL;
      i := i + 1;
    }
  }

  // The C string at q.
  function CString(b: seq<char>, q: nat): string
    decreases |b| - q
  {
    if q >= |b| || b[q] == NUL then [] else [b[q]] + CString(b, q + 1)
  }

  lemma {:induction false} CStringIs(b: seq<char>, q: nat, e: nat)
    requires q <= e < |b| && b[e] == NUL && forall i :: q <= i < e ==> b[i] != NUL
    ensures CString(b, q) == b[q..e]
    decreases e - q
  {
    if q < e { CStringIs(b, q + 1, e); }
  }

  // No word ends inside another.
  lemma EndIsOutside(text: string, v: Span, w: Span, i: nat)
    requires IsWord(text, v) && IsWord(text, w) && w.q <= i < w.eq
    ensures v.eq != i
  {
    assert WordChar(text[i]) && text[i] == At(text, i);
  }

  ghost predicate AllWords(text: string, c: Cmd) {
    forall v :: v in WordsOf(c) ==> IsWord(text, v)
  }

  lemma InsideStays(text: string, c: Cmd, w: Span, i: nat)
    requires AllWords(text, c) && IsWord(text, w) && w.q <= i < w.eq
    ensures !IsEnd(c, i) && At(text, i) == text[i] != NUL
  {
    forall v | v in WordsOf(c) ensures v.eq != i {
      EndIsOutside(text, v, w, i);
    }
    assert WordChar(text[i]);
  }

  // b is the line with a NUL at the end of every word of c.
  ghost predicate Terminated(text: string, b: seq<char>, c: Cmd) {
    |b| > |text| && forall i: nat :: i <= |text| ==> b[i] == if IsEnd(c, i) then NUL else At(text, i)
  }

  /** After nulterminate a word of the line reads back as its own text, whatever words the
      tree has: no NUL lands inside a word. */
  lemma WordReadsBack(text: string, b: seq<char>, c: Cmd, w: Span)
    requires AllWords(text, c) && w in WordsOf(c) && IsWord(text, w) && Terminated(text, b, c)
    ensures CString(b, w.q) == WordText(text, w)
  {
    forall i: nat | w.q <= i < w.eq ensures b[i] == text[i] && b[i] != NUL {
      InsideStays(text, c, w, i);
    }
    assert IsEnd(c, w.eq);
    CStringIs(b, w.q, w.eq);
    assert b[w.q..w.eq] == text[w.q..w.eq];
  }

  method Strlen(buf: array<char>) returns (n: nat)
    requires NUL in buf[..]
    ensures n < buf.Length && buf[n] == NUL && Line(buf[..n])
  {
    n := 0;
    while buf[n] != NUL
      invariant n < buf.Length && NUL !in buf[..n] && NUL in buf[n..]
      decreases buf.Length - n
    {
      n := n + 1;
    }
  }

  // nulterminate on the tree of the line.
  method TerminateLine(buf: array<char>, text: string, c: Cmd)
    requires |text| < buf.Length && buf[..|text|] == text && buf[|text|] == NUL && AllWords(text, c)
    modifies buf
    ensures Terminated(text, buf[..], c)
  {
    forall w | w in WordsOf(c) ensures w.eq < buf.Length { assert IsWord(text, w); }
    ghost var b := buf[..];
    assert forall i: nat :: i <= |text| ==> b[i] == At(text, i);
    Nulterminate(buf, c);
  }

  // parsecmd: the tree of the line in buf, or a panic.
  method Parsecmd(buf: array<char>) returns (ok: bool, c: Cmd, ghost n: nat)
    requires NUL in buf[..]
    modifies buf
    ensures n < buf.Length && old(buf[n]) == NUL && Line(old(buf[..n]))
    ensures ok <==> ParseCmd(old(buf[..n])).Ok?
    ensures !ok ==> buf[..] == old(buf[..])
    ensures ok ==> ParseCmd(old(buf[..n])) == Ok(c, n)
    ensures ok ==> forall w :: w in WordsOf(c) ==>
      IsWord(old(buf[..n]), w) && CString(buf[..], w.q) == WordText(old(buf[..n]), w)
  {
    var es := Strlen(buf);
    n := es;
    var text := buf[..es];
    var r := Parseline(text, 0);
    if r.Err? { return false, Exec([]), n; }
    var found, s := PeekFor(text, r.s, "");
    if s != es { return false, Exec([]), n; }
    c := r.c;
    ParseKeepsWords(text, c);
    TerminateLine(buf, text, c);
    forall w | w in WordsOf(c) ensures IsWord(text, w) && CString(buf[..], w.q) == WordText(text, w) {
      WordReadsBack(text, buf[..], c, w);
    }
    ok := true;
  }
}
