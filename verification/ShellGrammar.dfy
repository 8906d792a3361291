/** The grammar of the shell's command lines (sh.c), and the parser as functions.  The
    parser accepts exactly the lines the grammar describes, with one tree for each. */
module ShellGrammar {
  import opened ShellLex

  const MAXARGS: nat := 10
  const O_RDONLY: nat := 0
  const O_WRONLY_CREATE: nat := 0x201

  datatype Cmd =
    | Exec(args: seq<Span>)
    | Redir(cmd: Cmd, file: Span, mode: nat, fd: nat)
    | Pipe(left: Cmd, right: Cmd)
    | List(left: Cmd, right: Cmd)
    | Back(cmd: Cmd)

  // The arguments of the simple command under a chain of redirections.
  function Args(c: Cmd): seq<Span> {
    match c
    case Exec(args) => args
    case Redir(cmd, _, _, _) => Args(cmd)
    case _ => []
  }

  function WithArg(c: Cmd, w: Span): Cmd {
    match c
    case Exec(args) => Exec(args + [w])
    case Redir(cmd, file, mode, fd) => Redir(WithArg(cmd, w), file, mode, fd)
    case _ => c
  }

  function WithoutLast(c: Cmd): Cmd
    requires Args(c) != []
  {
    match c
    case Exec(args) => Exec(args[..|args| - 1])
    case Redir(cmd, file, mode, fd) => Redir(WithoutLast(cmd), file, mode, fd)
  }

  // Every simple command has room for the final null pointer.
  predicate Small(c: Cmd) {
    match c
    case Exec(args) => |args| < MAXARGS
    case Redir(cmd, _, _, _) => Small(cmd)
    case Pipe(left, right) => Small(left) && Small(right)
    case List(left, right) => Small(left) && Small(right)
    case Back(cmd) => Small(cmd)
  }

  lemma {:induction false} LastArg(c: Cmd)
    requires Args(c) != []
    ensures WithArg(WithoutLast(c), Args(c)[|Args(c)| - 1]) == c
    ensures Args(WithoutLast(c)) == Args(c)[..|Args(c)| - 1]
    ensures Small(c) ==> Small(WithoutLast(c)) && |Args(c)| < MAXARGS
  {
    if c.Redir? { LastArg(c.cmd); }
  }

  lemma {:induction false} ArgAdded(c: Cmd, w: Span)
    requires IsChain(c)
    ensures Args(WithArg(c, w)) == Args(c) + [w] && WithoutLast(WithArg(c, w)) == c && IsChain(WithArg(c, w))
    ensures Small(c) && |Args(c)| + 1 < MAXARGS ==> Small(WithArg(c, w))
  {
    if c.Redir? { ArgAdded(c.cmd, w); }
  }

  // Redirections around a simple command.
  predicate IsChain(c: Cmd) {
    c.Exec? || (c.Redir? && IsChain(c.cmd))
  }

  // ---- tokens of the grammar ----

  predicate RedirKind(k: char) {
    k == '<' || k == '>' || k == '+'
  }

  // The word that starts at the next token.
  function WordOf(text: string, s: nat): Span
    requires s <= |text|
  {
    Span(Next(text, s), WordEnd(text, Next(text, s)))
  }

  // A redirection symbol and its file from m to b, as c records them.
  predicate RedirAt(text: string, m: nat, b: nat, c: Cmd)
    requires m <= |text|
  {
    && c.Redir? && RedirKind(Peek(text, m)) && Peek(text, After(text, m)) == 'a'
    && c.file == WordOf(text, After(text, m)) && b == After(text, After(text, m))
    && (Peek(text, m) == '<' ==> c.mode == 0 && c.fd == 0)
    && (Peek(text, m) == '>' || Peek(text, m) == '+' ==> c.mode == 0x201 && c.fd == 1)
  }

  // ---- the grammar: text from a to b derives c ----

  // line: backs | backs ; line
  ghost predicate IsLine(text: string, a: nat, b: nat, c: Cmd)
    requires Line(text) && a <= b <= |text|
    decreases b - a, 5
  {
    || IsBacks(text, a, b, c)
    || (c.List? && exists m: nat ::
         ListSplit(text, a, m, b) && IsBacks(text, a, m, c.left) && IsLine(text, After(text, m), b, c.right))
  }

  // backs: pipe | backs &
  ghost predicate IsBacks(text: string, a: nat, b: nat, c: Cmd)
    requires Line(text) && a <= b <= |text|
    decreases b - a, 4
  {
    IsPipe(text, a, b, c) || (c.Back? && exists m: nat :: BackSplit(text, a, m, b) && IsBacks(text, a, m, c.cmd))
  }

  // pipe: exec | exec | pipe
  ghost predicate IsPipe(text: string, a: nat, b: nat, c: Cmd)
    requires Line(text) && a <= b <= |text|
    decreases b - a, 3
  {
    || IsExec(text, a, b, c)
    || (c.Pipe? && exists m: nat ::
         PipeSplit(text, a, m, b) && IsExec(text, a, m, c.left) && IsPipe(text, After(text, m), b, c.right))
  }

  // exec: block | simple
  ghost predicate IsExec(text: string, a: nat, b: nat, c: Cmd)
    requires Line(text) && a <= b <= |text|
    decreases b - a, 2
  {
    IsBlock(text, a, b, c) || IsSimple(text, a, b, c)
  }

  // block: ( line ) | block redir
  ghost predicate IsBlock(text: string, a: nat, b: nat, c: Cmd)
    requires Line(text) && a <= b <= |text|
    decreases b - a, 1
  {
    || (exists m: nat :: BlockSplit(text, a, m, b) && IsLine(text, After(text, a), m, c))
    || (exists m: nat :: RedirSplit(text, a, m, b, c) && IsBlock(text, a, m, c.cmd))
  }

  // simple: nothing | simple redir | simple word
  ghost predicate IsSimple(text: string, a: nat, b: nat, c: Cmd)
    requires Line(text) && a <= b <= |text|
    decreases b - a, 1
  {
    || (c == Exec([]) && b == Next(text, a))
    || (exists m: nat :: RedirSplit(text, a, m, b, c) && IsSimple(text, a, m, c.cmd))
    || (exists m: nat :: WordSplit(text, a, m, b, c) && IsSimple(text, a, m, WithoutLast(c)))
  }

  predicate ListSplit(text: string, a: nat, m: nat, b: nat)
    requires Line(text)
  {
    a <= m <= |text| && Peek(text, m) == ';' && m < After(text, m) <= b
  }

  predicate BackSplit(text: string, a: nat, m: nat, b: nat)
    requires Line(text)
  {
    a <= m <= |text| && Peek(text, m) == '&' && m < After(text, m) == b
  }

  predicate PipeSplit(text: string, a: nat, m: nat, b: nat)
    requires Line(text)
  {
    a <= m <= |text| && Peek(text, m) == '|' && m < After(text, m) <= b
  }

  predicate BlockSplit(text: string, a: nat, m: nat, b: nat)
    requires Line(text)
  {
    a <= m <= |text| && Peek(text, a) == '(' && a < After(text, a) <= m && Peek(text, m) == ')' &&
      m < After(text, m) == b
  }

  predicate RedirSplit(text: string, a: nat, m: nat, b: nat, c: Cmd)
    requires Line(text)
  {
    a <= m <= |text| && m < b && RedirAt(text, m, b, c)
  }

  predicate WordSplit(text: string, a: nat, m: nat, b: nat, c: Cmd)
    requires Line(text)
  {
    && a <= m <= |text| && Peek(text, m) == 'a' && m < After(text, m) == b
    && Args(c) != [] && Args(c)[|Args(c)| - 1] == WordOf(text, m)
  }

  // ---- the parser as functions ----

  datatype Parse = Ok(c: Cmd, s: nat) | Err

  predicate Within(text: string, a: nat, r: Parse) {
    r.Ok? ==> a <= r.s <= |text| && Next(text, r.s) == r.s
  }

  function ParseLine(text: string, a: nat): (r: Parse)
    requires Line(text) && a <= |text|
    ensures Within(text, a, r)
    decreases |text| - a, 5
  {
    var r := ParsePipe(text, a);
    if r.Err? then Err else
      var r1 := ParseBacks(text, r.c, r.s);
      if Peek(text, r1.s) != ';' then r1 else
        var r2 := ParseLine(text, After(text, r1.s));
        if r2.Err? then Err else Ok(List(r1.c, r2.c), r2.s)
  }

  function ParseBacks(text: string, c: Cmd, s: nat): (r: Parse)
    requires Line(text) && s <= |text|
    ensures r.Ok? && Within(text, s, r)
    decreases |text| - s
  {
    if Peek(text, s) == '&' then ParseBacks(text, Back(c), After(text, s)) else Ok(c, Next(text, s))
  }

  function ParsePipe(text: string, a: nat): (r: Parse)
    requires Line(text) && a <= |text|
    ensures Within(text, a, r)
    decreases |text| - a, 3
  {
    var r := ParseExec(text, a);
    if r.Err? then Err
    else if Peek(text, r.s) != '|' then r else
      var r1 := ParsePipe(text, After(text, r.s));
      if r1.Err? then Err else Ok(Pipe(r.c, r1.c), r1.s)
  }

  function ParseExec(text: string, a: nat): (r: Parse)
    requires Line(text) && a <= |text|
    ensures Within(text, a, r)
    decreases |text| - a, 2
  {
    if Peek(text, a) == '(' then ParseBlock(text, a) else ParseItems(text, Exec([]), Next(text, a))
  }

  function ParseBlock(text: string, a: nat): (r: Parse)
    requires Line(text) && a <= |text|
    ensures Within(text, a, r)
    decreases |text| - a, 1
  {
    if Peek(text, a) != '(' then Err else
      var r := ParseLine(text, After(text, a));
      if r.Err? || Peek(text, r.s) != ')' then Err else ParseRedirs(text, r.c, After(text, r.s))
  }

  // The redirection at s, around c.
  function RedirOf(text: string, c: Cmd, s: nat): Cmd
    requires s <= |text|
  {
    if Peek(text, s) == '<' then Redir(c, WordOf(text, After(text, s)), O_RDONLY, 0)
    else Redir(c, WordOf(text, After(text, s)), O_WRONLY_CREATE, 1)
  }

  function ParseRedirs(text: string, c: Cmd, s: nat): (r: Parse)
    requires Line(text) && s <= |text|
    ensures Within(text, s, r)
    decreases |text| - s
  {
    if !RedirKind(Peek(text, s)) then Ok(c, Next(text, s))
    else if Peek(text, After(text, s)) != 'a' then Err
    else ParseRedirs(text, RedirOf(text, c, s), After(text, After(text, s)))
  }

  // Words and redirections in any order, up to a token that is neither.
  function ParseItems(text: string, c: Cmd, s: nat): (r: Parse)
    requires Line(text) && s <= |text|
    ensures Within(text, s, r)
    decreases |text| - s
  {
    var k := Peek(text, s);
    if RedirKind(k) then
      if Peek(text, After(text, s)) != 'a' then Err
      else ParseItems(text, RedirOf(text, c, s), After(text, After(text, s)))
    else if k == 'a' then
      if |Args(c)| + 1 >= MAXARGS then Err else ParseItems(text, WithArg(c, WordOf(text, s)), After(text, s))
    else if k == '(' then Err
    else Ok(c, Next(text, s))
  }

  // The whole line.
  function ParseCmd(text: string): (r: Parse)
    requires Line(text)
  {
    var r := ParseLine(text, 0);
    if r.Err? || r.s != |text| then Err else r
  }

  // ---- every derivation is found ----

  // What can follow a line, a pipe and a command.
  predicate LineEnd(k: char) {
    k == NUL || k == ')'
  }

  predicate PipeEnd(k: char) {
    LineEnd(k) || k == ';' || k == '&'
  }

  predicate ExecEnd(k: char) {
    PipeEnd(k) || k == '|'
  }

  // Skipping whitespace first makes no difference.
  lemma AtNext(text: string, s: nat)
    requires s <= |text|
    ensures Next(text, Next(text, s)) == Next(text, s)
    ensures Peek(text, Next(text, s)) == Peek(text, s) && After(text, Next(text, s)) == After(text, s)
  {
  }

  lemma {:induction false} LineComplete(text: string, a: nat, b: nat, c: Cmd)
    requires Line(text) && a <= b <= |text| && IsLine(text, a, b, c) && Small(c) && LineEnd(Peek(text, b))
    ensures ParseLine(text, a) == Ok(c, Next(text, b))
    decreases b - a, 5
  {
    AtNext(text, b);
    if IsBacks(text, a, b, c) {
      BacksComplete(text, a, b, c);
    } else {
      var m: nat :| ListSplit(text, a, m, b) && IsBacks(text, a, m, c.left) && IsLine(text, After(text, m), b, c.right);
      BacksComplete(text, a, m, c.left);
      AtNext(text, m);
      LineComplete(text, After(text, m), b, c.right);
    }
  }

  // Trailing ampersands are read one by one.
  lemma {:induction false} BacksComplete(text: string, a: nat, b: nat, c: Cmd)
    requires Line(text) && a <= b <= |text| && IsBacks(text, a, b, c) && Small(c) && PipeEnd(Peek(text, b))
    ensures ParsePipe(text, a).Ok?
    ensures ParseBacks(text, ParsePipe(text, a).c, ParsePipe(text, a).s) == ParseBacks(text, c, Next(text, b))
    decreases b - a, 4
  {
    AtNext(text, b);
    if IsPipe(text, a, b, c) {
      PipeComplete(text, a, b, c);
    } else {
      var m: nat :| BackSplit(text, a, m, b) && IsBacks(text, a, m, c.cmd);
      BacksComplete(text, a, m, c.cmd);
      AtNext(text, m);
    }
  }

  lemma {:induction false} PipeComplete(text: string, a: nat, b: nat, c: Cmd)
    requires Line(text) && a <= b <= |text| && IsPipe(text, a, b, c) && Small(c) && PipeEnd(Peek(text, b))
    ensures ParsePipe(text, a) == Ok(c, Next(text, b))
    decreases b - a, 3
  {
    AtNext(text, b);
    if IsExec(text, a, b, c) {
      ExecComplete(text, a, b, c);
    } else {
      var m: nat :| PipeSplit(text, a, m, b) && IsExec(text, a, m, c.left) && IsPipe(text, After(text, m), b, c.right);
      ExecComplete(text, a, m, c.left);
      AtNext(text, m);
      PipeComplete(text, After(text, m), b, c.right);
    }
  }

  lemma {:induction false} ExecComplete(text: string, a: nat, b: nat, c: Cmd)
    requires Line(text) && a <= b <= |text| && IsExec(text, a, b, c) && Small(c) && ExecEnd(Peek(text, b))
    ensures ParseExec(text, a) == Ok(c, Next(text, b))
    decreases b - a, 2
  {
    AtEnd(text, c, b);
    if IsBlock(text, a, b, c) {
      BlockComplete(text, a, b, c);
    } else {
      SimpleStart(text, a, b, c);
      SimpleComplete(text, a, b, c);
      AtNext(text, a);
    }
  }

  // Where a command ends, its loops stop.
  lemma AtEnd(text: string, c: Cmd, b: nat)
    requires Line(text) && b <= |text| && ExecEnd(Peek(text, b))
    ensures ParseRedirs(text, c, Next(text, b)) == Ok(c, Next(text, b)) == ParseItems(text, c, Next(text, b))
    ensures Peek(text, b) != '(' && Peek(text, Next(text, b)) != '('
  {
    AtNext(text, b);
  }

  // A block is its line and then its redirections one by one.
  lemma {:induction false} BlockComplete(text: string, a: nat, b: nat, c: Cmd)
    requires Line(text) && a <= b <= |text| && IsBlock(text, a, b, c) && Small(c)
    ensures Peek(text, a) == '(' && ParseBlock(text, a) == ParseRedirs(text, c, Next(text, b))
    decreases b - a, 1
  {
    if m: nat :| BlockSplit(text, a, m, b) && IsLine(text, After(text, a), m, c) {
      LineComplete(text, After(text, a), m, c);
      AtNext(text, m);
    } else {
      var m: nat :| RedirSplit(text, a, m, b, c) && IsBlock(text, a, m, c.cmd);
      BlockComplete(text, a, m, c.cmd);
      RedirRead(text, a, m, b, c);
    }
  }

  lemma RedirRead(text: string, a: nat, m: nat, b: nat, c: Cmd)
    requires Line(text) && b <= |text| && RedirSplit(text, a, m, b, c)
    ensures ParseRedirs(text, c.cmd, Next(text, m)) == ParseRedirs(text, c, Next(text, b))
  {
    AtNext(text, m);
    AtNext(text, b);
    assert RedirOf(text, c.cmd, Next(text, m)) == c;
  }

  lemma RedirItem(text: string, a: nat, m: nat, b: nat, c: Cmd)
    requires Line(text) && b <= |text| && RedirSplit(text, a, m, b, c)
    ensures ParseItems(text, c.cmd, Next(text, m)) == ParseItems(text, c, Next(text, b))
  {
    AtNext(text, m);
    assert RedirOf(text, c.cmd, Next(text, m)) == c;
  }

  lemma WordItem(text: string, a: nat, m: nat, b: nat, c: Cmd)
    requires Line(text) && b <= |text| && WordSplit(text, a, m, b, c) && Small(c)
    ensures ParseItems(text, WithoutLast(c), Next(text, m)) == ParseItems(text, c, Next(text, b)) &&
      Small(WithoutLast(c))
  {
    LastArg(c);
    AtNext(text, m);
    assert WithArg(WithoutLast(c), WordOf(text, Next(text, m))) == c;
  }

  lemma {:induction false} SimpleComplete(text: string, a: nat, b: nat, c: Cmd)
    requires Line(text) && a <= b <= |text| && IsSimple(text, a, b, c) && Small(c)
    ensures ParseItems(text, Exec([]), Next(text, a)) == ParseItems(text, c, Next(text, b))
    decreases b - a, 1
  {
    if c == Exec([]) && b == Next(text, a) {
      AtNext(text, a);
    } else if m: nat :| RedirSplit(text, a, m, b, c) && IsSimple(text, a, m, c.cmd) {
      SimpleComplete(text, a, m, c.cmd);
      RedirItem(text, a, m, b, c);
    } else {
      var m: nat :| WordSplit(text, a, m, b, c) && IsSimple(text, a, m, WithoutLast(c));
      WordItem(text, a, m, b, c);
      SimpleComplete(text, a, m, WithoutLast(c));
    }
  }

  // A simple command that is not empty starts with a word or a redirection.
  lemma {:induction false} SimpleStart(text: string, a: nat, b: nat, c: Cmd)
    requires Line(text) && a <= b <= |text| && IsSimple(text, a, b, c)
    ensures b == Next(text, a) || SimpleKind(Peek(text, a))
    decreases b - a
  {
    AtNext(text, a);
    if c == Exec([]) && b == Next(text, a) {
    } else if m: nat :| RedirSplit(text, a, m, b, c) && IsSimple(text, a, m, c.cmd) {
      SimpleStart(text, a, m, c.cmd);
      assert SimpleKind(Peek(text, m));
    } else {
      var m: nat :| WordSplit(text, a, m, b, c) && IsSimple(text, a, m, WithoutLast(c));
      SimpleStart(text, a, m, WithoutLast(c));
      assert SimpleKind(Peek(text, m));
    }
  }

  predicate SimpleKind(k: char) {
    k == 'a' || RedirKind(k)
  }

  // ---- everything found is a derivation ----

  ghost predicate LineOk(text: string, a: nat, r: Parse)
    requires Line(text)
  {
    r.Ok? ==> a <= r.s <= |text| && IsLine(text, a, r.s, r.c) && Small(r.c)
  }

  ghost predicate BacksOk(text: string, a: nat, r: Parse)
    requires Line(text)
  {
    r.Ok? ==> a <= r.s <= |text| && IsBacks(text, a, r.s, r.c) && Small(r.c)
  }

  ghost predicate PipeOk(text: string, a: nat, r: Parse)
    requires Line(text)
  {
    r.Ok? ==> a <= r.s <= |text| && IsPipe(text, a, r.s, r.c) && Small(r.c)
  }

  ghost predicate ExecOk(text: string, a: nat, r: Parse)
    requires Line(text)
  {
    r.Ok? ==> a <= r.s <= |text| && IsExec(text, a, r.s, r.c) && Small(r.c)
  }

  lemma {:induction false} LineSound(text: string, a: nat)
    requires Line(text) && a <= |text|
    ensures LineOk(text, a, ParseLine(text, a))
    decreases |text| - a, 5
  {
    PipeSound(text, a);
    var r := ParsePipe(text, a);
    if r.Ok? {
      BacksSound(text, a, r.c, r.s);
      var r1 := ParseBacks(text, r.c, r.s);
      if Peek(text, r1.s) == ';' {
        LineSound(text, After(text, r1.s));
        var r2 := ParseLine(text, After(text, r1.s));
        assert r2.Ok? ==> ListSplit(text, a, r1.s, r2.s);
      }
    }
  }

  lemma {:induction false} BacksSound(text: string, a: nat, c: Cmd, s: nat)
    requires Line(text) && a <= s <= |text| && Next(text, s) == s && IsBacks(text, a, s, c) && Small(c)
    ensures BacksOk(text, a, ParseBacks(text, c, s))
    decreases |text| - s
  {
    if Peek(text, s) == '&' {
      assert BackSplit(text, a, s, After(text, s));
      BacksSound(text, a, Back(c), After(text, s));
    }
  }

  lemma {:induction false} PipeSound(text: string, a: nat)
    requires Line(text) && a <= |text|
    ensures PipeOk(text, a, ParsePipe(text, a))
    decreases |text| - a, 3
  {
    ExecSound(text, a);
    var r := ParseExec(text, a);
    if r.Ok? && Peek(text, r.s) == '|' {
      PipeSound(text, After(text, r.s));
      var r1 := ParsePipe(text, After(text, r.s));
      assert r1.Ok? ==> PipeSplit(text, a, r.s, r1.s);
    }
  }

  lemma {:induction false} ExecSound(text: string, a: nat)
    requires Line(text) && a <= |text|
    ensures ExecOk(text, a, ParseExec(text, a))
    decreases |text| - a, 2
  {
    if Peek(text, a) == '(' {
      var r := ParseLine(text, After(text, a));
      LineSound(text, After(text, a));
      if r.Ok? && Peek(text, r.s) == ')' {
        assert BlockSplit(text, a, r.s, After(text, r.s));
        RedirsSound(text, a, r.c, After(text, r.s));
      }
    } else {
      ItemsSound(text, a, Exec([]), Next(text, a));
    }
  }

  lemma {:induction false} RedirsSound(text: string, a: nat, c: Cmd, s: nat)
    requires Line(text) && a <= s <= |text| && Next(text, s) == s && IsBlock(text, a, s, c) && Small(c)
    ensures ExecOk(text, a, ParseRedirs(text, c, s))
    decreases |text| - s
  {
    if RedirKind(Peek(text, s)) && Peek(text, After(text, s)) == 'a' {
      var c1, s1 := RedirOf(text, c, s), After(text, After(text, s));
      assert RedirSplit(text, a, s, s1, c1);
      RedirsSound(text, a, c1, s1);
    }
  }

  lemma {:induction false} ItemsSound(text: string, a: nat, c: Cmd, s: nat)
    requires Line(text) && a <= s <= |text| && Next(text, s) == s && IsSimple(text, a, s, c) && Small(c) && IsChain(c)
    ensures ExecOk(text, a, ParseItems(text, c, s))
    decreases |text| - s
  {
    var k := Peek(text, s);
    if RedirKind(k) {
      if Peek(text, After(text, s)) == 'a' {
        var c1, s1 := RedirOf(text, c, s), After(text, After(text, s));
        assert RedirSplit(text, a, s, s1, c1);
        ItemsSound(text, a, c1, s1);
      }
    } else if k == 'a' && |Args(c)| + 1 < MAXARGS {
      var c1, s1 := WithArg(c, WordOf(text, s)), After(text, s);
      ArgAdded(c, WordOf(text, s));
      assert WordSplit(text, a, s, s1, c1);
      ItemsSound(text, a, c1, s1);
    }
  }

  /** The parser accepts a line with tree c if and only if the grammar derives c from the
      whole line and no simple command in c has MAXARGS arguments or more. */
  lemma ParsesIff(text: string, c: Cmd)
    requires Line(text)
    ensures ParseCmd(text) == Ok(c, |text|) <==> IsLine(text, 0, |text|, c) && Small(c)
  {
    LineSound(text, 0);
    if IsLine(text, 0, |text|, c) && Small(c) {
      LineComplete(text, 0, |text|, c);
    }
  }

  // The grammar is not ambiguous.
  lemma OneTree(text: string, c: Cmd, c': Cmd)
    requires Line(text) && Small(c) && Small(c') && IsLine(text, 0, |text|, c) && IsLine(text, 0, |text|, c')
    ensures c == c'
  {
    ParsesIff(text, c);
    ParsesIff(text, c');
  }

  // ---- every word of the line is in the tree, once ----

  function WordsOf(c: Cmd): multiset<Span> {
    match c
    case Exec(args) => multiset(args)
    case Redir(cmd, file, _, _) => WordsOf(cmd) + multiset{file}
    case Pipe(left, right) => WordsOf(left) + WordsOf(right)
    case List(left, right) => WordsOf(left) + WordsOf(right)
    case Back(cmd) => WordsOf(cmd)
  }

  lemma {:induction false} LastWord(c: Cmd)
    requires Args(c) != []
    ensures WordsOf(c) == WordsOf(WithoutLast(c)) + multiset{Args(c)[|Args(c)| - 1]}
  {
    if c.Redir? {
      LastWord(c.cmd);
    } else {
      assert c.args == c.args[..|c.args| - 1] + [c.args[|c.args| - 1]];
    }
  }

  // A symbol at m adds no word between its two sides.
  lemma WordsAround(text: string, a: nat, m: nat, b: nat)
    requires Line(text) && a <= m <= |text| && Between(text, m) && Peek(text, m) != 'a' && After(text, m) <= b <= |text|
    ensures Between(text, After(text, m)) && Words(text, a, b) == Words(text, a, m) + Words(text, After(text, m), b)
  {
    SymbolToken(text, m);
    WordsSplit(text, a, m, b);
    WordsSplit(text, m, After(text, m), b);
  }

  // A word at m adds itself.
  lemma WordsUpTo(text: string, a: nat, m: nat)
    requires Line(text) && a <= m <= |text| && Between(text, m) && Peek(text, m) == 'a'
    ensures Between(text, After(text, m)) && Words(text, a, After(text, m)) ==
      Words(text, a, m) + multiset{WordOf(text, m)}
  {
    WordTokenIsWord(text, m);
    WordToken(text, m);
    WordsSplit(text, a, m, After(text, m));
  }

  lemma {:induction false} LineWords(text: string, a: nat, b: nat, c: Cmd)
    requires Line(text) && a <= b <= |text| && IsLine(text, a, b, c) && Between(text, a)
    ensures Between(text, b) && WordsOf(c) == Words(text, a, b)
    decreases b - a, 5
  {
    if IsBacks(text, a, b, c) {
      BacksWords(text, a, b, c);
    } else {
      var m: nat :| ListSplit(text, a, m, b) && IsBacks(text, a, m, c.left) && IsLine(text, After(text, m), b, c.right);
      BacksWords(text, a, m, c.left);
      WordsAround(text, a, m, b);
      LineWords(text, After(text, m), b, c.right);
    }
  }

  lemma {:induction false} BacksWords(text: string, a: nat, b: nat, c: Cmd)
    requires Line(text) && a <= b <= |text| && IsBacks(text, a, b, c) && Between(text, a)
    ensures Between(text, b) && WordsOf(c) == Words(text, a, b)
    decreases b - a, 4
  {
    if IsPipe(text, a, b, c) {
      PipeWords(text, a, b, c);
    } else {
      var m: nat :| BackSplit(text, a, m, b) && IsBacks(text, a, m, c.cmd);
      BacksWords(text, a, m, c.cmd);
      WordsAround(text, a, m, b);
    }
  }

  lemma {:induction false} PipeWords(text: string, a: nat, b: nat, c: Cmd)
    requires Line(text) && a <= b <= |text| && IsPipe(text, a, b, c) && Between(text, a)
    ensures Between(text, b) && WordsOf(c) == Words(text, a, b)
    decreases b - a, 3
  {
    if IsExec(text, a, b, c) {
      ExecWords(text, a, b, c);
    } else {
      var m: nat :| PipeSplit(text, a, m, b) && IsExec(text, a, m, c.left) && IsPipe(text, After(text, m), b, c.right);
      ExecWords(text, a, m, c.left);
      WordsAround(text, a, m, b);
      PipeWords(text, After(text, m), b, c.right);
    }
  }

  lemma {:induction false} ExecWords(text: string, a: nat, b: nat, c: Cmd)
    requires Line(text) && a <= b <= |text| && IsExec(text, a, b, c) && Between(text, a)
    ensures Between(text, b) && WordsOf(c) == Words(text, a, b)
    decreases b - a, 2
  {
    if IsBlock(text, a, b, c) { BlockWords(text, a, b, c); } else { SimpleWords(text, a, b, c); }
  }

  // A redirection adds one word, its file.
  lemma RedirWords(text: string, a: nat, m: nat, b: nat, c: Cmd)
    requires Line(text) && b <= |text| && RedirSplit(text, a, m, b, c) && Between(text, m)
    ensures Between(text, b) && Words(text, a, b) == Words(text, a, m) + multiset{c.file}
  {
    WordsAround(text, a, m, After(text, m));
    WordsUpTo(text, a, After(text, m));
  }

  lemma {:induction false} BlockWords(text: string, a: nat, b: nat, c: Cmd)
    requires Line(text) && a <= b <= |text| && IsBlock(text, a, b, c) && Between(text, a)
    ensures Between(text, b) && WordsOf(c) == Words(text, a, b)
    decreases b - a, 1
  {
    if m: nat :| BlockSplit(text, a, m, b) && IsLine(text, After(text, a), m, c) {
      WordsAround(text, a, a, b);
      LineWords(text, After(text, a), m, c);
      WordsAround(text, After(text, a), m, b);
    } else {
      var m: nat :| RedirSplit(text, a, m, b, c) && IsBlock(text, a, m, c.cmd);
      BlockWords(text, a, m, c.cmd);
      RedirWords(text, a, m, b, c);
    }
  }

  lemma LastWordAdded(text: string, a: nat, m: nat, b: nat, c: Cmd)
    requires Line(text) && b <= |text| && WordSplit(text, a, m, b, c) && Between(text, m)
    requires WordsOf(WithoutLast(c)) == Words(text, a, m)
    ensures Between(text, b) && WordsOf(c) == Words(text, a, b)
  {
    LastWord(c);
    WordsUpTo(text, a, m);
  }

  lemma {:induction false} SimpleWords(text: string, a: nat, b: nat, c: Cmd)
    requires Line(text) && a <= b <= |text| && IsSimple(text, a, b, c) && Between(text, a)
    ensures Between(text, b) && WordsOf(c) == Words(text, a, b)
    decreases b - a, 1
  {
    if c == Exec([]) && b == Next(text, a) {
      SkippedWords(text, a);
    } else if m: nat :| RedirSplit(text, a, m, b, c) && IsSimple(text, a, m, c.cmd) {
      SimpleWords(text, a, m, c.cmd);
      RedirWords(text, a, m, b, c);
    } else {
      var m: nat :| WordSplit(text, a, m, b, c) && IsSimple(text, a, m, WithoutLast(c));
      SimpleWords(text, a, m, WithoutLast(c));
      LastWordAdded(text, a, m, b, c);
    }
  }

  lemma SkippedWords(text: string, a: nat)
    requires a <= |text| && Between(text, a)
    ensures Between(text, Next(text, a)) && Words(text, a, Next(text, a)) == multiset{}
  {
    NoWords(text, a, Next(text, a));
  }

  /** An accepted line and its tree have the same words, each maximal word of the line
      exactly once in the tree. */
  lemma ParseKeepsWords(text: string, c: Cmd)
    requires Line(text) && ParseCmd(text) == Ok(c, |text|)
    ensures WordsOf(c) == Words(text, 0, |text|)
    ensures forall w :: w in WordsOf(c) <==> IsWord(text, w)
  {
    ParsesIff(text, c);
    LineWords(text, 0, |text|, c);
    forall w ensures w in WordsOf(c) <==> IsWord(text, w) {
      WordsAreWords(text, 0, |text|, w);
    }
  }
}
