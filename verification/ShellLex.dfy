/** Tokens of the shell's command lines (sh.c), as positions in the line.  The line ends
    with the NUL that follows its text. */
module ShellLex {
  const NUL: char := '\0'

  predicate Ws(c: char) {
    c == ' ' || c == '\t' || c == '\r' || c == '\n' || c == '\U{000B}'
  }

  predicate Symbol(c: char) {
    c == '<' || c == '|' || c == '>' || c == '&' || c == ';' || c == '(' || c == ')'
  }

  predicate WordChar(c: char) {
    !Ws(c) && !Symbol(c) && c != NUL
  }

  // A C string's text.
  predicate Line(text: string) {
    NUL !in text
  }

  // The character at i, counting the NUL at the end.
  function At(text: string, i: nat): char {
    if i < |text| then text[i] else NUL
  }

  // Skip whitespace.
  function Next(text: string, s: nat): (r: nat)
    requires s <= |text|
    ensures s <= r <= |text| && !Ws(At(text, r))
    ensures forall i :: s <= i < r ==> Ws(text[i])
    decreases |text| - s
  {
    if s < |text| && Ws(text[s]) then Next(text, s + 1) else s
  }

  // Skip the characters of a word.
  function WordEnd(text: string, q: nat): (r: nat)
    requires q <= |text|
    ensures q <= r <= |text| && !WordChar(At(text, r))
    ensures forall i :: q <= i < r ==> WordChar(text[i])
    decreases |text| - q
  {
    if q < |text| && WordChar(text[q]) then WordEnd(text, q + 1) else q
  }

  // What gettoken returns for the token that starts at q: the symbol, '+' for >>,
  // 'a' for a word, NUL at the end.
  function Kind(text: string, q: nat): char {
    var c := At(text, q);
    if c == '>' then (if At(text, q + 1) == '>' then '+' else '>')
    else if c == NUL || Symbol(c) then c
    else 'a'
  }

  function TokEnd(text: string, q: nat): (r: nat)
    requires q <= |text|
    ensures q <= r <= |text|
  {
    var k := Kind(text, q);
    if k == NUL then q
    else if k == '+' then q + 2
    else if k == 'a' then WordEnd(text, q)
    else q + 1
  }

  // The next token after s, and where the one after it starts.
  function Peek(text: string, s: nat): char
    requires s <= |text|
  {
    Kind(text, Next(text, s))
  }

  function After(text: string, s: nat): (r: nat)
    requires s <= |text|
    ensures s <= r <= |text| && Next(text, r) == r
    ensures Line(text) && Peek(text, s) != NUL ==> s < r
  {
    Next(text, TokEnd(text, Next(text, s)))
  }

  // Words are maximal runs of word characters.
  datatype Span = Span(q: nat, eq: nat)

  predicate IsWord(text: string, w: Span) {
    && w.q < w.eq <= |text| && (forall i :: w.q <= i < w.eq ==> WordChar(text[i]))
    && (w.q > 0 ==> !WordChar(text[w.q - 1])) && !WordChar(At(text, w.eq))
  }

  function WordText(text: string, w: Span): string
    requires w.q <= w.eq <= |text|
  {
    text[w.q..w.eq]
  }

  // ---- the words of a line ----

  predicate StartsWord(text: string, i: nat) {
    WordChar(At(text, i)) && (i > 0 ==> !WordChar(At(text, i - 1)))
  }

  // The words that start at a or later and before b.
  function Words(text: string, a: nat, b: nat): multiset<Span>
    requires b <= |text|
    decreases b - a
  {
    if a >= b then multiset{}
    else (if StartsWord(text, a) then multiset{Span(a, WordEnd(text, a))} else multiset{}) + Words(text, a + 1, b)
  }

  lemma {:induction false} WordsSplit(text: string, a: nat, m: nat, b: nat)
    requires a <= m <= b <= |text|
    ensures Words(text, a, b) == Words(text, a, m) + Words(text, m, b)
    decreases m - a
  {
    if a < m {
      WordsSplit(text, a + 1, m, b);
      var head := if StartsWord(text, a) then multiset{Span(a, WordEnd(text, a))} else multiset{};
      assert Words(text, a, b) == head + Words(text, a + 1, b) && Words(text, a, m) == head + Words(text, a + 1, m);
    }
  }

  lemma {:induction false} NoWords(text: string, a: nat, b: nat)
    requires a <= b <= |text| && forall i :: a <= i < b ==> !StartsWord(text, i)
    ensures Words(text, a, b) == multiset{}
    decreases b - a
  {
    if a < b { NoWords(text, a + 1, b); }
  }

  /** Words lists each maximal word of the range once and nothing else. */
  lemma {:induction false} WordsAreWords(text: string, a: nat, b: nat, w: Span)
    requires Line(text) && b <= |text|
    ensures w in Words(text, a, b) <==> a <= w.q < b && IsWord(text, w)
    ensures Words(text, a, b)[w] <= 1
    decreases b - a
  {
    if a < b {
      WordsAreWords(text, a + 1, b, w);
      if w.q == a { WordAt(text, w); }
    }
  }

  // The word that starts at w.q, if any.
  lemma WordAt(text: string, w: Span)
    requires w.q < |text|
    ensures IsWord(text, w) <==> StartsWord(text, w.q) && WordEnd(text, w.q) == w.eq
  {
    var e := WordEnd(text, w.q);
    assert forall i :: w.q <= i < e ==> WordChar(text[i]);
  }

  // ---- where the parser stops ----

  // s is not inside a word.
  predicate Between(text: string, s: nat) {
    s == 0 || !WordChar(At(text, s - 1)) || !WordChar(At(text, s))
  }

  // A token that is not a word holds no word.
  lemma SymbolToken(text: string, s: nat)
    requires Line(text) && s <= |text| && Between(text, s) && Peek(text, s) != 'a'
    ensures Between(text, After(text, s)) && Words(text, s, After(text, s)) == multiset{}
  {
    var q, r := Next(text, s), After(text, s);
    forall i | s <= i < r ensures !WordChar(At(text, i)) {
      if i >= q {
        assert i == q || i == q + 1 || Ws(text[i]);
      }
    }
    NoWords(text, s, r);
    if r == s {
      assert q == s;
    } else {
      assert !WordChar(At(text, r - 1));
    }
  }

  // A token that is a word is a whole word.
  lemma WordTokenIsWord(text: string, s: nat)
    requires Line(text) && s <= |text| && Between(text, s) && Peek(text, s) == 'a'
    ensures Between(text, After(text, s))
    ensures IsWord(text, Span(Next(text, s), WordEnd(text, Next(text, s))))
  {
    var q, e, r := Next(text, s), WordEnd(text, Next(text, s)), After(text, s);
    assert WordChar(At(text, q)) && q < e;
    assert q > s ==> Ws(At(text, q - 1));
    WordAt(text, Span(q, e));
    if r > e {
      assert Ws(At(text, r - 1));
    }
  }

  // A token that is a word holds that word.
  lemma WordToken(text: string, s: nat)
    requires Line(text) && s <= |text| && Between(text, s) && Peek(text, s) == 'a'
    ensures Words(text, s, After(text, s)) == multiset{Span(Next(text, s), WordEnd(text, Next(text, s)))}
  {
    var q, e, r := Next(text, s), WordEnd(text, Next(text, s)), After(text, s);
    WordTokenIsWord(text, s);
    WordAt(text, Span(q, e));
    WordsSplit(text, s, q, r);
    NoWords(text, s, q);
    NoneAfter(text, q, e, r);
  }

  lemma NoneAfter(text: string, q: nat, e: nat, r: nat)
    requires q < e <= r <= |text| && (forall i :: q <= i < e ==> WordChar(text[i])) && forall i :: e <= i < r ==>
      Ws(text[i])
    ensures Words(text, q + 1, r) == multiset{}
  {
    forall i | q + 1 <= i < r ensures !StartsWord(text, i) {
      if i <= e { assert WordChar(At(text, i - 1)); } else { assert Ws(At(text, i)); }
    }
    NoWords(text, q + 1, r);
  }
}
