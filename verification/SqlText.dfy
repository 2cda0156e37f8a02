/**
 Characters to tokens: the lexical level of the SQL text that the query builders emit.
 */
module SqlText {
  import opened Decimal

  datatype Token = Word(text: string) | Param(index: nat) | LPar | RPar

  predicate Delimiter(c: char) { c == ' ' || c == '(' || c == ')' || c == '$' }

  predicate InWord(c: char) { !Delimiter(c) }

  /** A word that the lexer reads back whole. */
  predicate Plain(w: string) { w != "" && forall i :: 0 <= i < |w| ==> InWord(w[i]) }

  /** Length of the longest prefix of `s` made of characters that satisfy `p`. */
  function Span(p: char -> bool, s: string): (n: nat)
    ensures n <= |s|
  {
    if s == "" || !p(s[0]) then 0 else 1 + Span(p, s[1..])
  }

  lemma {:induction false} SpanIs(p: char -> bool, s: string, n: nat)
    requires n <= |s|
    requires forall i :: 0 <= i < n ==> p(s[i])
    requires n < |s| ==> !p(s[n])
    ensures Span(p, s) == n
  {
    if n > 0 { SpanIs(p, s[1..], n - 1); }
  }

  lemma {:induction false} SpanSplits(p: char -> bool, s: string)
    ensures forall i :: 0 <= i < Span(p, s) ==> p(s[i])
    ensures Span(p, s) < |s| ==> !p(s[Span(p, s)])
  {
    if s != "" && p(s[0]) { SpanSplits(p, s[1..]); }
  }

  function Lex(s: string): seq<Token>
    decreases |s|
  {
    if s == "" then []
    else if s[0] == ' ' then Lex(s[1..])
    else if s[0] == '(' then [LPar] + Lex(s[1..])
    else if s[0] == ')' then [RPar] + Lex(s[1..])
    else if s[0] == '$' then
      var n := Span(IsDigit, s[1..]);
      SpanSplits(IsDigit, s[1..]);
      [Param(Value(s[1..][..n]))] + Lex(s[1..][n..])
    else
      var n := Span(InWord, s);
      [Word(s[..n])] + Lex(s[n..])
  }

  /** Gluing text here cannot merge the token on the left with the token on the right. */
  predicate Apart(a: string, b: string) {
    b == "" || b[0] == ' ' || b[0] == '(' || b[0] == ')'
  }

  lemma SpanGlued(p: char -> bool, a: string, b: string)
    requires b == "" || !p(b[0])
    ensures Span(p, a + b) == Span(p, a)
  {
    SpanSplits(p, a);
    SpanIs(p, a + b, Span(p, a));
  }

  lemma Slices(a: string, b: string, n: nat)
    requires n <= |a|
    ensures (a + b)[..n] == a[..n] && (a + b)[n..] == a[n..] + b
  {
  }

  lemma LexParamStep(a: string, b: string) returns (t: seq<Token>, n: nat)
    requires a != "" && a[0] == '$' && Apart(a, b)
    ensures 0 < n <= |a|
    ensures Lex(a) == t + Lex(a[n..]) && Lex(a + b) == t + Lex(a[n..] + b)
  {
    var s := a[1..];
    var d := Span(IsDigit, s);
    SpanSplits(IsDigit, s);
    SpanGlued(IsDigit, s, b);
    Slices(a, b, 1);
    Slices(s, b, d);
    n := 1 + d;
    t := [Param(Value(s[..d]))];
    assert s[d..] == a[n..];
  }

  /** The first token of `a`, or a skipped space, is the same with `b` glued on. */
  lemma LexStep(a: string, b: string) returns (t: seq<Token>, n: nat)
    requires a != "" && Apart(a, b)
    ensures 0 < n <= |a|
    ensures Lex(a) == t + Lex(a[n..]) && Lex(a + b) == t + Lex(a[n..] + b)
  {
    var c := a[0];
    if c == '$' {
      t, n := LexParamStep(a, b);
    } else if c == ' ' || c == '(' || c == ')' {
      n := 1;
      t := if c == ' ' then [] else if c == '(' then [LPar] else [RPar];
      Slices(a, b, 1);
    } else {
      n := Span(InWord, a);
      t := [Word(a[..n])];
      SpanGlued(InWord, a, b);
      Slices(a, b, n);
    }
  }

  lemma {:induction false} LexConcat(a: string, b: string)
    requires Apart(a, b)
    ensures Lex(a + b) == Lex(a) + Lex(b)
    decreases |a|
  {
    if a == "" {
      assert a + b == b;
    } else {
      var t, n := LexStep(a, b);
      LexConcat(a[n..], b);
    }
  }

  lemma LexWord(w: string, rest: string)
    requires Plain(w)
    requires rest == "" || Delimiter(rest[0])
    ensures Lex(w + rest) == [Word(w)] + Lex(rest)
  {
    SpanIs(InWord, w + rest, |w|);
    assert (w + rest)[..|w|] == w && (w + rest)[|w|..] == rest;
  }

  lemma {:induction false} LexParam(p: nat, rest: string)
    requires rest == "" || !IsDigit(rest[0])
    ensures Lex("$" + Show(p) + rest) == [Param(p)] + Lex(rest)
  {
    var digits := Show(p);
    var s := "$" + digits + rest;
    assert s[1..] == digits + rest;
    SpanIs(IsDigit, digits + rest, |digits|);
    assert (digits + rest)[..|digits|] == digits && (digits + rest)[|digits|..] == rest;
    ValueOfShow(p);
  }
}
