/**
 The pieces of SQL text that the builders format and join, each with the operand it reads back as.
 */
module Fragments {
  import opened Decimal
  import opened SqlText
  import opened Sql
  import opened SqlGrammar

  function Join(parts: seq<string>, separator: string): string {
    if parts == [] then ""
    else if |parts| == 1 then parts[0]
    else parts[0] + separator + Join(parts[1..], separator)
  }

  /** Words separated by single spaces. */
  function Phrase(words: seq<string>): string { Join(words, " ") }

  function Comparison(column: string, op: string, p: nat): string {
    column + " " + (op + " " + ("$" + Show(p)))
  }

  function Containment(column: string, p: nat): string { Comparison(column, "@>", p) + "::jsonb" }

  function InParens(text: string): string { "(" + text + ")" }

  /** The text reads as the operand `e`. */
  ghost predicate Unit(text: string, e: Expr) { Reads(Lex(text), e) }

  ghost predicate Units(texts: seq<string>, es: seq<Expr>) {
    |texts| == |es| && forall i :: 0 <= i < |texts| ==> Unit(texts[i], es[i])
  }

  function LexAll(texts: seq<string>): seq<seq<Token>> {
    seq(|texts|, i requires 0 <= i < |texts| => Lex(texts[i]))
  }

  lemma Associates(a: string, b: string, c: string)
    ensures (a + b) + c == a + (b + c)
  {
  }

  lemma LexSpaced(word: string, tail: string)
    requires Plain(word)
    ensures Lex(word + " " + tail) == [Word(word)] + Lex(tail)
  {
    Associates(word, " ", tail);
    LexWord(word, " " + tail);
    assert (" " + tail)[1..] == tail;
  }

  lemma LexGlued(head: string, word: string, tail: string)
    requires Plain(word)
    ensures Lex(head + (" " + word + " ") + tail) == Lex(head) + ([Word(word)] + Lex(tail))
  {
    var glue := " " + word + " ";
    Associates(head, glue, tail);
    LexConcat(head, glue + tail);
    assert (glue + tail)[1..] == word + " " + tail;
    LexSpaced(word, tail);
  }

  lemma {:induction false} LexJoin(texts: seq<string>, word: string)
    requires Plain(word)
    ensures Lex(Join(texts, " " + word + " ")) == Joined(LexAll(texts), Word(word))
  {
    if |texts| > 1 {
      LexGlued(texts[0], word, Join(texts[1..], " " + word + " "));
      LexJoin(texts[1..], word);
      assert LexAll(texts)[1..] == LexAll(texts[1..]);
    }
  }

  lemma LexInParens(text: string)
    ensures Lex(InParens(text)) == [LPar] + (Lex(text) + [RPar])
  {
    assert InParens(text)[1..] == text + ")";
    LexConcat(text, ")");
    assert ")"[1..] == "";
  }

  lemma {:induction false} LexPhrase(ws: seq<string>, tail: string)
    requires ws != [] && forall i :: 0 <= i < |ws| ==> Plain(ws[i])
    requires tail == "" || Delimiter(tail[0])
    ensures Lex(Phrase(ws) + tail) == Words(ws) + Lex(tail)
  {
    if |ws| == 1 {
      LexWord(ws[0], tail);
    } else {
      var w, others := ws[0], Phrase(ws[1..]);
      calc {
        Lex(Phrase(ws) + tail);
        { Associates(w + " ", others, tail); }
        Lex(w + " " + (others + tail));
        { LexSpaced(w, others + tail); }
        [Word(w)] + Lex(others + tail);
        { LexPhrase(ws[1..], tail); }
        [Word(w)] + (Words(ws[1..]) + Lex(tail));
        { assert Words(ws) == [Word(w)] + Words(ws[1..]); }
        Words(ws) + Lex(tail);
      }
    }
  }

  function Words(ws: seq<string>): seq<Token> { seq(|ws|, i requires 0 <= i < |ws| => Word(ws[i])) }

  lemma {:induction false} LexComparison(column: string, op: string, p: nat, rest: string)
    requires Plain(column) && Plain(op)
    requires rest == "" || !IsDigit(rest[0])
    ensures Lex(Comparison(column, op, p) + rest) == [Word(column), Word(op), Param(p)] + Lex(rest)
  {
    var value := "$" + Show(p);
    LexParam(p, rest);
    LexSpaced(op, value + rest);
    LexSpaced(column, op + " " + (value + rest));
    Associates(op + " ", value, rest);
    Associates(column + " ", op + " " + value, rest);
  }

  // ----- Units -----

  lemma UnitComparison(column: string, op: string, p: nat)
    requires Plain(column) && Plain(op) && !Keyword(column) && op != "IS" && op != "@>"
    ensures Unit(Comparison(column, op, p), Compare(column, op, Arg(p)))
  {
    LexComparison(column, op, p, "");
    assert Comparison(column, op, p) + "" == Comparison(column, op, p);
    ReadsComparison(column, op, p);
    assert [Word(column), Word(op), Param(p)] + Lex("") == [Word(column), Word(op), Param(p)];
  }

  lemma UnitContainment(column: string, p: nat)
    requires Plain(column) && !Keyword(column)
    ensures Unit(Containment(column, p), Compare(column, "@>", Arg(p)))
  {
    assert Plain("@>") && Plain("::jsonb") && !IsDigit("::jsonb"[0]);
    LexCast(column, "@>", p, "::jsonb");
    ReadsContainment(column, p);
  }

  lemma {:induction false} LexCast(column: string, op: string, p: nat, cast: string)
    requires Plain(column) && Plain(op) && Plain(cast) && !IsDigit(cast[0])
    ensures Lex(Comparison(column, op, p) + cast) == [Word(column), Word(op), Param(p), Word(cast)]
  {
    LexComparison(column, op, p, cast);
    LexWord(cast, "");
    assert cast + "" == cast;
  }

  lemma LexThreeWords(a: string, b: string, c: string)
    requires Plain(a) && Plain(b) && Plain(c)
    ensures Lex(Phrase([a, b, c])) == [Word(a), Word(b), Word(c)]
  {
    LexPhrase([a, b, c], "");
    assert Phrase([a, b, c]) + "" == Phrase([a, b, c]);
    assert Words([a, b, c]) + Lex("") == [Word(a), Word(b), Word(c)];
  }

  lemma UnitColumns(column: string, op: string, other: string)
    requires Plain(column) && Plain(op) && Plain(other) && !Keyword(column) && op != "IS" && op != "@>"
    ensures Unit(Phrase([column, op, other]), Compare(column, op, Column(other)))
  {
    LexThreeWords(column, op, other);
    ReadsColumns(column, op, other);
  }

  lemma UnitIsNull(column: string)
    requires Plain(column) && !Keyword(column)
    ensures Unit(Phrase([column, "IS", "NULL"]), IsNull(column))
  {
    LexThreeWords(column, "IS", "NULL");
    ReadsIsNull(column);
  }

  lemma UnitConstant(b: bool)
    ensures Unit(if b then "TRUE" else "FALSE", Constant(b))
  {
    var w := if b then "TRUE" else "FALSE";
    LexWord(w, "");
    assert w + "" == w;
    ReadsConstant(b);
    assert Lex(w) == [Word(w)];
  }

  lemma UnitNegated(text: string, e: Expr)
    requires Unit(text, e)
    ensures Unit("NOT " + text, Not(e))
  {
    LexSpaced("NOT", text);
    assert "NOT " == "NOT" + " ";
    ReadsNegated(Lex(text), e);
  }

  lemma UnitInParens(text: string, e: Expr)
    requires ReadsInside(Lex(text), e)
    ensures Unit(InParens(text), e)
  {
    LexInParens(text);
    ReadsParenthesised(Lex(text), e);
  }

  lemma UnitsCons(t: string, e: Expr, texts: seq<string>, es: seq<Expr>)
    requires Unit(t, e) && Units(texts, es)
    ensures Units([t] + texts, [e] + es)
  {
  }

  lemma UnitsRead(texts: seq<string>, es: seq<Expr>)
    requires Units(texts, es)
    ensures AllRead(LexAll(texts), es)
  {
    forall i | 0 <= i < |texts| ensures Reads(LexAll(texts)[i], es[i]) {
      assert Unit(texts[i], es[i]);
    }
  }

  lemma TwoUnits(text: string, e: Expr, text': string, e': Expr)
    requires Unit(text, e) && Unit(text', e')
    ensures Units([text, text'], [e, e'])
  {
  }

  lemma JoinCons(part: string, parts: seq<string>, separator: string)
    ensures Join([part] + parts, separator) == if parts == [] then part else part + separator + Join(parts, separator)
  {
    assert ([part] + parts)[1..] == parts;
  }

  lemma JoinTwoAndMore(a: string, b: string, more: seq<string>, separator: string)
    ensures Join([a, b] + more, separator)
         == a + separator + (b + if more == [] then "" else separator + Join(more, separator))
  {
    assert [a, b] + more == [a] + ([b] + more);
    JoinCons(a, [b] + more, separator);
    JoinCons(b, more, separator);
    Associates(b, separator, Join(more, separator));
  }

  lemma UnitAllOf(texts: seq<string>, es: seq<Expr>)
    requires Units(texts, es) && texts != []
    ensures Unit(InParens(Join(texts, " AND ")), AllOf(es))
  {
    assert " AND " == " " + "AND" + " ";
    LexJoin(texts, "AND");
    UnitsRead(texts, es);
    AllOfInside(LexAll(texts), es);
    UnitInParens(Join(texts, " AND "), AllOf(es));
  }

  lemma UnitAnyOf(texts: seq<string>, es: seq<Expr>)
    requires Units(texts, es) && texts != []
    ensures Unit(InParens(Join(texts, " OR ")), AnyOf(es))
  {
    assert " OR " == " " + "OR" + " ";
    LexJoin(texts, "OR");
    UnitsRead(texts, es);
    AnyOfInside(LexAll(texts), es);
    UnitInParens(Join(texts, " OR "), AnyOf(es));
  }
}
