/**
 Composition of the parser over token sequences. A sequence reads as `e` when the parser takes it
 as one operand of NOT, AND or OR whatever follows it; connectives keep such operands apart.
 */
module SqlGrammar {
  import opened SqlText
  import opened Sql

  ghost predicate Reads(ts: seq<Token>, e: Expr) {
    forall rest: seq<Token> :: ParseNot(ts + rest) == Parsed(e, rest)
  }

  ghost predicate AllRead(tss: seq<seq<Token>>, es: seq<Expr>) {
    |tss| == |es| && forall i :: 0 <= i < |tss| ==> Reads(tss[i], es[i])
  }

  predicate Follows(rest: seq<Token>, t: Token) { rest != [] && rest[0] == t }

  const AND: Token := Word("AND")
  const OR: Token := Word("OR")

  /** Neither connective comes next, so an operand or a conjunction ends here. */
  predicate Ends(rest: seq<Token>) { !Follows(rest, AND) && !Follows(rest, OR) }

  /** Read as a whole expression by whoever expects a closing parenthesis. */
  ghost predicate ReadsInside(ts: seq<Token>, e: Expr) {
    forall rest: seq<Token> :: ParseOr(ts + ([RPar] + rest)) == Parsed(e, [RPar] + rest)
  }

  function Joined(tss: seq<seq<Token>>, t: Token): seq<Token> {
    if tss == [] then [] else if |tss| == 1 then tss[0] else tss[0] + ([t] + Joined(tss[1..], t))
  }

  function AllOf(es: seq<Expr>): Expr
    requires es != []
  {
    if |es| == 1 then es[0] else And(es[0], AllOf(es[1..]))
  }

  function AnyOf(es: seq<Expr>): Expr
    requires es != []
  {
    if |es| == 1 then es[0] else Or(es[0], AnyOf(es[1..]))
  }

  lemma OperandEnds(ts: seq<Token>, e: Expr, rest: seq<Token>)
    requires ParseNot(ts) == Parsed(e, rest) && !Follows(rest, AND)
    ensures ParseAnd(ts) == Parsed(e, rest)
  {
  }

  lemma ConjunctionEnds(ts: seq<Token>, e: Expr, rest: seq<Token>)
    requires ParseAnd(ts) == Parsed(e, rest) && !Follows(rest, OR)
    ensures ParseOr(ts) == Parsed(e, rest)
  {
  }

  lemma AndStep(ts: seq<Token>, l: Expr, more: seq<Token>, r: Expr, rest: seq<Token>)
    requires ParseNot(ts) == Parsed(l, [AND] + more) && ParseAnd(more) == Parsed(r, rest)
    ensures ParseAnd(ts) == Parsed(And(l, r), rest)
  {
    assert ([AND] + more)[1..] == more;
  }

  lemma {:induction false} OrStep(ts: seq<Token>, l: Expr, more: seq<Token>, r: Expr, rest: seq<Token>)
    requires ParseAnd(ts) == Parsed(l, [OR] + more) && ParseOr(more) == Parsed(r, rest)
    ensures ParseOr(ts) == Parsed(Or(l, r), rest)
  {
    assert ([OR] + more)[1..] == more;
  }

  lemma {:induction false} ReadAllOf(tss: seq<seq<Token>>, es: seq<Expr>, rest: seq<Token>)
    requires AllRead(tss, es) && tss != [] && !Follows(rest, AND)
    ensures ParseAnd(Joined(tss, AND) + rest) == Parsed(AllOf(es), rest)
  {
    if |tss| == 1 {
      OperandEnds(tss[0] + rest, es[0], rest);
    } else {
      var more := Joined(tss[1..], AND) + rest;
      var ts := tss[0] + ([AND] + more);
      assert Joined(tss, AND) + rest == ts;
      ReadAllOf(tss[1..], es[1..], rest);
      AndStep(ts, es[0], more, AllOf(es[1..]), rest);
    }
  }

  lemma {:induction false} ReadAnyOf(tss: seq<seq<Token>>, es: seq<Expr>, rest: seq<Token>)
    requires AllRead(tss, es) && tss != [] && Ends(rest)
    ensures ParseOr(Joined(tss, OR) + rest) == Parsed(AnyOf(es), rest)
  {
    if |tss| == 1 {
      OperandEnds(tss[0] + rest, es[0], rest);
      ConjunctionEnds(tss[0] + rest, es[0], rest);
    } else {
      var more := Joined(tss[1..], OR) + rest;
      var ts := tss[0] + ([OR] + more);
      assert Joined(tss, OR) + rest == ts;
      assert |"OR"| == 2 && |"AND"| == 3;
      OperandEnds(ts, es[0], [OR] + more);
      ReadAnyOf(tss[1..], es[1..], rest);
      OrStep(ts, es[0], more, AnyOf(es[1..]), rest);
    }
  }

  lemma AllOfInside(tss: seq<seq<Token>>, es: seq<Expr>)
    requires AllRead(tss, es) && tss != []
    ensures ReadsInside(Joined(tss, AND), AllOf(es))
  {
    forall rest: seq<Token>
      ensures ParseOr(Joined(tss, AND) + ([RPar] + rest)) == Parsed(AllOf(es), [RPar] + rest)
    {
      ReadAllOf(tss, es, [RPar] + rest);
      ConjunctionEnds(Joined(tss, AND) + ([RPar] + rest), AllOf(es), [RPar] + rest);
    }
  }

  lemma AnyOfInside(tss: seq<seq<Token>>, es: seq<Expr>)
    requires AllRead(tss, es) && tss != []
    ensures ReadsInside(Joined(tss, OR), AnyOf(es))
  {
    forall rest: seq<Token>
      ensures ParseOr(Joined(tss, OR) + ([RPar] + rest)) == Parsed(AnyOf(es), [RPar] + rest)
    {
      ReadAnyOf(tss, es, [RPar] + rest);
    }
  }

  lemma OperandInside(ts: seq<Token>, e: Expr)
    requires Reads(ts, e)
    ensures ReadsInside(ts, e)
  {
    AllOfInside([ts], [e]);
  }

  lemma ReadsParenthesised(ts: seq<Token>, e: Expr)
    requires ReadsInside(ts, e)
    ensures Reads([LPar] + (ts + [RPar]), e)
  {
    forall rest: seq<Token> ensures ParseNot([LPar] + (ts + [RPar]) + rest) == Parsed(e, rest) {
      var inner := ts + ([RPar] + rest);
      assert [LPar] + (ts + [RPar]) + rest == [LPar] + inner;
      assert ([LPar] + inner)[1..] == inner && ([RPar] + rest)[1..] == rest;
    }
  }

  lemma ReadsNegated(ts: seq<Token>, e: Expr)
    requires Reads(ts, e)
    ensures Reads([Word("NOT")] + ts, Not(e))
  {
    forall rest: seq<Token> ensures ParseNot([Word("NOT")] + ts + rest) == Parsed(Not(e), rest) {
      assert ([Word("NOT")] + ts + rest)[1..] == ts + rest;
    }
  }

  lemma SubqueryEnds(ts: seq<Token>, e: Expr, rest: seq<Token>)
    requires ParseOr(ts) == Parsed(e, [RPar] + rest)
    ensures ParseSubquery(LOCATIONS_HEAD + ts) == Parsed(Exists(e), rest)
  {
    assert (LOCATIONS_HEAD + ts)[|LOCATIONS_HEAD|..] == ts && ([RPar] + rest)[1..] == rest;
  }

  lemma ReadsExists(ts: seq<Token>, e: Expr)
    requires ReadsInside(ts, e)
    ensures Reads([Word("EXISTS")] + (LOCATIONS_HEAD + (ts + [RPar])), Exists(e))
  {
    var head := [Word("EXISTS")];
    forall rest: seq<Token>
      ensures ParseNot(head + (LOCATIONS_HEAD + (ts + [RPar])) + rest) == Parsed(Exists(e), rest)
    {
      var inner := ts + ([RPar] + rest);
      assert head + (LOCATIONS_HEAD + (ts + [RPar])) + rest == head + (LOCATIONS_HEAD + inner);
      assert (head + (LOCATIONS_HEAD + inner))[1..] == LOCATIONS_HEAD + inner;
      assert |"NOT"| != |"EXISTS"|;
      SubqueryEnds(inner, e, rest);
    }
  }

  lemma ReadsConstant(b: bool)
    ensures Reads([Word(if b then "TRUE" else "FALSE")], Constant(b))
  {
    var t := Word(if b then "TRUE" else "FALSE");
    forall rest: seq<Token> ensures ParseNot([t] + rest) == Parsed(Constant(b), rest) {
      assert ([t] + rest)[1..] == rest;
    }
  }

  predicate Keyword(w: string) { w == "NOT" || w == "EXISTS" || w == "TRUE" || w == "FALSE" }

  lemma ReadsComparison(column: string, op: string, p: nat)
    requires !Keyword(column) && op != "IS" && op != "@>"
    ensures Reads([Word(column), Word(op), Param(p)], Compare(column, op, Arg(p)))
  {
    forall rest: seq<Token>
      ensures ParseNot([Word(column), Word(op), Param(p)] + rest) == Parsed(Compare(column, op, Arg(p)), rest)
    {
      assert ([Word(column), Word(op), Param(p)] + rest)[3..] == rest;
    }
  }

  lemma ReadsContainment(column: string, p: nat)
    requires !Keyword(column)
    ensures Reads([Word(column), Word("@>"), Param(p), Word("::jsonb")], Compare(column, "@>", Arg(p)))
  {
    forall rest: seq<Token>
      ensures ParseNot([Word(column), Word("@>"), Param(p), Word("::jsonb")] + rest)
        == Parsed(Compare(column, "@>", Arg(p)), rest)
    {
      assert ([Word(column), Word("@>"), Param(p), Word("::jsonb")] + rest)[4..] == rest;
    }
  }

  lemma ReadsColumns(column: string, op: string, other: string)
    requires !Keyword(column) && op != "IS" && op != "@>"
    ensures Reads([Word(column), Word(op), Word(other)], Compare(column, op, Column(other)))
  {
    forall rest: seq<Token>
      ensures ParseNot([Word(column), Word(op), Word(other)] + rest) == Parsed(Compare(column, op, Column(other)), rest)
    {
      assert ([Word(column), Word(op), Word(other)] + rest)[3..] == rest;
    }
  }

  lemma ReadsIsNull(column: string)
    requires !Keyword(column)
    ensures Reads([Word(column), Word("IS"), Word("NULL")], IsNull(column))
  {
    forall rest: seq<Token>
      ensures ParseNot([Word(column), Word("IS"), Word("NULL")] + rest) == Parsed(IsNull(column), rest)
    {
      assert ([Word(column), Word("IS"), Word("NULL")] + rest)[3..] == rest;
    }
  }

  // ----- Evaluation of joined operands -----

  lemma {:induction false} EvalAllOf(es: seq<Expr>, args: seq<Cell>, row: Row)
    requires es != [] && forall e | e in es :: Eval(e, args, row) in {Yes, No}
    ensures Eval(AllOf(es), args, row) == Truth(forall e | e in es :: Eval(e, args, row).Yes?)
  {
    if |es| > 1 {
      EvalAllOf(es[1..], args, row);
      assert es == [es[0]] + es[1..];
    }
  }

  lemma {:induction false} EvalAnyOf(es: seq<Expr>, args: seq<Cell>, row: Row)
    requires es != [] && forall e | e in es :: Eval(e, args, row) in {Yes, No}
    ensures Eval(AnyOf(es), args, row) == Truth(exists e | e in es :: Eval(e, args, row).Yes?)
  {
    if |es| > 1 {
      EvalAnyOf(es[1..], args, row);
      assert es == [es[0]] + es[1..];
    }
  }

  // ----- Placeholders, left to right -----

  function ArgsIn(e: Expr): seq<nat> {
    match e
    case Constant(_) => []
    case Compare(_, _, operand) => if operand.Arg? then [operand.index] else []
    case IsNull(_) => []
    case Exists(inner) => ArgsIn(inner)
    case Not(inner) => ArgsIn(inner)
    case And(l, r) => ArgsIn(l) + ArgsIn(r)
    case Or(l, r) => ArgsIn(l) + ArgsIn(r)
  }

  function ArgsInAll(es: seq<Expr>): seq<nat> {
    if es == [] then [] else ArgsIn(es[0]) + ArgsInAll(es[1..])
  }

  function Range(start: nat, count: nat): seq<nat> { seq(count, i requires 0 <= i < count => start + i) }

  lemma RangeSplits(start: nat, m: nat, n: nat)
    ensures Range(start, m) + Range(start + m, n) == Range(start, m + n)
  {
  }

  lemma {:induction false} ArgsOfJoined(es: seq<Expr>)
    requires es != []
    ensures ArgsIn(AllOf(es)) == ArgsInAll(es) && ArgsIn(AnyOf(es)) == ArgsInAll(es)
  {
    if |es| > 1 { ArgsOfJoined(es[1..]); }
  }

  // ----- Columns -----

  function ColumnsIn(e: Expr): set<string> {
    match e
    case Constant(_) => {}
    case Compare(column, _, operand) => {column} + if operand.Column? then {operand.name} else {}
    case IsNull(column) => {column}
    case Exists(inner) => ColumnsIn(inner)
    case Not(inner) => ColumnsIn(inner)
    case And(l, r) => ColumnsIn(l) + ColumnsIn(r)
    case Or(l, r) => ColumnsIn(l) + ColumnsIn(r)
  }

  function ColumnsInAll(es: seq<Expr>): set<string> {
    if es == [] then {} else ColumnsIn(es[0]) + ColumnsInAll(es[1..])
  }

  lemma {:induction false} ColumnsOfJoined(es: seq<Expr>)
    requires es != []
    ensures ColumnsIn(AllOf(es)) == ColumnsInAll(es) && ColumnsIn(AnyOf(es)) == ColumnsInAll(es)
  {
    if |es| > 1 { ColumnsOfJoined(es[1..]); }
  }
}
