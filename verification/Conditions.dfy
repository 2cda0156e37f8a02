/**
 A list of conditions joined with AND, numbered from the first free placeholder, each binding its
 own arguments. Both the search queries and bulk delete build their WHERE text this way.
 */
module Conditions {
  import opened Wrappers
  import opened Json
  import opened Tables
  import opened SqlText
  import opened Sql
  import opened SqlGrammar
  import opened Fragments
  import opened MetadataFilter

  datatype Condition =
    | Metadata(filter: Filter)
    | Test(column: string, op: string, cell: Cell)
    | NotAccessedSince(time: Time)

  predicate WellFormed(c: Condition) {
    c.Test? ==> Plain(c.column) && Plain(c.op) && !Keyword(c.column) && c.op != "IS" && c.op != "@>"
  }

  predicate AllWellFormed(cs: seq<Condition>) { forall c | c in cs :: WellFormed(c) }

  // ----- Text, arguments and parsed form -----

  const FROM_LOCATIONS: seq<string> := ["SELECT", "1", "FROM", "file_locations", "fl", "WHERE"]

  function RecentTexts(p: nat): seq<string> {
    [Phrase(["fl.last_accessed_at", "IS", "NULL"]), Comparison("fl.last_accessed_at", ">=", p)]
  }

  function StaleTexts(p: nat): seq<string> {
    [Phrase(["fl.file_id", "=", "fr.file_id"]), InParens(Join(RecentTexts(p), " OR "))]
  }

  function ExistsText(parts: seq<string>): string {
    "EXISTS " + InParens(Phrase(FROM_LOCATIONS) + (" " + Join(parts, " AND ")))
  }

  /** NOT EXISTS (SELECT 1 FROM file_locations fl WHERE fl.file_id = fr.file_id
      AND (fl.last_accessed_at IS NULL OR fl.last_accessed_at >= $p)) */
  function StaleText(p: nat): string {
    "NOT " + ExistsText(StaleTexts(p))
  }

  function Text(c: Condition, next: nat): string {
    match c
    case Metadata(f) => Clause(f, next)
    case Test(column, op, _) => Comparison(column, op, next)
    case NotAccessedSince(_) => StaleText(next)
  }

  function JsonCells(params: seq<Json>): seq<Cell> {
    seq(|params|, i requires 0 <= i < |params| => JsonCell(params[i]))
  }

  function Cells(c: Condition): seq<Cell> {
    match c
    case Metadata(f) => JsonCells(Leaves(f))
    case Test(_, _, cell) => [cell]
    case NotAccessedSince(t) => [TimeCell(t)]
  }

  function RecentExprs(p: nat): seq<Expr> {
    [IsNull("fl.last_accessed_at"), Compare("fl.last_accessed_at", ">=", Arg(p))]
  }

  function StaleExprs(p: nat): seq<Expr> {
    [Compare("fl.file_id", "=", Column("fr.file_id")), AnyOf(RecentExprs(p))]
  }

  function StaleExpr(p: nat): Expr { Sql.Not(Exists(AllOf(StaleExprs(p)))) }

  function Parsing(c: Condition, next: nat): Expr {
    match c
    case Metadata(f) => ExprOf(f, next)
    case Test(column, op, _) => Compare(column, op, Arg(next))
    case NotAccessedSince(_) => StaleExpr(next)
  }

  /** `f` of each condition, numbered past the arguments of those before it. */
  function Numbered<T>(cs: seq<Condition>, next: nat, f: (Condition, nat) -> T): (ts: seq<T>)
    ensures |ts| == |cs|
  {
    if cs == [] then [] else [f(cs[0], next)] + Numbered(cs[1..], next + |Cells(cs[0])|, f)
  }

  function Texts(cs: seq<Condition>, next: nat): seq<string> { Numbered(cs, next, Text) }

  function Parsings(cs: seq<Condition>, next: nat): seq<Expr> { Numbered(cs, next, Parsing) }

  function AllCells(cs: seq<Condition>): seq<Cell> {
    if cs == [] then [] else Cells(cs[0]) + AllCells(cs[1..])
  }

  // ----- The subquery on file_locations -----

  lemma ColumnNamesArePlain()
    ensures Plain("fl.file_id") && Plain("=") && Plain("fr.file_id") && Plain("fl.last_accessed_at") && Plain(">=")
    ensures !Keyword("fl.file_id") && !Keyword("fl.last_accessed_at")
    ensures "=" != "IS" && "=" != "@>" && ">=" != "IS" && ">=" != "@>"
  {
    assert ">="[0] != "@>"[0];
  }

  lemma LocationWordsArePlain()
    ensures forall i :: 0 <= i < |FROM_LOCATIONS| ==> Plain(FROM_LOCATIONS[i])
    ensures LOCATIONS_HEAD == [LPar] + Words(FROM_LOCATIONS)
  {
    assert Plain("SELECT") && Plain("1") && Plain("FROM") && Plain("file_locations") && Plain("fl") && Plain("WHERE");
  }

  lemma {:induction false} LexHeaded(ws: seq<string>, inner: string)
    requires ws != [] && forall i :: 0 <= i < |ws| ==> Plain(ws[i])
    ensures Lex(InParens(Phrase(ws) + (" " + inner))) == ([LPar] + Words(ws)) + (Lex(inner) + [RPar])
  {
    LexPhrase(ws, " " + inner);
    assert (" " + inner)[1..] == inner;
    LexInParens(Phrase(ws) + (" " + inner));
  }

  lemma {:induction false} LexWordHeaded(word: string, ws: seq<string>, inner: string)
    requires Plain(word) && ws != [] && forall i :: 0 <= i < |ws| ==> Plain(ws[i])
    ensures Lex(word + " " + InParens(Phrase(ws) + (" " + inner)))
      == [Word(word)] + (([LPar] + Words(ws)) + (Lex(inner) + [RPar]))
  {
    LexHeaded(ws, inner);
    LexSpaced(word, InParens(Phrase(ws) + (" " + inner)));
  }

  lemma {:induction false} LexExists(parts: seq<string>)
    ensures Lex(ExistsText(parts)) == [Word("EXISTS")] + (LOCATIONS_HEAD + (Lex(Join(parts, " AND ")) + [RPar]))
  {
    LocationWordsArePlain();
    LexWordHeaded("EXISTS", FROM_LOCATIONS, Join(parts, " AND "));
    assert "EXISTS " == "EXISTS" + " ";
  }

  lemma UnitExists(texts: seq<string>, es: seq<Expr>)
    requires Units(texts, es) && texts != []
    ensures Unit(ExistsText(texts), Exists(AllOf(es)))
  {
    LexExists(texts);
    assert " AND " == " " + "AND" + " ";
    LexJoin(texts, "AND");
    UnitsRead(texts, es);
    AllOfInside(LexAll(texts), es);
    ReadsExists(Lex(Join(texts, " AND ")), AllOf(es));
  }

  lemma UnitRecent(p: nat)
    ensures Unit(InParens(Join(RecentTexts(p), " OR ")), AnyOf(RecentExprs(p)))
  {
    var column := "fl.last_accessed_at";
    var never, since := Phrase([column, "IS", "NULL"]), Comparison(column, ">=", p);
    ColumnNamesArePlain();
    UnitIsNull(column);
    UnitComparison(column, ">=", p);
    TwoUnits(never, IsNull(column), since, Compare(column, ">=", Arg(p)));
    UnitAnyOf(RecentTexts(p), RecentExprs(p));
  }

  lemma UnitStale(p: nat)
    ensures Unit(StaleText(p), StaleExpr(p))
  {
    UnitRecent(p);
    ColumnNamesArePlain();
    UnitColumns("fl.file_id", "=", "fr.file_id");
    var texts, es := StaleTexts(p), StaleExprs(p);
    TwoUnits(texts[0], es[0], texts[1], es[1]);
    UnitExists(texts, es);
    UnitNegated(ExistsText(texts), Exists(AllOf(es)));
  }

  // ----- The joined conditions -----

  lemma TextIsUnit(c: Condition, next: nat)
    requires WellFormed(c)
    ensures Unit(Text(c, next), Parsing(c, next))
  {
    match c
    case Metadata(f) => ClauseIsUnit(f, next);
    case Test(column, op, _) => UnitComparison(column, op, next);
    case NotAccessedSince(_) => UnitStale(next);
  }

  lemma NumberedCons<T>(c: Condition, cs: seq<Condition>, next: nat, f: (Condition, nat) -> T)
    ensures Numbered([c] + cs, next, f) == [f(c, next)] + Numbered(cs, next + |Cells(c)|, f)
  {
    assert ([c] + cs)[1..] == cs;
  }

  lemma {:induction false} NumberedTwo<T>(c: Condition, d: Condition, cs: seq<Condition>, next: nat,
                                          f: (Condition, nat) -> T)
    ensures
      var after := next + |Cells(c)|;
      Numbered([c, d] + cs, next, f) == [f(c, next), f(d, after)] + Numbered(cs, after + |Cells(d)|, f)
  {
    var after := next + |Cells(c)|;
    Pair(c, d, cs);
    NumberedCons(c, [d] + cs, next, f);
    NumberedCons(d, cs, after, f);
    Pair(f(c, next), f(d, after), Numbered(cs, after + |Cells(d)|, f));
  }

  lemma Around<T>(x: T, middle: seq<T>, y: T)
    ensures [x] + (middle + [y]) == [x] + middle + [y]
  {
  }

  lemma Pair<T>(x: T, y: T, more: seq<T>)
    ensures [x] + ([y] + more) == [x, y] + more
  {
  }

  lemma CellsCons(c: Condition, cs: seq<Condition>)
    ensures AllCells([c] + cs) == Cells(c) + AllCells(cs)
  {
    assert ([c] + cs)[1..] == cs;
  }

  lemma {:induction false} CellsSnoc(cs: seq<Condition>, c: Condition)
    ensures AllCells(cs + [c]) == AllCells(cs) + Cells(c)
  {
    if cs == [] {
      assert cs + [c] == [c] + [];
      CellsCons(c, []);
    } else {
      assert cs + [c] == [cs[0]] + (cs[1..] + [c]);
      CellsCons(cs[0], cs[1..] + [c]);
      CellsSnoc(cs[1..], c);
    }
  }

  lemma {:induction false} NumberedSnoc<T>(cs: seq<Condition>, c: Condition, next: nat, last: nat,
                                           f: (Condition, nat) -> T)
    requires last == next + |AllCells(cs)|
    ensures Numbered(cs + [c], next, f) == Numbered(cs, next, f) + [f(c, last)]
  {
    if cs == [] {
      assert cs + [c] == [c] + [];
      NumberedCons(c, [], next, f);
    } else {
      var first, others := cs[0], cs[1..];
      var after := next + |Cells(first)|;
      assert cs == [first] + others;
      CellsCons(first, others);
      NumberedSnoc(others, c, after, last, f);
      Around(first, others, c);
      NumberedCons(first, others + [c], next, f);
      NumberedCons(first, others, next, f);
      Around(f(first, next), Numbered(others, after, f), f(c, last));
    }
  }

  /** What two functions give for each condition and number agrees along a list. */
  lemma {:induction false} NumberedAgree<A, B>(cs: seq<Condition>, next: nat, f: (Condition, nat) -> A,
                                               g: (Condition, nat) -> B, agree: (A, B) -> bool, i: nat)
    requires i < |cs| && forall c, n: nat :: c in cs ==> agree(f(c, n), g(c, n))
    ensures agree(Numbered(cs, next, f)[i], Numbered(cs, next, g)[i])
  {
    assert cs[0] in cs;
    if i > 0 { NumberedAgree(cs[1..], next + |Cells(cs[0])|, f, g, agree, i - 1); }
  }

  lemma {:induction false} TextsAreUnits(cs: seq<Condition>, next: nat)
    requires AllWellFormed(cs)
    ensures Units(Texts(cs, next), Parsings(cs, next))
  {
    forall c, n: nat | c in cs ensures Unit(Text(c, n), Parsing(c, n)) {
      TextIsUnit(c, n);
    }
    forall i | 0 <= i < |cs| ensures Unit(Texts(cs, next)[i], Parsings(cs, next)[i]) {
      NumberedAgree(cs, next, Text, Parsing, Unit, i);
    }
  }

  /** Followed by a tail that cannot extend it, the joined text reads as the conjunction. */
  lemma WhereReads(cs: seq<Condition>, tail: string)
    requires AllWellFormed(cs) && cs != []
    requires Apart(Join(Texts(cs, 1), " AND "), tail) && Ends(Lex(tail))
    ensures ReadWhere(Join(Texts(cs, 1), " AND ") + tail) == Parsed(AllOf(Parsings(cs, 1)), Lex(tail))
  {
    TextsAreUnits(cs, 1);
    JoinedReads(Texts(cs, 1), Parsings(cs, 1), tail);
  }

  lemma JoinedReads(texts: seq<string>, es: seq<Expr>, tail: string)
    requires Units(texts, es) && texts != []
    requires Apart(Join(texts, " AND "), tail) && Ends(Lex(tail))
    ensures ReadWhere(Join(texts, " AND ") + tail) == Parsed(AllOf(es), Lex(tail))
  {
    assert " AND " == " " + "AND" + " ";
    LexJoin(texts, "AND");
    UnitsRead(texts, es);
    LexConcat(Join(texts, " AND "), tail);
    ReadAllOf(LexAll(texts), es, Lex(tail));
    ConjunctionEnds(Joined(LexAll(texts), AND) + Lex(tail), AllOf(es), Lex(tail));
  }

  // ----- Meaning -----

  /** What a condition says of a row, without SQL text. */
  predicate Meets(c: Condition, row: Row) {
    match c
    case Metadata(f) => Holds(f, row.fr.metadata)
    case Test(column, op, cell) => Lookup(column, row).Some? && Apply(op, Lookup(column, row).value, cell).Yes?
    case NotAccessedSince(t) =>
      forall l | l in row.locations && l.fileId == row.fr.fileId ::
        l.lastAccessed.Some? && l.lastAccessed.value < t
  }

  predicate AllMeet(cs: seq<Condition>, row: Row) { forall c | c in cs :: Meets(c, row) }

  lemma AllMeetAppend(a: seq<Condition>, b: seq<Condition>, row: Row)
    ensures AllMeet(a + b, row) == (AllMeet(a, row) && AllMeet(b, row))
  {
    assert forall c :: c in a + b <==> c in a || c in b;
  }

  lemma AllMeetOne(c: Condition, row: Row)
    ensures AllMeet([c], row) == Meets(c, row)
  {
    assert c in [c];
  }

  /** The columns exist in this row and have the type of the argument. */
  predicate Defined(c: Condition, row: Row) {
    c.Test? ==> Lookup(c.column, row).Some? && Apply(c.op, Lookup(c.column, row).value, c.cell) in {Yes, No}
  }

  predicate BoundFrom(args: seq<Cell>, next: nat, cells: seq<Cell>) {
    1 <= next && next - 1 + |cells| <= |args|
    && forall i :: 0 <= i < |cells| ==> args[next - 1 + i] == cells[i]
  }

  lemma LookupLocation(row: Row)
    requires row.fl.Some?
    ensures Lookup("fl.file_id", row) == Some(UuidCell(row.fl.value.fileId))
    ensures Lookup("fr.file_id", row) == Some(UuidCell(row.fr.fileId))
    ensures Lookup("fl.last_accessed_at", row) ==
      Some(if row.fl.value.lastAccessed.Some? then TimeCell(row.fl.value.lastAccessed.value) else NullCell)
  {
  }

  lemma EvalRecent(p: nat, t: Time, args: seq<Cell>, row: Row)
    requires 1 <= p <= |args| && args[p - 1] == TimeCell(t) && row.fl.Some?
    ensures Eval(AllOf(StaleExprs(p)), args, row) ==
      Truth(row.fl.value.fileId == row.fr.fileId
            && (row.fl.value.lastAccessed.Some? ==> row.fl.value.lastAccessed.value >= t))
  {
    LookupLocation(row);
    var never, since := RecentExprs(p)[0], RecentExprs(p)[1];
    assert AnyOf(RecentExprs(p)) == Sql.Or(never, since);
    assert AllOf(StaleExprs(p)) == Sql.And(StaleExprs(p)[0], Sql.Or(never, since));
    assert Resolve(Arg(p), args, row) == Some(TimeCell(t));
    assert Eval(never, args, row) == Truth(row.fl.value.lastAccessed.None?);
    assert Eval(since, args, row) ==
      if row.fl.value.lastAccessed.None? then Unknown else Truth(row.fl.value.lastAccessed.value >= t);
  }

  lemma {:induction false} EvalStale(p: nat, t: Time, args: seq<Cell>, row: Row, locations: seq<LocationRow>)
    requires 1 <= p <= |args| && args[p - 1] == TimeCell(t)
    ensures EvalExists(AllOf(StaleExprs(p)), args, row, locations) ==
      Truth(exists l | l in locations ::
        l.fileId == row.fr.fileId && (l.lastAccessed.Some? ==> l.lastAccessed.value >= t))
  {
    if locations != [] {
      EvalRecent(p, t, args, row.(fl := Some(locations[0])));
      EvalStale(p, t, args, row, locations[1..]);
      assert locations == [locations[0]] + locations[1..];
    }
  }

  lemma BoundSplits(args: seq<Cell>, next: nat, first: seq<Cell>, others: seq<Cell>)
    requires BoundFrom(args, next, first + others)
    ensures BoundFrom(args, next, first) && BoundFrom(args, next + |first|, others)
  {
    forall i | 0 <= i < |first| ensures args[next - 1 + i] == first[i] {
      assert (first + others)[i] == first[i];
    }
    forall i | 0 <= i < |others| ensures args[next + |first| - 1 + i] == others[i] {
      assert (first + others)[|first| + i] == others[i];
    }
  }

  lemma EvalMeets(c: Condition, next: nat, args: seq<Cell>, row: Row)
    requires Defined(c, row) && BoundFrom(args, next, Cells(c))
    ensures Eval(Parsing(c, next), args, row) == Truth(Meets(c, row))
  {
    match c
    case Metadata(f) =>
      forall i | 0 <= i < |Leaves(f)| ensures args[next - 1 + i] == JsonCell(Leaves(f)[i]) {
        assert Cells(c)[i] == JsonCell(Leaves(f)[i]);
      }
      EvalMatchesHolds(f, next, args, row);
    case Test(_, _, cell) =>
      assert Cells(c)[0] == cell && args[next - 1 + 0] == cell;
    case NotAccessedSince(t) =>
      assert args[next - 1 + 0] == Cells(c)[0];
      EvalStale(next, t, args, row, row.locations);
  }

  lemma {:induction false} EvalEach(cs: seq<Condition>, next: nat, i: nat, args: seq<Cell>, row: Row)
    requires i < |cs| && (forall c | c in cs :: Defined(c, row)) && BoundFrom(args, next, AllCells(cs))
    ensures Eval(Parsings(cs, next)[i], args, row) == Truth(Meets(cs[i], row))
  {
    var c, others, n := cs[0], cs[1..], |Cells(cs[0])|;
    assert cs == [c] + others;
    CellsCons(c, others);
    NumberedCons(c, others, next, Parsing);
    BoundSplits(args, next, Cells(c), AllCells(others));
    if i == 0 {
      EvalMeets(c, next, args, row);
    } else {
      EvalEach(others, next + n, i - 1, args, row);
    }
  }

  lemma {:induction false} EvalConjunction(cs: seq<Condition>, es: seq<Expr>, args: seq<Cell>, row: Row)
    requires |cs| == |es| && cs != []
    requires forall i :: 0 <= i < |cs| ==> Eval(es[i], args, row) == Truth(Meets(cs[i], row))
    ensures Eval(AllOf(es), args, row) == Truth(AllMeet(cs, row))
  {
    assert forall c :: c in cs <==> c == cs[0] || c in cs[1..];
    assert AllMeet(cs, row) == (Meets(cs[0], row) && AllMeet(cs[1..], row));
    if |cs| > 1 { EvalConjunction(cs[1..], es[1..], args, row); }
  }

  lemma {:induction false} PlaceholdersOf(c: Condition, next: nat)
    ensures ArgsIn(Parsing(c, next)) == Range(next, |Cells(c)|)
  {
    match c
    case Metadata(f) => PlaceholdersInOrder(f, next);
    case Test(_, _, _) =>
    case NotAccessedSince(_) =>
      ArgsOfJoined(RecentExprs(next));
      ArgsOfJoined(StaleExprs(next));
      assert ArgsIn(StaleExpr(next)) == [next];
  }

  /** Under its own arguments the conjunction is true of exactly the rows that meet every condition. */
  lemma WhereMeans(cs: seq<Condition>, args: seq<Cell>, row: Row)
    requires cs != [] && (forall c | c in cs :: Defined(c, row)) && AllCells(cs) <= args
    ensures Eval(AllOf(Parsings(cs, 1)), args, row) == Truth(AllMeet(cs, row))
  {
    forall i | 0 <= i < |cs| ensures Eval(Parsings(cs, 1)[i], args, row) == Truth(Meets(cs[i], row)) {
      EvalEach(cs, 1, i, args, row);
    }
    EvalConjunction(cs, Parsings(cs, 1), args, row);
  }

  lemma {:induction false} ConditionPlaceholders(cs: seq<Condition>, next: nat)
    ensures ArgsInAll(Parsings(cs, next)) == Range(next, |AllCells(cs)|)
  {
    if cs != [] {
      var n := |Cells(cs[0])|;
      PlaceholdersOf(cs[0], next);
      ConditionPlaceholders(cs[1..], next + n);
      assert Parsings(cs, next)[1..] == Parsings(cs[1..], next + n);
      RangeSplits(next, n, |AllCells(cs[1..])|);
    }
  }
}
