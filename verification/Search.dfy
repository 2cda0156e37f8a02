/** The metadata search: two queries that share one WHERE text, and their separately built arguments. */
module Search {
  import opened Wrappers
  import opened Json
  import opened Decimal
  import opened Tables
  import opened SqlText
  import opened Sql
  import opened SqlGrammar
  import opened Fragments
  import opened MetadataFilter
  import opened Conditions

  class PgArguments {
    var values: seq<Cell>

    constructor ()
      ensures values == []
    {
      values := [];
    }

    method Add(value: Cell)
      modifies this
      ensures values == old(values) + [value]
    {
      values := values + [value];
    }

    method AddJson(params: seq<Json>)
      modifies this
      ensures values == old(values) + JsonCells(params)
    {
      for i := 0 to |params|
        invariant values == old(values) + JsonCells(params[..i])
      {
        assert params[..i + 1] == params[..i] + [params[i]];
        Add(JsonCell(params[i]));
      }
      assert params[..|params|] == params;
    }
  }

  // ----- Name and date filters -----

  datatype SearchExtras = SearchExtras(
    nameContains: Option<string>, createdAfter: Option<Time>, createdBefore: Option<Time>)

  function When(value: Option<Time>, column: string, op: string): seq<Condition> {
    if value.Some? then [Test(column, op, TimeCell(value.value))] else []
  }

  function Extras(x: SearchExtras): seq<Condition> {
    (if x.nameContains.Some? then [Test("fr.original_name", "ILIKE", TextCell("%" + x.nameContains.value + "%"))]
      else [])
    + When(x.createdAfter, "fr.created_at", ">=") + When(x.createdBefore, "fr.created_at", "<=")
  }

  predicate ExtrasHold(x: SearchExtras, fr: RefRow) {
    && (x.nameContains.Some? ==> ILike(fr.originalName, "%" + x.nameContains.value + "%"))
    && (x.createdAfter.Some? ==> x.createdAfter.value <= fr.createdAt)
    && (x.createdBefore.Some? ==> fr.createdAt <= x.createdBefore.value)
  }

  lemma TestAdded(done: seq<Condition>, c: Condition, start: nat, idx: nat)
    requires c.Test? && idx == start + |AllCells(done)|
    ensures Texts(done + [c], start) == Texts(done, start) + [Comparison(c.column, c.op, idx)]
    ensures AllCells(done + [c]) == AllCells(done) + [c.cell]
  {
    NumberedSnoc(done, c, start, idx, Text);
    CellsSnoc(done, c);
  }

  method ExtrasClause(x: SearchExtras, startParam: nat) returns (sql: string, idx: nat)
    ensures sql == if Extras(x) == [] then "" else " AND " + Join(Texts(Extras(x), startParam), " AND ")
    ensures idx == startParam + |AllCells(Extras(x))|
  {
    var clauses: seq<string> := [];
    ghost var done: seq<Condition> := [];
    idx := startParam;
    if x.nameContains.Some? {
      var c := Test("fr.original_name", "ILIKE", TextCell("%" + x.nameContains.value + "%"));
      TestAdded(done, c, startParam, idx);
      clauses := clauses + [Comparison("fr.original_name", "ILIKE", idx)];
      idx := idx + 1;
      done := done + [c];
    }
    if x.createdAfter.Some? {
      var c := Test("fr.created_at", ">=", TimeCell(x.createdAfter.value));
      TestAdded(done, c, startParam, idx);
      clauses := clauses + [Comparison("fr.created_at", ">=", idx)];
      idx := idx + 1;
      done := done + [c];
    }
    if x.createdBefore.Some? {
      var c := Test("fr.created_at", "<=", TimeCell(x.createdBefore.value));
      TestAdded(done, c, startParam, idx);
      clauses := clauses + [Comparison("fr.created_at", "<=", idx)];
      idx := idx + 1;
      done := done + [c];
    }
    assert done == Extras(x);
    sql := if clauses == [] then "" else " AND " + Join(clauses, " AND ");
  }

  method BindExtras(x: SearchExtras, args: PgArguments)
    modifies args
    ensures args.values == old(args.values) + AllCells(Extras(x))
  {
    ghost var done: seq<Condition> := [];
    if x.nameContains.Some? {
      args.Add(TextCell("%" + x.nameContains.value + "%"));
      var c := Test("fr.original_name", "ILIKE", TextCell("%" + x.nameContains.value + "%"));
      CellsSnoc(done, c);
      done := done + [c];
    }
    if x.createdAfter.Some? {
      args.Add(TimeCell(x.createdAfter.value));
      var c := Test("fr.created_at", ">=", TimeCell(x.createdAfter.value));
      CellsSnoc(done, c);
      done := done + [c];
    }
    if x.createdBefore.Some? {
      args.Add(TimeCell(x.createdBefore.value));
      var c := Test("fr.created_at", "<=", TimeCell(x.createdBefore.value));
      CellsSnoc(done, c);
      done := done + [c];
    }
    assert done == Extras(x);
  }

  // ----- The search -----

  const I64_MAX: int := 0x7FFF_FFFF_FFFF_FFFF

  datatype SearchRequest = SearchRequest(
    projectId: Uuid, filters: Option<Filter>, extras: SearchExtras, page: int, perPage: int)

  /** The text after WHERE and the arguments, for the count and for one page of rows; and the page and
      its size as they are reported back. */
  datatype SearchQuery = SearchQuery(
    countText: string, countArgs: seq<Cell>, dataText: string, dataArgs: seq<Cell>, page: int, perPage: int)

  predicate Matches(q: SearchRequest, row: Row) {
    && row.fr.projectId == q.projectId
    && (q.filters.Some? ==> Holds(q.filters.value, row.fr.metadata))
    && ExtrasHold(q.extras, row.fr)
  }

  function Limit(q: SearchRequest): int { if q.perPage < 1 then 1 else if q.perPage > 100 then 100 else q.perPage }

  function Offset(q: SearchRequest): int {
    var skipped := (if q.page < 1 then 0 else q.page - 1) * Limit(q);
    if skipped > I64_MAX then I64_MAX else skipped
  }

  // ----- What the server makes of the tail -----

  /** By which column, newest first or not, and the placeholders of the limit and the offset. */
  datatype Tail = Tail(column: string, descending: bool, limit: nat, offset: nat)

  function ReadTail(ts: seq<Token>): Option<Tail> {
    if |ts| == 8 && ts[0] == Word("ORDER") && ts[1] == Word("BY") && ts[2].Word? && ts[4] == Word("LIMIT")
       && ts[5].Param? && ts[6] == Word("OFFSET") && ts[7].Param?
    then Some(Tail(ts[2].text, ts[3] == Word("DESC"), ts[5].index, ts[7].index))
    else None
  }

  /** The n-th of the arguments, counting from one. */
  function NumberAt(args: seq<Cell>, n: nat): Option<int> {
    if 1 <= n <= |args| && args[n - 1].IntCell? then Some(args[n - 1].number) else None
  }

  /** The request's window on its matching rows: 1 to 100 of them, as many as asked for where that is in
      range, behind those of the pages before; no page before the first, and no offset beyond 64 bits. */
  predicate IsWindow(page: int, perPage: int, limit: int, offset: int) {
    && 1 <= limit <= 100 && (perPage <= limit || limit == 100) && (limit <= perPage || limit == 1)
    && 0 <= offset <= I64_MAX
    && (page <= 1 ==> offset == 0)
    && (page > 1 ==> offset == (page - 1) * limit || I64_MAX == offset < (page - 1) * limit)
  }

  /** Rows by creation, newest first, from the offset on, no more than the limit; page and limit are
      reported back. */
  predicate FetchesWindow(q: SearchRequest, s: SearchQuery, rest: seq<Token>) {
    && ReadTail(rest).Some?
    && var tail := ReadTail(rest).value;
       var limit, offset := NumberAt(s.dataArgs, tail.limit), NumberAt(s.dataArgs, tail.offset);
       && tail.column == "fr.created_at" && tail.descending
       && limit.Some? && offset.Some? && IsWindow(q.page, q.perPage, limit.value, offset.value)
       && s.perPage == limit.value && s.page == if q.page < 1 then 1 else q.page
  }

  function PageTail(k: nat): seq<Token> {
    [Word("ORDER"), Word("BY"), Word("fr.created_at"), Word("DESC"), Word("LIMIT"), Param(k), Word("OFFSET"),
      Param(k + 1)]
  }

  /** Both queries select exactly the rows that match, every placeholder naming its own argument, used
      once, in order; the second query takes the page's window of them, by its last two arguments. */
  ghost predicate Answers(q: SearchRequest, s: SearchQuery) {
    var count, data := ReadWhere(s.countText), ReadWhere(s.dataText);
    && count.Parsed? && count.rest == []
    && data.Parsed? && data.expr == count.expr && FetchesWindow(q, s, data.rest)
    && |s.dataArgs| == |s.countArgs| + 2 && s.dataArgs[..|s.countArgs|] == s.countArgs
    && ArgsIn(count.expr) == Range(1, |s.countArgs|)
    && (forall row: Row :: Eval(count.expr, s.countArgs, row) == Truth(Matches(q, row)))
    && (forall row: Row :: Eval(count.expr, s.dataArgs, row) == Truth(Matches(q, row)))
  }

  function TreeOf(q: SearchRequest): Filter { if q.filters.Some? then q.filters.value else Filter.And([]) }

  function SearchConditions(q: SearchRequest): seq<Condition> {
    [Test("fr.project_id", "=", UuidCell(q.projectId)), Metadata(TreeOf(q))] + Extras(q.extras)
  }

  function SearchText(q: SearchRequest): string { Join(Texts(SearchConditions(q), 1), " AND ") }

  function TailText(k: nat): string {
    " " + (Phrase(["ORDER", "BY", "fr.created_at", "DESC", "LIMIT"])
      + (" " + ("$" + Show(k) + (" " + ("OFFSET" + " " + ("$" + Show(k + 1)))))))
  }

  lemma LexTail(k: nat)
    ensures Lex(TailText(k)) == PageTail(k)
  {
    var words := ["ORDER", "BY", "fr.created_at", "DESC", "LIMIT"];
    assert Plain("ORDER") && Plain("BY") && Plain("fr.created_at") && Plain("DESC") && Plain("LIMIT");
    LexTailWords(words, k);
    assert Words(words) == [Word("ORDER"), Word("BY"), Word("fr.created_at"), Word("DESC"), Word("LIMIT")];
  }

  lemma LexTailWords(words: seq<string>, k: nat)
    requires words != [] && forall i :: 0 <= i < |words| ==> Plain(words[i])
    ensures Lex(" " + (Phrase(words) + (" " + ("$" + Show(k) + (" " + ("OFFSET" + " " + ("$" + Show(k + 1))))))))
         == Words(words) + [Param(k), Word("OFFSET"), Param(k + 1)]
  {
    var last := "$" + Show(k + 1);
    LexParam(k + 1, "");
    assert last + "" == last;
    var offset := " " + ("OFFSET" + " " + last);
    LexSpaced("OFFSET", last);
    assert offset[1..] == "OFFSET" + " " + last;
    LexParam(k, offset);
    var tail := " " + ("$" + Show(k) + offset);
    assert tail[1..] == "$" + Show(k) + offset;
    LexPhrase(words, tail);
    assert (" " + (Phrase(words) + tail))[1..] == Phrase(words) + tail;
  }

  lemma SearchColumnsArePlain()
    ensures Plain("fr.project_id") && Plain("=") && Plain("fr.original_name") && Plain("ILIKE")
    ensures Plain("fr.created_at") && Plain(">=") && Plain("<=")
    ensures "=" != "IS" && "=" != "@>" && "ILIKE" != "IS" && "ILIKE" != "@>"
    ensures ">=" != "IS" && ">=" != "@>" && "<=" != "IS" && "<=" != "@>"
  {
    assert ">="[0] == '>' && "<="[0] == '<' && "@>"[0] == '@' && "IS"[0] == 'I';
  }

  lemma ExtrasWellFormed(x: SearchExtras)
    ensures AllWellFormed(Extras(x))
  {
    SearchColumnsArePlain();
  }

  lemma ExtrasDefined(x: SearchExtras)
    ensures forall c, row | c in Extras(x) :: Defined(c, row)
  {
    SearchColumnsDefined();
  }

  lemma SearchColumnsDefined()
    ensures forall row: Row :: Lookup("fr.project_id", row) == Some(UuidCell(row.fr.projectId))
    ensures forall row: Row :: Lookup("fr.original_name", row) == Some(TextCell(row.fr.originalName))
    ensures forall row: Row :: Lookup("fr.created_at", row) == Some(TimeCell(row.fr.createdAt))
  {
  }

  lemma SearchConditionsWellFormed(q: SearchRequest)
    ensures AllWellFormed(SearchConditions(q))
    ensures forall c, row | c in SearchConditions(q) :: Defined(c, row)
  {
    SearchColumnsArePlain();
    SearchColumnsDefined();
    ExtrasWellFormed(q.extras);
    ExtrasDefined(q.extras);
    var cs := SearchConditions(q);
    assert WellFormed(cs[0]) && WellFormed(cs[1]);
    assert forall c :: c in cs <==> c == cs[0] || c == cs[1] || c in Extras(q.extras);
  }

  lemma MatchesMeansAllMeet(q: SearchRequest, row: Row)
    ensures AllMeet(SearchConditions(q), row) == Matches(q, row)
  {
    var project, tree := Test("fr.project_id", "=", UuidCell(q.projectId)), Metadata(TreeOf(q));
    AllMeetAppend([project, tree], Extras(q.extras), row);
    AllMeetAppend([project], [tree], row);
    AllMeetOne(project, row);
    AllMeetOne(tree, row);
    ExtrasMeanHold(q.extras, row);
  }

  lemma WhenMeets(value: Option<Time>, column: string, op: string, row: Row)
    ensures AllMeet(When(value, column, op), row)
      == (value.Some? ==> Meets(Test(column, op, TimeCell(value.value)), row))
  {
  }

  lemma ExtrasMeanHold(x: SearchExtras, row: Row)
    ensures AllMeet(Extras(x), row) == ExtrasHold(x, row.fr)
  {
    var after, before := When(x.createdAfter, "fr.created_at", ">="), When(x.createdBefore, "fr.created_at", "<=");
    var name := if x.nameContains.Some? then "%" + x.nameContains.value + "%" else "";
    var named := Test("fr.original_name", "ILIKE", TextCell(name));
    var names := if x.nameContains.Some? then [named] else [];
    AllMeetAppend(names + after, before, row);
    AllMeetAppend(names, after, row);
    AllMeetOne(named, row);
    WhenMeets(x.createdAfter, "fr.created_at", ">=", row);
    WhenMeets(x.createdBefore, "fr.created_at", "<=", row);
  }

  lemma WhereWithTail(q: SearchRequest, tail: string)
    requires tail == "" || tail[0] == ' '
    requires Ends(Lex(tail))
    ensures ReadWhere(SearchText(q) + tail) == Parsed(AllOf(Parsings(SearchConditions(q), 1)), Lex(tail))
  {
    SearchConditionsWellFormed(q);
    WhereReads(SearchConditions(q), tail);
  }

  lemma LimitAndOffset(q: SearchRequest)
    ensures IsWindow(q.page, q.perPage, Limit(q), Offset(q))
  {
    if q.page > 1 { assert (q.page - 1) * Limit(q) >= 0; }
  }

  lemma TailFetches(q: SearchRequest, s: SearchQuery)
    requires s.dataArgs == s.countArgs + [IntCell(Limit(q)), IntCell(Offset(q))]
    requires s.perPage == Limit(q) && s.page == if q.page < 1 then 1 else q.page
    ensures FetchesWindow(q, s, PageTail(|s.countArgs| + 1))
  {
    var k := |s.countArgs| + 1;
    LimitAndOffset(q);
    assert ReadTail(PageTail(k)) == Some(Tail("fr.created_at", true, k, k + 1));
    assert NumberAt(s.dataArgs, k) == Some(Limit(q)) && NumberAt(s.dataArgs, k + 1) == Some(Offset(q));
  }

  lemma QueriesAnswer(q: SearchRequest, s: SearchQuery)
    requires s.countText == SearchText(q) && s.dataText == SearchText(q) + TailText(|s.countArgs| + 1)
    requires s.countArgs == AllCells(SearchConditions(q))
    requires s.dataArgs == s.countArgs + [IntCell(Limit(q)), IntCell(Offset(q))]
    requires s.perPage == Limit(q) && s.page == if q.page < 1 then 1 else q.page
    ensures Answers(q, s)
  {
    TailFetches(q, s);
    var cs, k := SearchConditions(q), |s.countArgs| + 1;
    var e := AllOf(Parsings(cs, 1));
    WhereWithTail(q, "");
    assert SearchText(q) + "" == SearchText(q);
    LexTail(k);
    assert |"ORDER"| == 5 && |"AND"| == 3 && |"OR"| == 2;
    WhereWithTail(q, TailText(k));
    ConditionPlaceholders(cs, 1);
    ArgsOfJoined(Parsings(cs, 1));
    SearchConditionsWellFormed(q);
    forall row: Row
      ensures Eval(e, s.countArgs, row) == Truth(Matches(q, row)) && Eval(e, s.dataArgs, row) == Truth(Matches(q, row))
    {
      WhereMeans(cs, s.countArgs, row);
      WhereMeans(cs, s.dataArgs, row);
      MatchesMeansAllMeet(q, row);
    }
  }

  lemma HeadedCells(project: Condition, tree: Filter, extras: seq<Condition>)
    requires project.Test?
    ensures AllCells([project, Metadata(tree)] + extras) == [project.cell] + JsonCells(Leaves(tree)) + AllCells(extras)
  {
    var filter := Metadata(tree);
    assert [project, filter] + extras == [project] + ([filter] + extras);
    CellsCons(project, [filter] + extras);
    CellsCons(filter, extras);
  }

  lemma {:induction false} HeadedJoin(c: Condition, d: Condition, cs: seq<Condition>,
                                      text: (Condition, nat) -> string)
    requires |Cells(c)| == 1
    ensures
      var others := Numbered(cs, 2 + |Cells(d)|, text);
      Join(Numbered([c, d] + cs, 1, text), " AND ")
      == text(c, 1) + " AND " + (text(d, 2) + if others == [] then "" else " AND " + Join(others, " AND "))
  {
    NumberedTwo(c, d, cs, 1, text);
    JoinTwoAndMore(text(c, 1), text(d, 2), Numbered(cs, 2 + |Cells(d)|, text), " AND ");
  }

  /** The clause and the extras, behind the project, are the whole text, and number all arguments. */
  lemma {:induction false} Assembled(q: SearchRequest, clause: string, params: nat, extrasClause: string)
    requires clause == Clause(TreeOf(q), 2) && params == |Leaves(TreeOf(q))|
    requires
      var extras := Texts(Extras(q.extras), params + 2);
      extrasClause == if Extras(q.extras) == [] then "" else " AND " + Join(extras, " AND ")
    ensures SearchText(q) == Comparison("fr.project_id", "=", 1) + " AND " + (clause + extrasClause)
    ensures |AllCells(SearchConditions(q))| == 1 + params + |AllCells(Extras(q.extras))|
  {
    var project, tree := Test("fr.project_id", "=", UuidCell(q.projectId)), Metadata(TreeOf(q));
    HeadedCells(project, TreeOf(q), Extras(q.extras));
    HeadedJoin(project, tree, Extras(q.extras), Text);
  }

  /** One JSON argument a leaf, between the project and the extras. */
  method BindSearch(q: SearchRequest, jsonbParams: seq<Json>) returns (args: PgArguments)
    requires jsonbParams == Leaves(TreeOf(q))
    ensures fresh(args) && args.values == AllCells(SearchConditions(q))
  {
    args := new PgArguments();
    args.Add(UuidCell(q.projectId));
    args.AddJson(jsonbParams);
    BindExtras(q.extras, args);
    HeadedCells(Test("fr.project_id", "=", UuidCell(q.projectId)), TreeOf(q), Extras(q.extras));
  }

  /** The text after WHERE, the JSON parameters and the first placeholder still free. */
  method SearchWhere(q: SearchRequest) returns (r: Result<string, string>, jsonbParams: seq<Json>, limitIdx: nat)
    ensures r.Ok? <==> (q.filters.Some? ==> Height(q.filters.value) < 32)
    ensures r.Ok? ==> r.value == SearchText(q) && jsonbParams == Leaves(TreeOf(q))
    ensures r.Ok? ==> limitIdx == |AllCells(SearchConditions(q))| + 1
  {
    jsonbParams, limitIdx := [], 0;
    var compiler := new Compiler(2);
    var filterClause := "TRUE";
    if q.filters.Some? {
      var compiled := compiler.Compile(q.filters.value);
      if compiled.Err? { return Err(compiled.error), [], 0; }
      filterClause := compiled.value;
    }
    jsonbParams := compiler.params;
    assert filterClause == Clause(TreeOf(q), 2) && jsonbParams == Leaves(TreeOf(q));
    var extrasClause, afterExtras := ExtrasClause(q.extras, |jsonbParams| + 2);
    Assembled(q, filterClause, |jsonbParams|, extrasClause);
    limitIdx := afterExtras;
    r := Ok(Comparison("fr.project_id", "=", 1) + " AND " + (filterClause + extrasClause));
  }

  method SearchByMetadata(q: SearchRequest) returns (r: Result<SearchQuery, string>)
    ensures r.Ok? <==> (q.filters.Some? ==> Height(q.filters.value) < 32)
    ensures r.Ok? ==> Answers(q, r.value)
  {
    var limit := Limit(q);
    var offset := Offset(q);
    var where, jsonbParams, limitIdx := SearchWhere(q);
    if where.Err? { return Err(where.error); }
    var countArgs := BindSearch(q, jsonbParams);
    var countValues := countArgs.values;
    var dataArgs := BindSearch(q, jsonbParams);
    dataArgs.Add(IntCell(limit));
    dataArgs.Add(IntCell(offset));
    var s := SearchQuery(where.value, countValues, where.value + TailText(limitIdx), dataArgs.values,
                         if q.page < 1 then 1 else q.page, limit);
    assert s.dataArgs == s.countArgs + [IntCell(limit), IntCell(offset)];
    QueriesAnswer(q, s);
    r := Ok(s);
  }
}
