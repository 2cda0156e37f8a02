/** The WHERE clause of bulk delete and the arguments bound for it. */
module BulkDeleteClause {
  import opened Wrappers
  import opened Json
  import opened Tables
  import opened SqlText
  import opened Sql
  import opened SqlGrammar
  import opened Fragments
  import opened MetadataFilter
  import opened Conditions
  import opened Search

  datatype Filters = Filters(
    metadata: Option<Filter>,
    createdBefore: Option<Time>, createdAfter: Option<Time>,
    sizeMin: Option<int>, sizeMax: Option<int>,
    lastAccessedBefore: Option<Time>)

  /** Which references bulk delete is for, without SQL. */
  predicate Selected(project: Uuid, x: Filters, fr: RefRow, size: int, locations: seq<LocationRow>) {
    && fr.projectId == project
    && (x.metadata.Some? ==> Holds(x.metadata.value, fr.metadata))
    && (x.createdBefore.Some? ==> fr.createdAt < x.createdBefore.value)
    && (x.createdAfter.Some? ==> fr.createdAt > x.createdAfter.value)
    && (x.sizeMin.Some? ==> size >= x.sizeMin.value)
    && (x.sizeMax.Some? ==> size <= x.sizeMax.value)
    && (x.lastAccessedBefore.Some? ==>
          forall l | l in locations && l.fileId == fr.fileId ::
            l.lastAccessed.Some? && l.lastAccessed.value < x.lastAccessedBefore.value)
  }

  predicate NeedsFiles(x: Filters) { x.sizeMin.Some? || x.sizeMax.Some? }

  predicate Compiles(x: Filters) { x.metadata.Some? ==> Height(x.metadata.value) < 32 }

  // ----- The clause as a list of conditions -----

  function TimeOf(t: Option<Time>): Cell { if t.Some? then TimeCell(t.value) else NullCell }

  function SizeOf(n: Option<int>): Cell { if n.Some? then IntCell(n.value) else NullCell }

  function Before(x: Filters): Condition { Test("fr.created_at", "<", TimeOf(x.createdBefore)) }

  function After(x: Filters): Condition { Test("fr.created_at", ">", TimeOf(x.createdAfter)) }

  function AtLeast(x: Filters): Condition { Test("f.size", ">=", SizeOf(x.sizeMin)) }

  function AtMost(x: Filters): Condition { Test("f.size", "<=", SizeOf(x.sizeMax)) }

  function Stale(x: Filters): Condition {
    NotAccessedSince(if x.lastAccessedBefore.Some? then x.lastAccessedBefore.value else 0)
  }

  function Tree(x: Filters): seq<Condition> { if x.metadata.Some? then [Metadata(x.metadata.value)] else [] }

  function Optional(given: bool, c: Condition): seq<Condition> { if given then [c] else [] }

  /** The filters given, in the order the clause lists them. */
  function Given(x: Filters): seq<Condition> {
    Tree(x) + Optional(x.createdBefore.Some?, Before(x)) + Optional(x.createdAfter.Some?, After(x))
    + Optional(x.sizeMin.Some?, AtLeast(x)) + Optional(x.sizeMax.Some?, AtMost(x))
    + Optional(x.lastAccessedBefore.Some?, Stale(x))
  }

  function ClauseText(x: Filters, start: nat): string {
    if Given(x) == [] then "TRUE" else Join(Texts(Given(x), start), " AND ")
  }

  function ProjectTest(project: Uuid): Condition { Test("fr.project_id", "=", UuidCell(project)) }

  function NonEmpty(cs: seq<Condition>): seq<Condition> { if cs == [] then [Metadata(Filter.And([]))] else cs }

  function DeleteConditions(project: Uuid, x: Filters): seq<Condition> {
    [ProjectTest(project)] + NonEmpty(Given(x))
  }

  // ----- Building it -----

  datatype Clause = Clause(text: string, params: seq<Json>, needsFilesJoin: bool, nextIdx: nat)

  /** The clause under construction: the texts and placeholder index after `done`. */
  predicate Built(done: seq<Condition>, start: nat, conditions: seq<string>, idx: nat) {
    conditions == Texts(done, start) && idx == start + |AllCells(done)|
  }

  lemma Extend(done: seq<Condition>, start: nat, conditions: seq<string>, idx: nat, c: Condition)
    requires Built(done, start, conditions, idx)
    ensures Built(done + [c], start, conditions + [Text(c, idx)], idx + |Cells(c)|)
  {
    NumberedSnoc(done, c, start, idx, Text);
    CellsSnoc(done, c);
  }

  /** `if given { conditions.push(..); param_idx += 1; }` */
  method PushIf(given: bool, c: Condition, start: nat, conditions: seq<string>, idx: nat, ghost done: seq<Condition>)
    returns (conditions': seq<string>, idx': nat)
    requires Built(done, start, conditions, idx) && !c.Metadata?
    ensures Built(done + Optional(given, c), start, conditions', idx')
  {
    conditions', idx' := conditions, idx;
    if given {
      Extend(done, start, conditions, idx, c);
      conditions', idx' := conditions + [Text(c, idx)], idx + 1;
    } else {
      assert done + [] == done;
    }
  }

  method PushTests(x: Filters, start: nat, conditions: seq<string>, idx: nat)
    returns (conditions': seq<string>, idx': nat)
    requires Built(Tree(x), start, conditions, idx)
    ensures Built(Given(x), start, conditions', idx')
  {
    ghost var done := Tree(x);
    conditions', idx' := PushIf(x.createdBefore.Some?, Before(x), start, conditions, idx, done);
    done := done + Optional(x.createdBefore.Some?, Before(x));
    conditions', idx' := PushIf(x.createdAfter.Some?, After(x), start, conditions', idx', done);
    done := done + Optional(x.createdAfter.Some?, After(x));
    conditions', idx' := PushIf(x.sizeMin.Some?, AtLeast(x), start, conditions', idx', done);
    done := done + Optional(x.sizeMin.Some?, AtLeast(x));
    conditions', idx' := PushIf(x.sizeMax.Some?, AtMost(x), start, conditions', idx', done);
    done := done + Optional(x.sizeMax.Some?, AtMost(x));
    conditions', idx' := PushIf(x.lastAccessedBefore.Some?, Stale(x), start, conditions', idx', done);
  }

  method BuildBulkDeleteClause(x: Filters, startParam: nat) returns (r: Result<Clause, string>)
    ensures r.Ok? <==> Compiles(x)
    ensures r.Ok? ==> r.value.text == ClauseText(x, startParam)
    ensures r.Ok? ==> r.value.params == if x.metadata.Some? then Leaves(x.metadata.value) else []
    ensures r.Ok? ==> r.value.needsFilesJoin == NeedsFiles(x)
    ensures r.Ok? ==> r.value.nextIdx == startParam + |AllCells(Given(x))|
  {
    var conditions: seq<string> := [];
    var metadataParams: seq<Json> := [];
    var paramIdx := startParam;
    if x.metadata.Some? {
      var compiler := new Compiler(paramIdx);
      var clause := compiler.Compile(x.metadata.value);
      if clause.Err? { return Err(clause.error); }
      Extend([], startParam, conditions, paramIdx, Metadata(x.metadata.value));
      conditions := conditions + [clause.value];
      metadataParams := compiler.params;
      paramIdx := paramIdx + |metadataParams|;
    }
    assert Built(Tree(x), startParam, conditions, paramIdx);
    conditions, paramIdx := PushTests(x, startParam, conditions, paramIdx);
    var needsFilesJoin := x.sizeMin.Some? || x.sizeMax.Some?;
    var text := if conditions == [] then "TRUE" else Join(conditions, " AND ");
    r := Ok(Clause(text, metadataParams, needsFilesJoin, paramIdx));
  }

  method BindIf(args: PgArguments, given: bool, cell: Cell, c: Condition, ghost before: seq<Cell>,
                ghost done: seq<Condition>)
    requires Cells(c) == [cell] && args.values == before + AllCells(done)
    modifies args
    ensures args.values == before + AllCells(done + Optional(given, c))
  {
    if given {
      args.Add(cell);
      CellsSnoc(done, c);
    } else {
      assert done + [] == done;
    }
  }

  /** Project, metadata parameters, then the other filters in the order their placeholders were numbered. */
  method BindBulkDeleteArgs(args: PgArguments, project: Uuid, x: Filters, metadataParams: seq<Json>)
    requires metadataParams == if x.metadata.Some? then Leaves(x.metadata.value) else []
    modifies args
    ensures args.values == old(args.values) + [UuidCell(project)] + AllCells(Given(x))
  {
    args.Add(UuidCell(project));
    args.AddJson(metadataParams);
    TreeCells(x);
    BindTests(args, x, old(args.values) + [UuidCell(project)]);
  }

  method BindTests(args: PgArguments, x: Filters, ghost before: seq<Cell>)
    requires args.values == before + AllCells(Tree(x))
    modifies args
    ensures args.values == before + AllCells(Given(x))
  {
    ghost var done := Tree(x);
    BindIf(args, x.createdBefore.Some?, TimeOf(x.createdBefore), Before(x), before, done);
    done := done + Optional(x.createdBefore.Some?, Before(x));
    BindIf(args, x.createdAfter.Some?, TimeOf(x.createdAfter), After(x), before, done);
    done := done + Optional(x.createdAfter.Some?, After(x));
    BindIf(args, x.sizeMin.Some?, SizeOf(x.sizeMin), AtLeast(x), before, done);
    done := done + Optional(x.sizeMin.Some?, AtLeast(x));
    BindIf(args, x.sizeMax.Some?, SizeOf(x.sizeMax), AtMost(x), before, done);
    done := done + Optional(x.sizeMax.Some?, AtMost(x));
    BindIf(args, x.lastAccessedBefore.Some?, TimeCell(Stale(x).time), Stale(x), before, done);
  }

  lemma TreeCells(x: Filters)
    ensures AllCells(Tree(x)) == JsonCells(if x.metadata.Some? then Leaves(x.metadata.value) else [])
  {
    if x.metadata.Some? {
      assert Tree(x) == [Metadata(x.metadata.value)] + [];
      CellsCons(Metadata(x.metadata.value), []);
    }
  }

  // ----- What the text means -----

  lemma DeleteColumnsArePlain()
    ensures Plain("fr.project_id") && Plain("=") && Plain("fr.created_at") && Plain("f.size")
    ensures Plain("<") && Plain(">") && Plain(">=") && Plain("<=")
    ensures "=" != "IS" && "=" != "@>" && "<" != "IS" && "<" != "@>" && ">" != "IS" && ">" != "@>"
    ensures ">=" != "IS" && ">=" != "@>" && "<=" != "IS" && "<=" != "@>"
  {
    assert ">="[0] == '>' && "<="[0] == '<' && "@>"[0] == '@' && "IS"[0] == 'I';
  }

  lemma DeleteColumnsDefined(row: Row)
    ensures Lookup("fr.project_id", row) == Some(UuidCell(row.fr.projectId))
    ensures Lookup("fr.created_at", row) == Some(TimeCell(row.fr.createdAt))
    ensures row.f.Some? ==> Lookup("f.size", row) == Some(IntCell(row.f.value.size))
  {
  }

  /** Something of every condition given is something of each part. */
  lemma GivenMembers(x: Filters, c: Condition)
    ensures c in Given(x) <==>
      || (x.metadata.Some? && c == Metadata(x.metadata.value))
      || (x.createdBefore.Some? && c == Before(x)) || (x.createdAfter.Some? && c == After(x))
      || (x.sizeMin.Some? && c == AtLeast(x)) || (x.sizeMax.Some? && c == AtMost(x))
      || (x.lastAccessedBefore.Some? && c == Stale(x))
  {
  }

  lemma GivenWellFormed(x: Filters)
    ensures AllWellFormed(Given(x))
  {
    DeleteColumnsArePlain();
    forall c | c in Given(x) ensures WellFormed(c) { GivenMembers(x, c); }
  }

  lemma TestsDefined(x: Filters, row: Row)
    requires NeedsFiles(x) ==> row.f.Some?
    ensures (x.createdBefore.Some? ==> Defined(Before(x), row)) && (x.createdAfter.Some? ==> Defined(After(x), row))
    ensures (x.sizeMin.Some? ==> Defined(AtLeast(x), row)) && (x.sizeMax.Some? ==> Defined(AtMost(x), row))
  {
    DeleteColumnsDefined(row);
  }

  lemma GivenDefined(x: Filters, row: Row)
    requires NeedsFiles(x) ==> row.f.Some?
    ensures forall c | c in Given(x) :: Defined(c, row)
  {
    TestsDefined(x, row);
    forall c | c in Given(x) ensures Defined(c, row) {
      GivenMembers(x, c);
      assert c.Test? ==> c == Before(x) || c == After(x) || c == AtLeast(x) || c == AtMost(x);
    }
  }

  lemma TestsMeet(x: Filters, row: Row)
    requires NeedsFiles(x) ==> row.f.Some?
    ensures x.createdBefore.Some? ==> Meets(Before(x), row) == (row.fr.createdAt < x.createdBefore.value)
    ensures x.createdAfter.Some? ==> Meets(After(x), row) == (row.fr.createdAt > x.createdAfter.value)
    ensures x.sizeMin.Some? ==> Meets(AtLeast(x), row) == (SizeIn(row) >= x.sizeMin.value)
    ensures x.sizeMax.Some? ==> Meets(AtMost(x), row) == (SizeIn(row) <= x.sizeMax.value)
  {
    DeleteColumnsDefined(row);
  }

  lemma GivenMeansSelected(project: Uuid, x: Filters, row: Row)
    requires NeedsFiles(x) ==> row.f.Some?
    ensures row.fr.projectId == project && AllMeet(Given(x), row) <==>
      Selected(project, x, row.fr, SizeIn(row), row.locations)
  {
    TestsMeet(x, row);
    AllMeetOptional(Tree(x), x.createdBefore.Some?, Before(x), row);
    var g := Tree(x) + Optional(x.createdBefore.Some?, Before(x));
    AllMeetOptional(g, x.createdAfter.Some?, After(x), row);
    g := g + Optional(x.createdAfter.Some?, After(x));
    AllMeetOptional(g, x.sizeMin.Some?, AtLeast(x), row);
    g := g + Optional(x.sizeMin.Some?, AtLeast(x));
    AllMeetOptional(g, x.sizeMax.Some?, AtMost(x), row);
    g := g + Optional(x.sizeMax.Some?, AtMost(x));
    AllMeetOptional(g, x.lastAccessedBefore.Some?, Stale(x), row);
    assert AllMeet(Tree(x), row) == (x.metadata.Some? ==> Holds(x.metadata.value, row.fr.metadata)) by {
      if x.metadata.Some? {
        assert Tree(x) == [Metadata(x.metadata.value)] + [];
        AllMeetCons(Metadata(x.metadata.value), [], row);
      }
    }
  }

  lemma AllMeetOptional(cs: seq<Condition>, given: bool, c: Condition, row: Row)
    ensures AllMeet(cs + Optional(given, c), row) == (AllMeet(cs, row) && (given ==> Meets(c, row)))
  {
    assert forall d :: d in cs + Optional(given, c) <==> d in cs || (given && d == c);
  }

  function SizeIn(row: Row): int { if row.f.Some? then row.f.value.size else 0 }

  function WhereText(x: Filters): string { Comparison("fr.project_id", "=", 1) + " AND " + ClauseText(x, 2) }

  lemma AllMeetCons(c: Condition, cs: seq<Condition>, row: Row)
    ensures AllMeet([c] + cs, row) == (Meets(c, row) && AllMeet(cs, row))
  {
    assert forall d :: d in [c] + cs <==> d == c || d in cs;
  }

  lemma AllMeetNonEmpty(cs: seq<Condition>, row: Row)
    ensures AllMeet(NonEmpty(cs), row) == AllMeet(cs, row)
  {
  }

  lemma DeleteConditionsText(project: Uuid, x: Filters)
    ensures Join(Texts(DeleteConditions(project, x), 1), " AND ") == WhereText(x)
    ensures AllCells(DeleteConditions(project, x)) == [UuidCell(project)] + AllCells(Given(x))
  {
    NonEmptyTexts(Given(x), 2);
    HeadText(ProjectTest(project), NonEmpty(Given(x)));
  }

  lemma {:induction false} NumberedHead(c: Condition, others: seq<Condition>, text: (Condition, nat) -> string)
    requires |Cells(c)| == 1 && others != []
    ensures Join(Numbered([c] + others, 1, text), " AND ")
      == text(c, 1) + " AND " + Join(Numbered(others, 2, text), " AND ")
  {
    NumberedCons(c, others, 1, text);
    JoinCons(text(c, 1), Numbered(others, 2, text), " AND ");
  }

  lemma HeadText(c: Condition, others: seq<Condition>)
    requires c.Test? && others != []
    ensures Join(Texts([c] + others, 1), " AND ")
      == Comparison(c.column, c.op, 1) + " AND " + Join(Texts(others, 2), " AND ")
    ensures AllCells([c] + others) == [c.cell] + AllCells(others)
  {
    NumberedHead(c, others, Text);
    CellsCons(c, others);
  }

  lemma NonEmptyTexts(cs: seq<Condition>, start: nat)
    ensures AllCells(NonEmpty(cs)) == AllCells(cs)
    ensures Join(Texts(NonEmpty(cs), start), " AND ") == if cs == [] then "TRUE" else Join(Texts(cs, start), " AND ")
  {
    if cs == [] {
      var tree := Metadata(Filter.And([]));
      assert [tree] == [tree] + [];
      NumberedCons(tree, [], start, Text);
      CellsCons(tree, []);
      assert JsonCells([]) == [];
    }
  }

  lemma DeleteConditionsWellFormed(project: Uuid, x: Filters)
    ensures AllWellFormed(DeleteConditions(project, x))
  {
    GivenWellFormed(x);
    DeleteColumnsArePlain();
    assert forall c | c in DeleteConditions(project, x) :: c == ProjectTest(project) || c in NonEmpty(Given(x));
  }

  lemma RowSelected(project: Uuid, x: Filters, args: seq<Cell>, row: Row)
    requires args == AllCells(DeleteConditions(project, x))
    requires NeedsFiles(x) ==> row.f.Some?
    ensures Eval(AllOf(Parsings(DeleteConditions(project, x), 1)), args, row)
         == Truth(Selected(project, x, row.fr, SizeIn(row), row.locations))
  {
    var cs := DeleteConditions(project, x);
    GivenDefined(x, row);
    DeleteColumnsDefined(row);
    assert forall c | c in cs :: c == ProjectTest(project) || c in NonEmpty(Given(x));
    WhereMeans(cs, args, row);
    AllMeetCons(ProjectTest(project), NonEmpty(Given(x)), row);
    AllMeetNonEmpty(Given(x), row);
    GivenMeansSelected(project, x, row);
  }

  // ----- The alias of the files table -----

  /** A column of the table aliased `f`. */
  predicate OfFiles(column: string) { |column| >= 2 && column[0] == 'f' && column[1] == '.' }

  predicate UsesFiles(columns: set<string>) { exists column | column in columns :: OfFiles(column) }

  predicate TestsFiles(c: Condition) { c.Test? && OfFiles(c.column) }

  lemma ColumnsOfStale(p: nat)
    ensures ColumnsIn(StaleExpr(p)) == {"fl.file_id", "fr.file_id", "fl.last_accessed_at"}
  {
    ColumnsOfJoined(RecentExprs(p));
    ColumnsOfJoined(StaleExprs(p));
    assert RecentExprs(p)[1..][1..] == [] && StaleExprs(p)[1..][1..] == [];
  }

  lemma FilesInParsing(c: Condition, next: nat)
    ensures UsesFiles(ColumnsIn(Parsing(c, next))) <==> TestsFiles(c)
  {
    match c
    case Metadata(f) =>
      OnlyMetadata(f, next);
      assert "metadata"[0] == 'm';
    case Test(_, _, _) =>
    case NotAccessedSince(_) =>
      ColumnsOfStale(next);
      assert "fl.file_id"[1] == 'l' && "fr.file_id"[1] == 'r' && "fl.last_accessed_at"[1] == 'l';
  }

  lemma {:induction false} FilesInParsings(cs: seq<Condition>, next: nat)
    ensures UsesFiles(ColumnsInAll(Parsings(cs, next))) <==> exists c | c in cs :: TestsFiles(c)
  {
    if cs != [] {
      var c, others := cs[0], cs[1..];
      NumberedCons(c, others, next, Parsing);
      assert [c] + others == cs;
      var e, es := Parsing(c, next), Parsings(others, next + |Cells(c)|);
      assert ([e] + es)[1..] == es;
      FilesInParsing(c, next);
      FilesInParsings(others, next + |Cells(c)|);
      assert UsesFiles(ColumnsIn(e) + ColumnsInAll(es)) <==> UsesFiles(ColumnsIn(e)) || UsesFiles(ColumnsInAll(es));
    }
  }

  lemma FilesInConditions(project: Uuid, x: Filters)
    ensures (exists c | c in DeleteConditions(project, x) :: TestsFiles(c)) <==> NeedsFiles(x)
  {
    assert "fr.project_id"[1] == 'r' && "fr.created_at"[1] == 'r' && "f.size"[1] == '.';
    assert forall c | c in DeleteConditions(project, x) :: c == ProjectTest(project) || c in NonEmpty(Given(x));
    if x.sizeMin.Some? {
      GivenMembers(x, AtLeast(x));
      assert TestsFiles(AtLeast(x)) && AtLeast(x) in DeleteConditions(project, x);
    }
    if x.sizeMax.Some? {
      GivenMembers(x, AtMost(x));
      assert TestsFiles(AtMost(x)) && AtMost(x) in DeleteConditions(project, x);
    }
    forall c | c in DeleteConditions(project, x) && TestsFiles(c) ensures NeedsFiles(x) { GivenMembers(x, c); }
  }

  lemma ConditionsUseFiles(project: Uuid, x: Filters)
    ensures UsesFiles(ColumnsIn(AllOf(Parsings(DeleteConditions(project, x), 1)))) <==> NeedsFiles(x)
  {
    var cs := DeleteConditions(project, x);
    ColumnsOfJoined(Parsings(cs, 1));
    FilesInParsings(cs, 1);
    FilesInConditions(project, x);
  }

  // ----- The whole clause -----

  /** What a WHERE text does for a caller that binds `args`: selects exactly the chosen references,
      given the files table wherever it is needed; names columns of that table exactly where it is;
      placeholders 1..|args|, one each, in order. */
  ghost predicate SelectsChosen(project: Uuid, x: Filters, read: Parse, tail: seq<Token>, args: seq<Cell>) {
    && read.Parsed? && read.rest == tail
    && ArgsIn(read.expr) == Range(1, |args|)
    && (UsesFiles(ColumnsIn(read.expr)) <==> NeedsFiles(x))
    && forall row: Row | NeedsFiles(x) ==> row.f.Some? ::
         Eval(read.expr, args, row) == Truth(Selected(project, x, row.fr, SizeIn(row), row.locations))
  }

  /** "fr.project_id = $1 AND {clause}", at the end of the query or closed by a parenthesis. */
  lemma ClauseSelects(project: Uuid, x: Filters, tail: string, args: seq<Cell>)
    requires tail == "" || tail[0] == ')'
    requires Ends(Lex(tail))
    requires args == [UuidCell(project)] + AllCells(Given(x))
    ensures SelectsChosen(project, x, ReadWhere(WhereText(x) + tail), Lex(tail), args)
  {
    var cs := DeleteConditions(project, x);
    DeleteConditionsText(project, x);
    DeleteConditionsWellFormed(project, x);
    WhereReads(cs, tail);
    ConditionPlaceholders(cs, 1);
    ArgsOfJoined(Parsings(cs, 1));
    ConditionsUseFiles(project, x);
    forall row: Row | NeedsFiles(x) ==> row.f.Some?
      ensures Eval(AllOf(Parsings(cs, 1)), args, row) == Truth(Selected(project, x, row.fr, SizeIn(row), row.locations))
    {
      RowSelected(project, x, args, row);
    }
  }

  /** What the text reads back as names a column of the alias `f` exactly when the join is requested. */
  lemma AliasIffJoin(project: Uuid, x: Filters, tail: string)
    requires tail == "" || tail[0] == ')'
    requires Ends(Lex(tail))
    ensures var read := ReadWhere(WhereText(x) + tail);
      read.Parsed? && (UsesFiles(ColumnsIn(read.expr)) <==> NeedsFiles(x))
  {
    ClauseSelects(project, x, tail, [UuidCell(project)] + AllCells(Given(x)));
  }
}
