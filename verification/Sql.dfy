/**
 The boolean fragment of SQL that follows WHERE: a recursive-descent parser in which NOT binds
 tighter than AND and AND tighter than OR, and an evaluator in SQL's three-valued logic.
 */
module Sql {
  import opened Ascii
  import opened Wrappers
  import opened Json
  import opened Tables
  import opened SqlText

  // ----- Parsing -----

  datatype Operand = Arg(index: nat) | Column(name: string)

  datatype Expr =
    | Constant(value: bool)
    | Compare(column: string, op: string, operand: Operand)
    | IsNull(column: string)
    | Exists(condition: Expr)   // over the rows `fl` of file_locations
    | Not(inner: Expr)
    | And(left: Expr, right: Expr)
    | Or(left: Expr, right: Expr)

  datatype Parse = Parsed(expr: Expr, rest: seq<Token>) | Failed

  const LOCATIONS_HEAD: seq<Token> :=
    [LPar, Word("SELECT"), Word("1"), Word("FROM"), Word("file_locations"), Word("fl"), Word("WHERE")]

  function ParseOr(ts: seq<Token>): (p: Parse)
    ensures p.Parsed? ==> |p.rest| < |ts|
    decreases |ts|, 3
  {
    match ParseAnd(ts)
    case Failed => Failed
    case Parsed(l, rest) =>
      if rest != [] && rest[0] == Word("OR") then
        match ParseOr(rest[1..])
        case Failed => Failed
        case Parsed(r, rest') => Parsed(Or(l, r), rest')
      else Parsed(l, rest)
  }

  function ParseAnd(ts: seq<Token>): (p: Parse)
    ensures p.Parsed? ==> |p.rest| < |ts|
    decreases |ts|, 2
  {
    match ParseNot(ts)
    case Failed => Failed
    case Parsed(l, rest) =>
      if rest != [] && rest[0] == Word("AND") then
        match ParseAnd(rest[1..])
        case Failed => Failed
        case Parsed(r, rest') => Parsed(And(l, r), rest')
      else Parsed(l, rest)
  }

  function ParseNot(ts: seq<Token>): (p: Parse)
    ensures p.Parsed? ==> |p.rest| < |ts|
    decreases |ts|, 1
  {
    if ts == [] then Failed
    else if ts[0] == Word("NOT") then
      match ParseNot(ts[1..])
      case Failed => Failed
      case Parsed(e, rest) => Parsed(Not(e), rest)
    else if ts[0] == LPar then ParseClosed(ts[1..])
    else if ts[0] == Word("EXISTS") then ParseSubquery(ts[1..])
    else if ts[0] == Word("TRUE") then Parsed(Constant(true), ts[1..])
    else if ts[0] == Word("FALSE") then Parsed(Constant(false), ts[1..])
    else ParseComparison(ts)
  }

  /** An expression and the parenthesis that closes it. */
  function ParseClosed(ts: seq<Token>): (p: Parse)
    ensures p.Parsed? ==> |p.rest| < |ts|
    decreases |ts|, 4
  {
    match ParseOr(ts)
    case Failed => Failed
    case Parsed(e, rest) => if rest != [] && rest[0] == RPar then Parsed(e, rest[1..]) else Failed
  }

  function ParseSubquery(ts: seq<Token>): (p: Parse)
    ensures p.Parsed? ==> |p.rest| < |ts|
    decreases |ts|, 5
  {
    if LOCATIONS_HEAD <= ts then
      match ParseClosed(ts[|LOCATIONS_HEAD|..])
      case Failed => Failed
      case Parsed(e, rest) => Parsed(Exists(e), rest)
    else Failed
  }

  function ParseComparison(ts: seq<Token>): (p: Parse)
    ensures p.Parsed? ==> |p.rest| < |ts|
  {
    if |ts| < 3 || !ts[0].Word? || !ts[1].Word? then Failed
    else if ts[1].text == "IS" then
      if ts[2] == Word("NULL") then Parsed(IsNull(ts[0].text), ts[3..]) else Failed
    else if ts[1].text == "@>" then
      if ts[2].Param? && |ts| > 3 && ts[3] == Word("::jsonb") then
        Parsed(Compare(ts[0].text, "@>", Arg(ts[2].index)), ts[4..])
      else Failed
    else if ts[2].Param? then Parsed(Compare(ts[0].text, ts[1].text, Arg(ts[2].index)), ts[3..])
    else if ts[2].Word? then Parsed(Compare(ts[0].text, ts[1].text, Column(ts[2].text)), ts[3..])
    else Failed
  }

  // ----- Evaluation -----

  datatype Cell =
    | NullCell
    | UuidCell(id: Uuid)
    | JsonCell(json: Json)
    | TextCell(text: string)
    | TimeCell(time: Time)
    | IntCell(number: int)

  /** Broken: the server rejects the query (an unknown alias, a missing or mistyped argument). */
  datatype Verdict = Yes | No | Unknown | Broken

  /** The row under test: `fr`, `f` when the files table is joined, all of file_locations, and
      the row `fl` inside a subquery. */
  datatype Row = Row(fr: RefRow, f: Option<FileRow>, locations: seq<LocationRow>, fl: Option<LocationRow>)

  function Truth(b: bool): Verdict { if b then Yes else No }

  function Lookup(column: string, row: Row): Option<Cell> {
    if column == "fr.project_id" then Some(UuidCell(row.fr.projectId))
    else if column == "fr.file_id" then Some(UuidCell(row.fr.fileId))
    else if column == "fr.original_name" then Some(TextCell(row.fr.originalName))
    else if column == "fr.created_at" then Some(TimeCell(row.fr.createdAt))
    else if column == "metadata" then Some(JsonCell(row.fr.metadata))
    else if column == "f.size" && row.f.Some? then Some(IntCell(row.f.value.size))
    else if column == "fl.file_id" && row.fl.Some? then Some(UuidCell(row.fl.value.fileId))
    else if column == "fl.last_accessed_at" && row.fl.Some? then
      Some(if row.fl.value.lastAccessed.Some? then TimeCell(row.fl.value.lastAccessed.value) else NullCell)
    else None
  }

  function Resolve(o: Operand, args: seq<Cell>, row: Row): Option<Cell> {
    match o
    case Arg(n) => if 1 <= n <= |args| then Some(args[n - 1]) else None
    case Column(c) => Lookup(c, row)
  }

  function Apply(op: string, a: Cell, b: Cell): Verdict {
    if a.NullCell? || b.NullCell? then Unknown
    else match (a, b)
      case (UuidCell(x), UuidCell(y)) => if op == "=" then Truth(x == y) else Broken
      case (JsonCell(x), JsonCell(y)) => if op == "@>" then Truth(Contains(x, y)) else Broken
      case (TextCell(x), TextCell(y)) => if op == "ILIKE" then Truth(ILike(x, y)) else Broken
      case (TimeCell(x), TimeCell(y)) => Order(op, x, y)
      case (IntCell(x), IntCell(y)) => Order(op, x, y)
      case _ => Broken
  }

  function Order(op: string, x: int, y: int): Verdict {
    if op == "<" then Truth(x < y) else if op == "<=" then Truth(x <= y)
    else if op == ">" then Truth(x > y) else if op == ">=" then Truth(x >= y)
    else Broken
  }

  /** `s ILIKE p`: `%` matches any run, `_` one character, backslash quotes; ASCII case ignored. */
  predicate ILike(s: string, p: string)
    decreases |s| + |p|
  {
    if p == "" then s == ""
    else if p[0] == '%' then ILike(s, p[1..]) || (s != "" && ILike(s[1..], p))
    else if p[0] == '_' then s != "" && ILike(s[1..], p[1..])
    else if p[0] == '\\' then |p| > 1 && s != "" && LowerChar(s[0]) == LowerChar(p[1]) && ILike(s[1..], p[2..])
    else s != "" && LowerChar(s[0]) == LowerChar(p[0]) && ILike(s[1..], p[1..])
  }

  function Conjoin(a: Verdict, b: Verdict): Verdict {
    if a.Broken? || b.Broken? then Broken
    else if a.No? || b.No? then No
    else if a.Unknown? || b.Unknown? then Unknown
    else Yes
  }

  function Negate(a: Verdict): Verdict {
    match a case Yes => No case No => Yes case Unknown => Unknown case Broken => Broken
  }

  function Disjoin(a: Verdict, b: Verdict): Verdict { Negate(Conjoin(Negate(a), Negate(b))) }

  function Eval(e: Expr, args: seq<Cell>, row: Row): Verdict
    decreases e, 0
  {
    match e
    case Constant(b) => Truth(b)
    case Compare(c, op, right) =>
      (match (Lookup(c, row), Resolve(right, args, row))
       case (Some(a), Some(b)) => Apply(op, a, b)
       case _ => Broken)
    case IsNull(c) => (match Lookup(c, row) case Some(a) => Truth(a.NullCell?) case None => Broken)
    case Exists(inner) => EvalExists(inner, args, row, row.locations)
    case Not(inner) => Negate(Eval(inner, args, row))
    case And(l, r) => Conjoin(Eval(l, args, row), Eval(r, args, row))
    case Or(l, r) => Disjoin(Eval(l, args, row), Eval(r, args, row))
  }

  function EvalExists(inner: Expr, args: seq<Cell>, row: Row, locations: seq<LocationRow>): Verdict
    decreases inner, 1, |locations|
  {
    if locations == [] then No
    else
      var first := Eval(inner, args, row.(fl := Some(locations[0])));
      var others := EvalExists(inner, args, row, locations[1..]);
      if first.Broken? || others.Broken? then Broken else if first.Yes? then Yes else others
  }

  /** How the server reads the text after WHERE: the condition, and the tokens that follow it. */
  function ReadWhere(text: string): Parse { ParseOr(Lex(text)) }
}
