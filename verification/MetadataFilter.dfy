/**
 The metadata filter tree, its compiler to a WHERE fragment with numbered placeholders, and the
 proof that the fragment means what the tree says.
 */
module MetadataFilter {
  import opened Wrappers
  import opened Json
  import opened SqlText
  import opened Sql
  import opened SqlGrammar
  import opened Fragments

  datatype Filter =
    | And(and: seq<Filter>)
    | Or(or: seq<Filter>)
    | Not(not: Filter)
    | Leaf(key: string, value: Json)

  // ----- The meaning of a tree, independent of SQL -----

  predicate Holds(f: Filter, metadata: Json) {
    match f
    case Leaf(key, value) =>
      metadata.Object? && key in metadata.fields && Contains(metadata.fields[key], value)
    case And(parts) => forall p | p in parts :: Holds(p, metadata)
    case Or(parts) => exists p | p in parts :: Holds(p, metadata)
    case Not(part) => !Holds(part, metadata)
  }

  const MAX_DEPTH: nat := 32

  /** Levels below the root of the deepest node. */
  function Height(f: Filter): nat
    decreases f, 0
  {
    match f
    case Leaf(_, _) => 0
    case And(parts) => if parts == [] then 0 else 1 + MaxHeight(parts)
    case Or(parts) => if parts == [] then 0 else 1 + MaxHeight(parts)
    case Not(part) => 1 + Height(part)
  }

  function MaxHeight(fs: seq<Filter>): nat
    requires fs != []
    decreases fs
  {
    var h := Height(fs[0]);
    if |fs| == 1 then h else var t := MaxHeight(fs[1..]); if h < t then t else h
  }

  predicate Fits(f: Filter, depth: nat) { depth + Height(f) < MAX_DEPTH }

  // ----- What the compiler emits -----

  /** The JSON object bound for a leaf. */
  function LeafParam(key: string, value: Json): Json { Object(map[key := value]) }

  function Leaves(f: Filter): seq<Json>
    decreases f, 0
  {
    match f
    case Leaf(key, value) => [LeafParam(key, value)]
    case And(parts) => AllLeaves(parts)
    case Or(parts) => AllLeaves(parts)
    case Not(part) => Leaves(part)
  }

  function AllLeaves(fs: seq<Filter>): seq<Json>
    decreases fs
  {
    if fs == [] then [] else Leaves(fs[0]) + AllLeaves(fs[1..])
  }

  /** The fragment for `f` when its first placeholder is `$next`. */
  function Clause(f: Filter, next: nat): string
    decreases f, 0
  {
    match f
    case Leaf(_, _) => Containment("metadata", next)
    case And(parts) => if parts == [] then "TRUE" else InParens(Join(Clauses(parts, next), " AND "))
    case Or(parts) => if parts == [] then "FALSE" else InParens(Join(Clauses(parts, next), " OR "))
    case Not(part) => "NOT " + InParens(Clause(part, next))
  }

  function Clauses(fs: seq<Filter>, next: nat): (ts: seq<string>)
    ensures |ts| == |fs|
    decreases fs
  {
    if fs == [] then [] else [Clause(fs[0], next)] + Clauses(fs[1..], next + |Leaves(fs[0])|)
  }

  /** What compilation at `depth` pushes, a failed one stopping at the first node too deep. */
  function Pushed(f: Filter, depth: nat): seq<Json>
    decreases f, 0
  {
    if depth >= MAX_DEPTH then []
    else match f
      case Leaf(key, value) => [LeafParam(key, value)]
      case And(parts) => AllPushed(parts, depth + 1)
      case Or(parts) => AllPushed(parts, depth + 1)
      case Not(part) => Pushed(part, depth + 1)
  }

  function AllPushed(fs: seq<Filter>, depth: nat): seq<Json>
    decreases fs
  {
    if fs == [] then []
    else if Fits(fs[0], depth) then Pushed(fs[0], depth) + AllPushed(fs[1..], depth)
    else Pushed(fs[0], depth)
  }

  // ----- Emitted text reads back as an expression with the same meaning -----

  function ExprOf(f: Filter, next: nat): Expr
    decreases f, 0
  {
    match f
    case Leaf(_, _) => Compare("metadata", "@>", Arg(next))
    case And(parts) => if parts == [] then Constant(true) else AllOf(ExprsOf(parts, next))
    case Or(parts) => if parts == [] then Constant(false) else AnyOf(ExprsOf(parts, next))
    case Not(part) => Sql.Not(ExprOf(part, next))
  }

  function ExprsOf(fs: seq<Filter>, next: nat): (es: seq<Expr>)
    ensures |es| == |fs|
    decreases fs
  {
    if fs == [] then [] else [ExprOf(fs[0], next)] + ExprsOf(fs[1..], next + |Leaves(fs[0])|)
  }

  lemma {:induction false} ClauseIsUnit(f: Filter, next: nat)
    ensures Unit(Clause(f, next), ExprOf(f, next))
    decreases f, 0
  {
    match f
    case Leaf(_, _) => UnitContainment("metadata", next);
    case And(parts) =>
      if parts == [] {
        UnitConstant(true);
      } else {
        ClausesAreUnits(parts, next);
        UnitAllOf(Clauses(parts, next), ExprsOf(parts, next));
      }
    case Or(parts) =>
      if parts == [] {
        UnitConstant(false);
      } else {
        ClausesAreUnits(parts, next);
        UnitAnyOf(Clauses(parts, next), ExprsOf(parts, next));
      }
    case Not(part) =>
      var text, e := Clause(part, next), ExprOf(part, next);
      ClauseIsUnit(part, next);
      OperandInside(Lex(text), e);
      UnitInParens(text, e);
      UnitNegated(InParens(text), e);
  }

  lemma {:induction false} ClausesAreUnits(fs: seq<Filter>, next: nat)
    ensures Units(Clauses(fs, next), ExprsOf(fs, next))
    decreases fs
  {
    if fs != [] {
      var after := next + |Leaves(fs[0])|;
      ClauseIsUnit(fs[0], next);
      ClausesAreUnits(fs[1..], after);
      UnitsCons(Clause(fs[0], next), ExprOf(fs[0], next), Clauses(fs[1..], after), ExprsOf(fs[1..], after));
    }
  }

  /** Arguments `next`, `next + 1`, ... are the given JSON documents. */
  predicate BoundAt(args: seq<Cell>, next: nat, params: seq<Json>) {
    1 <= next && next - 1 + |params| <= |args|
    && forall i :: 0 <= i < |params| ==> args[next - 1 + i] == JsonCell(params[i])
  }

  lemma BoundSplits(args: seq<Cell>, next: nat, first: seq<Json>, others: seq<Json>)
    requires BoundAt(args, next, first + others)
    ensures BoundAt(args, next, first) && BoundAt(args, next + |first|, others)
  {
    forall i | 0 <= i < |first| ensures args[next - 1 + i] == JsonCell(first[i]) {
      assert (first + others)[i] == first[i];
    }
    forall i | 0 <= i < |others| ensures args[next + |first| - 1 + i] == JsonCell(others[i]) {
      assert (first + others)[|first| + i] == others[i];
    }
  }

  lemma {:induction false} EvalMatchesHolds(f: Filter, next: nat, args: seq<Cell>, row: Row)
    requires BoundAt(args, next, Leaves(f))
    ensures Eval(ExprOf(f, next), args, row) == Truth(Holds(f, row.fr.metadata))
    decreases f, 0
  {
    match f
    case Leaf(key, value) =>
      var param := Leaves(f)[0];
      assert args[next - 1 + 0] == JsonCell(param);
      assert key in param.fields && param.fields[key] == value;
    case And(parts) =>
      if parts != [] {
        EvalAllMatchHolds(parts, next, args, row);
        EvalAllOf(ExprsOf(parts, next), args, row);
      }
    case Or(parts) =>
      if parts != [] {
        EvalAllMatchHolds(parts, next, args, row);
        EvalAnyOf(ExprsOf(parts, next), args, row);
      }
    case Not(part) => EvalMatchesHolds(part, next, args, row);
  }

  lemma {:induction false} EvalAllMatchHolds(fs: seq<Filter>, next: nat, args: seq<Cell>, row: Row)
    requires BoundAt(args, next, AllLeaves(fs))
    ensures forall i :: 0 <= i < |fs| ==>
      Eval(ExprsOf(fs, next)[i], args, row) == Truth(Holds(fs[i], row.fr.metadata))
    decreases fs
  {
    if fs != [] {
      var first, others := Leaves(fs[0]), AllLeaves(fs[1..]);
      BoundSplits(args, next, first, others);
      EvalMatchesHolds(fs[0], next, args, row);
      EvalAllMatchHolds(fs[1..], next + |first|, args, row);
    }
  }

  // ----- Placeholders -----

  lemma {:induction false} PlaceholdersInOrder(f: Filter, next: nat)
    ensures ArgsIn(ExprOf(f, next)) == Range(next, |Leaves(f)|)
    decreases f, 0
  {
    match f
    case Leaf(_, _) =>
    case And(parts) =>
      if parts != [] {
        AllPlaceholdersInOrder(parts, next);
        ArgsOfJoined(ExprsOf(parts, next));
      }
    case Or(parts) =>
      if parts != [] {
        AllPlaceholdersInOrder(parts, next);
        ArgsOfJoined(ExprsOf(parts, next));
      }
    case Not(part) => PlaceholdersInOrder(part, next);
  }

  lemma {:induction false} AllPlaceholdersInOrder(fs: seq<Filter>, next: nat)
    ensures ArgsInAll(ExprsOf(fs, next)) == Range(next, |AllLeaves(fs)|)
    decreases fs
  {
    if fs != [] {
      var n := |Leaves(fs[0])|;
      PlaceholdersInOrder(fs[0], next);
      AllPlaceholdersInOrder(fs[1..], next + n);
      assert ExprsOf(fs, next)[1..] == ExprsOf(fs[1..], next + n);
      RangeSplits(next, n, |AllLeaves(fs[1..])|);
    }
  }

  /** Whatever the tree, its text names one column. */
  lemma {:induction false} OnlyMetadata(f: Filter, next: nat)
    ensures ColumnsIn(ExprOf(f, next)) <= {"metadata"}
    decreases f, 0
  {
    match f
    case Leaf(_, _) =>
    case And(parts) =>
      if parts != [] {
        AllOnlyMetadata(parts, next);
        ColumnsOfJoined(ExprsOf(parts, next));
      }
    case Or(parts) =>
      if parts != [] {
        AllOnlyMetadata(parts, next);
        ColumnsOfJoined(ExprsOf(parts, next));
      }
    case Not(part) => OnlyMetadata(part, next);
  }

  lemma {:induction false} AllOnlyMetadata(fs: seq<Filter>, next: nat)
    ensures ColumnsInAll(ExprsOf(fs, next)) <= {"metadata"}
    decreases fs
  {
    if fs != [] {
      OnlyMetadata(fs[0], next);
      AllOnlyMetadata(fs[1..], next + |Leaves(fs[0])|);
    }
  }

  // ----- The compiler -----

  lemma {:induction false} FittingPushesLeaves(f: Filter, depth: nat)
    requires Fits(f, depth)
    ensures Pushed(f, depth) == Leaves(f)
    decreases f, 0
  {
    match f
    case Leaf(_, _) =>
    case And(parts) => if parts != [] { AllFittingPushLeaves(parts, depth + 1); }
    case Or(parts) => if parts != [] { AllFittingPushLeaves(parts, depth + 1); }
    case Not(part) => FittingPushesLeaves(part, depth + 1);
  }

  lemma {:induction false} AllFittingPushLeaves(fs: seq<Filter>, depth: nat)
    requires fs != [] && depth + MaxHeight(fs) < MAX_DEPTH
    ensures AllPushed(fs, depth) == AllLeaves(fs)
    decreases fs
  {
    FittingPushesLeaves(fs[0], depth);
    if |fs| > 1 { AllFittingPushLeaves(fs[1..], depth); }
  }

  lemma {:induction false} MaxHeightFits(fs: seq<Filter>, depth: nat)
    requires fs != []
    ensures depth + MaxHeight(fs) < MAX_DEPTH <==> forall f | f in fs :: Fits(f, depth)
    decreases fs
  {
    assert fs[0] in fs && Fits(fs[0], depth) == (depth + Height(fs[0]) < MAX_DEPTH);
    if |fs| > 1 {
      MaxHeightFits(fs[1..], depth);
      assert fs == [fs[0]] + fs[1..];
    }
  }

  class Compiler {
    var nextParam: nat
    var params: seq<Json>

    constructor (startParam: nat)
      ensures nextParam == startParam && params == []
    {
      nextParam := startParam;
      params := [];
    }

    method Compile(filter: Filter) returns (r: Result<string, string>)
      modifies this
      ensures r.Ok? <==> Height(filter) < 32
      ensures r.Ok? ==> r.value == Clause(filter, old(nextParam)) && params == old(params) + Leaves(filter)
      ensures params == old(params) + Pushed(filter, 0)
      ensures nextParam == old(nextParam) + |Pushed(filter, 0)|
    {
      r := CompileInner(filter, 0);
      if r.Ok? { FittingPushesLeaves(filter, 0); }
    }

    method CompileInner(filter: Filter, depth: nat) returns (r: Result<string, string>)
      modifies this
      ensures r.Ok? <==> Fits(filter, depth)
      ensures r.Ok? ==> r.value == Clause(filter, old(nextParam))
      ensures params == old(params) + Pushed(filter, depth)
      ensures nextParam == old(nextParam) + |Pushed(filter, depth)|
      decreases filter, 0
    {
      if depth >= MAX_DEPTH {
        return Err("Filter nesting too deep (max 32 levels)");
      }
      match filter {
        case Leaf(key, value) =>
          var idx := nextParam;
          nextParam := nextParam + 1;
          params := params + [LeafParam(key, value)];
          return Ok(Containment("metadata", idx));
        case And(parts) =>
          if parts == [] { return Ok("TRUE"); }
          MaxHeightFits(parts, depth + 1);
          var texts := CompileParts(parts, depth + 1);
          if texts.Err? { return Err(texts.error); }
          return Ok(InParens(Join(texts.value, " AND ")));
        case Or(parts) =>
          if parts == [] { return Ok("FALSE"); }
          MaxHeightFits(parts, depth + 1);
          var texts := CompileParts(parts, depth + 1);
          if texts.Err? { return Err(texts.error); }
          return Ok(InParens(Join(texts.value, " OR ")));
        case Not(part) =>
          var inner := CompileInner(part, depth + 1);
          if inner.Err? { return inner; }
          return Ok("NOT " + InParens(inner.value));
      }
    }

    /** The `iter().map(..).collect()` over the children: stops at the first that fails. */
    method CompileParts(fs: seq<Filter>, depth: nat) returns (r: Result<seq<string>, string>)
      modifies this
      ensures r.Ok? <==> forall f | f in fs :: Fits(f, depth)
      ensures r.Ok? ==> r.value == Clauses(fs, old(nextParam))
      ensures params == old(params) + AllPushed(fs, depth)
      ensures nextParam == old(nextParam) + |AllPushed(fs, depth)|
      decreases fs
    {
      if fs == [] { return Ok([]); }
      assert fs == [fs[0]] + fs[1..];
      var first := CompileInner(fs[0], depth);
      if first.Err? { return Err(first.error); }
      FittingPushesLeaves(fs[0], depth);
      var others := CompileParts(fs[1..], depth);
      if others.Err? { return others; }
      return Ok([first.value] + others.value);
    }
  }
}
