/** JSON documents and the containment operator `@>` of PostgreSQL's jsonb type. */
module Json {
  datatype Json =
    | Null
    | Bool(b: bool)
    | Number(n: real)
    | Str(s: string)
    | Array(items: seq<Json>)
    | Object(fields: map<string, Json>)

  /** `doc @> pattern`: every member or element of the pattern is contained in one of the document. */
  predicate Contains(doc: Json, pattern: Json)
    decreases pattern
  {
    match pattern
    case Object(fields) =>
      doc.Object? && forall k | k in fields :: k in doc.fields && Contains(doc.fields[k], fields[k])
    case Array(items) =>
      doc.Array? && forall x | x in items :: exists y | y in doc.items :: Contains(y, x)
    case _ => doc == pattern
  }

  lemma {:induction false} ContainsItself(doc: Json)
    ensures Contains(doc, doc)
  {
    match doc
    case Object(fields) =>
      forall k | k in fields ensures Contains(fields[k], fields[k]) { ContainsItself(fields[k]); }
    case Array(items) =>
      forall x | x in items ensures Contains(x, x) { ContainsItself(x); }
    case _ =>
  }

  lemma {:induction false} ContainsThrough(a: Json, b: Json, c: Json)
    requires Contains(a, b) && Contains(b, c)
    ensures Contains(a, c)
    decreases c
  {
    match c
    case Object(fields) =>
      forall k | k in fields ensures k in a.fields && Contains(a.fields[k], fields[k]) {
        ContainsThrough(a.fields[k], b.fields[k], fields[k]);
      }
    case Array(items) =>
      forall x | x in items ensures exists z | z in a.items :: Contains(z, x) {
        var y :| y in b.items && Contains(y, x);
        var z :| z in a.items && Contains(z, y);
        ContainsThrough(z, y, x);
      }
    case _ =>
  }
}
