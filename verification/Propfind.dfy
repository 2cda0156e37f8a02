/**
 Reading file paths out of a WebDAV PROPFIND response (RFC 4918, sections 9.1 and 14.7) by scanning
 its text for href tags, in ASCII documents.
 */
module Propfind {
  import opened Ascii
  import opened Wrappers
  import opened Percent

  // ----- Searching -----

  predicate Lowered(s: string, t: string) { |t| == |s| && forall i :: 0 <= i < |s| ==> t[i] == LowerChar(s[i]) }

  function Lower(s: string): (t: string)
    ensures Lowered(s, t)
  {
    if s == "" then "" else [LowerChar(s[0])] + Lower(s[1..])
  }

  /** `text` from its `j`-th character on, with `text` placed at `k`. */
  predicate Matches(s: string, k: nat, text: string, j: nat)
    decreases |text| - j
  {
    j >= |text| || (k + j < |s| && s[k + j] == text[j] && Matches(s, k, text, j + 1))
  }

  predicate At(s: string, k: nat, text: string) { Matches(s, k, text, 0) }

  lemma {:induction false} MatchedChar(s: string, k: nat, text: string, j: nat, i: nat)
    requires Matches(s, k, text, j) && j <= i < |text|
    ensures k + i < |s| && s[k + i] == text[i]
    decreases |text| - j
  {
    if j < i { MatchedChar(s, k, text, j + 1, i); }
  }

  lemma {:induction false} MatchesAll(s: string, k: nat, text: string, j: nat)
    requires k + |text| <= |s| && forall i :: j <= i < |text| ==> s[k + i] == text[i]
    ensures Matches(s, k, text, j)
    decreases |text| - j
  {
    if j < |text| { MatchesAll(s, k, text, j + 1); }
  }

  ghost predicate Absent(s: string, text: string) { forall k: nat :: !At(s, k, text) }

  /** The first occurrence at or after `from`. */
  function Find(s: string, text: string, from: nat): (r: Option<nat>)
    ensures r.Some? ==> from <= r.value && r.value + |text| <= |s| && At(s, r.value, text)
    decreases |s| - from
  {
    if from + |text| > |s| then None
    else if At(s, from, text) then Some(from)
    else if from == |s| then None
    else Find(s, text, from + 1)
  }

  lemma {:induction false} FindSkips(s: string, text: string, from: nat, p: nat)
    requires from <= p <= |s| && forall k | from <= k < p :: !At(s, k, text)
    ensures Find(s, text, from) == Find(s, text, p)
    decreases p - from
  {
    if from < p { FindSkips(s, text, from + 1, p); }
  }

  lemma {:induction false} FindAbsent(s: string, text: string, from: nat)
    requires Absent(s, text)
    ensures Find(s, text, from) == None
    decreases |s| - from
  {
    if from < |s| { FindAbsent(s, text, from + 1); }
  }

  // ----- The tags -----

  datatype Tags = Tags(open: string, close: string)

  /** The two styles that the scan knows, in the order in which it looks for them. */
  datatype Markup = Markup(first: Tags, second: Tags)

  function Hrefs(): Markup { Markup(Tags("<d:href>", "</d:href>"), Tags("<href>", "</href>")) }

  /** No angle bracket from `i` up to `n`. */
  predicate PlainIn(s: string, i: nat, n: nat) { n <= |s| && forall k :: i <= k < n ==> s[k] != '<' }

  predicate IsTag(tag: string) { |tag| > 1 && tag[0] == '<' && PlainIn(tag, 1, |tag|) }

  predicate AreTags(t: Tags) { IsTag(t.open) && IsTag(t.close) }

  // ----- The scan -----

  function OpenEnd(m: Markup, low: string, from: nat): (r: Option<nat>)
    ensures r.Some? ==> from <= r.value <= |low|
  {
    match Find(low, m.first.open, from)
    case Some(p) => Some(p + |m.first.open|)
    case None =>
      match Find(low, m.second.open, from)
      case Some(p) => Some(p + |m.second.open|)
      case None => None
  }

  predicate Closes(m: Markup) { |m.first.close| > 0 && |m.second.close| > 0 }

  function CloseStart(m: Markup, low: string, from: nat): (r: Option<nat>)
    requires Closes(m)
    ensures r.Some? ==> from <= r.value < |low|
  {
    match Find(low, m.first.close, from)
    case Some(p) => Some(p)
    case None => Find(low, m.second.close, from)
  }

  /** Where the text of an element starts and ends. */
  datatype Span = Span(start: nat, end: nat)

  function NextSpan(m: Markup, low: string, from: nat): (r: Option<Span>)
    requires Closes(m)
    ensures r.Some? ==> from <= r.value.start <= r.value.end < |low|
  {
    match OpenEnd(m, low, from)
    case None => None
    case Some(o) =>
      match CloseStart(m, low, o)
      case None => None
      case Some(c) => Some(Span(o, c))
  }

  /** Spans lie ahead, inside a text of length `n`. */
  ghost predicate Forward(next: nat -> Option<Span>, n: nat) {
    forall from: nat :: match next(from) case None => true case Some(span) => from <= span.start <= span.end < n
  }

  /** The text of each span from a position on, the next search starting `step` after its end. */
  function Collect(xml: string, next: nat -> Option<Span>, step: nat, from: nat): seq<string>
    requires Forward(next, |xml|) && step > 0
    decreases |xml| - from
  {
    match next(from)
    case None => []
    case Some(span) => [xml[span.start..span.end]] + Collect(xml, next, step, span.end + step)
  }

  function Spans(m: Markup, low: string): nat -> Option<Span>
    requires Closes(m)
  {
    (from: nat) => NextSpan(m, low, from)
  }

  lemma SpansForward(m: Markup, low: string)
    requires Closes(m)
    ensures Forward(Spans(m, low), |low|)
  {
    forall from: nat
      ensures Spans(m, low)(from).Some? ==>
        var span := Spans(m, low)(from).value;
        from <= span.start <= span.end < |low|
    {
      assert Spans(m, low)(from) == NextSpan(m, low, from);
    }
  }

  /** The raw text of each element: tags are sought in the lower-cased document, and every search
      starts inside the last closing tag. */
  function Scan(m: Markup, xml: string, low: string): seq<string>
    requires Closes(m) && |low| == |xml|
  {
    SpansForward(m, low);
    Collect(xml, Spans(m, low), 1, 0)
  }

  function TrimStart(s: string, p: char -> bool): string { if s != "" && p(s[0]) then TrimStart(s[1..], p) else s }

  function TrimEnd(s: string, p: char -> bool): string {
    if s != "" && p(s[|s| - 1]) then TrimEnd(s[..|s| - 1], p) else s
  }

  function Trim(s: string, p: char -> bool): string { TrimEnd(TrimStart(s, p), p) }

  function IsSpace(): char -> bool { (c: char) => c == ' ' || 9 as char <= c <= 13 as char }

  function IsSlash(): char -> bool { (c: char) => c == '/' }

  function WithoutBase(path: string, base: string): string {
    var trimmed := Trim(base, IsSlash());
    if trimmed != "" && trimmed + "/" <= path then path[|trimmed| + 1..] else path
  }

  /** The path an href names under the base path; nothing for a directory or the base itself. */
  function PathOf(raw: string, base: string): seq<string> {
    var href := Trim(raw, IsSpace());
    if href != "" && href[|href| - 1] == '/' then []
    else
      var path := WithoutBase(TrimStart(DecodeOrKeep(href), IsSlash()), base);
      if path == "" then [] else [path]
  }

  function PathsUnder(base: string): string -> seq<string> { (raw: string) => PathOf(raw, base) }

  /** What each raw text contributes, in order. */
  function Gathered(raws: seq<string>, read: string -> seq<string>): seq<string> {
    if raws == [] then [] else read(raws[0]) + Gathered(raws[1..], read)
  }

  lemma GatheredCons(raw: string, raws: seq<string>, read: string -> seq<string>)
    ensures Gathered([raw] + raws, read) == read(raw) + Gathered(raws, read)
  {
    assert ([raw] + raws)[1..] == raws;
  }

  /** The loop, with the search and the treatment of an href as parameters. */
  method ScanLoop(xml: string, next: nat -> Option<Span>, read: string -> seq<string>) returns (results: seq<string>)
    requires Forward(next, |xml|)
    ensures results == Gathered(Collect(xml, next, 1, 0), read)
  {
    results := [];
    var searchStart := 0;
    while true
      invariant searchStart <= |xml|
      invariant Gathered(Collect(xml, next, 1, 0), read) == results + Gathered(Collect(xml, next, 1, searchStart), read)
      decreases |xml| - searchStart
    {
      var span := next(searchStart);
      match span
      case None => break;
      case Some(found) =>
        var href := xml[found.start..found.end];
        GatheredCons(href, Collect(xml, next, 1, found.end + 1), read);
        searchStart := found.end + 1;
        results := results + read(href);
    }
  }

  method ParsePropfindHrefs(xml: string, base: string) returns (results: seq<string>)
    ensures Closes(Hrefs()) && results == Gathered(Scan(Hrefs(), xml, Lower(xml)), PathsUnder(base))
  {
    var low := Lower(xml);
    SpansForward(Hrefs(), low);
    results := ScanLoop(xml, Spans(Hrefs(), low), PathsUnder(base));
  }

  // ----- One tag style -----

  function NextBetween(t: Tags, low: string, from: nat): (r: Option<Span>)
    ensures r.Some? ==>
      from <= r.value.start <= r.value.end && r.value.end + |t.close| <= |low| && At(low, r.value.end, t.close)
  {
    match Find(low, t.open, from)
    case None => None
    case Some(p) =>
      match Find(low, t.close, p + |t.open|)
      case None => None
      case Some(q) => Some(Span(p + |t.open|, q))
  }

  function SpansBetween(t: Tags, low: string): nat -> Option<Span> { (from: nat) => NextBetween(t, low, from) }

  lemma SpansBetweenForward(t: Tags, low: string)
    requires |t.close| > 0
    ensures Forward(SpansBetween(t, low), |low|)
  {
    forall from: nat
      ensures SpansBetween(t, low)(from).Some? ==>
        var span := SpansBetween(t, low)(from).value;
        from <= span.start <= span.end < |low|
    {
      assert SpansBetween(t, low)(from) == NextBetween(t, low, from);
    }
  }

  /** The text between each opening tag and the next closing one, left to right, each search starting
      after the last closing tag. */
  function Between(t: Tags, xml: string, low: string): seq<string>
    requires |t.close| > 0 && |low| == |xml|
  {
    SpansBetweenForward(t, low);
    Collect(xml, SpansBetween(t, low), |t.close|, 0)
  }

  ghost predicate Lacks(low: string, t: Tags) { Absent(low, t.open) && Absent(low, t.close) }

  /** The tags of the document are all `t`'s. */
  ghost predicate OneStyle(m: Markup, low: string, t: Tags) {
    (t == m.first && Lacks(low, m.second)) || (t == m.second && Lacks(low, m.first))
  }

  lemma OneStyleSearch(m: Markup, low: string, t: Tags, from: nat)
    requires Closes(m) && OneStyle(m, low, t)
    ensures OpenEnd(m, low, from) == match Find(low, t.open, from) case None => None case Some(p) => Some(p + |t.open|)
    ensures CloseStart(m, low, from) == Find(low, t.close, from)
  {
    var other := if t == m.first && Lacks(low, m.second) then m.second else m.first;
    FindAbsent(low, other.open, from);
    FindAbsent(low, other.close, from);
  }

  lemma OneStyleSpan(m: Markup, low: string, t: Tags, from: nat)
    requires Closes(m) && |t.open| > 0 && OneStyle(m, low, t)
    ensures NextSpan(m, low, from) == NextBetween(t, low, from)
  {
    OneStyleSearch(m, low, t, from);
    match Find(low, t.open, from)
    case None =>
    case Some(p) => OneStyleSearch(m, low, t, p + |t.open|);
  }

  /** No tag starts strictly inside a tag. */
  lemma {:induction false} NothingInside(low: string, tag: string, q: nat, sought: string)
    requires IsTag(tag) && IsTag(sought) && At(low, q, tag) && q + |tag| <= |low|
    ensures Find(low, sought, q + 1) == Find(low, sought, q + |tag|)
  {
    forall k | q + 1 <= k < q + |tag| ensures !At(low, k, sought) {
      MatchedChar(low, q, tag, 0, k - q);
    }
    FindSkips(low, sought, q + 1, q + |tag|);
  }

  lemma ResumesAfterTag(t: Tags, low: string, q: nat)
    requires AreTags(t) && At(low, q, t.close) && q + |t.close| <= |low|
    ensures NextBetween(t, low, q + 1) == NextBetween(t, low, q + |t.close|)
  {
    NothingInside(low, t.close, q, t.open);
  }

  /** After its `k`-th span the search may as well go on one or `step` characters later. */
  predicate Resumes(g: nat -> Option<Span>, k: nat, step: nat) {
    match g(k) case None => true case Some(span) => g(span.end + 1) == g(span.end + step)
  }

  lemma {:induction false} CollectSame(xml: string, f: nat -> Option<Span>, g: nat -> Option<Span>, step: nat,
                                       from: nat)
    requires Forward(f, |xml|) && Forward(g, |xml|) && step > 0
    requires forall k: nat :: f(k) == g(k)
    requires forall k: nat :: Resumes(g, k, step)
    ensures Collect(xml, f, 1, from) == Collect(xml, g, step, from)
    decreases |xml| - from
  {
    assert Resumes(g, from, step);
    match g(from)
    case None =>
    case Some(span) =>
      CollectSame(xml, f, g, step, span.end + 1);
      CollectAgain(xml, g, step, span.end + 1, span.end + step);
  }

  lemma CollectAgain(xml: string, g: nat -> Option<Span>, step: nat, a: nat, b: nat)
    requires Forward(g, |xml|) && step > 0 && g(a) == g(b)
    ensures Collect(xml, g, step, a) == Collect(xml, g, step, b)
  {
  }

  lemma SpansAgree(m: Markup, t: Tags, low: string)
    requires Closes(m) && AreTags(t) && OneStyle(m, low, t)
    ensures forall k: nat :: Spans(m, low)(k) == SpansBetween(t, low)(k)
  {
    forall k: nat ensures Spans(m, low)(k) == SpansBetween(t, low)(k) {
      OneStyleSpan(m, low, t, k);
    }
  }

  lemma SpansResume(t: Tags, low: string)
    requires AreTags(t)
    ensures forall k: nat :: Resumes(SpansBetween(t, low), k, |t.close|)
  {
    forall k: nat ensures Resumes(SpansBetween(t, low), k, |t.close|) {
      SpanResumes(t, low, k);
    }
  }

  lemma {:induction false} SpanResumes(t: Tags, low: string, k: nat)
    requires AreTags(t)
    ensures Resumes(SpansBetween(t, low), k, |t.close|)
  {
    match NextBetween(t, low, k)
    case None =>
    case Some(span) => ResumesAfterTag(t, low, span.end);
  }

  /** In a document with one tag style the scan finds exactly the text between the tags, although it
      looks for both styles and resumes inside a closing tag. */
  lemma ScanFindsBetween(m: Markup, t: Tags, xml: string, low: string)
    requires Closes(m) && AreTags(t) && |low| == |xml| && OneStyle(m, low, t)
    ensures Scan(m, xml, low) == Between(t, xml, low)
  {
    SpansForward(m, low);
    SpansBetweenForward(t, low);
    SpansAgree(m, t, low);
    SpansResume(t, low);
    CollectSame(xml, Spans(m, low), SpansBetween(t, low), |t.close|, 0);
  }
}
