/**
 What the PROPFIND scan makes of a whole response: for a document put together from href elements
 and other text it returns the text of the elements, and for a server's listing of files and
 directories the paths of the files.
 */
module PropfindListing {
  import opened Ascii
  import opened Wrappers
  import opened Propfind

  // ----- Documents put together from elements -----

  /** One element, its tags in any case, and the text up to the next. */
  datatype Element = Element(open: string, href: string, close: string, gap: string)

  function Body(elements: seq<Element>): string {
    if elements == [] then ""
    else elements[0].open + (elements[0].href + (elements[0].close + (elements[0].gap + Body(elements[1..]))))
  }

  function Texts(elements: seq<Element>): seq<string> {
    if elements == [] then [] else [elements[0].href] + Texts(elements[1..])
  }

  predicate Apart(a: string, b: string) { exists i :: 0 <= i < |a| && i < |b| && a[i] != b[i] }

  /** Proper tags of which none begins another. */
  predicate WellFormed(m: Markup) {
    && AreTags(m.first) && AreTags(m.second)
    && Apart(m.first.open, m.first.close) && Apart(m.second.open, m.second.close)
    && Apart(m.first.open, m.second.open) && Apart(m.first.open, m.second.close)
    && Apart(m.first.close, m.second.open) && Apart(m.first.close, m.second.close)
  }

  lemma HrefsWellFormed()
    ensures WellFormed(Hrefs())
  {
    var m := Hrefs();
    assert m.first.open[1] == 'd' && m.second.open[1] == 'h' && m.first.close[1] == '/' && m.second.close[1] == '/';
    assert m.first.close[2] == 'd' && m.second.close[2] == 'h';
  }

  /** Text without tags of either style. */
  ghost predicate Tagless(m: Markup, text: string) { Lacks(Lower(text), m.first) && Lacks(Lower(text), m.second) }

  ghost predicate ElementOk(m: Markup, t: Tags, e: Element) {
    Lowered(e.open, t.open) && Lowered(e.close, t.close) && PlainIn(e.href, 0, |e.href|) && Tagless(m, e.gap)
  }

  ghost predicate ElementsOk(m: Markup, t: Tags, elements: seq<Element>) {
    forall e | e in elements :: ElementOk(m, t, e)
  }

  // ----- Where tags are not -----

  predicate NoneIn(low: string, tag: string, a: nat, b: nat) { forall k :: a <= k < b ==> !At(low, k, tag) }

  lemma PlainLacks(low: string, tag: string, a: nat, b: nat)
    requires PlainIn(low, a, b) && IsTag(tag)
    ensures NoneIn(low, tag, a, b)
  {
  }

  /** A tag cannot start in a tagless stretch, not even to end beyond it, if the text ends there or an
      angle bracket follows. */
  lemma GapLacks(low: string, gap: string, tag: string, a: nat)
    requires a + |gap| <= |low| && low[a..a + |gap|] == gap && Absent(gap, tag) && IsTag(tag)
    requires a + |gap| == |low| || low[a + |gap|] == '<'
    ensures NoneIn(low, tag, a, a + |gap|)
  {
    var b := a + |gap|;
    forall k | a <= k < b ensures !At(low, k, tag) {
      if At(low, k, tag) {
        if k + |tag| <= b {
          forall i | 0 <= i < |tag| ensures gap[k - a + i] == tag[i] {
            MatchedChar(low, k, tag, 0, i);
            assert gap[k - a + i] == low[a..b][k - a + i];
          }
          MatchesAll(gap, k - a, tag, 0);
          assert At(gap, k - a, tag);
        } else {
          MatchedChar(low, k, tag, 0, b - k);
        }
      }
    }
  }

  lemma ApartLacks(low: string, k: nat, here: string, tag: string)
    requires At(low, k, here) && (Apart(here, tag) || Apart(tag, here))
    ensures !At(low, k, tag)
  {
    if At(low, k, tag) {
      var i :| 0 <= i < |here| && i < |tag| && here[i] != tag[i];
      MatchedChar(low, k, here, 0, i);
      MatchedChar(low, k, tag, 0, i);
    }
  }

  // ----- One element in its place -----

  /** A gap from `a`, an opening tag at `b`, a closing one at `c`. */
  predicate Placed(low: string, t: Tags, a: nat, b: nat, c: nat) {
    && a <= b && b + |t.open| <= c && c + |t.close| <= |low|
    && At(low, b, t.open) && At(low, c, t.close)
    && PlainIn(low, b + 1, c) && PlainIn(low, c + 1, c + |t.close|)
  }

  lemma PlacedSpan(low: string, t: Tags, a: nat, b: nat, c: nat)
    requires AreTags(t) && Placed(low, t, a, b, c) && NoneIn(low, t.open, a, b)
    ensures NextBetween(t, low, a) == Some(Span(b + |t.open|, c))
  {
    FindSkips(low, t.open, a, b);
    PlainLacks(low, t.close, b + |t.open|, c);
    FindSkips(low, t.close, b + |t.open|, c);
  }

  /** No tag apart from `t`'s starts before the end of the element. */
  lemma PlacedLacks(low: string, t: Tags, tag: string, a: nat, b: nat, c: nat)
    requires Placed(low, t, a, b, c) && NoneIn(low, tag, a, b) && IsTag(tag)
    requires (Apart(t.open, tag) || Apart(tag, t.open)) && (Apart(t.close, tag) || Apart(tag, t.close))
    ensures NoneIn(low, tag, a, c + |t.close|)
  {
    ApartLacks(low, b, t.open, tag);
    ApartLacks(low, c, t.close, tag);
    PlainLacks(low, tag, b + 1, c);
    PlainLacks(low, tag, c + 1, c + |t.close|);
    forall k | a <= k < c + |t.close| ensures !At(low, k, tag) {
      assert k < b || k == b || b + 1 <= k < c || k == c || c + 1 <= k;
    }
  }

  /** `text` is what `xml` has from `a` on. */
  predicate Holds(xml: string, a: nat, text: string) { a + |text| <= |xml| && xml[a..a + |text|] == text }

  lemma LowerPart(xml: string, low: string, a: nat, text: string)
    requires Lowered(xml, low) && Holds(xml, a, text)
    ensures forall i :: 0 <= i < |text| ==> low[a + i] == LowerChar(text[i])
  {
    forall i | 0 <= i < |text| ensures low[a + i] == LowerChar(text[i]) {
      assert xml[a..a + |text|][i] == text[i];
    }
  }

  lemma GapPart(xml: string, low: string, a: nat, gap: string)
    requires Lowered(xml, low) && Holds(xml, a, gap)
    ensures a + |gap| <= |low| && Lowered(gap, low[a..a + |gap|])
  {
    LowerPart(xml, low, a, gap);
  }

  lemma PlainPart(xml: string, low: string, a: nat, text: string)
    requires Lowered(xml, low) && Holds(xml, a, text) && PlainIn(text, 0, |text|)
    ensures PlainIn(low, a, a + |text|)
  {
    LowerPart(xml, low, a, text);
    forall k | a <= k < a + |text| ensures low[k] != '<' {
      assert low[a + (k - a)] == LowerChar(text[k - a]);
    }
  }

  lemma TagPart(xml: string, low: string, a: nat, text: string, tag: string)
    requires Lowered(xml, low) && Holds(xml, a, text) && Lowered(text, tag) && IsTag(tag)
    ensures a + |tag| <= |low| && At(low, a, tag) && PlainIn(low, a + 1, a + |tag|) && low[a] == '<'
  {
    LowerPart(xml, low, a, text);
    MatchesAll(low, a, tag, 0);
    assert low[a + 0] == tag[0];
    forall k | a + 1 <= k < a + |tag| ensures low[k] != '<' {
      assert low[a + (k - a)] == tag[k - a];
    }
  }

  /** Where an element is that comes after a gap. */
  lemma FirstPlaced(t: Tags, xml: string, low: string, a: nat, gap: string, e: Element)
    requires AreTags(t) && Lowered(e.open, t.open) && Lowered(e.close, t.close) && PlainIn(e.href, 0, |e.href|)
    requires Lowered(xml, low) && Holds(xml, a, gap) && Holds(xml, a + |gap|, e.open)
    requires Holds(xml, a + |gap| + |e.open|, e.href) && Holds(xml, a + |gap| + |e.open| + |e.href|, e.close)
    ensures var b := a + |gap|;
      Placed(low, t, a, b, b + |t.open| + |e.href|) && Lowered(gap, low[a..b]) && low[b] == '<'
  {
    var b := a + |gap|;
    GapPart(xml, low, a, gap);
    TagPart(xml, low, b, e.open, t.open);
    PlainPart(xml, low, b + |t.open|, e.href);
    TagPart(xml, low, b + |t.open| + |e.href|, e.close, t.close);
  }

  // ----- Whole documents -----

  function OtherStyle(m: Markup, t: Tags): Tags { if t == m.first then m.second else m.first }

  predicate StyleOf(m: Markup, t: Tags) { WellFormed(m) && (t == m.first || t == m.second) }

  lemma LoweredIs(s: string, t: string)
    requires Lowered(s, t)
    ensures t == Lower(s)
  {
  }

  ghost predicate OthersAbsent(m: Markup, t: Tags, low: string, a: nat, b: nat) {
    NoneIn(low, OtherStyle(m, t).open, a, b) && NoneIn(low, OtherStyle(m, t).close, a, b)
  }

  lemma GapIsTagless(m: Markup, t: Tags, low: string, gap: string, a: nat)
    requires StyleOf(m, t) && Tagless(m, gap) && a + |gap| <= |low| && Lowered(gap, low[a..a + |gap|])
    requires a + |gap| == |low| || low[a + |gap|] == '<'
    ensures NoneIn(low, t.open, a, a + |gap|) && OthersAbsent(m, t, low, a, a + |gap|)
  {
    LoweredIs(gap, low[a..a + |gap|]);
    GapLacks(low, Lower(gap), t.open, a);
    GapLacks(low, Lower(gap), OtherStyle(m, t).open, a);
    GapLacks(low, Lower(gap), OtherStyle(m, t).close, a);
  }

  /** `g` looks for the spans of `t` in `low`. */
  ghost predicate Seeks(g: nat -> Option<Span>, t: Tags, low: string) { forall k: nat :: IsNext(g, t, low, k) }

  predicate IsNext(g: nat -> Option<Span>, t: Tags, low: string, k: nat) { g(k) == NextBetween(t, low, k) }

  lemma LastGap(m: Markup, t: Tags, xml: string, low: string, g: nat -> Option<Span>, a: nat, gap: string)
    requires StyleOf(m, t) && Lowered(xml, low) && Seeks(g, t, low)
    requires Tagless(m, gap) && Holds(xml, a, gap) && a + |gap| == |xml|
    ensures g(a) == None && OthersAbsent(m, t, low, a, |low|)
  {
    GapPart(xml, low, a, gap);
    GapIsTagless(m, t, low, gap, a);
    FindSkips(low, t.open, a, |low|);
    assert IsNext(g, t, low, a);
  }

  lemma FirstSpan(t: Tags, low: string, g: nat -> Option<Span>, a: nat, b: nat, c: nat)
    requires AreTags(t) && Seeks(g, t, low) && Placed(low, t, a, b, c) && NoneIn(low, t.open, a, b)
    ensures g(a) == Some(Span(b + |t.open|, c))
  {
    PlacedSpan(low, t, a, b, c);
    assert IsNext(g, t, low, a);
  }

  lemma FirstLacks(m: Markup, t: Tags, low: string, a: nat, b: nat, c: nat)
    requires StyleOf(m, t) && Placed(low, t, a, b, c) && OthersAbsent(m, t, low, a, b)
    ensures OthersAbsent(m, t, low, a, c + |t.close|)
  {
    PlacedLacks(low, t, OtherStyle(m, t).open, a, b, c);
    PlacedLacks(low, t, OtherStyle(m, t).close, a, b, c);
  }

  lemma FirstElement(m: Markup, t: Tags, xml: string, low: string, g: nat -> Option<Span>, a: nat, gap: string,
                     e: Element)
    requires StyleOf(m, t) && Lowered(xml, low) && Seeks(g, t, low) && Tagless(m, gap) && ElementOk(m, t, e)
    requires Holds(xml, a, gap) && Holds(xml, a + |gap|, e.open)
    requires Holds(xml, a + |gap| + |e.open|, e.href) && Holds(xml, a + |gap| + |e.open| + |e.href|, e.close)
    ensures g(a) == Some(Span(a + |gap| + |e.open|, a + |gap| + |e.open| + |e.href|))
    ensures OthersAbsent(m, t, low, a, a + |gap| + |e.open| + |e.href| + |e.close|)
  {
    var b := a + |gap|;
    var c := b + |e.open| + |e.href|;
    FirstPlaced(t, xml, low, a, gap, e);
    GapIsTagless(m, t, low, gap, a);
    FirstSpan(t, low, g, a, b, c);
    FirstLacks(m, t, low, a, b, c);
  }

  lemma CollectFirst(xml: string, g: nat -> Option<Span>, step: nat, a: nat, span: Span)
    requires Forward(g, |xml|) && step > 0 && g(a) == Some(span)
    ensures span.start <= span.end <= |xml|
    ensures Collect(xml, g, step, a) == [xml[span.start..span.end]] + Collect(xml, g, step, span.end + step)
  {
  }

  // What the induction over the elements needs to know about gaps, elements and the stretches between.

  predicate LastFact(xml: string, g: nat -> Option<Span>, gapOk: string -> bool, clean: (nat, nat) -> bool, a: nat,
                     gap: string) {
    gapOk(gap) && Holds(xml, a, gap) && a + |gap| == |xml| ==> g(a) == None && clean(a, |xml|)
  }

  predicate ElementAt(xml: string, a: nat, gap: string, e: Element) {
    && Holds(xml, a, gap) && Holds(xml, a + |gap|, e.open)
    && Holds(xml, a + |gap| + |e.open|, e.href) && Holds(xml, a + |gap| + |e.open| + |e.href|, e.close)
  }

  function End(a: nat, gap: string, e: Element): nat { a + |gap| + |e.open| + |e.href| + |e.close| }

  predicate FirstFact(xml: string, g: nat -> Option<Span>, step: nat, gapOk: string -> bool, ok: Element -> bool,
                      clean: (nat, nat) -> bool, a: nat, gap: string, e: Element) {
    gapOk(gap) && ok(e) && ElementAt(xml, a, gap, e) ==>
      && g(a) == Some(Span(a + |gap| + |e.open|, a + |gap| + |e.open| + |e.href|))
      && |e.close| == step && gapOk(e.gap) && clean(a, End(a, gap, e))
  }

  predicate Joins(clean: (nat, nat) -> bool, a: nat, b: nat, c: nat) { clean(a, b) && clean(b, c) ==> clean(a, c) }

  /** From `a` on there are a gap and the elements. */
  predicate RestAt(xml: string, a: nat, gap: string, elements: seq<Element>) {
    a <= |xml| && xml[a..] == gap + Body(elements)
  }

  lemma Peel(xml: string, a: nat, p: string, r: string)
    requires a <= |xml| && xml[a..] == p + r
    ensures Holds(xml, a, p) && xml[a + |p|..] == r
  {
    assert xml[a..][..|p|] == p && xml[a..][|p|..] == r;
  }

  lemma RestSplits(xml: string, a: nat, gap: string, e: Element, rest: seq<Element>)
    requires a <= |xml| && xml[a..] == gap + (e.open + (e.href + (e.close + (e.gap + Body(rest)))))
    ensures ElementAt(xml, a, gap, e) && RestAt(xml, End(a, gap, e), e.gap, rest)
  {
    Peel(xml, a, gap, e.open + (e.href + (e.close + (e.gap + Body(rest)))));
    Peel(xml, a + |gap|, e.open, e.href + (e.close + (e.gap + Body(rest))));
    Peel(xml, a + |gap| + |e.open|, e.href, e.close + (e.gap + Body(rest)));
    Peel(xml, a + |gap| + |e.open| + |e.href|, e.close, e.gap + Body(rest));
  }

  lemma {:induction false} CollectOne(xml: string, g: nat -> Option<Span>, step: nat, gapOk: string -> bool,
                                      ok: Element -> bool, clean: (nat, nat) -> bool, a: nat, gap: string, e: Element)
    requires Forward(g, |xml|) && step > 0 && gapOk(gap) && ok(e) && ElementAt(xml, a, gap, e)
    requires FirstFact(xml, g, step, gapOk, ok, clean, a, gap, e)
    ensures Collect(xml, g, step, a) == [e.href] + Collect(xml, g, step, End(a, gap, e))
    ensures gapOk(e.gap) && clean(a, End(a, gap, e))
  {
    CollectFirst(xml, g, step, a, Span(a + |gap| + |e.open|, a + |gap| + |e.open| + |e.href|));
  }

  lemma {:induction false} CollectElements(xml: string, g: nat -> Option<Span>, step: nat, gapOk: string -> bool,
                                           ok: Element -> bool, clean: (nat, nat) -> bool, a: nat, gap: string,
                                           elements: seq<Element>)
    requires Forward(g, |xml|) && step > 0 && RestAt(xml, a, gap, elements)
    requires gapOk(gap) && forall e | e in elements :: ok(e)
    requires forall k: nat, s: string :: LastFact(xml, g, gapOk, clean, k, s)
    requires forall k: nat, s: string, e: Element :: FirstFact(xml, g, step, gapOk, ok, clean, k, s, e)
    requires forall i: nat, j: nat, k: nat :: Joins(clean, i, j, k)
    ensures Collect(xml, g, step, a) == Texts(elements) && clean(a, |xml|)
    decreases |elements|
  {
    if elements == [] {
      assert xml[a..a + |gap|] == xml[a..];
      assert LastFact(xml, g, gapOk, clean, a, gap);
    } else {
      var e, rest := elements[0], elements[1..];
      assert e in elements;
      RestSplits(xml, a, gap, e, rest);
      CollectOne(xml, g, step, gapOk, ok, clean, a, gap, e);
      CollectElements(xml, g, step, gapOk, ok, clean, End(a, gap, e), e.gap, rest);
      assert Joins(clean, a, End(a, gap, e), |xml|);
    }
  }

  ghost function TaglessIn(m: Markup): string -> bool { (s: string) => Tagless(m, s) }

  ghost function OkFor(m: Markup, t: Tags): Element -> bool { (e: Element) => ElementOk(m, t, e) }

  ghost function CleanIn(m: Markup, t: Tags, low: string): (nat, nat) -> bool {
    (a: nat, b: nat) => OthersAbsent(m, t, low, a, b)
  }

  lemma LastHolds(m: Markup, t: Tags, xml: string, low: string, g: nat -> Option<Span>, a: nat, gap: string)
    requires StyleOf(m, t) && Lowered(xml, low) && Seeks(g, t, low)
    ensures LastFact(xml, g, TaglessIn(m), CleanIn(m, t, low), a, gap)
  {
    if Tagless(m, gap) && Holds(xml, a, gap) && a + |gap| == |xml| { LastGap(m, t, xml, low, g, a, gap); }
  }

  lemma FirstElementEnds(m: Markup, t: Tags, xml: string, low: string, g: nat -> Option<Span>, a: nat, gap: string,
                         e: Element)
    requires StyleOf(m, t) && Lowered(xml, low) && Seeks(g, t, low) && Tagless(m, gap) && ElementOk(m, t, e)
    requires ElementAt(xml, a, gap, e)
    ensures g(a) == Some(Span(a + |gap| + |e.open|, a + |gap| + |e.open| + |e.href|))
    ensures OthersAbsent(m, t, low, a, End(a, gap, e)) && Tagless(m, e.gap) && |e.close| == |t.close|
  {
    FirstElement(m, t, xml, low, g, a, gap, e);
  }

  lemma FirstHolds(m: Markup, t: Tags, xml: string, low: string, g: nat -> Option<Span>, a: nat, gap: string,
                   e: Element)
    requires StyleOf(m, t) && Lowered(xml, low) && Seeks(g, t, low)
    ensures FirstFact(xml, g, |t.close|, TaglessIn(m), OkFor(m, t), CleanIn(m, t, low), a, gap, e)
  {
    var gapOk, ok, clean := TaglessIn(m), OkFor(m, t), CleanIn(m, t, low);
    if gapOk(gap) && ok(e) && ElementAt(xml, a, gap, e) {
      FirstElementEnds(m, t, xml, low, g, a, gap, e);
      assert gapOk(e.gap) && clean(a, End(a, gap, e));
    }
  }

  /** The spans that a document's elements should give, and no tags of the other style. */
  lemma {:induction false} SpansOfDocument(m: Markup, t: Tags, xml: string, low: string, g: nat -> Option<Span>,
                                           head: string, elements: seq<Element>)
    requires StyleOf(m, t) && Lowered(xml, low) && Seeks(g, t, low) && Forward(g, |xml|)
    requires xml == head + Body(elements) && Tagless(m, head) && ElementsOk(m, t, elements)
    ensures |t.close| > 0 && Collect(xml, g, |t.close|, 0) == Texts(elements)
    ensures OthersAbsent(m, t, low, 0, |low|)
  {
    var gapOk, ok, clean := TaglessIn(m), OkFor(m, t), CleanIn(m, t, low);
    forall a: nat, s: string ensures LastFact(xml, g, gapOk, clean, a, s) {
      LastHolds(m, t, xml, low, g, a, s);
    }
    forall a: nat, s: string, e: Element ensures FirstFact(xml, g, |t.close|, gapOk, ok, clean, a, s, e) {
      FirstHolds(m, t, xml, low, g, a, s, e);
    }
    forall a: nat, b: nat, c: nat ensures Joins(clean, a, b, c) {
    }
    assert forall e | e in elements :: ElementOk(m, t, e) && ok(e);
    assert xml[0..] == xml;
    CollectElements(xml, g, |t.close|, gapOk, ok, clean, 0, head, elements);
  }

  /** A document put together from elements of one tag style, in any mixture of case, and other text
      without such tags: the scan finds the text of every element, in order. */
  lemma ScanFindsElements(m: Markup, t: Tags, head: string, elements: seq<Element>)
    requires StyleOf(m, t) && Closes(m) && Tagless(m, head) && ElementsOk(m, t, elements)
    ensures var xml := head + Body(elements); Scan(m, xml, Lower(xml)) == Texts(elements)
  {
    var xml := head + Body(elements);
    var low := Lower(xml);
    var g := SpansBetween(t, low);
    SpansBetweenForward(t, low);
    assert Seeks(g, t, low) by {
      forall k: nat ensures IsNext(g, t, low, k) {
        assert g(k) == NextBetween(t, low, k);
      }
    }
    SpansOfDocument(m, t, xml, low, g, head, elements);
    NoneMeansAbsent(low, OtherStyle(m, t).open);
    NoneMeansAbsent(low, OtherStyle(m, t).close);
    ScanFindsBetween(m, t, xml, low);
  }

  lemma NoneMeansAbsent(low: string, tag: string)
    requires NoneIn(low, tag, 0, |low|) && IsTag(tag)
    ensures Absent(low, tag)
  {
  }
}
