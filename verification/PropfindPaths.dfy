/**
 From paths to hrefs and back: a server's listing of files and directories under a base path, read
 by the PROPFIND scan.
 */
module PropfindPaths {
  import opened Percent
  import opened Propfind
  import opened PropfindListing

  /** Root is the collection at the base itself, which its listing contains too. */
  datatype Item = File(path: string) | Directory(path: string) | Root

  function Under(base: string, path: string): string {
    var trimmed := Trim(base, IsSlash());
    if trimmed == "" then path else trimmed + "/" + path
  }

  /** An item's path from the server's root, without slashes at its ends. */
  function FullPath(base: string, item: Item): string {
    if item.Root? then Trim(base, IsSlash()) else Under(base, item.path)
  }

  /** The absolute path of an item, percent-encoded; a directory's ends in a slash. */
  function HrefOf(base: string, item: Item): string
    requires IsBytes(FullPath(base, item))
  {
    "/" + Encode(FullPath(base, item)) + if item.File? || FullPath(base, item) == "" then "" else "/"
  }

  /** Relative: no slash at the end, and none at the start unless a base comes before it. */
  predicate CleanPath(base: string, path: string) {
    && path != "" && path[|path| - 1] != '/' && ValidUtf8(path)
    && (Trim(base, IsSlash()) == "" ==> path[0] != '/')
  }

  predicate CleanItem(base: string, item: Item) { item.Root? || CleanPath(base, item.path) }

  function FilePaths(items: seq<Item>): seq<string> {
    if items == [] then [] else (if items[0].File? then [items[0].path] else []) + FilePaths(items[1..])
  }

  predicate IsPadding(s: string) { forall i :: 0 <= i < |s| ==> s[i] == ' ' || '\t' <= s[i] <= '\r' }

  ghost predicate PaddedAs(raw: string, core: string) {
    exists before, after :: IsPadding(before) && IsPadding(after) && raw == before + core + after
  }

  // ----- Trimming -----

  lemma {:induction false} ValidUtf8Init(s: string)
    requires ValidUtf8(s) && s != "" && s[|s| - 1] as nat < 0x80
    ensures ValidUtf8(s[..|s| - 1])
    decreases |s|
  {
    var n := SequenceLength(s);
    if n < |s| {
      var init := s[..|s| - 1];
      ValidUtf8Init(s[n..]);
      assert SequenceLength(init) == n;
      assert init[n..] == s[n..][..|s[n..]| - 1];
    }
  }

  lemma {:induction false} TrimStartSlashes(s: string)
    ensures ValidUtf8(s) ==> ValidUtf8(TrimStart(s, IsSlash()))
    ensures TrimStart(s, IsSlash()) != "" ==> TrimStart(s, IsSlash())[0] != '/'
  {
    if s != "" && s[0] == '/' { TrimStartSlashes(s[1..]); }
  }

  lemma {:induction false} TrimEndSlashes(s: string)
    ensures ValidUtf8(s) ==> ValidUtf8(TrimEnd(s, IsSlash()))
    ensures TrimEnd(s, IsSlash()) <= s
  {
    if s != "" && s[|s| - 1] == '/' {
      TrimEndSlashes(s[..|s| - 1]);
      if ValidUtf8(s) { ValidUtf8Init(s); }
    }
  }

  lemma TrimmedBase(base: string)
    requires ValidUtf8(base)
    ensures var trimmed := Trim(base, IsSlash()); ValidUtf8(trimmed) && (trimmed != "" ==> trimmed[0] != '/')
  {
    var start := TrimStart(base, IsSlash());
    TrimStartSlashes(base);
    TrimEndSlashes(start);
    assert TrimEnd(start, IsSlash()) <= start;
  }

  /** Nothing to trim if the ends are no spaces. */
  lemma TrimNothing(s: string)
    requires s != "" && !IsSpace()(s[0]) && !IsSpace()(s[|s| - 1])
    ensures Trim(s, IsSpace()) == s
  {
  }

  // ----- One href -----

  lemma UnderFacts(base: string, path: string)
    requires ValidUtf8(base) && CleanPath(base, path)
    ensures var full := Under(base, path);
      && ValidUtf8(full) && IsBytes(full) && full != "" && full[0] != '/' && full[|full| - 1] == path[|path| - 1]
      && WithoutBase(full, base) == path
  {
    var trimmed := Trim(base, IsSlash());
    var full := Under(base, path);
    TrimmedBase(base);
    if trimmed != "" {
      assert ValidUtf8("/") by { assert "/"[1..] == ""; }
      ValidUtf8Append(trimmed, "/");
      ValidUtf8Append(trimmed + "/", path);
      assert trimmed + "/" <= full && full[|trimmed| + 1..] == path;
    }
    ValidUtf8Bytes(full);
  }

  predicate HrefChars(s: string) { forall k :: 0 <= k < |s| ==> HrefChar(s[k]) }

  lemma CharsOfHref(base: string, item: Item)
    requires IsBytes(FullPath(base, item))
    ensures HrefChars(HrefOf(base, item))
  {
    var text := Encode(FullPath(base, item));
    EncodedChars(FullPath(base, item));
    var href := HrefOf(base, item);
    forall k | 0 <= k < |href| ensures HrefChar(href[k]) {
      if 1 <= k <= |text| { assert href[k] == text[k - 1]; }
    }
  }

  lemma HrefCharsPlain(s: string)
    requires HrefChars(s) && s != ""
    ensures Trim(s, IsSpace()) == s && PlainIn(s, 0, |s|)
  {
    TrimNothing(s);
  }

  lemma FullPathFacts(base: string, item: Item)
    requires ValidUtf8(base) && CleanItem(base, item)
    ensures IsBytes(FullPath(base, item))
    ensures item.Root? || (FullPath(base, item) != "" && FullPath(base, item)[|FullPath(base, item)| - 1] != '/')
  {
    if item.Root? {
      TrimmedBase(base);
      ValidUtf8Bytes(Trim(base, IsSlash()));
    } else {
      UnderFacts(base, item.path);
    }
  }

  lemma HrefFacts(base: string, item: Item)
    requires ValidUtf8(base) && CleanItem(base, item)
    ensures IsBytes(FullPath(base, item))
    ensures var href := HrefOf(base, item);
      && href != "" && Trim(href, IsSpace()) == href && PlainIn(href, 0, |href|)
      && !IsSpace()(href[0]) && !IsSpace()(href[|href| - 1])
      && (href[|href| - 1] == '/' <==> !item.File?)
  {
    FullPathFacts(base, item);
    CharsOfHref(base, item);
    HrefCharsPlain(HrefOf(base, item));
    LastOfHref(base, item);
  }

  lemma LastOfHref(base: string, item: Item)
    requires IsBytes(FullPath(base, item))
    requires var full := FullPath(base, item); item.Root? || (full != "" && full[|full| - 1] != '/')
    ensures var href := HrefOf(base, item); href != "" && (href[|href| - 1] == '/' <==> !item.File?)
  {
    var text := Encode(FullPath(base, item));
    EncodedChars(FullPath(base, item));
    if item.File? {
      assert HrefOf(base, item) == "/" + text;
    } else if FullPath(base, item) == "" {
      assert HrefOf(base, item) == "/";
    }
  }

  lemma DecodedHref(full: string)
    requires ValidUtf8(full) && IsBytes(full) && full != "" && full[0] != '/'
    ensures TrimStart(DecodeOrKeep("/" + Encode(full)), IsSlash()) == full
  {
    var raw := "/" + Encode(full);
    assert raw[1..] == Encode(full);
    DecodeEncode(full);
    assert Decode(raw) == "/" + full;
    assert ("/" + full)[1..] == full;
    assert ValidUtf8("/" + full);
  }

  /** Reading an item's href gives its path back, and nothing for a directory or the base itself. */
  lemma PathOfHref(base: string, item: Item)
    requires ValidUtf8(base) && CleanItem(base, item)
    ensures IsBytes(FullPath(base, item))
    ensures PathOf(HrefOf(base, item), base) == if item.File? then [item.path] else []
  {
    HrefFacts(base, item);
    if item.File? {
      UnderFacts(base, item.path);
      DecodedHref(Under(base, item.path));
      assert HrefOf(base, item) == "/" + Encode(Under(base, item.path));
    }
  }

  lemma {:induction false} TrimPadding(before: string, core: string, after: string)
    requires IsPadding(before) && IsPadding(after)
    requires core != "" && !IsSpace()(core[0]) && !IsSpace()(core[|core| - 1])
    ensures Trim(before + core + after, IsSpace()) == core
  {
    var s := before + core + after;
    assert s == before + (core + after);
    TrimStartPadding(before, core + after);
    TrimEndPadding(core, after);
  }

  /** Spaces around an href make no difference. */
  lemma {:induction false} PaddedFacts(raw: string, core: string, base: string)
    requires PaddedAs(raw, core) && core != "" && Trim(core, IsSpace()) == core && PlainIn(core, 0, |core|)
    requires !IsSpace()(core[0]) && !IsSpace()(core[|core| - 1])
    ensures PathOf(raw, base) == PathOf(core, base) && PlainIn(raw, 0, |raw|)
  {
    var before, after :| IsPadding(before) && IsPadding(after) && raw == before + core + after;
    TrimPadding(before, core, after);
    PaddedPlain(before, core, after);
  }

  lemma PaddedPlain(before: string, core: string, after: string)
    requires IsPadding(before) && IsPadding(after) && PlainIn(core, 0, |core|)
    ensures PlainIn(before + core + after, 0, |before + core + after|)
  {
  }

  lemma {:induction false} TrimStartPadding(before: string, rest: string)
    requires IsPadding(before) && rest != "" && !IsSpace()(rest[0])
    ensures TrimStart(before + rest, IsSpace()) == rest
  {
    if before == "" {
      assert before + rest == rest;
    } else {
      assert (before + rest)[1..] == before[1..] + rest;
      assert IsPadding(before[1..]);
      TrimStartPadding(before[1..], rest);
    }
  }

  lemma {:induction false} TrimEndPadding(core: string, after: string)
    requires IsPadding(after) && core != "" && !IsSpace()(core[|core| - 1])
    ensures TrimEnd(core + after, IsSpace()) == core
    decreases |after|
  {
    if after == "" {
      assert core + after == core;
    } else {
      var init := after[..|after| - 1];
      assert (core + after)[..|core + after| - 1] == core + init;
      TrimEndPadding(core, init);
    }
  }

  /** A file's href outside the base reads back as its whole path. */
  lemma {:induction false} PathOutsideBase(base: string, path: string)
    requires ValidUtf8(path) && path != "" && path[0] != '/' && path[|path| - 1] != '/'
    requires Trim(base, IsSlash()) != "" ==> !(Trim(base, IsSlash()) + "/" <= path)
    ensures IsBytes(path) && PathOf("/" + Encode(path), base) == [path]
  {
    ValidUtf8Bytes(path);
    EncodedChars(path);
    var href := "/" + Encode(path);
    assert forall k :: 0 <= k < |href| ==> HrefChar(href[k]);
    HrefCharsPlain(href);
    DecodedHref(path);
    LastEncoded(path);
  }

  /** Escapes that give no valid text are left as they are. */
  lemma {:induction false} PathKeptIfInvalid(base: string, path: string)
    requires path != "" && path[0] != '/' && path[|path| - 1] != '/'
    requires path[|path| - 1] != ' ' && !('\t' <= path[|path| - 1] <= '\r')
    requires !ValidUtf8(Decode("/" + path))
    requires Trim(base, IsSlash()) != "" ==> !(Trim(base, IsSlash()) + "/" <= path)
    ensures PathOf("/" + path, base) == [path]
  {
    var href := "/" + path;
    TrimNothing(href);
    assert href[|href| - 1] == path[|path| - 1];
    assert href[1..] == path && TrimStart(path, IsSlash()) == path;
    assert TrimStart(href, IsSlash()) == path;
  }

  lemma {:induction false} LastEncoded(path: string)
    requires IsBytes(path) && path != "" && path[|path| - 1] != '/'
    ensures var href := "/" + Encode(path); href[|href| - 1] != '/'
  {
    EncodedChars(path);
  }

  // ----- A listing -----

  /** The elements carry the items' hrefs, perhaps with spaces and line breaks around them. */
  ghost predicate Lists(base: string, items: seq<Item>, elements: seq<Element>) {
    && |elements| == |items|
    && forall i :: 0 <= i < |items| ==>
         && CleanItem(base, items[i]) && IsBytes(FullPath(base, items[i]))
         && PaddedAs(elements[i].href, HrefOf(base, items[i]))
  }

  lemma {:induction false} PathOfElement(base: string, item: Item, raw: string)
    requires ValidUtf8(base) && CleanItem(base, item) && IsBytes(FullPath(base, item))
    requires PaddedAs(raw, HrefOf(base, item))
    ensures PathOf(raw, base) == (if item.File? then [item.path] else []) && PlainIn(raw, 0, |raw|)
  {
    PathOfHref(base, item);
    HrefFacts(base, item);
    PaddedFacts(raw, HrefOf(base, item), base);
  }

  lemma {:induction false} PathsOfTexts(base: string, items: seq<Item>, elements: seq<Element>)
    requires ValidUtf8(base) && Lists(base, items, elements)
    ensures Gathered(Texts(elements), PathsUnder(base)) == FilePaths(items)
  {
    if items != [] {
      PathOfElement(base, items[0], elements[0].href);
      PathsOfTexts(base, items[1..], elements[1..]);
      GatheredCons(elements[0].href, Texts(elements[1..]), PathsUnder(base));
    }
  }

  /** The response to a listing request, tags of one style in any case, any other text without href
      tags in between: the scan returns exactly the paths of the files, in order. */
  lemma ListingRoundTrip(t: Tags, head: string, base: string, items: seq<Item>, elements: seq<Element>)
    requires t == Tags("<d:href>", "</d:href>") || t == Tags("<href>", "</href>")
    requires ValidUtf8(base) && Lists(base, items, elements)
    requires Tagless(Hrefs(), head)
    requires forall e | e in elements :: Lowered(e.open, t.open) && Lowered(e.close, t.close) && Tagless(Hrefs(), e.gap)
    ensures var xml := head + Body(elements);
      Closes(Hrefs()) && Gathered(Scan(Hrefs(), xml, Lower(xml)), PathsUnder(base)) == FilePaths(items)
  {
    HrefsWellFormed();
    forall e | e in elements ensures ElementOk(Hrefs(), t, e) {
      var i :| 0 <= i < |elements| && elements[i] == e;
      PathOfElement(base, items[i], e.href);
    }
    ScanFindsElements(Hrefs(), t, head, elements);
    PathsOfTexts(base, items, elements);
  }
}
