/** The pages of one search, put together: every matching row once, in order. */
module SearchPages {
  import opened Wrappers
  import opened Lists
  import opened SqlText
  import opened Sql
  import opened Search

  /** What LIMIT and OFFSET leave of the rows. */
  function Slice<T>(rows: seq<T>, limit: nat, offset: nat): seq<T> {
    var rest := if offset <= |rows| then rows[offset..] else [];
    if limit <= |rest| then rest[..limit] else rest
  }

  function UpTo<T>(rows: seq<T>, n: nat): seq<T> { if n <= |rows| then rows[..n] else rows }

  /** The rows that the data query returns, of all that match, newest first. */
  ghost function PageRows<T>(rows: seq<T>, s: SearchQuery): seq<T> {
    var data := ReadWhere(s.dataText);
    if data.Failed? || ReadTail(data.rest).None? then []
    else
      var tail := ReadTail(data.rest);
      var limit, offset := NumberAt(s.dataArgs, tail.value.limit), NumberAt(s.dataArgs, tail.value.offset);
      if limit.None? || offset.None? || limit.value < 0 || offset.value < 0 then []
      else Slice(rows, limit.value, offset.value)
  }

  ghost function PagesOf<T>(rows: seq<T>, queries: seq<SearchQuery>): seq<seq<T>> {
    seq(|queries|, k requires 0 <= k < |queries| => PageRows(rows, queries[k]))
  }

  /** Queries that answer the request for the pages 1, 2, ... */
  ghost predicate AreThePages(q: SearchRequest, queries: seq<SearchQuery>) {
    forall k :: 0 <= k < |queries| ==> Answers(q.(page := k + 1), queries[k])
  }

  /** One page is a slice, from where the pages before it end. */
  lemma PageIsSlice<T>(rows: seq<T>, q: SearchRequest, s: SearchQuery, k: nat)
    requires Answers(q.(page := k + 1), s)
    requires |rows| <= I64_MAX || k * s.perPage <= I64_MAX
    ensures 1 <= s.perPage <= 100 && (1 <= q.perPage <= 100 ==> s.perPage == q.perPage)
    ensures PageRows(rows, s) == Slice(rows, s.perPage, k * s.perPage)
  {
    var data := ReadWhere(s.dataText);
    assert FetchesWindow(q.(page := k + 1), s, data.rest);
    assert k == 0 ==> k * s.perPage == 0;
  }

  lemma SliceAppends<T>(rows: seq<T>, limit: nat, n: nat)
    ensures UpTo(rows, n) + Slice(rows, limit, n) == UpTo(rows, n + limit)
  {
  }

  predicate SliceAt<T(==)>(rows: seq<T>, page: seq<T>, limit: nat, k: nat) { page == Slice(rows, limit, k * limit) }

  lemma {:induction false} SlicesJoin<T>(rows: seq<T>, pages: seq<seq<T>>, limit: nat, n: nat)
    requires n <= |pages| && forall k :: 0 <= k < n ==> SliceAt(rows, pages[k], limit, k)
    ensures Flatten(pages[..n]) == UpTo(rows, n * limit)
  {
    if n > 0 {
      var before, all := (n - 1) * limit, n * limit;
      SlicesJoin(rows, pages, limit, n - 1);
      FlattenSnoc(pages, n - 1);
      assert SliceAt(rows, pages[n - 1], limit, n - 1);
      OneMore(n - 1, limit);
      SliceAppends(rows, limit, before);
    }
  }

  lemma OneMore(n: nat, limit: nat)
    ensures (n + 1) * limit == n * limit + limit
  {
  }

  /** The pages up to any one of them, put together, are the first rows, none left out and none twice,
      until the offset would leave 64 bits; and a table with no more rows than that is gone through. */
  lemma {:induction false} PagesJoin<T>(rows: seq<T>, q: SearchRequest, queries: seq<SearchQuery>, limit: int)
    requires AreThePages(q, queries) && queries != [] && queries[0].perPage == limit
    requires |rows| <= I64_MAX || (|queries| - 1) * limit <= I64_MAX
    ensures 1 <= limit <= 100 && (1 <= q.perPage <= 100 ==> limit == q.perPage)
    ensures forall k :: 0 <= k < |queries| ==> queries[k].perPage == limit && queries[k].page == k + 1
    ensures Flatten(PagesOf(rows, queries)) == UpTo(rows, |queries| * limit)
  {
    SamePerPage(q, queries, limit);
    var pages := PagesOf(rows, queries);
    forall k | 0 <= k < |queries| ensures SliceAt(rows, pages[k], limit, k) {
      NoFurther(k, |queries| - 1, limit);
      PageIsSlice(rows, q, queries[k], k);
    }
    SlicesJoin(rows, pages, limit, |queries|);
    assert pages[..|queries|] == pages;
  }

  lemma NoFurther(k: nat, n: nat, limit: nat)
    requires k <= n
    ensures k * limit <= n * limit
  {
  }

  lemma SamePerPage(q: SearchRequest, queries: seq<SearchQuery>, limit: int)
    requires AreThePages(q, queries) && queries != [] && queries[0].perPage == limit
    ensures 1 <= limit <= 100 && (1 <= q.perPage <= 100 ==> limit == q.perPage)
    ensures forall k :: 0 <= k < |queries| ==> queries[k].perPage == limit && queries[k].page == k + 1
  {
    forall k | 0 <= k < |queries| ensures queries[k].perPage == limit && queries[k].page == k + 1 {
      assert FetchesWindow(q.(page := k + 1), queries[k], ReadWhere(queries[k].dataText).rest);
      assert FetchesWindow(q.(page := 0 + 1), queries[0], ReadWhere(queries[0].dataText).rest);
    }
    assert FetchesWindow(q.(page := 0 + 1), queries[0], ReadWhere(queries[0].dataText).rest);
  }

  /** No page comes before the first one. */
  lemma FirstPage<T>(rows: seq<T>, q: SearchRequest, s: SearchQuery)
    requires Answers(q, s) && q.page <= 1
    ensures PageRows(rows, s) == UpTo(rows, s.perPage) && s.page == 1
  {
    assert FetchesWindow(q, s, ReadWhere(s.dataText).rest);
  }
}
