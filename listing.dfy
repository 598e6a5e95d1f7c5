/**
 * The flat listing of GetComments: the query it builds (an optional full-text
 * condition, ORDER BY created_at in the requested direction, LIMIT and OFFSET as
 * numbered placeholders), how the database binds and evaluates that query, and
 * the page it is meant to return.
 */
module Listing {
  import opened Wrappers
  import opened Domain
  import opened Seqs
  import opened Ordering
  import Int64

  /** A value bound to a $n placeholder. */
  datatype Arg = TextArg(text: string) | IntArg(value: int)

  /** document @@ plainto_tsquery('russian', $param) */
  datatype Condition = FullTextMatch(param: nat)

  /**
   * SELECT id, parent_id, text, user_id, created_at FROM comments
   *   [WHERE cond AND ...] ORDER BY created_at <order> LIMIT $limitParam OFFSET $offsetParam
   * The order text is spliced into the statement verbatim.
   */
  datatype ListQuery = ListQuery(conditions: seq<Condition>, order: string, limitParam: nat, offsetParam: nat)

  /** Whether a row's text matches a search phrase under the full-text configuration. */
  type FullText = (string, string) -> bool

  /** The placeholder numbers the statement mentions, in textual order. */
  function Placeholders(q: ListQuery): (r: seq<nat>)
    ensures |r| == |q.conditions| + 2
    ensures forall i :: 0 <= i < |q.conditions| ==> r[i] == q.conditions[i].param
    ensures r[|r| - 2] == q.limitParam && r[|r| - 1] == q.offsetParam
  {
    seq(|q.conditions|, i requires 0 <= i < |q.conditions| => q.conditions[i].param) + [q.limitParam, q.offsetParam]
  }

  /** $1 .. $|args| are exactly the placeholders the statement mentions. */
  predicate ParamsAgree(q: ListQuery, args: seq<Arg>) {
    (forall i :: 0 <= i < |q.conditions| ==> 1 <= q.conditions[i].param <= |args|) &&
    1 <= q.limitParam <= |args| && 1 <= q.offsetParam <= |args| &&
    (forall n :: 1 <= n <= |args| ==> n in Placeholders(q))
  }

  /** Search phrases are bound as text, LIMIT and OFFSET as integers. */
  predicate TypesAgree(q: ListQuery, args: seq<Arg>)
    requires ParamsAgree(q, args)
  {
    (forall i :: 0 <= i < |q.conditions| ==> args[q.conditions[i].param - 1].TextArg?) &&
    args[q.limitParam - 1].IntArg? && args[q.offsetParam - 1].IntArg?
  }

  /** The direction keyword after ORDER BY created_at; an empty one means ascending. */
  function ParseDirection(order: string): (r: Option<Direction>)
    ensures r == Some(Asc) <==> order == "" || order == "ASC"
    ensures r == Some(Desc) <==> order == "DESC"
  {
    if order == "" || order == "ASC" then Some(Asc)
    else if order == "DESC" then Some(Desc)
    else None
  }

  /** A row satisfies every WHERE condition (conditions are joined with AND). */
  predicate Satisfies(fts: FullText, q: ListQuery, args: seq<Arg>, c: Comment) {
    forall i :: 0 <= i < |q.conditions| ==>
      var p := q.conditions[i].param;
      1 <= p <= |args| && args[p - 1].TextArg? && fts(c.text, args[p - 1].text)
  }

  /**
   * How the database runs a listing query: bind the arguments, reject a bad
   * direction keyword or a negative LIMIT or OFFSET, then filter, sort and slice.
   */
  function Execute(rows: seq<Comment>, fts: FullText, q: ListQuery, args: seq<Arg>): (r: Result<seq<Comment>, Error>)
    ensures r.Success? ==> ParamsAgree(q, args) && TypesAgree(q, args) && ParseDirection(q.order).Some?
    ensures r.Success? ==> args[q.limitParam - 1].value >= 0 && args[q.offsetParam - 1].value >= 0
    ensures r.Success? ==> |r.value| <= args[q.limitParam - 1].value
    ensures r.Success? ==> SortedBy(r.value, ParseDirection(q.order).value)
    ensures r.Success? ==> forall c :: c in r.value ==> c in rows && Satisfies(fts, q, args, c)
    ensures r.Failure? ==> r.error.Driver?
  {
    if !ParamsAgree(q, args) then Failure(Driver("bind message supplies a different number of parameters"))
    else if !TypesAgree(q, args) then Failure(Driver("invalid input syntax for parameter"))
    else match ParseDirection(q.order)
      case None => Failure(Driver("syntax error at or near ORDER BY"))
      case Some(dir) =>
        var limit := args[q.limitParam - 1].value;
        var offset := args[q.offsetParam - 1].value;
        if limit < 0 then Failure(Driver("LIMIT must not be negative"))
        else if offset < 0 then Failure(Driver("OFFSET must not be negative"))
        else
          var candidates := Filter(rows, c => Satisfies(fts, q, args, c));
          SlicedSort(candidates, dir, offset, limit);
          Success(Slice(SortRows(candidates, dir), offset, limit))
  }

  /** The rows the listing considers: all of them, or those matching a non-empty search. */
  function SearchFilter(rows: seq<Comment>, fts: FullText, search: string): (r: seq<Comment>)
    ensures search == "" ==> r == rows
    ensures search != "" ==> forall c :: c in r <==> c in rows && fts(c.text, search)
    ensures |r| <= |rows|
  {
    if search == "" then rows else Filter(rows, (c: Comment) => fts(c.text, search))
  }

  /** Page `page` (from 1) of `pageSize` candidates ordered by created_at: the intended result. */
  function ListPage(rows: seq<Comment>, fts: FullText, search: string, page: int, pageSize: int, dir: Direction): (r: seq<Comment>)
    requires page >= 1 && pageSize >= 1
    ensures |r| <= pageSize
    ensures SortedBy(r, dir)
    ensures forall c :: c in r ==> c in rows && (search != "" ==> fts(c.text, search))
  {
    var candidates := SearchFilter(rows, fts, search);
    SlicedSort(candidates, dir, (page - 1) * pageSize, pageSize);
    Slice(SortRows(candidates, dir), (page - 1) * pageSize, pageSize)
  }

  /** The first n pages of size k, one after another. */
  function Pages<T>(s: seq<T>, k: nat, n: nat): seq<T> {
    if n == 0 then [] else Pages(s, k, n - 1) + Slice(s, (n - 1) * k, k)
  }

  /** The first n pages are the first n * k elements (or all of them). */
  lemma {:induction false} PagesPrefix<T>(s: seq<T>, k: nat, n: nat)
    ensures Pages(s, k, n) == s[..Min(n * k, |s|)]
  {
    if n > 0 {
      PagesPrefix(s, k, n - 1);
      var lo := Min((n - 1) * k, |s|);
      var hi := Min(n * k, |s|);
      assert n * k == (n - 1) * k + k;
      assert Slice(s, (n - 1) * k, k) == s[lo..hi];
      assert s[..hi] == s[..lo] + s[lo..hi];
    }
  }

  /** The number of pages of size k that n rows fill: ceil(n / k). */
  function PageCount(n: nat, k: nat): (r: nat)
    requires k >= 1
    ensures r * k >= n && (r == 0 || (r - 1) * k < n)
  {
    var r := (n + k - 1) / k;
    assert n + k - 1 == r * k + (n + k - 1) % k;
    r
  }

  /** Pages 1 .. ceil(|s| / k) cover s exactly: no row is skipped or repeated. */
  lemma PagesCover<T>(s: seq<T>, k: nat)
    requires k >= 1
    ensures Pages(s, k, PageCount(|s|, k)) == s
  {
    PagesPrefix(s, k, PageCount(|s|, k));
  }

  /** Pages after the last one are empty. */
  lemma PastLastPage<T>(s: seq<T>, k: nat, p: nat)
    requires k >= 1 && p > PageCount(|s|, k)
    ensures Slice(s, (p - 1) * k, k) == []
  {
    var n := PageCount(|s|, k);
    assert (p - 1) * k >= n * k;
  }

  /** The listing's pages 1 .. n of size k, one after another. */
  function ListPages(rows: seq<Comment>, fts: FullText, search: string, k: nat, dir: Direction, n: nat): seq<Comment>
    requires k >= 1
  {
    if n == 0 then [] else ListPages(rows, fts, search, k, dir, n - 1) + ListPage(rows, fts, search, n, k, dir)
  }

  /** One more page of the listing is one more slice of the sorted candidates. */
  lemma PageStep(rows: seq<Comment>, fts: FullText, search: string, k: nat, dir: Direction, m: nat)
    requires k >= 1
    ensures var all := SortRows(SearchFilter(rows, fts, search), dir);
      ListPages(rows, fts, search, k, dir, m + 1) == ListPages(rows, fts, search, k, dir, m) + Slice(all, m * k, k) &&
      Pages(all, k, m + 1) == Pages(all, k, m) + Slice(all, m * k, k)
  {
  }

  lemma {:induction false} ListPagesArePages(rows: seq<Comment>, fts: FullText, search: string, k: nat, dir: Direction, n: nat)
    requires k >= 1
    ensures ListPages(rows, fts, search, k, dir, n) == Pages(SortRows(SearchFilter(rows, fts, search), dir), k, n)
  {
    if n > 0 {
      var m: nat := n - 1;
      ListPagesArePages(rows, fts, search, k, dir, m);
      PageStep(rows, fts, search, k, dir, m);
    }
  }

  /**
   * Reading the listing page by page, pages 1 .. ceil(N / k) of size k yield
   * every candidate exactly once, in created_at order, where N is the number of
   * candidates.
   */
  lemma ListPagesCover(rows: seq<Comment>, fts: FullText, search: string, k: nat, dir: Direction)
    requires k >= 1
    ensures var all := SortRows(SearchFilter(rows, fts, search), dir);
      ListPages(rows, fts, search, k, dir, PageCount(|all|, k)) == all
  {
    var all := SortRows(SearchFilter(rows, fts, search), dir);
    var n := PageCount(|all|, k);
    calc {
      ListPages(rows, fts, search, k, dir, n);
    == { ListPagesArePages(rows, fts, search, k, dir, n); }
      Pages(all, k, n);
    == { PagesCover(all, k); }
      all;
    }
  }

  /** A result order the engine may choose for ORDER BY created_at over the candidates. */
  ghost predicate EngineOrder(order: seq<Comment>, rows: seq<Comment>, fts: FullText, search: string, dir: Direction) {
    SortedBy(order, dir) && multiset(order) == multiset(SearchFilter(rows, fts, search))
  }

  /** Pages 1 .. n of size k, page p cut from the order the engine chose for that statement, orders[p - 1]. */
  function EnginePages(orders: seq<seq<Comment>>, k: nat, n: nat): seq<Comment>
    requires n <= |orders|
  {
    if n == 0 then [] else EnginePages(orders, k, n - 1) + Slice(orders[n - 1], (n - 1) * k, k)
  }

  /**
   * When every page is cut from the same sequence all, the pages are all's
   * pages.
   */
  lemma {:induction false} EnginePagesSame(orders: seq<seq<Comment>>, all: seq<Comment>, k: nat, n: nat)
    requires n <= |orders|
    requires forall i :: 0 <= i < |orders| ==> orders[i] == all
    ensures EnginePages(orders, k, n) == Pages(all, k, n)
  {
    if n > 0 {
      EnginePagesSame(orders, all, k, n - 1);
      assert orders[n - 1] == all;
    }
  }

  /**
   * When no two candidates share created_at, every order the engine may choose
   * is the model's order, so pages read one statement at a time, each under its
   * own ordering, are the model's pages.
   */
  lemma EnginePagesAgree(rows: seq<Comment>, fts: FullText, search: string, k: nat, dir: Direction,
                         orders: seq<seq<Comment>>, n: nat)
    requires k >= 1 && n <= |orders|
    requires DistinctKeys(SearchFilter(rows, fts, search))
    requires forall i :: 0 <= i < |orders| ==> EngineOrder(orders[i], rows, fts, search, dir)
    ensures EnginePages(orders, k, n) == ListPages(rows, fts, search, k, dir, n)
  {
    var all := SortRows(SearchFilter(rows, fts, search), dir);
    forall i | 0 <= i < |orders| ensures orders[i] == all {
      OnlyEngineOrder(rows, fts, search, dir, orders[i]);
    }
    EnginePagesSame(orders, all, k, n);
    ListPagesArePages(rows, fts, search, k, dir, n);
  }

  /** Without ties among the candidates, the engine has one order to choose: the model's. */
  lemma OnlyEngineOrder(rows: seq<Comment>, fts: FullText, search: string, dir: Direction, order: seq<Comment>)
    requires DistinctKeys(SearchFilter(rows, fts, search))
    requires EngineOrder(order, rows, fts, search, dir)
    ensures order == SortRows(SearchFilter(rows, fts, search), dir)
  {
    var candidates := SearchFilter(rows, fts, search);
    var sorted := SortRows(candidates, dir);
    forall x, y | x in sorted && y in sorted && x.createdAt == y.createdAt ensures x == y {
      assert x in multiset(sorted) && y in multiset(sorted);
      assert x in candidates && y in candidates;
    }
    SortedUnique(sorted, order, dir);
  }

  /**
   * Paging is complete and without repeats whatever order the engine picks for
   * each statement, provided no two candidates share created_at: pages 1 ..
   * ceil(N / k) yield every candidate exactly once, in created_at order.
   */
  lemma EngineListPagesCover(rows: seq<Comment>, fts: FullText, search: string, k: nat, dir: Direction,
                             orders: seq<seq<Comment>>)
    requires k >= 1
    requires DistinctKeys(SearchFilter(rows, fts, search))
    requires |orders| == PageCount(|SearchFilter(rows, fts, search)|, k)
    requires forall i :: 0 <= i < |orders| ==> EngineOrder(orders[i], rows, fts, search, dir)
    ensures EnginePages(orders, k, |orders|) == SortRows(SearchFilter(rows, fts, search), dir)
  {
    EnginePagesAgree(rows, fts, search, k, dir, orders, |orders|);
    ListPagesCover(rows, fts, search, k, dir);
  }

  /**
   * With a tie, paging is not stable: two rows with one created_at may come in
   * either order, and if page 1 and page 2 of size 1 are cut from different
   * orders, one row is served twice and the other never.
   */
  lemma TiesCanRepeatRow(a: Comment, b: Comment, fts: FullText)
    requires a != b && a.createdAt == b.createdAt
    ensures EngineOrder([a, b], [a, b], fts, "", Asc) && EngineOrder([b, a], [a, b], fts, "", Asc)
    ensures EnginePages([[a, b], [b, a]], 1, 2) == [a, a]
  {
    assert SearchFilter([a, b], fts, "") == [a, b];
    assert multiset([b, a]) == multiset([a, b]);
    TiePages(a, b);
  }

  lemma TiePages(a: Comment, b: Comment)
    ensures EnginePages([[a, b], [b, a]], 1, 2) == [a, a]
  {
    var orders := [[a, b], [b, a]];
    assert Slice(orders[0], 0, 1) == [a];
    assert Slice(orders[1], 1, 1) == [a];
    assert EnginePages(orders, 1, 1) == EnginePages(orders, 1, 0) + [a] == [a];
  }

  /** Pages past the last one are empty. */
  lemma ListPastLastPage(rows: seq<Comment>, fts: FullText, search: string, k: nat, dir: Direction, p: nat)
    requires k >= 1
    requires p > PageCount(|SearchFilter(rows, fts, search)|, k)
    ensures ListPage(rows, fts, search, p, k, dir) == []
  {
    PastLastPage(SortRows(SearchFilter(rows, fts, search), dir), k, p);
  }

  /** OFFSET as GetComments computes it: (page - 1) * pageSize in Go's int, which wraps on overflow. */
  function GoPageOffset(page: int, pageSize: int): (r: int)
    ensures Int64.InRange(r)
    ensures (r - (page - 1) * pageSize) % Int64.Modulus == 0
    ensures Int64.InRange((page - 1) * pageSize) ==> r == (page - 1) * pageSize
  {
    Int64.Wrap((page - 1) * pageSize)
  }

  /** OFFSET computed without wrapping: (page - 1) * pageSize, clamped to the int64 maximum. */
  function PageOffset(page: int, pageSize: int): (r: int)
    ensures Int64.InRange(r)
    ensures page >= 1 && pageSize >= 1 ==> r >= 0
    ensures Int64.InRange((page - 1) * pageSize) ==> r == (page - 1) * pageSize
    ensures (page - 1) * pageSize > Int64.Max ==> r == Int64.Max
  {
    assert page >= 1 && pageSize >= 1 ==> (page - 1) * pageSize >= 0;
    Int64.Saturate((page - 1) * pageSize)
  }

  /**
   * The statement and arguments GetComments builds for a search, a direction
   * keyword, a page size and an offset.
   */
  function PlanListQuery(search: string, sort: string, pageSize: int, offset: int): (r: (ListQuery, seq<Arg>))
    ensures ParamsAgree(r.0, r.1)
  {
    var conditions := if search == "" then [] else [FullTextMatch(1)];
    var args := if search == "" then [] else [TextArg(search)];
    var q := ListQuery(conditions, sort, |args| + 1, |args| + 2);
    var all := args + [IntArg(pageSize), IntArg(offset)];
    assert Placeholders(q) == if search == "" then [1, 2] else [1, 2, 3];
    (q, all)
  }

  /** The argument list agrees with the placeholders, with the search phrase at $1. */
  lemma PlanNumbering(search: string, sort: string, pageSize: int, offset: int)
    ensures var (q, args) := PlanListQuery(search, sort, pageSize, offset);
      |args| == q.offsetParam && q.limitParam == q.offsetParam - 1 &&
      args[q.limitParam - 1] == IntArg(pageSize) && args[q.offsetParam - 1] == IntArg(offset) &&
      (search == "" <==> q.conditions == []) &&
      (search != "" ==> q.conditions == [FullTextMatch(1)] && args[0] == TextArg(search)) &&
      q.order == sort && TypesAgree(q, args)
  {
  }

  /** The direction a normalised sort keyword selects. */
  function DirectionOf(sort: string): (r: Direction)
    ensures sort == "DESC" <==> r == Desc
  {
    if sort == "DESC" then Desc else Asc
  }

  /** The planned statement filters exactly as SearchFilter does. */
  lemma PlanFilters(rows: seq<Comment>, fts: FullText, search: string, sort: string, pageSize: int, offset: int)
    ensures var (q, args) := PlanListQuery(search, sort, pageSize, offset);
      Filter(rows, c => Satisfies(fts, q, args, c)) == SearchFilter(rows, fts, search)
  {
    var (q, args) := PlanListQuery(search, sort, pageSize, offset);
    var p := (c: Comment) => Satisfies(fts, q, args, c);
    if search == "" {
      FilterKeepsAll(rows, p);
    } else {
      forall c | c in rows ensures p(c) == fts(c.text, search) {
        assert q.conditions[0].param == 1;
      }
      FilterAgrees(rows, p, (c: Comment) => fts(c.text, search));
    }
  }

  /** With a normalised direction and non-negative bounds, the planned statement runs and slices the sorted search results. */
  lemma PlannedQueryRuns(rows: seq<Comment>, fts: FullText, search: string, sort: string, pageSize: int, offset: int)
    requires sort == "ASC" || sort == "DESC"
    requires pageSize >= 0 && offset >= 0
    ensures var (q, args) := PlanListQuery(search, sort, pageSize, offset);
      Execute(rows, fts, q, args) == Success(Slice(SortRows(SearchFilter(rows, fts, search), DirectionOf(sort)), offset, pageSize))
  {
    PlanNumbering(search, sort, pageSize, offset);
    PlanFilters(rows, fts, search, sort, pageSize, offset);
  }

  /**
   * With a normalised direction, page and page size, the statement GetComments
   * builds (offset computed without wrapping) runs and returns exactly ListPage.
   */
  lemma PlannedQueryYieldsPage(rows: seq<Comment>, fts: FullText, search: string, page: int, pageSize: int, sort: string)
    requires sort == "ASC" || sort == "DESC"
    requires page >= 1 && 1 <= pageSize <= Int64.Max
    requires |rows| <= Int64.Max
    ensures var (q, args) := PlanListQuery(search, sort, pageSize, PageOffset(page, pageSize));
      Execute(rows, fts, q, args) == Success(ListPage(rows, fts, search, page, pageSize, DirectionOf(sort)))
  {
    var offset := PageOffset(page, pageSize);
    PlannedQueryRuns(rows, fts, search, sort, pageSize, offset);
    var dir := DirectionOf(sort);
    var sorted := SortRows(SearchFilter(rows, fts, search), dir);
    if (page - 1) * pageSize > Int64.Max {
      assert Slice(sorted, offset, pageSize) == [] == Slice(sorted, (page - 1) * pageSize, pageSize);
    }
  }

  /**
   * The listing statement as written: page 3 of size 2^62 passes every check
   * the handler makes, yet (3 - 1) * 2^62 wraps to -2^63, and the database
   * rejects the negative OFFSET.
   */
  lemma AsWrittenOffsetGoesNegative(rows: seq<Comment>, fts: FullText)
    ensures GoPageOffset(3, 0x4000_0000_0000_0000) == Int64.Min
    ensures var (q, args) := PlanListQuery("", "ASC", 0x4000_0000_0000_0000, GoPageOffset(3, 0x4000_0000_0000_0000));
      Execute(rows, fts, q, args) == Failure(Driver("OFFSET must not be negative"))
  {
    assert (3 - 1) * 0x4000_0000_0000_0000 == Int64.Modulus + Int64.Min;
  }

  /** The listing statement as written: page 5 of size 2^62 wraps to OFFSET 0 and repeats page 1. */
  lemma AsWrittenOffsetWrapsToFirstPage(rows: seq<Comment>, fts: FullText, search: string)
    ensures GoPageOffset(5, 0x4000_0000_0000_0000) == 0
    ensures var (q, args) := PlanListQuery(search, "ASC", 0x4000_0000_0000_0000, GoPageOffset(5, 0x4000_0000_0000_0000));
      Execute(rows, fts, q, args) == Success(ListPage(rows, fts, search, 1, 0x4000_0000_0000_0000, Asc))
  {
    assert (5 - 1) * 0x4000_0000_0000_0000 - Int64.Min == Int64.Modulus + 0x8000_0000_0000_0000;
    assert (Int64.Modulus + 0x8000_0000_0000_0000) % Int64.Modulus == 0x8000_0000_0000_0000;
    var (q, args) := PlanListQuery(search, "ASC", 0x4000_0000_0000_0000, 0);
    PlanNumbering(search, "ASC", 0x4000_0000_0000_0000, 0);
    PlanFilters(rows, fts, search, "ASC", 0x4000_0000_0000_0000, 0);
  }
}
