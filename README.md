# comment-tree in Dafny

A model of the core of comment-tree, a threaded-comment service written in Go
over Postgres. It covers three pieces:

- the service's parent-gated creation of a comment;
- the repository's four statements against the `comments` table: insert, existence probe, recursive subtree query and paginated, searchable listing;
- the HTTP handlers' normalisation of the listing parameters and their mapping of outcomes to status codes.

The table is a sequence of rows in insertion order, paired with the id
sequence, inside the class `Store.CommentStore`. `Service.CommentService`
holds a store and changes it through `SaveComment`. The handlers are total
functions. Every failure the database driver could report is a parameter of the
call that meets it: `DbFault` for a failed statement, `RowFault` for a failed
row scan.

Files, in dependency order:

- `wrappers.dfy`: `Option` and `Result`.
- `domain.dfy`: the int64 range with wrap-around and saturation, the comment record, the transport record, and errors. Errors are the two sentinels, a driver failure, or a failure wrapped with an operation name; `errors.Is` is modelled by unwrapping.
- `seqs.dfy`: WHERE as `Filter`, LIMIT/OFFSET as `Slice`.
- `ordering.dfy`: ORDER BY created_at in either direction.
- `strings.dfy`: `strconv.Atoi`, decimal formatting, `strings.ToUpper`.
- `table.dfy`: the existence test and the table invariants.
  - Ids increase in insertion order.
  - Every `parent_id` names an earlier row.
- `subtree.dfy`: the recursive CTE of `GetCommentsByParent`, evaluated one depth at a time as Postgres does. It is compared with the reference meaning: the root plus everything that reaches it along parent links.
- `listing.dfy`: the listing statement.
  - Its placeholders and arguments.
  - How Postgres binds and runs it.
  - The page it is meant to return.
  - The offset computation as written and corrected.
- `store.dfy`: the repository, a class with `CreateComment`, `Exists`, `GetCommentsByParent` and `GetComments`, the scan loop and the query builder.
- `service.dfy`: `SaveComment`.
- `handler.dfy`: the four handlers.

Behaviour of the code worth noting:

- **Existence of a parent.** `Exists` does not look at `deleted`, so a soft-deleted parent still admits children.
- **Ties in created_at.** No order among equal `created_at` values is promised; the queries have no tie-breaker. Paging is guaranteed stable only when the candidates' `created_at` values are distinct (`Listing.EngineListPagesCover`); with a tie a row can be served twice and another never (`Listing.TiesCanRepeatRow`).
- **Listing contents.** The listing does not exclude deleted rows.
- **Scanned comments.** The queries do not select `deleted`, so every scanned comment has `deleted == false`.

## Model

| member | source | states |
|---|---|---|
| Int64.Wrap | internal/comment/repo/postgres/postgres.go:86 | Go's int arithmetic: the result is in the int64 range, congruent to the true value modulo 2^64, and equal to it when that fits |
| Int64.Saturate | internal/comment/repo/postgres/postgres.go:86 | the overflow-checked value: in the int64 range, the true value when it fits, the nearer bound beyond |
| Domain.OpaqueIsNoSentinel | internal/comment/service/comment.go:33-36 | a driver failure, however often wrapped, is neither ErrParentNotFound nor ErrCommentNotFound under errors.Is |
| Domain.Chain | internal/comment/rest/handler.go:53 | the unwrap chain errors.Is walks: it starts at the error, each link is the previous link's cause, and it ends at an error that wraps nothing |
| Domain.Is | internal/comment/rest/handler.go:53 | errors.Is: true exactly when the target occurs on the error's unwrap chain |
| Seqs.Filter | internal/comment/repo/postgres/postgres.go:95-101 | WHERE keeps exactly the rows satisfying the condition, each with its multiplicity, and no more rows than there were |
| Seqs.Slice | internal/comment/repo/postgres/postgres.go:106-107 | LIMIT/OFFSET: exactly min(limit, rows left after offset) rows, element i is row offset+i, empty when the offset is past the end |
| Ordering.SortRows | internal/comment/repo/postgres/postgres.go:104 | ORDER BY created_at: the result is ordered in the direction and is a permutation of the input |
| Ordering.SlicedSort | internal/comment/repo/postgres/postgres.go:104-107 | LIMIT/OFFSET over an ordered result keeps it ordered and returns only rows of the input |
| Ordering.SortedUnique | internal/comment/repo/postgres/postgres.go:104 | when no two rows share created_at, any two orderings of the same rows by created_at are equal |
| Table.HasIdMeaning | internal/comment/repo/postgres/postgres.go:38 | the EXISTS probe is true exactly when some row has the id; no other field, deleted included, matters |
| Table.AppendKeepsParentsPrecede | internal/comment/service/comment.go:31-53 | appending a row whose parent is already stored keeps every parent_id pointing at an earlier row |
| Table.ParentIdBelowChild | internal/comment/service/comment.go:31-39 | with increasing ids and parents stored first, a parent's id is below its child's, so parent links cannot loop |
| Table.RowsDistinct | internal/comment/repo/postgres/postgres.go:23-27 | with ids from the sequence, no row occurs twice in the table |
| Table.CountBoundedByIds | internal/comment/repo/postgres/postgres.go:23-27 | increasing ids drawn from [lo, hi) number at most hi - lo rows |
| Subtree.Anchor | internal/comment/repo/postgres/postgres.go:55-57 | the anchor holds exactly the rows with id = root, empty when there is none |
| Subtree.Children | internal/comment/repo/postgres/postgres.go:59-61 | the recursive step holds exactly the rows whose parent_id is an id of the previous working table |
| Subtree.SubtreeQuery | internal/comment/repo/postgres/postgres.go:54-63 | the query's result is ordered by created_at ascending and is a permutation of the union of all depths |
| Subtree.LevelMembers | internal/comment/repo/postgres/postgres.go:54-62 | depth k of the recursion holds exactly the rows k parent links below the root |
| Subtree.LevelsMembers | internal/comment/repo/postgres/postgres.go:54-62 | the first n depths hold exactly the rows fewer than n links below the root |
| Subtree.DepthBound | internal/comment/repo/postgres/postgres.go:54-62 | under the table invariants, a row k links below the root sits at least k positions after it |
| Subtree.DepthUnique | internal/comment/repo/postgres/postgres.go:54-62 | under the table invariants, a row lies at one depth only |
| Subtree.NoCycle | internal/comment/repo/postgres/postgres.go:54-62 | under the table invariants, no row reaches itself along parent links |
| Subtree.LevelEmptyBeyondTable | internal/comment/repo/postgres/postgres.go:54-62 | under the table invariants, depth |rows| and deeper are empty: the recursion stops |
| Subtree.LevelsDistinct | internal/comment/repo/postgres/postgres.go:58 | under the table invariants, UNION ALL never yields a row twice |
| Subtree.SubtreeExact | internal/comment/repo/postgres/postgres.go:54-63 | the query returns exactly the root and its transitive descendants, each once, ordered by created_at |
| Subtree.MissingRootIsEmpty | internal/comment/repo/postgres/postgres.go:55-57 | an id with no row yields an empty result |
| Subtree.AnchorSingle | internal/comment/repo/postgres/postgres.go:55-57 | with increasing ids the anchor is exactly the one row carrying the id |
| Subtree.LeafSubtree | internal/comment/repo/postgres/postgres.go:54-63 | on a row no other row names as parent, the query returns exactly that row |
| Listing.Placeholders | internal/comment/repo/postgres/postgres.go:96-106 | the placeholders are the conditions' numbers, then LIMIT's, then OFFSET's |
| Listing.ParseDirection | internal/comment/repo/postgres/postgres.go:104 | the spliced keyword is ascending when empty or ASC and descending when DESC; anything else is rejected |
| Listing.Execute | internal/comment/repo/postgres/postgres.go:104-109 | a statement runs only if placeholders and arguments agree in number and type, the keyword parses and LIMIT and OFFSET are not negative; it returns at most LIMIT rows of the table, ordered, each satisfying the conditions |
| Listing.SearchFilter | internal/comment/repo/postgres/postgres.go:95-101 | an empty search keeps every row; otherwise exactly the rows whose text matches |
| Listing.ListPage | internal/comment/repo/postgres/postgres.go:86-107 | the intended page has at most pageSize rows, all candidates, in order |
| Listing.PageCount | internal/comment/repo/postgres/postgres.go:106-107 | ceil(n/k): that many pages of size k hold n rows, and one fewer would not |
| Listing.PagesCover | internal/comment/repo/postgres/postgres.go:106-107 | slices 1 .. ceil(N/k) of size k concatenate to the whole sequence |
| Listing.ListPagesCover | internal/comment/repo/postgres/postgres.go:86-107 | reading the listing page by page, pages 1 .. ceil(N/k) give every candidate once, in order |
| Listing.EnginePagesAgree | internal/comment/repo/postgres/postgres.go:104-107 | when no two candidates share created_at, pages cut each from its own engine ordering are the model's pages |
| Listing.EngineListPagesCover | internal/comment/repo/postgres/postgres.go:104-107 | when no two candidates share created_at, pages 1 .. ceil(N/k) give every candidate once, in order, whatever order each statement uses |
| Listing.TiesCanRepeatRow | internal/comment/repo/postgres/postgres.go:104-107 | two rows with one created_at may come in either order, and pages of size 1 cut from the two orders serve one row twice |
| Listing.ListPastLastPage | internal/comment/repo/postgres/postgres.go:86-107 | a page past the last is empty |
| Listing.GoPageOffset | internal/comment/repo/postgres/postgres.go:86 | the offset as written: in the int64 range, congruent to (page-1)*pageSize modulo 2^64, and equal to it when that fits |
| Listing.PageOffset | internal/comment/repo/postgres/postgres.go:86 | the corrected offset: never negative for page, pageSize >= 1, equal to (page-1)*pageSize when that fits, int64 maximum beyond |
| Listing.PlanListQuery | internal/comment/repo/postgres/postgres.go:88-107 | the planned statement's placeholders and arguments agree |
| Listing.PlanNumbering | internal/comment/repo/postgres/postgres.go:94-107 | the search phrase is bound to $1 when present, LIMIT and OFFSET to the next two placeholders with pageSize and the offset, the argument count is the last placeholder, and every argument has its placeholder's type |
| Listing.PlanFilters | internal/comment/repo/postgres/postgres.go:95-101 | the planned WHERE clause selects exactly what SearchFilter selects |
| Listing.PlannedQueryRuns | internal/comment/repo/postgres/postgres.go:86-109 | for a normalised direction and non-negative LIMIT and OFFSET, the built statement runs and returns the sorted search results cut at that offset and limit |
| Listing.PlannedQueryYieldsPage | internal/comment/repo/postgres/postgres.go:86-109 | for a normalised direction, page and page size, the built statement runs and returns exactly ListPage |
| Listing.AsWrittenOffsetGoesNegative | internal/comment/repo/postgres/postgres.go:86 | as written, page 3 of size 2^62 gives offset -2^63 and the statement fails with a negative OFFSET |
| Listing.AsWrittenOffsetWrapsToFirstPage | internal/comment/repo/postgres/postgres.go:86 | as written, page 5 of size 2^62 gives offset 0 and returns page 1 again |
| Store.Scanned | internal/comment/repo/postgres/postgres.go:72-75 | a scanned record carries the row's id, parent_id, user_id, text and created_at, and deleted left false |
| Store.Project | internal/comment/repo/postgres/postgres.go:71-78 | the scanned result has one record per row, in the rows' order, each the scan of its row |
| Store.ProjectKeepsOrder | internal/comment/repo/postgres/postgres.go:71-78 | an ordered result set stays ordered once scanned |
| Store.ScanRows | internal/comment/repo/postgres/postgres.go:71-78 | the scan loop returns every row in query order, or nil and the wrapped error when the scan of some row fails |
| Store.BuildListQuery | internal/comment/repo/postgres/postgres.go:86-107 | with the corrected offset, the builder yields the planned statement: search phrase at $1 when present, LIMIT and OFFSET on the next two placeholders, argument count equal to the last placeholder |
| Store.ListOutcome | internal/comment/repo/postgres/postgres.go:104-122 | running the listing statement for a given offset: on failure an opaque error wrapped with the listing's operation, on success at most pageSize scanned rows |
| Store.NewRow | internal/comment/repo/postgres/postgres.go:23-27 | the inserted row carries the record's text, parent_id and user_id, the sequence's id and the creation time |
| Store.CommentStore.constructor | internal/comment/repo/postgres/postgres.go:16-18 | a new repository over an empty table satisfies the id invariant |
| Store.CommentStore.CreateComment | internal/comment/repo/postgres/postgres.go:20-33 | on success exactly one row is appended with a fresh id, which is returned; on failure (0, wrapped error) and the table is unchanged; the id invariant is kept |
| Store.CommentStore.Exists | internal/comment/repo/postgres/postgres.go:35-49 | true exactly when some row has the id, deleted or not; a failed probe gives false and the wrapped error |
| Store.CommentStore.GetCommentsByParent | internal/comment/repo/postgres/postgres.go:51-81 | on success the scanned rows of the subtree query, ordered by created_at; a query failure gives nil and the wrapped driver error; a scan failure at a row the query returned gives nil and the wrapped scan error, one past the last row changes nothing |
| Store.CommentStore.GetComments | internal/comment/repo/postgres/postgres.go:83-125 | with the corrected offset: at most pageSize rows; on failure nil and a wrapped driver error; without driver faults exactly ListOutcome; with a scan fault, a rejected statement still gives ListOutcome's error, a scan failure at a returned row gives nil and the wrapped scan error, one past the last row gives ListOutcome's rows; for normalised parameters over a valid table, exactly the scanned ListPage |
| Service.ToDomain | internal/comment/service/comment.go:42-46 | the record handed to the store carries the request's parent_id, user_id and text and zero id, time and deleted |
| Service.CommentService.constructor | internal/comment/service/comment.go:24-26 | the service drives the given repository |
| Service.CommentService.SaveComment | internal/comment/service/comment.go:28-54 | a missing parent gives ParentNotFound and a failed probe a wrapped error, with nothing inserted in both cases; past the gate the insert alone decides the outcome; on failure the id is 0 and the table and id sequence unchanged, on success the id sequence advances by one; 404-worthy exactly when the parent is missing; parents-before-children is preserved |
| Strings.Atoi | internal/comment/rest/handler.go:91 | strconv.Atoi: a value only for an optional sign and digits within the int64 range |
| Strings.AtoiFormatInt | internal/comment/rest/handler.go:91-100 | Atoi reads back every int64 written in decimal |
| Strings.AtoiRejectsNonDigit | internal/comment/rest/handler.go:66-70 | a character other than a leading sign or a digit makes Atoi fail |
| Strings.UpperChar | internal/comment/rest/handler.go:85 | unicode.ToUpper as far as ASCII results go: a-z to A-Z, U+017F to S, U+0131 to I, and an upper-case ASCII letter comes out exactly from those and from A-Z |
| Strings.ToUpper | internal/comment/rest/handler.go:85 | strings.ToUpper keeps the length and maps every character through the case mapping |
| Handler.NormaliseSort | internal/comment/rest/handler.go:85-88 | the sort keyword is always ASC or DESC, and DESC exactly when the upper-cased input is DESC |
| Handler.NormalisePositive | internal/comment/rest/handler.go:91-100 | the parsed value when it is a positive integer, otherwise the default; always at least 1 and an int64 |
| Handler.NormaliseListQuery | internal/comment/rest/handler.go:83-100 | search as given; sort ASC or DESC; page and page_size positive int64s; each is the parsed value exactly when it parses to a positive integer, and the default (1, 10) otherwise |
| Handler.DefaultQuery | internal/comment/rest/handler.go:85-97 | gin's DefaultQuery: the value given for the key, or the default when the key is absent |
| Handler.PageRoundTrip | internal/comment/rest/handler.go:91-100 | any positive page and page_size written in decimal come through unchanged |
| Handler.ListDefaults | internal/comment/rest/handler.go:83-100 | with no parameters the listing asks for page 1 of 10, ascending |
| Handler.SortIgnoresCase | internal/comment/rest/handler.go:85-88 | desc, Desc and the long-s spelling select DESC; other words and the empty value select ASC |
| Handler.NormalisedListingSucceeds | internal/comment/rest/handler.go:82-109 | whatever the query string, the normalised parameters with the corrected offset give a statement the database accepts, and it returns the requested page |
| Handler.ToDto | internal/comment/types/dto/dto.go:3-8 | the transport record carries id, text, parent_id and user_id of the row |
| Handler.GetComments | internal/comment/rest/handler.go:82-110 | 200 with the comments exactly when the service call with the normalised parameters succeeds, otherwise 500 |
| Handler.AsWrittenList | internal/comment/repo/postgres/postgres.go:86-122 | the listing with the wrapping offset: the corrected listing whenever (page-1)*pageSize fits in int64, and an opaque error when it fails |
| Handler.ModelList | internal/comment/repo/postgres/postgres.go:86-122 | the listing with the corrected offset: for normalised parameters exactly the requested page, and an opaque error when it fails |
| Handler.ListingAlwaysServed | internal/comment/rest/handler.go:82-110 | with the corrected offset every listing request is answered 200 with exactly the requested page |
| Handler.AsWrittenHugePageFails | internal/comment/rest/handler.go:91-109 | as written, ?page=3&page_size=4611686018427387904 is answered 500 |
| Handler.HugePageParams | internal/comment/rest/handler.go:91-100 | page=3 and page_size=2^62 pass the handler's checks unchanged |
| Handler.PageThreeParams | internal/comment/rest/handler.go:91-100 | page=3 with any page_size Atoi reads as a positive n asks for page 3 of n, ascending |
| Handler.CreateComment | internal/comment/rest/handler.go:38-63 | bad body 400; 201 with the id exactly on success; 404 with the missing-parent message exactly when the error is ErrParentNotFound; any other failure 500 with the internal-error message |
| Handler.BadBodySkipsService | internal/comment/rest/handler.go:40-49 | a body that fails decoding or validation is answered without the service |
| Handler.DriverFailureIsInternal | internal/comment/rest/handler.go:51-60 | a save failure made of driver errors is a 500, never a 404 |
| Handler.GetCommentTree | internal/comment/rest/handler.go:65-80 | a non-integer id 400; 200 with the comments exactly when the service succeeds; otherwise 500 |
| Handler.DeleteComment | internal/comment/rest/handler.go:112-130 | a non-integer id 400; 200 with no body exactly on success; 404 with the missing-comment message exactly when the error is ErrCommentNotFound; any other failure 500 with the internal-error message |
| Handler.BadIdSkipsService | internal/comment/rest/handler.go:113-117 | a non-integer path id is answered without the service, in the tree and delete handlers |
| Handler.NonNumericIdIsBadRequest | internal/comment/rest/handler.go:66-70 | the id 12a is answered 400 |

## Findings

| source | as written | input that shows it | evidently intended | confidence | as-written member | corrected member |
|---|---|---|---|---|---|---|
| internal/comment/repo/postgres/postgres.go:86 | `offset := (page - 1) * pageSize` is computed in Go's 64-bit int and wraps on overflow. The handler bounds neither page nor page_size above. | `?page=3&page_size=4611686018427387904` (2^62): the offset wraps to -2^63, Postgres rejects the negative OFFSET and the request gets 500. With page=5 the offset wraps to 0 and page 1 is served again. | A page past the end is empty. | medium; not executed | Listing.AsWrittenOffsetGoesNegative | Listing.PlannedQueryYieldsPage |

The corrected offset is `Listing.PageOffset`, which saturates at the int64 maximum. The repository model (`Store.BuildListQuery`, `Store.CommentStore.GetComments`) uses it. The as-written listing is `Handler.AsWrittenList`, which agrees with the corrected `Handler.ModelList` whenever the product fits in int64. `Handler.AsWrittenHugePageFails` and `Handler.ListingAlwaysServed` state both behaviours end to end.

## Left out

- `cmd/server/main.go` is not part of this model: configuration, connection set-up, the HTTP server, CORS and shutdown.
- JSON decoding and the validator appear only as their outcome, the `Decoded` datatype. The request type `dto.CreateComment` is not defined in the files modelled; `CommentDto` stands in for it.
- Logging and the `response` package are not modelled. A response is a status plus an abstract body: a message, an id, a list of comments, or nothing.
- The service operations the handlers call for the tree, the listing and deletion are not defined in the files modelled, and neither is `ErrCommentNotFound`. The handlers take those calls as function parameters. No deletion or soft-deletion behaviour is modelled.
- Full-text search (`plainto_tsquery('russian', …)`) is an uninterpreted predicate `FullText` on a row's text and the search phrase.
- `created_at` is an integer supplied to `CreateComment` as `now`. It is not assumed to increase.
- Context cancellation and timeouts are not modelled. Driver failures are the `DbFault` and `RowFault` parameters, and the driver's error texts are placeholders.
- The window between the existence probe and the insert is not modelled. Execution is strictly sequential.
- `rows.Err()` after the listing's scan loop (iteration failures after the last row) is not modelled. `GetCommentsByParent` does not check it either.
- Store.CommentStore.CreateComment: a failed insert leaves the id sequence unchanged, although Postgres may already have consumed an id. Exhaustion of the sequence is modelled at the int64 maximum; the table's column types are not part of this model.
- Listing.ParseDirection: only the keywords the handler can produce (ASC, DESC, or none) are accepted. Other spellings Postgres would accept, and SQL text spliced in through the sort value, are treated as rejected statements.
- Listing.Execute: the SQL text of the listing is modelled by its structure (conditions, spliced keyword, placeholder numbers), not as a string.
- Strings.UpperChar: only the mappings that can produce an ASCII letter are modelled (a-z, U+017F to S, U+0131 to I). Other non-ASCII characters are left unchanged; Go's case mapping may change them, but never into ASCII.
- Subtree.TreeRows: the recursion is evaluated to |rows| depths. On a table without the parents-first invariant (a cycle of parent links) Postgres would not terminate, whereas the model stops.
- Go's nil versus empty slice is not distinguished: both are the empty sequence.
- Handler.GetComments: gin's treatment of a key given several times (the first value wins) is folded into the `Query` map.
- Listing.ListPagesCover: the pages are cut from one ordering shared by every statement. Postgres may break ties in created_at differently for each statement, so the cover is only promised when no two candidates share created_at; `Listing.EngineListPagesCover` states that case for any per-statement ordering, and `Listing.TiesCanRepeatRow` shows what a tie can do.
- Store.BuildListQuery: computes OFFSET with the corrected `PageOffset`, not the wrapping `(page - 1) * pageSize` of postgres.go:86. For page=3, page_size=2^62 the code fails on a negative OFFSET where the repository model returns an empty page; the as-written behaviour is `Handler.AsWrittenList`.
- Store.CommentStore.GetComments: runs the statement of `Store.BuildListQuery`, so it has the corrected offset too.
- Handler.NormalisedListingSucceeds: is stated for the corrected offset; with the offset as written it fails for the inputs in "## Findings".
