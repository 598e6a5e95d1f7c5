/**
 * The HTTP handlers: how query parameters are normalised before they reach the
 * store, and how each outcome of the service becomes a status code and a body.
 * The service calls are parameters, since the service operations behind the
 * listing, the tree and deletion are not part of this model.
 */
module Handler {
  import opened Wrappers
  import opened Domain
  import opened Strings
  import opened Listing
  import opened Store
  import Int64

  const StatusOK := 200
  const StatusCreated := 201
  const StatusBadRequest := 400
  const StatusNotFound := 404
  const StatusInternalServerError := 500

  const InvalidBody := "invalid request body"
  const ValidationPrefix := "validation error: "
  const ParentMissing := "parent with such id not found"
  const CommentMissing := "comment with such id not found"
  const InvalidId := "invalid id, must be integer"
  const InternalError := "internal server error, try again later"

  /** What a handler writes: an error message, a new id, a list of comments, or nothing. */
  datatype Body = Message(text: string) | NewId(id: int) | CommentList(comments: seq<CommentDto>) | NoBody

  datatype Response = Response(status: int, body: Body)

  /** The request body of CreateComment after JSON decoding and validation. */
  datatype Decoded = Malformed | Invalid(reason: string) | Accepted(comment: CommentDto)

  /** The URL query string: each key with its (first) value. */
  type Query = map<string, string>

  /** c.DefaultQuery: the value given for key, or def when the key is absent. */
  function DefaultQuery(query: Query, key: string, def: string): (r: string)
    ensures key in query ==> r == query[key]
    ensures key !in query ==> r == def
  {
    if key in query then query[key] else def
  }

  /** The listing parameters handed to the service. */
  datatype ListParams = ListParams(search: string, page: int, pageSize: int, sort: string)

  /** sort: upper-cased; anything but ASC or DESC becomes ASC. */
  function NormaliseSort(raw: string): (r: string)
    ensures r == "ASC" || r == "DESC"
    ensures r == "DESC" <==> ToUpper(raw) == "DESC"
  {
    var sort := ToUpper(raw);
    if sort != "ASC" && sort != "DESC" then "ASC" else sort
  }

  /** A positive integer parameter: the parsed value when it parses and is positive, otherwise def. */
  function NormalisePositive(raw: string, def: int): (r: int)
    requires def >= 1
    ensures r >= 1 && (Int64.InRange(def) ==> Int64.InRange(r))
    ensures Atoi(raw).Some? && Atoi(raw).value > 0 ==> r == Atoi(raw).value
    ensures r == def || Atoi(raw) == Some(r)
  {
    match Atoi(raw)
    case Some(n) => if n <= 0 then def else n
    case None => def
  }

  /** The parameter handling of GetComments: search as given, sort, page and page_size made safe. */
  function NormaliseListQuery(query: Query): (r: ListParams)
    ensures r.search == DefaultQuery(query, "search", "")
    ensures r.sort == "ASC" || r.sort == "DESC"
    ensures r.sort == "DESC" <==> ToUpper(DefaultQuery(query, "sort", "ASC")) == "DESC"
    ensures 1 <= r.page <= Int64.Max && 1 <= r.pageSize <= Int64.Max
    ensures var raw := Atoi(DefaultQuery(query, "page", "1"));
      (raw.Some? && raw.value > 0 ==> r.page == raw.value) && (!(raw.Some? && raw.value > 0) ==> r.page == 1)
    ensures var raw := Atoi(DefaultQuery(query, "page_size", "10"));
      (raw.Some? && raw.value > 0 ==> r.pageSize == raw.value) && (!(raw.Some? && raw.value > 0) ==> r.pageSize == 10)
  {
    ListParams(
      DefaultQuery(query, "search", ""),
      NormalisePositive(DefaultQuery(query, "page", "1"), 1),
      NormalisePositive(DefaultQuery(query, "page_size", "10"), 10),
      NormaliseSort(DefaultQuery(query, "sort", "ASC")))
  }

  /** Any positive page number written in decimal comes through normalisation unchanged. */
  lemma PageRoundTrip(query: Query, page: int, pageSize: int)
    requires 1 <= page <= Int64.Max && 1 <= pageSize <= Int64.Max
    ensures var p := NormaliseListQuery(query["page" := FormatInt(page)]["page_size" := FormatInt(pageSize)]);
      p.page == page && p.pageSize == pageSize
  {
    AtoiFormatInt(page);
    AtoiFormatInt(pageSize);
  }

  /** Without sort, page or page_size the listing asks for the first ten comments, oldest first. */
  lemma ListDefaults(search: string)
    ensures NormaliseListQuery(map["search" := search]) == ListParams(search, 1, 10, "ASC")
  {
    assert ToUpper("ASC") == "ASC";
    assert Atoi("1") == Some(1) by {
      assert AllDigits("1");
      assert DecimalValue("1") == 1;
    }
    assert Atoi("10") == Some(10) by {
      assert AllDigits("10");
      assert "10"[..1] == "1";
      assert DecimalValue("10") == 10;
    }
  }

  /**
   * Upper-casing follows Go's Unicode case mapping: the long s (U+017F) becomes
   * 'S', so "deſc" selects descending order just as "desc" does.
   */
  lemma SortIgnoresCase()
    ensures NormaliseSort("desc") == "DESC" && NormaliseSort("Desc") == "DESC"
    ensures NormaliseSort("de\U{017F}c") == "DESC"
    ensures NormaliseSort("descending") == "ASC" && NormaliseSort("") == "ASC"
  {
    assert ToUpper("desc") == "DESC";
    assert ToUpper("Desc") == "DESC";
    assert ToUpper("de\U{017F}c") == "DESC";
    assert |ToUpper("descending")| == 10;
    assert ToUpper("") == "";
  }

  /**
   * Whatever the query string, the normalised parameters give the store a
   * statement it accepts, and the rows it returns are exactly the requested page.
   */
  lemma NormalisedListingSucceeds(query: Query, rows: seq<Comment>, fts: FullText)
    requires |rows| <= Int64.Max
    ensures var p := NormaliseListQuery(query);
      var (q, args) := PlanListQuery(p.search, p.sort, p.pageSize, PageOffset(p.page, p.pageSize));
      Execute(rows, fts, q, args) == Success(ListPage(rows, fts, p.search, p.page, p.pageSize, DirectionOf(p.sort)))
  {
    var p := NormaliseListQuery(query);
    PlannedQueryYieldsPage(rows, fts, p.search, p.page, p.pageSize, p.sort);
  }

  /** The transport form of a stored comment. */
  function ToDto(c: Comment): (r: CommentDto)
    ensures r.id == c.id && r.text == c.text && r.parentId == c.parentId && r.userId == c.userId
  {
    CommentDto(c.id, c.text, c.parentId, c.userId)
  }

  function ToDtos(s: seq<Comment>): (r: seq<CommentDto>)
    ensures |r| == |s|
    ensures forall i :: 0 <= i < |s| ==> r[i] == ToDto(s[i])
  {
    if s == [] then [] else [ToDto(s[0])] + ToDtos(s[1..])
  }

  /** GetComments: normalise the parameters, ask the service, answer 200 with the comments or 500. */
  function GetComments(query: Query, list: ListParams -> Result<seq<CommentDto>, Error>): (r: Response)
    ensures r.status == StatusOK || r.status == StatusInternalServerError
    ensures r.status == StatusOK <==> list(NormaliseListQuery(query)).Success?
    ensures r.status == StatusOK ==> r.body == CommentList(list(NormaliseListQuery(query)).value)
    ensures r.status == StatusInternalServerError ==> r.body == Message(InternalError)
  {
    match list(NormaliseListQuery(query))
    case Failure(_) => Response(StatusInternalServerError, Message(InternalError))
    case Success(comments) => Response(StatusOK, CommentList(comments))
  }

  /** The service's answer for a repository outcome: its rows in transport form, or its error. */
  function Respond(outcome: Result<seq<Comment>, Error>): (r: Result<seq<CommentDto>, Error>)
    ensures r.Success? <==> outcome.Success?
    ensures r.Success? ==> r.value == ToDtos(outcome.value)
    ensures r.Failure? ==> r.error == outcome.error
  {
    match outcome
    case Failure(e) => Failure(e)
    case Success(found) => Success(ToDtos(found))
  }

  /**
   * The listing as the repository runs it with the offset the Go code computes,
   * which wraps in int64. Whenever the product fits, it is the corrected listing.
   */
  function AsWrittenList(rows: seq<Comment>, fts: FullText, p: ListParams): (r: Result<seq<CommentDto>, Error>)
    ensures Int64.InRange((p.page - 1) * p.pageSize) ==> r == ModelList(rows, fts, p)
    ensures r.Failure? ==> Opaque(r.error)
  {
    var offset := GoPageOffset(p.page, p.pageSize);
    assert Int64.InRange((p.page - 1) * p.pageSize) ==> offset == PageOffset(p.page, p.pageSize);
    Respond(ListOutcome(rows, fts, p.search, p.sort, p.pageSize, offset))
  }

  function AsWrittenListing(rows: seq<Comment>, fts: FullText): ListParams -> Result<seq<CommentDto>, Error> {
    (p: ListParams) => AsWrittenList(rows, fts, p)
  }

  /**
   * The listing as the repository model runs it, with the offset computed
   * without wrapping: for normalised parameters, exactly the requested page.
   */
  function ModelList(rows: seq<Comment>, fts: FullText, p: ListParams): (r: Result<seq<CommentDto>, Error>)
    ensures r.Failure? ==> Opaque(r.error)
    ensures (p.sort == "ASC" || p.sort == "DESC") && p.page >= 1 && 1 <= p.pageSize <= Int64.Max && |rows| <= Int64.Max ==>
      r == Success(ToDtos(Project(ListPage(rows, fts, p.search, p.page, p.pageSize, DirectionOf(p.sort)))))
  {
    var outcome := ListOutcome(rows, fts, p.search, p.sort, p.pageSize, PageOffset(p.page, p.pageSize));
    var normalised := (p.sort == "ASC" || p.sort == "DESC") && p.page >= 1 && 1 <= p.pageSize <= Int64.Max && |rows| <= Int64.Max;
    assert normalised ==> Respond(outcome) == Success(ToDtos(Project(ListPage(rows, fts, p.search, p.page, p.pageSize, DirectionOf(p.sort))))) by {
      if normalised {
        PlannedQueryYieldsPage(rows, fts, p.search, p.page, p.pageSize, p.sort);
      }
    }
    Respond(outcome)
  }

  function ModelListing(rows: seq<Comment>, fts: FullText): ListParams -> Result<seq<CommentDto>, Error> {
    (p: ListParams) => ModelList(rows, fts, p)
  }

  /**
   * End to end, corrected: every query string is answered with 200 and exactly
   * the requested page of the listing.
   */
  lemma ListingAlwaysServed(query: Query, rows: seq<Comment>, fts: FullText)
    requires |rows| <= Int64.Max
    ensures var p := NormaliseListQuery(query);
      GetComments(query, ModelListing(rows, fts)) ==
        Response(StatusOK, CommentList(ToDtos(Project(ListPage(rows, fts, p.search, p.page, p.pageSize, DirectionOf(p.sort))))))
  {
    NormalisedListingSucceeds(query, rows, fts);
  }

  /**
   * End to end, as written: ?page=3&page_size=4611686018427387904 passes the
   * handler's checks, the offset wraps to a negative number, and the request
   * fails with 500.
   */
  lemma AsWrittenHugePageFails(rows: seq<Comment>, fts: FullText)
    ensures GetComments(map["page" := "3", "page_size" := FormatInt(0x4000_0000_0000_0000)], AsWrittenListing(rows, fts))
      == Response(StatusInternalServerError, Message(InternalError))
  {
    var query := map["page" := "3", "page_size" := FormatInt(0x4000_0000_0000_0000)];
    var p := ListParams("", 3, 0x4000_0000_0000_0000, "ASC");
    HugePageParams();
    HugePageQueryFails(rows, fts);
    assert AsWrittenListing(rows, fts)(p).Failure?;
  }

  /** ?page=3&page_size=2^62 passes the handler's checks unchanged. */
  lemma HugePageParams()
    ensures NormaliseListQuery(map["page" := "3", "page_size" := FormatInt(0x4000_0000_0000_0000)])
      == ListParams("", 3, 0x4000_0000_0000_0000, "ASC")
  {
    AtoiFormatInt(0x4000_0000_0000_0000);
    PageThreeParams(FormatInt(0x4000_0000_0000_0000), 0x4000_0000_0000_0000);
  }

  /** ?page=3&page_size=size, for a size Atoi reads as a positive n, asks for page 3 of n, ascending. */
  lemma PageThreeParams(size: string, n: int)
    requires Atoi(size) == Some(n) && n > 0
    ensures NormaliseListQuery(map["page" := "3", "page_size" := size]) == ListParams("", 3, n, "ASC")
  {
    var query := map["page" := "3", "page_size" := size];
    assert Atoi("3") == Some(3) by {
      assert AllDigits("3");
      assert DecimalValue("3") == 3;
    }
    assert ToUpper("ASC") == "ASC";
    assert DefaultQuery(query, "page", "1") == "3";
    assert DefaultQuery(query, "page_size", "10") == size;
  }

  /** The repository, as written, fails on page 3 of size 2^62. */
  lemma HugePageQueryFails(rows: seq<Comment>, fts: FullText)
    ensures AsWrittenList(rows, fts, ListParams("", 3, 0x4000_0000_0000_0000, "ASC")).Failure?
  {
    AsWrittenOffsetGoesNegative(rows, fts);
  }

  /** CreateComment: 400 for a bad body, 404 for a missing parent, 500 for any other failure, 201 with the id. */
  function CreateComment(decoded: Decoded, save: CommentDto -> Result<int, Error>): (r: Response)
    ensures decoded.Malformed? ==> r == Response(StatusBadRequest, Message(InvalidBody))
    ensures decoded.Invalid? ==> r == Response(StatusBadRequest, Message(ValidationPrefix + decoded.reason))
    ensures decoded.Accepted? ==> r.status in {StatusCreated, StatusNotFound, StatusInternalServerError}
    ensures r.status == StatusCreated <==> decoded.Accepted? && save(decoded.comment).Success?
    ensures r.status == StatusCreated ==> r.body == NewId(save(decoded.comment).value)
    ensures r.status == StatusNotFound <==>
      decoded.Accepted? && save(decoded.comment).Failure? && Is(save(decoded.comment).error, ParentNotFound)
    ensures r.status == StatusNotFound ==> r.body == Message(ParentMissing)
    ensures r.status == StatusInternalServerError ==> r.body == Message(InternalError)
  {
    match decoded
    case Malformed => Response(StatusBadRequest, Message(InvalidBody))
    case Invalid(reason) => Response(StatusBadRequest, Message(ValidationPrefix + reason))
    case Accepted(comment) =>
      match save(comment)
      case Success(id) => Response(StatusCreated, NewId(id))
      case Failure(err) =>
        if Is(err, ParentNotFound) then Response(StatusNotFound, Message(ParentMissing))
        else Response(StatusInternalServerError, Message(InternalError))
  }

  /** A body that does not decode or validate is answered without consulting the service. */
  lemma BadBodySkipsService(decoded: Decoded, save1: CommentDto -> Result<int, Error>, save2: CommentDto -> Result<int, Error>)
    requires !decoded.Accepted?
    ensures CreateComment(decoded, save1) == CreateComment(decoded, save2)
  {
  }

  /** A save failure made only of driver errors (a failed probe or insert) is a 500, never a 404. */
  lemma DriverFailureIsInternal(comment: CommentDto, save: CommentDto -> Result<int, Error>)
    requires save(comment).Failure? && Opaque(save(comment).error)
    ensures CreateComment(Accepted(comment), save) == Response(StatusInternalServerError, Message(InternalError))
  {
    OpaqueIsNoSentinel(save(comment).error);
  }

  /** GetCommentTree: 400 for an id that is not an integer, 500 on failure, 200 with the comments. */
  function GetCommentTree(idParam: string, byParent: int -> Result<seq<CommentDto>, Error>): (r: Response)
    ensures Atoi(idParam).None? ==> r == Response(StatusBadRequest, Message(InvalidId))
    ensures r.status == StatusOK <==> Atoi(idParam).Some? && byParent(Atoi(idParam).value).Success?
    ensures r.status == StatusOK ==> r.body == CommentList(byParent(Atoi(idParam).value).value)
    ensures Atoi(idParam).Some? && byParent(Atoi(idParam).value).Failure? ==>
      r == Response(StatusInternalServerError, Message(InternalError))
  {
    match Atoi(idParam)
    case None => Response(StatusBadRequest, Message(InvalidId))
    case Some(id) =>
      match byParent(id)
      case Failure(_) => Response(StatusInternalServerError, Message(InternalError))
      case Success(comments) => Response(StatusOK, CommentList(comments))
  }

  /** DeleteComment: 400 for a bad id, 404 when the comment is missing, 500 on other failures, 200 otherwise. */
  function DeleteComment(idParam: string, delete: int -> Option<Error>): (r: Response)
    ensures Atoi(idParam).None? ==> r == Response(StatusBadRequest, Message(InvalidId))
    ensures r.status == StatusOK <==> Atoi(idParam).Some? && delete(Atoi(idParam).value).None?
    ensures r.status == StatusOK ==> r.body == NoBody
    ensures r.status == StatusNotFound <==>
      Atoi(idParam).Some? && delete(Atoi(idParam).value).Some? && Is(delete(Atoi(idParam).value).value, CommentNotFound)
    ensures r.status == StatusNotFound ==> r.body == Message(CommentMissing)
    ensures Atoi(idParam).Some? && delete(Atoi(idParam).value).Some? && !Is(delete(Atoi(idParam).value).value, CommentNotFound) ==>
      r == Response(StatusInternalServerError, Message(InternalError))
    ensures r.status in {StatusOK, StatusBadRequest, StatusNotFound, StatusInternalServerError}
  {
    match Atoi(idParam)
    case None => Response(StatusBadRequest, Message(InvalidId))
    case Some(id) =>
      match delete(id)
      case None => Response(StatusOK, NoBody)
      case Some(err) =>
        if Is(err, CommentNotFound) then Response(StatusNotFound, Message(CommentMissing))
        else Response(StatusInternalServerError, Message(InternalError))
  }

  /** A path id that is not an integer is answered with 400 and the service is not consulted. */
  lemma BadIdSkipsService(idParam: string,
                          byParent1: int -> Result<seq<CommentDto>, Error>, byParent2: int -> Result<seq<CommentDto>, Error>,
                          delete1: int -> Option<Error>, delete2: int -> Option<Error>)
    requires Atoi(idParam).None?
    ensures GetCommentTree(idParam, byParent1) == GetCommentTree(idParam, byParent2)
    ensures DeleteComment(idParam, delete1) == DeleteComment(idParam, delete2)
  {
  }

  /** An id with anything but an optional sign and digits, "12a" say, is rejected. */
  lemma NonNumericIdIsBadRequest(byParent: int -> Result<seq<CommentDto>, Error>)
    ensures GetCommentTree("12a", byParent) == Response(StatusBadRequest, Message(InvalidId))
  {
    AtoiRejectsNonDigit("12a", 2);
  }
}
