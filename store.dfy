/**
 * The comment repository over Postgres: the comments table is an in-memory
 * sequence of rows in insertion order together with the id sequence, and each
 * repository call is one statement against it. Failures of the driver are
 * parameters of the calls.
 */
module Store {
  import opened Wrappers
  import opened Domain
  import opened Seqs
  import opened Ordering
  import opened Table
  import opened Subtree
  import opened Listing
  import Int64

  const CreateOp := "repo.comment.Create"
  const ExistsOp := "repo.comment.Exists"
  const ByParentOp := "repo.comment.GetCommentsByParent"
  const ListOp := "repo.comment.GetComments"

  /** The error the database raises once the id sequence is used up. */
  const SequenceExhausted := "nextval: reached maximum value of sequence"

  /** A comment as rows.Scan fills it: the five selected columns; deleted is not selected. */
  function Scanned(c: Comment): (r: Comment)
    ensures r.id == c.id && r.parentId == c.parentId && r.userId == c.userId
    ensures r.text == c.text && r.createdAt == c.createdAt && !r.deleted
  {
    c.(deleted := false)
  }

  /** A result set as the scan loop returns it, row by row. */
  function Project(s: seq<Comment>): (r: seq<Comment>)
    ensures |r| == |s|
    ensures forall i :: 0 <= i < |s| ==> r[i] == Scanned(s[i])
  {
    if s == [] then [] else [Scanned(s[0])] + Project(s[1..])
  }

  /** The scan keeps created_at, so an ordered result set stays ordered. */
  lemma {:induction false} ProjectKeepsOrder(s: seq<Comment>, dir: Direction)
    requires SortedBy(s, dir)
    ensures SortedBy(Project(s), dir)
  {
    var r := Project(s);
    forall i, j | 0 <= i < j < |r| ensures InOrder(r[i], r[j], dir) {
      assert InOrder(s[i], s[j], dir);
    }
  }

  /**
   * The `for rows.Next()` loop: scan each row of the result set into a fresh
   * record and append it. A scan failure on some row abandons the rows read so
   * far and returns nil with the failure wrapped under op.
   */
  method ScanRows(op: string, result: seq<Comment>, scanFault: Option<RowFault>) returns (comments: seq<Comment>, err: Option<Error>)
    ensures scanFault.Some? && scanFault.value.index < |result| ==>
      comments == [] && err == Some(Wrapped(op, Driver(scanFault.value.message)))
    ensures !(scanFault.Some? && scanFault.value.index < |result|) ==>
      err.None? && comments == Project(result)
  {
    comments := [];
    var i := 0;
    while i < |result|
      invariant 0 <= i <= |result|
      invariant comments == Project(result[..i])
      invariant scanFault.Some? ==> scanFault.value.index >= i
    {
      if scanFault.Some? && scanFault.value.index == i {
        return [], Some(Wrapped(op, Driver(scanFault.value.message)));
      }
      ProjectAppend(result[..i], result[i]);
      assert result[..i + 1] == result[..i] + [result[i]];
      comments := comments + [Scanned(result[i])];
      i := i + 1;
    }
    assert result[..i] == result;
    return comments, None;
  }

  lemma {:induction false} ProjectAppend(s: seq<Comment>, c: Comment)
    ensures Project(s + [c]) == Project(s) + [Scanned(c)]
  {
    if s != [] {
      assert (s + [c])[1..] == s[1..] + [c];
      ProjectAppend(s[1..], c);
    }
  }

  /**
   * The statement and arguments of GetComments, built as the Go code builds
   * them: the search condition and its argument first, then LIMIT and OFFSET
   * on the next two placeholders. The offset is computed without wrapping
   * (see PageOffset).
   */
  method BuildListQuery(search: string, page: int, pageSize: int, sort: string) returns (q: ListQuery, args: seq<Arg>)
    ensures (q, args) == PlanListQuery(search, sort, pageSize, PageOffset(page, pageSize))
    ensures ParamsAgree(q, args) && |args| == q.offsetParam
  {
    var offset := PageOffset(page, pageSize);
    var conditions: seq<Condition> := [];
    args := [];
    if search != "" {
      conditions := conditions + [FullTextMatch(|args| + 1)];
      args := args + [TextArg(search)];
    }
    var limitParam := |args| + 1;
    var offsetParam := |args| + 2;
    args := args + [IntArg(pageSize), IntArg(offset)];
    q := ListQuery(conditions, sort, limitParam, offsetParam);
    assert conditions == if search == "" then [] else [FullTextMatch(1)];
    assert args[..|args| - 2] == if search == "" then [] else [TextArg(search)];
  }

  /**
   * The listing statement for a search, keyword, page size and offset, run
   * against rows and scanned: what GetComments returns when the driver does not
   * fail. The offset is a parameter, so the code as written (GoPageOffset) and
   * the corrected computation (PageOffset) share this definition.
   */
  function ListOutcome(rows: seq<Comment>, fts: FullText, search: string, sort: string, pageSize: int, offset: int)
    : (r: Result<seq<Comment>, Error>)
    ensures r.Failure? ==> Opaque(r.error) && r.error.Wrapped? && r.error.op == ListOp
    ensures r.Success? ==> |r.value| <= pageSize
    ensures r.Success? ==> offset >= 0 && forall c :: c in r.value ==> c.deleted == false
  {
    var (q, args) := PlanListQuery(search, sort, pageSize, offset);
    PlanNumbering(search, sort, pageSize, offset);
    match Execute(rows, fts, q, args)
    case Failure(e) => Failure(Wrapped(ListOp, e))
    case Success(found) => Success(Project(found))
  }

  /** The row INSERT ... RETURNING id stores: text, parent_id and user_id from the record; id, created_at and deleted from the table. */
  function NewRow(id: int, comment: Comment, now: Timestamp): (r: Comment)
    ensures r.text == comment.text && r.parentId == comment.parentId && r.userId == comment.userId
    ensures r.id == id && r.createdAt == now && !r.deleted
  {
    Comment(id, comment.parentId, comment.userId, comment.text, now, false)
  }

  class CommentStore {
    /** The comments table, in insertion order. */
    var rows: seq<Comment>
    /** The next value of the id sequence. */
    var nextId: int

    /** Ids come from the sequence: increasing, positive, below nextId, and int64. */
    ghost predicate Valid()
      reads this
    {
      1 <= nextId <= Int64.Max + 1 &&
      IdsIncreasing(rows) &&
      (forall i :: 0 <= i < |rows| ==> 1 <= rows[i].id < nextId)
    }

    /** The table holds at most Int64.Max rows. */
    lemma RowCountInRange()
      requires Valid()
      ensures |rows| <= Int64.Max
    {
      CountBoundedByIds(rows, 1, nextId);
    }

    constructor ()
      ensures Valid()
      ensures rows == [] && nextId == 1
    {
      rows := [];
      nextId := 1;
    }

    /**
     * INSERT INTO comments(text, parent_id, user_id) ... RETURNING id. The row
     * gets the next id of the sequence and the creation time now. A driver
     * failure returns (0, wrapped error) and stores nothing.
     */
    method CreateComment(comment: Comment, now: Timestamp, fault: DbFault) returns (id: int, err: Option<Error>)
      requires Valid()
      modifies this
      ensures Valid()
      ensures fault.None? && old(nextId) <= Int64.Max ==>
        err.None? && id == old(nextId) && !HasId(old(rows), id) &&
        rows == old(rows) + [NewRow(id, comment, now)] && nextId == old(nextId) + 1
      ensures fault.Some? ==>
        id == 0 && err == Some(Wrapped(CreateOp, Driver(fault.value))) &&
        rows == old(rows) && nextId == old(nextId)
      ensures fault.None? && old(nextId) > Int64.Max ==>
        id == 0 && err == Some(Wrapped(CreateOp, Driver(SequenceExhausted))) &&
        rows == old(rows) && nextId == old(nextId)
    {
      if fault.Some? {
        return 0, Some(Wrapped(CreateOp, Driver(fault.value)));
      }
      if nextId > Int64.Max {
        return 0, Some(Wrapped(CreateOp, Driver(SequenceExhausted)));
      }
      id := nextId;
      HasIdMeaning(rows, id);
      rows := rows + [NewRow(id, comment, now)];
      nextId := nextId + 1;
      err := None;
    }

    /** SELECT EXISTS(SELECT 1 FROM comments WHERE id = $1): deleted rows count as existing. */
    method Exists(id: int, fault: DbFault) returns (found: bool, err: Option<Error>)
      ensures fault.None? ==> err.None? && (found <==> exists i :: 0 <= i < |rows| && rows[i].id == id)
      ensures fault.Some? ==> !found && err == Some(Wrapped(ExistsOp, Driver(fault.value)))
    {
      if fault.Some? {
        return false, Some(Wrapped(ExistsOp, Driver(fault.value)));
      }
      HasIdMeaning(rows, id);
      return HasId(rows, id), None;
    }

    /**
     * The recursive tree query from parentId, scanned row by row. On success the
     * result is the query's rows in its order.
     */
    method GetCommentsByParent(parentId: int, fault: DbFault, scanFault: Option<RowFault>) returns (comments: seq<Comment>, err: Option<Error>)
      ensures fault.Some? ==> comments == [] && err == Some(Wrapped(ByParentOp, Driver(fault.value)))
      ensures fault.None? && scanFault.None? ==>
        err.None? && comments == Project(SubtreeQuery(rows, parentId)) && SortedBy(comments, Asc)
      ensures fault.None? && scanFault.Some? && scanFault.value.index < |SubtreeQuery(rows, parentId)| ==>
        comments == [] && err == Some(Wrapped(ByParentOp, Driver(scanFault.value.message)))
      ensures fault.None? && scanFault.Some? && scanFault.value.index >= |SubtreeQuery(rows, parentId)| ==>
        err.None? && comments == Project(SubtreeQuery(rows, parentId))
      ensures err.None? ==> comments == Project(SubtreeQuery(rows, parentId))
      ensures err.Some? ==> comments == [] && Opaque(err.value)
    {
      if fault.Some? {
        return [], Some(Wrapped(ByParentOp, Driver(fault.value)));
      }
      var result := SubtreeQuery(rows, parentId);
      ProjectKeepsOrder(result, Asc);
      comments, err := ScanRows(ByParentOp, result, scanFault);
    }

    /**
     * The listing: build the statement, run it, scan the rows. A statement the
     * database rejects is returned as a wrapped error.
     */
    method GetComments(fts: FullText, search: string, page: int, pageSize: int, sort: string, fault: DbFault, scanFault: Option<RowFault>)
      returns (comments: seq<Comment>, err: Option<Error>)
      ensures err.None? ==> |comments| <= pageSize
      ensures err.Some? ==> comments == [] && Opaque(err.value)
      ensures fault.Some? ==> err == Some(Wrapped(ListOp, Driver(fault.value)))
      ensures (Valid() && fault.None? && scanFault.None? &&
               (sort == "ASC" || sort == "DESC") && page >= 1 && 1 <= pageSize <= Int64.Max) ==>
        err.None? && comments == Project(ListPage(rows, fts, search, page, pageSize, DirectionOf(sort)))
      ensures fault.None? && scanFault.None? ==>
        var outcome := ListOutcome(rows, fts, search, sort, pageSize, PageOffset(page, pageSize));
        (err.None? <==> outcome.Success?) &&
        (outcome.Success? ==> comments == outcome.value) &&
        (outcome.Failure? ==> err == Some(outcome.error))
      ensures fault.None? && scanFault.Some? ==>
        var outcome := ListOutcome(rows, fts, search, sort, pageSize, PageOffset(page, pageSize));
        (outcome.Failure? ==> comments == [] && err == Some(outcome.error)) &&
        (outcome.Success? && scanFault.value.index < |outcome.value| ==>
          comments == [] && err == Some(Wrapped(ListOp, Driver(scanFault.value.message)))) &&
        (outcome.Success? && scanFault.value.index >= |outcome.value| ==> err.None? && comments == outcome.value)
    {
      var q, args := BuildListQuery(search, page, pageSize, sort);
      if fault.Some? {
        return [], Some(Wrapped(ListOp, Driver(fault.value)));
      }
      if Valid() && (sort == "ASC" || sort == "DESC") && page >= 1 && 1 <= pageSize <= Int64.Max {
        RowCountInRange();
        PlannedQueryYieldsPage(rows, fts, search, page, pageSize, sort);
      }
      PlanNumbering(search, sort, pageSize, PageOffset(page, pageSize));
      match Execute(rows, fts, q, args)
      case Failure(e) =>
        return [], Some(Wrapped(ListOp, e));
      case Success(result) =>
        comments, err := ScanRows(ListOp, result, scanFault);
    }
  }
}
