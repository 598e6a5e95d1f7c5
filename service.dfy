/** The comment service: a comment is stored only under a parent that exists. */
module Service {
  import opened Wrappers
  import opened Domain
  import opened Table
  import opened Store
  import Int64

  const SaveOp := "service.comment.Save"

  /**
   * The record SaveComment hands to the repository: parent_id, user_id and text
   * from the request; id, created_at and deleted left at their zero values.
   */
  function ToDomain(comment: CommentDto): (r: Comment)
    ensures r.parentId == comment.parentId && r.userId == comment.userId && r.text == comment.text
    ensures r.id == 0 && r.createdAt == ZeroTime && !r.deleted
  {
    Comment(0, comment.parentId, comment.userId, comment.text, ZeroTime, false)
  }

  class CommentService {
    const repo: CommentStore

    constructor (repo: CommentStore)
      ensures this.repo == repo
    {
      this.repo := repo;
    }

    /**
     * Store a new comment. When it names a parent, first ask the repository
     * whether a row with that id exists: a failed probe is returned wrapped, a
     * missing parent as ParentNotFound, and in both cases nothing is inserted.
     * Otherwise insert, returning the new id or the wrapped insert failure.
     */
    method SaveComment(comment: CommentDto, now: Timestamp, probeFault: DbFault, insertFault: DbFault)
      returns (id: int, err: Option<Error>)
      requires repo.Valid()
      modifies repo
      ensures repo.Valid()
      // the gate
      ensures comment.parentId.Some? && probeFault.Some? ==>
        id == 0 && err == Some(Wrapped(SaveOp, Wrapped(ExistsOp, Driver(probeFault.value)))) &&
        repo.rows == old(repo.rows) && repo.nextId == old(repo.nextId)
      ensures comment.parentId.Some? && probeFault.None? && !HasId(old(repo.rows), comment.parentId.value) ==>
        id == 0 && err == Some(ParentNotFound) &&
        repo.rows == old(repo.rows) && repo.nextId == old(repo.nextId)
      // past the gate, the insert alone decides
      ensures comment.parentId.None? || (probeFault.None? && HasId(old(repo.rows), comment.parentId.value)) ==>
        (insertFault.None? && old(repo.nextId) <= Int64.Max ==>
          err.None? && id == old(repo.nextId) &&
          repo.rows == old(repo.rows) + [NewRow(id, ToDomain(comment), now)]) &&
        (insertFault.Some? ==>
          id == 0 && err == Some(Wrapped(SaveOp, Wrapped(CreateOp, Driver(insertFault.value)))) &&
          repo.rows == old(repo.rows)) &&
        (insertFault.None? && old(repo.nextId) > Int64.Max ==>
          id == 0 && err == Some(Wrapped(SaveOp, Wrapped(CreateOp, Driver(SequenceExhausted)))) &&
          repo.rows == old(repo.rows))
      // what callers can tell apart
      ensures err.Some? ==> id == 0 && repo.rows == old(repo.rows)
      // the id sequence advances exactly once per stored comment
      ensures err.None? ==> repo.nextId == old(repo.nextId) + 1
      ensures err.Some? ==> repo.nextId == old(repo.nextId)
      ensures err.Some? ==> err.value == ParentNotFound || Opaque(err.value)
      ensures Is(err.GetOr(Driver("")), ParentNotFound) <==>
        comment.parentId.Some? && probeFault.None? && !HasId(old(repo.rows), comment.parentId.value)
      // the table invariant every successful save keeps
      ensures ParentsPrecede(old(repo.rows)) ==> ParentsPrecede(repo.rows)
    {
      if comment.parentId.Some? {
        var found, probeErr := repo.Exists(comment.parentId.value, probeFault);
        if probeErr.Some? {
          OpaqueIsNoSentinel(Wrapped(SaveOp, probeErr.value));
          return 0, Some(Wrapped(SaveOp, probeErr.value));
        }
        HasIdMeaning(repo.rows, comment.parentId.value);
        if !found {
          return 0, Some(ParentNotFound);
        }
      }
      var rowsBefore := repo.rows;
      var newId, insertErr := repo.CreateComment(ToDomain(comment), now, insertFault);
      if insertErr.Some? {
        OpaqueIsNoSentinel(Wrapped(SaveOp, insertErr.value));
        return 0, Some(Wrapped(SaveOp, insertErr.value));
      }
      if ParentsPrecede(rowsBefore) {
        AppendKeepsParentsPrecede(rowsBefore, NewRow(newId, ToDomain(comment), now));
      }
      OpaqueIsNoSentinel(Driver(""));
      return newId, None;
    }
  }
}
