/** Facts about the comments table as a sequence of rows in insertion order. */
module Table {
  import opened Wrappers
  import opened Domain

  /** SELECT EXISTS(SELECT 1 FROM comments WHERE id = $1): a scan for the id; the deleted flag plays no part. */
  function HasId(rows: seq<Comment>, id: int): bool {
    if rows == [] then false else rows[0].id == id || HasId(rows[1..], id)
  }

  /** HasId holds exactly when some row carries the id. */
  lemma {:induction false} HasIdMeaning(rows: seq<Comment>, id: int)
    ensures HasId(rows, id) <==> exists i :: 0 <= i < |rows| && rows[i].id == id
  {
    if rows != [] {
      HasIdMeaning(rows[1..], id);
      if HasId(rows[1..], id) {
        var i :| 0 <= i < |rows[1..]| && rows[1..][i].id == id;
        assert rows[i + 1].id == id;
      }
      if exists i :: 0 <= i < |rows| && rows[i].id == id {
        var i :| 0 <= i < |rows| && rows[i].id == id;
        if i > 0 {
          assert rows[1..][i - 1].id == id;
        }
      }
    }
  }

  /** Whether rows[i] carries the id is all HasId looks at; other fields, deleted among them, do not matter. */
  lemma HasIdAt(rows: seq<Comment>, i: int, id: int)
    requires 0 <= i < |rows| && rows[i].id == id
    ensures HasId(rows, id)
  {
    HasIdMeaning(rows, id);
  }

  /** The id sequence hands out ever larger ids: insertion order is id order. */
  ghost predicate IdsIncreasing(rows: seq<Comment>) {
    forall i, j :: 0 <= i < j < |rows| ==> rows[i].id < rows[j].id
  }

  /** Every parent_id names a row inserted before the child. */
  ghost predicate ParentsPrecede(rows: seq<Comment>) {
    forall i :: 0 <= i < |rows| && rows[i].parentId.Some? ==> HasId(rows[..i], rows[i].parentId.value)
  }

  /** The row a stored parent_id names sits before the child. */
  lemma ParentBefore(rows: seq<Comment>, i: int) returns (j: int)
    requires ParentsPrecede(rows)
    requires 0 <= i < |rows| && rows[i].parentId.Some?
    ensures 0 <= j < i && rows[j].id == rows[i].parentId.value
  {
    HasIdMeaning(rows[..i], rows[i].parentId.value);
    j :| 0 <= j < i && rows[..i][j].id == rows[i].parentId.value;
  }

  /** Appending a row whose parent, if any, is already stored keeps parents before children. */
  lemma AppendKeepsParentsPrecede(rows: seq<Comment>, c: Comment)
    requires ParentsPrecede(rows)
    requires c.parentId.Some? ==> HasId(rows, c.parentId.value)
    ensures ParentsPrecede(rows + [c])
  {
    var all := rows + [c];
    assert all[..|rows|] == rows;
    forall i | 0 <= i < |all| && all[i].parentId.Some?
      ensures HasId(all[..i], all[i].parentId.value)
    {
      if i < |rows| {
        assert all[..i] == rows[..i];
      }
    }
  }

  /** With increasing ids, a parent's id is smaller than its child's: parent links never loop. */
  lemma ParentIdBelowChild(rows: seq<Comment>, i: int)
    requires IdsIncreasing(rows) && ParentsPrecede(rows)
    requires 0 <= i < |rows| && rows[i].parentId.Some?
    ensures rows[i].parentId.value < rows[i].id
  {
    var j := ParentBefore(rows, i);
  }

  /** With increasing ids, the row carrying a given id is unique. */
  lemma IdsUnique(rows: seq<Comment>, i: int, j: int)
    requires IdsIncreasing(rows)
    requires 0 <= i < |rows| && 0 <= j < |rows| && rows[i].id == rows[j].id
    ensures i == j
  {
  }

  /** With increasing ids, no row occurs twice. */
  lemma {:induction false} RowsDistinct(rows: seq<Comment>)
    requires IdsIncreasing(rows)
    ensures forall c :: multiset(rows)[c] <= 1
  {
    if rows != [] {
      RowsDistinct(rows[1..]);
      assert rows == [rows[0]] + rows[1..];
      assert rows[0] !in rows[1..];
    }
  }

  /** Increasing ids drawn from [lo, hi) number at most hi - lo rows. */
  lemma {:induction false} CountBoundedByIds(rows: seq<Comment>, lo: int, hi: int)
    requires IdsIncreasing(rows) && lo <= hi
    requires forall i :: 0 <= i < |rows| ==> lo <= rows[i].id < hi
    ensures |rows| <= hi - lo
  {
    if rows != [] {
      CountBoundedByIds(rows[1..], rows[0].id + 1, hi);
    }
  }
}
