/**
 * The recursive tree query of GetCommentsByParent:
 *
 *   WITH RECURSIVE tree AS (anchor: the row with id = $1
 *                           UNION ALL
 *                           rows whose parent_id is an id already in tree)
 *   SELECT ... FROM tree ORDER BY created_at
 *
 * evaluated the way the engine does it, one depth at a time, and compared with
 * the reference meaning: the root and everything that reaches it along parent links.
 */
module Subtree {
  import opened Wrappers
  import opened Domain
  import opened Seqs
  import opened Ordering
  import opened Table

  /** The anchor of the recursion: SELECT ... FROM comments WHERE id = root. */
  function Anchor(rows: seq<Comment>, root: int): (r: seq<Comment>)
    ensures forall c {:trigger c in r} :: c in r <==> c in rows && c.id == root
    ensures forall c {:trigger multiset(r)[c]} ::
      multiset(r)[c] == (if c.id == root then multiset(rows)[c] else 0)
    ensures !HasId(rows, root) ==> r == []
  {
    if rows == [] then []
    else
      assert rows == [rows[0]] + rows[1..];
      (if rows[0].id == root then [rows[0]] else []) + Anchor(rows[1..], root)
  }

  /**
   * The recursive step: the rows c of comments whose parent_id is the id of some
   * row t of the previous working table. This is a semi-join; it equals the
   * JOIN on c.parent_id = t.id when the working table holds each id at most
   * once, as it does under increasing ids (AnchorSingle, LevelsDistinct).
   */
  function Children(rows: seq<Comment>, prev: seq<Comment>): (r: seq<Comment>)
    ensures forall c {:trigger c in r} ::
      c in r <==> c in rows && c.parentId.Some? && HasId(prev, c.parentId.value)
    ensures forall c {:trigger multiset(r)[c]} ::
      multiset(r)[c] == (if c.parentId.Some? && HasId(prev, c.parentId.value) then multiset(rows)[c] else 0)
    ensures (forall i :: 0 <= i < |rows| && rows[i].parentId.Some? ==> !HasId(prev, rows[i].parentId.value)) ==> r == []
  {
    if rows == [] then []
    else
      assert rows == [rows[0]] + rows[1..];
      var c := rows[0];
      (if c.parentId.Some? && HasId(prev, c.parentId.value) then [c] else []) + Children(rows[1..], prev)
  }

  /**
   * The rows the recursive query produces at depth k: the anchor at depth 0,
   * then the rows whose parent_id is an id produced at depth k - 1 (the join
   * against the previous working table).
   */
  function Level(rows: seq<Comment>, root: int, k: nat): seq<Comment>
    decreases k
  {
    if k == 0 then Anchor(rows, root)
    else Children(rows, Level(rows, root, k - 1))
  }

  /** UNION ALL of the first n depths. */
  function Levels(rows: seq<Comment>, root: int, n: nat): seq<Comment> {
    if n == 0 then [] else Levels(rows, root, n - 1) + Level(rows, root, n - 1)
  }

  /**
   * The tree before ORDER BY. A chain of parent links through |rows| rows has
   * depth at most |rows| - 1, so |rows| depths hold every row the query can reach
   * when parents precede children (see LevelEmptyBeyondTable).
   */
  function TreeRows(rows: seq<Comment>, root: int): seq<Comment> {
    Levels(rows, root, |rows|)
  }

  /** The rows GetCommentsByParent's query returns: the tree ordered by created_at. */
  function SubtreeQuery(rows: seq<Comment>, root: int): (r: seq<Comment>)
    ensures SortedBy(r, Asc)
    ensures multiset(r) == multiset(TreeRows(rows, root))
  {
    SortRows(TreeRows(rows, root), Asc)
  }

  /** c reaches the row with id root by following exactly k parent links through rows. */
  ghost predicate ReachesIn(rows: seq<Comment>, c: Comment, root: int, k: nat)
    decreases k
  {
    if k == 0 then c.id == root
    else
      c.parentId.Some? &&
      exists d {:trigger ReachesIn(rows, d, root, k - 1)} :: d in rows && d.id == c.parentId.value && ReachesIn(rows, d, root, k - 1)
  }

  /** c is the root row or one of its transitive descendants. */
  ghost predicate InSubtree(rows: seq<Comment>, c: Comment, root: int) {
    c in rows && exists k: nat :: ReachesIn(rows, c, root, k)
  }

  /** Depth k of the query holds exactly the rows k parent links below the root. */
  lemma {:induction false} LevelMembers(rows: seq<Comment>, root: int, k: nat)
    ensures forall c :: c in Level(rows, root, k) <==> c in rows && ReachesIn(rows, c, root, k)
  {
    if k > 0 {
      LevelMembers(rows, root, k - 1);
      var prev := Level(rows, root, k - 1);
      forall c | c in rows
        ensures c in Level(rows, root, k) <==> ReachesIn(rows, c, root, k)
      {
        if c.parentId.Some? {
          var p := c.parentId.value;
          HasIdMeaning(prev, p);
          if HasId(prev, p) {
            var j :| 0 <= j < |prev| && prev[j].id == p;
            assert ReachesIn(rows, prev[j], root, k - 1);
          }
          if ReachesIn(rows, c, root, k) {
            var d :| d in rows && d.id == p && ReachesIn(rows, d, root, k - 1);
            assert d in prev;
            var j :| 0 <= j < |prev| && prev[j] == d;
            HasIdAt(prev, j, p);
          }
        }
      }
    }
  }

  /**
   * When ids increase and parents precede children, a row at depth k below the
   * root row sits at least k positions after it.
   */
  lemma {:induction false} DepthBound(rows: seq<Comment>, root: int, i: int, k: nat)
    requires IdsIncreasing(rows) && ParentsPrecede(rows)
    requires 0 <= i < |rows| && ReachesIn(rows, rows[i], root, k)
    ensures exists j :: 0 <= j && j + k <= i && rows[j].id == root
  {
    if k == 0 {
      assert rows[i].id == root;
    } else {
      var p := rows[i].parentId.value;
      var d :| d in rows && d.id == p && ReachesIn(rows, d, root, k - 1);
      var jp := ParentBefore(rows, i);
      var m :| 0 <= m < |rows| && rows[m] == d;
      IdsUnique(rows, m, jp);
      DepthBound(rows, root, jp, k - 1);
    }
  }

  /** The root row itself lies at depth 0 only. */
  lemma DepthOfRoot(rows: seq<Comment>, root: int, i: int, k: nat)
    requires IdsIncreasing(rows) && ParentsPrecede(rows)
    requires 0 <= i < |rows| && rows[i].id == root && ReachesIn(rows, rows[i], root, k)
    ensures k == 0
  {
    DepthBound(rows, root, i, k);
    var j :| 0 <= j && j + k <= i && rows[j].id == root;
    IdsUnique(rows, i, j);
  }

  /** A row k > 0 links below the root has a parent row, stored in the table, k - 1 links below it. */
  lemma StepUp(rows: seq<Comment>, root: int, c: Comment, k: nat) returns (m: int)
    requires k > 0 && ReachesIn(rows, c, root, k)
    ensures 0 <= m < |rows| && c.parentId.Some? && rows[m].id == c.parentId.value
    ensures ReachesIn(rows, rows[m], root, k - 1)
  {
    var d :| d in rows && d.id == c.parentId.value && ReachesIn(rows, d, root, k - 1);
    m :| 0 <= m < |rows| && rows[m] == d;
  }

  /** When ids increase and parents precede children, every row has at most one depth below a root. */
  lemma {:induction false} DepthUnique(rows: seq<Comment>, root: int, c: Comment, k1: nat, k2: nat)
    requires IdsIncreasing(rows) && ParentsPrecede(rows)
    requires c in rows && ReachesIn(rows, c, root, k1) && ReachesIn(rows, c, root, k2)
    ensures k1 == k2
    decreases k1
  {
    var i :| 0 <= i < |rows| && rows[i] == c;
    if k1 == 0 {
      DepthOfRoot(rows, root, i, k2);
    } else if k2 == 0 {
      DepthOfRoot(rows, root, i, k1);
    } else {
      var m1 := StepUp(rows, root, c, k1);
      var m2 := StepUp(rows, root, c, k2);
      IdsUnique(rows, m1, m2);
      var j1: nat := k1 - 1;
      var j2: nat := k2 - 1;
      DepthUnique(rows, root, rows[m1], j1, j2);
    }
  }

  /** Parent links never lead from a row back to itself. */
  lemma NoCycle(rows: seq<Comment>, i: int, k: nat)
    requires IdsIncreasing(rows) && ParentsPrecede(rows)
    requires 0 <= i < |rows| && k > 0
    ensures !ReachesIn(rows, rows[i], rows[i].id, k)
  {
    if ReachesIn(rows, rows[i], rows[i].id, k) {
      DepthOfRoot(rows, rows[i].id, i, k);
    }
  }

  /** Depth |rows| and deeper are empty, so the query stops within |rows| iterations. */
  lemma LevelEmptyBeyondTable(rows: seq<Comment>, root: int, k: nat)
    requires IdsIncreasing(rows) && ParentsPrecede(rows)
    requires k >= |rows|
    ensures Level(rows, root, k) == []
  {
    LevelMembers(rows, root, k);
    var l := Level(rows, root, k);
    if l != [] {
      assert l[0] in l;
      var i :| 0 <= i < |rows| && rows[i] == l[0];
      DepthBound(rows, root, i, k);
    }
  }

  /** The first n depths together hold the rows fewer than n links below the root. */
  lemma {:induction false} LevelsMembers(rows: seq<Comment>, root: int, n: nat)
    ensures forall c :: c in Levels(rows, root, n) <==>
      c in rows && exists k: nat :: k < n && ReachesIn(rows, c, root, k)
  {
    if n > 0 {
      LevelsMembers(rows, root, n - 1);
      LevelMembers(rows, root, n - 1);
      var before := Levels(rows, root, n - 1);
      var here := Level(rows, root, n - 1);
      assert Levels(rows, root, n) == before + here;
      forall c
        ensures c in Levels(rows, root, n) <==>
          c in rows && exists k: nat :: k < n && ReachesIn(rows, c, root, k)
      {
        assert c in Levels(rows, root, n) <==> c in before || c in here;
        if c in before {
          var k: nat :| k < n - 1 && ReachesIn(rows, c, root, k);
          assert k < n && ReachesIn(rows, c, root, k);
        } else if c in here {
          assert n - 1 < n && ReachesIn(rows, c, root, n - 1);
        }
        if c in rows && exists k: nat :: k < n && ReachesIn(rows, c, root, k) {
          var k: nat :| k < n && ReachesIn(rows, c, root, k);
          if k == n - 1 {
            assert c in here;
          } else {
            assert c in before;
          }
        }
      }
      assert forall c :: c in Levels(rows, root, n) <==>
        c in rows && exists k: nat :: k < n && ReachesIn(rows, c, root, k);
    } else {
      assert Levels(rows, root, n) == [];
    }
  }

  /** With increasing ids a single depth holds each row at most once. */
  lemma LevelOnce(rows: seq<Comment>, root: int, k: nat, c: Comment)
    requires IdsIncreasing(rows)
    ensures multiset(Level(rows, root, k))[c] <= 1
  {
    RowsDistinct(rows);
    assert multiset(rows)[c] <= 1;
  }

  /** With increasing ids and parents first, depth n repeats no row of the depths above it. */
  lemma LevelNew(rows: seq<Comment>, root: int, n: nat, c: Comment)
    requires IdsIncreasing(rows) && ParentsPrecede(rows)
    ensures !(c in Levels(rows, root, n) && c in Level(rows, root, n))
  {
    if c in Levels(rows, root, n) && c in Level(rows, root, n) {
      LevelsMembers(rows, root, n);
      LevelMembers(rows, root, n);
      var k: nat :| k < n && ReachesIn(rows, c, root, k);
      DepthUnique(rows, root, c, k, n);
    }
  }

  /** One more iteration of the recursion appends the next depth. */
  lemma LevelsStep(rows: seq<Comment>, root: int, m: nat)
    ensures Levels(rows, root, m + 1) == Levels(rows, root, m) + Level(rows, root, m)
  {
  }

  /** Two sequences that each hold c at most once, and not both, hold it at most once together. */
  lemma ConcatOnce(a: seq<Comment>, b: seq<Comment>, c: Comment)
    requires multiset(a)[c] <= 1 && multiset(b)[c] <= 1 && !(c in a && c in b)
    ensures multiset(a + b)[c] <= 1
  {
    assert multiset(a + b)[c] == multiset(a)[c] + multiset(b)[c];
  }

  /** With increasing ids and parents first, UNION ALL never yields a row twice. */
  lemma {:induction false} LevelsDistinct(rows: seq<Comment>, root: int, n: nat, c: Comment)
    requires IdsIncreasing(rows) && ParentsPrecede(rows)
    ensures multiset(Levels(rows, root, n))[c] <= 1
  {
    if n > 0 {
      var m: nat := n - 1;
      LevelsDistinct(rows, root, m, c);
      LevelOnce(rows, root, m, c);
      LevelNew(rows, root, m, c);
      ConcatOnce(Levels(rows, root, m), Level(rows, root, m), c);
      LevelsStep(rows, root, m);
    }
  }

  /**
   * GetCommentsByParent's query returns exactly the root row and its transitive
   * descendants, each once, in non-decreasing created_at order.
   */
  lemma SubtreeExact(rows: seq<Comment>, root: int)
    requires IdsIncreasing(rows) && ParentsPrecede(rows)
    ensures forall c :: c in SubtreeQuery(rows, root) <==> InSubtree(rows, c, root)
    ensures forall c :: multiset(SubtreeQuery(rows, root))[c] <= 1
    ensures SortedBy(SubtreeQuery(rows, root), Asc)
  {
    var tree := TreeRows(rows, root);
    var r := SubtreeQuery(rows, root);
    LevelsMembers(rows, root, |rows|);
    forall c ensures multiset(r)[c] <= 1 {
      LevelsDistinct(rows, root, |rows|, c);
    }
    forall c ensures c in r <==> InSubtree(rows, c, root) {
      assert c in r <==> c in multiset(r);
      assert c in tree <==> c in multiset(tree);
      if InSubtree(rows, c, root) {
        var k: nat :| ReachesIn(rows, c, root, k);
        var i :| 0 <= i < |rows| && rows[i] == c;
        DepthBound(rows, root, i, k);
        assert c in tree;
      }
    }
  }

  /** Without a row carrying root, every depth is empty. */
  lemma {:induction false} LevelsWithoutRoot(rows: seq<Comment>, root: int, k: nat)
    requires !HasId(rows, root)
    ensures Level(rows, root, k) == []
  {
    if k > 0 {
      LevelsWithoutRoot(rows, root, k - 1);
    }
  }

  /** A root id with no row gives an empty result, not an error. */
  lemma MissingRootIsEmpty(rows: seq<Comment>, root: int)
    requires !HasId(rows, root)
    ensures SubtreeQuery(rows, root) == []
  {
    var n := |rows|;
    forall k: nat | k < n
      ensures Level(rows, root, k) == []
    {
      LevelsWithoutRoot(rows, root, k);
    }
    EmptyLevels(rows, root, n);
  }

  lemma {:induction false} EmptyLevels(rows: seq<Comment>, root: int, n: nat)
    requires forall k: nat :: k < n ==> Level(rows, root, k) == []
    ensures Levels(rows, root, n) == []
  {
    if n > 0 {
      EmptyLevels(rows, root, n - 1);
    }
  }

  /** With increasing ids, the anchor finds exactly the one row carrying the id. */
  lemma {:induction false} AnchorSingle(rows: seq<Comment>, i: int)
    requires IdsIncreasing(rows) && 0 <= i < |rows|
    ensures Anchor(rows, rows[i].id) == [rows[i]]
  {
    var root := rows[i].id;
    var tail := rows[1..];
    assert IdsIncreasing(tail) by {
      forall a, b | 0 <= a < b < |tail| ensures tail[a].id < tail[b].id {
        assert tail[a] == rows[a + 1] && tail[b] == rows[b + 1];
      }
    }
    if i == 0 {
      assert !HasId(tail, root) by {
        HasIdMeaning(tail, root);
        forall j | 0 <= j < |tail| ensures tail[j].id != root {
          assert tail[j] == rows[j + 1];
        }
      }
    } else {
      assert rows[0].id < root;
      AnchorSingle(tail, i - 1);
      assert tail[i - 1] == rows[i];
    }
  }

  /** Below a row that no other row names as parent, every depth past 0 is empty. */
  lemma {:induction false} LeafLevels(rows: seq<Comment>, x: Comment, k: nat)
    requires Level(rows, x.id, 0) == [x]
    requires forall j :: 0 <= j < |rows| ==> rows[j].parentId != Some(x.id)
    ensures Level(rows, x.id, k) == if k == 0 then [x] else []
  {
    if k > 0 {
      LeafLevels(rows, x, k - 1);
      var prev := Level(rows, x.id, k - 1);
      forall j | 0 <= j < |rows| && rows[j].parentId.Some?
        ensures !HasId(prev, rows[j].parentId.value)
      {
        HasIdMeaning(prev, rows[j].parentId.value);
      }
    }
  }

  lemma {:induction false} LeafPrefix(rows: seq<Comment>, x: Comment, n: nat)
    requires 1 <= n
    requires Level(rows, x.id, 0) == [x]
    requires forall j :: 0 <= j < |rows| ==> rows[j].parentId != Some(x.id)
    ensures Levels(rows, x.id, n) == [x]
  {
    LeafLevels(rows, x, n - 1);
    if n > 1 {
      LeafPrefix(rows, x, n - 1);
      assert Levels(rows, x.id, n) == [x] + [];
    } else {
      assert Levels(rows, x.id, n) == [] + [x];
    }
  }

  /** On a leaf, GetCommentsByParent's query returns exactly that one row. */
  lemma LeafSubtree(rows: seq<Comment>, i: int)
    requires IdsIncreasing(rows)
    requires 0 <= i < |rows|
    requires forall j :: 0 <= j < |rows| ==> rows[j].parentId != Some(rows[i].id)
    ensures SubtreeQuery(rows, rows[i].id) == [rows[i]]
  {
    AnchorSingle(rows, i);
    LeafPrefix(rows, rows[i], |rows|);
  }
}
