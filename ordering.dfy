/** ORDER BY created_at ASC | DESC over comment rows. */
module Ordering {
  import opened Domain
  import opened Seqs

  datatype Direction = Asc | Desc

  /** a may precede b in a result ordered by created_at in direction dir. */
  predicate InOrder(a: Comment, b: Comment, dir: Direction) {
    match dir
    case Asc => a.createdAt <= b.createdAt
    case Desc => a.createdAt >= b.createdAt
  }

  predicate SortedBy(s: seq<Comment>, dir: Direction) {
    forall i, j :: 0 <= i < j < |s| ==> InOrder(s[i], s[j], dir)
  }

  /** Place x before the first element it may precede. */
  function Insert(x: Comment, s: seq<Comment>, dir: Direction): (r: seq<Comment>)
    requires SortedBy(s, dir)
    ensures SortedBy(r, dir)
    ensures multiset(r) == multiset(s) + multiset{x}
    ensures |r| == |s| + 1
  {
    if s == [] || InOrder(x, s[0], dir) then
      [x] + s
    else
      var rest := Insert(x, s[1..], dir);
      assert s == [s[0]] + s[1..];
      assert forall k :: 0 <= k < |rest| ==> InOrder(s[0], rest[k], dir) by {
        forall k | 0 <= k < |rest|
          ensures InOrder(s[0], rest[k], dir)
        {
          assert rest[k] in multiset(rest);
          assert rest[k] == x || rest[k] in multiset(s[1..]);
        }
      }
      [s[0]] + rest
  }

  /**
   * The rows of s ordered by created_at. Rows with equal created_at are left
   * in one fixed order; no particular tie order is promised.
   */
  function SortRows(s: seq<Comment>, dir: Direction): (r: seq<Comment>)
    ensures SortedBy(r, dir)
    ensures multiset(r) == multiset(s)
    ensures |r| == |s|
  {
    if s == [] then []
    else
      assert s == [s[0]] + s[1..];
      Insert(s[0], SortRows(s[1..], dir), dir)
  }

  /** A LIMIT/OFFSET window of sorted rows is still sorted and holds only rows of the input. */
  lemma SlicedSort(s: seq<Comment>, dir: Direction, offset: nat, limit: nat)
    ensures SortedBy(Slice(SortRows(s, dir), offset, limit), dir)
    ensures forall c :: c in Slice(SortRows(s, dir), offset, limit) ==> c in s
  {
    var sorted := SortRows(s, dir);
    var r := Slice(sorted, offset, limit);
    forall i, j | 0 <= i < j < |r| ensures InOrder(r[i], r[j], dir) {
      assert r[i] == sorted[offset + i] && r[j] == sorted[offset + j];
    }
    forall c | c in r ensures c in s {
      var i :| 0 <= i < |r| && r[i] == c;
      assert sorted[offset + i] in multiset(sorted);
    }
  }

  /** No two different rows of s share a created_at, so ORDER BY created_at has no ties to break. */
  ghost predicate DistinctKeys(s: seq<Comment>) {
    forall x, y :: x in s && y in s && x.createdAt == y.createdAt ==> x == y
  }

  /**
   * Without ties, the order ORDER BY created_at produces is unique: any two
   * orderings of the same rows are equal.
   */
  lemma {:induction false} SortedUnique(a: seq<Comment>, b: seq<Comment>, dir: Direction)
    requires SortedBy(a, dir) && SortedBy(b, dir)
    requires multiset(a) == multiset(b) && DistinctKeys(a)
    ensures a == b
    decreases |a|
  {
    if a == [] {
      assert |b| == |multiset(b)| == 0;
    } else {
      SortedHeads(a, b, dir);
      TailFacts(a, b, dir);
      SortedUnique(a[1..], b[1..], dir);
      assert a == [a[0]] + a[1..] && b == [b[0]] + b[1..];
    }
  }

  /** Without ties, two orderings of the same rows start with the same row. */
  lemma SortedHeads(a: seq<Comment>, b: seq<Comment>, dir: Direction)
    requires SortedBy(a, dir) && SortedBy(b, dir)
    requires multiset(a) == multiset(b) && DistinctKeys(a) && a != []
    ensures b != [] && a[0] == b[0]
  {
    assert a[0] in multiset(b);
    var j :| 0 <= j < |b| && b[j] == a[0];
    assert b[0] in multiset(a);
    var i :| 0 <= i < |a| && a[i] == b[0];
    if i > 0 { assert InOrder(a[0], a[i], dir); }
    if j > 0 { assert InOrder(b[0], b[j], dir); }
  }

  /** Dropping a shared first row keeps both orderings sorted, tie-free and of the same rows. */
  lemma TailFacts(a: seq<Comment>, b: seq<Comment>, dir: Direction)
    requires SortedBy(a, dir) && SortedBy(b, dir)
    requires multiset(a) == multiset(b) && DistinctKeys(a)
    requires a != [] && b != [] && a[0] == b[0]
    ensures SortedBy(a[1..], dir) && SortedBy(b[1..], dir)
    ensures multiset(a[1..]) == multiset(b[1..]) && DistinctKeys(a[1..])
  {
    TailMultiset(a, b);
    TailDistinct(a);
  }

  lemma TailMultiset(a: seq<Comment>, b: seq<Comment>)
    requires multiset(a) == multiset(b) && a != [] && b != [] && a[0] == b[0]
    ensures multiset(a[1..]) == multiset(b[1..])
  {
    assert a == [a[0]] + a[1..] && b == [b[0]] + b[1..];
    assert multiset(a) == multiset{a[0]} + multiset(a[1..]);
    assert multiset(b) == multiset{a[0]} + multiset(b[1..]);
    forall x ensures multiset(a[1..])[x] == multiset(b[1..])[x] {
      assert multiset(a)[x] == multiset{a[0]}[x] + multiset(a[1..])[x];
      assert multiset(b)[x] == multiset{a[0]}[x] + multiset(b[1..])[x];
    }
  }

  lemma TailDistinct(a: seq<Comment>)
    requires DistinctKeys(a) && a != []
    ensures DistinctKeys(a[1..])
  {
    forall x, y | x in a[1..] && y in a[1..] && x.createdAt == y.createdAt ensures x == y {
      assert x in a && y in a;
    }
  }
}
