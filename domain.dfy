/** Go's 64-bit signed integer: its bounds and two's-complement wrap-around. */
module Int64 {

  const Min: int := -0x8000_0000_0000_0000
  const Max: int :=  0x7FFF_FFFF_FFFF_FFFF
  const Modulus: int := 0x1_0000_0000_0000_0000

  predicate InRange(x: int) {
    Min <= x <= Max
  }

  /** The value an int64 computation yields for the mathematical result x. */
  function Wrap(x: int): (r: int)
    ensures InRange(r)
    ensures (r - x) % Modulus == 0
    ensures InRange(x) ==> r == x
  {
    (x - Min) % Modulus + Min
  }

  /** x clamped to the int64 range: what an overflow-checked computation yields. */
  function Saturate(x: int): (r: int)
    ensures InRange(r)
    ensures InRange(x) ==> r == x
    ensures x > Max ==> r == Max
    ensures x < Min ==> r == Min
  {
    if x > Max then Max else if x < Min then Min else x
  }
}

/** The records of the comment service and its errors. */
module Domain {
  import opened Wrappers

  /** created_at: a point on the store's clock; only its order is used. */
  type Timestamp = int

  /** The zero time.Time a freshly built record carries. */
  const ZeroTime: Timestamp := 0

  /** A row of the comments table (domain.Comment). */
  datatype Comment = Comment(
    id: int,
    parentId: Option<int>,
    userId: int,
    text: string,
    createdAt: Timestamp,
    deleted: bool)

  /** The transport shape of a comment (dto.Comment). */
  datatype CommentDto = CommentDto(id: int, text: string, parentId: Option<int>, userId: int)

  /** Errors: the two sentinels, a driver failure, and a failure wrapped with an operation name. */
  datatype Error =
    | ParentNotFound
    | CommentNotFound
    | Driver(message: string)
    | Wrapped(op: string, cause: Error)

  /** The unwrap chain errors.Is walks: the error, its cause, the cause's cause, and so on. */
  function Chain(err: Error): (r: seq<Error>)
    ensures |r| >= 1 && r[0] == err
    ensures forall i :: 0 <= i < |r| - 1 ==> r[i].Wrapped? && r[i + 1] == r[i].cause
    ensures !r[|r| - 1].Wrapped?
  {
    if err.Wrapped? then [err] + Chain(err.cause) else [err]
  }

  /** errors.Is: the error itself or anything on its unwrap chain equals target. */
  predicate Is(err: Error, target: Error): (r: bool)
    ensures r <==> target in Chain(err)
  {
    err == target || (err.Wrapped? && Is(err.cause, target))
  }

  /** An error made only of driver failures and wrapping: it carries no sentinel. */
  predicate Opaque(err: Error) {
    err.Driver? || (err.Wrapped? && Opaque(err.cause))
  }

  /** No wrapping of a driver failure is mistaken for either sentinel by errors.Is. */
  lemma {:induction false} OpaqueIsNoSentinel(err: Error)
    requires Opaque(err)
    ensures !Is(err, ParentNotFound) && !Is(err, CommentNotFound)
  {
    if err.Wrapped? {
      OpaqueIsNoSentinel(err.cause);
    }
  }

  /** Failure of one driver call, with the driver's message; None when it succeeds. */
  type DbFault = Option<string>

  /** rows.Scan failing on the row at the given position of a result set. */
  datatype RowFault = RowFault(index: nat, message: string)
}
