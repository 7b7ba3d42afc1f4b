/**
 * The exceptions the three data structures throw, as values.
 * Every Java `throw` in the modelled code becomes a `Failure`/`Fail`
 * carrying one of these errors; a call that returns normally is a
 * `Success`/`Pass`.
 */
module Errors {

  datatype Error =
    /** IllegalArgumentException from `new Percolation(n)` with n <= 0. */
    | InvalidDimension(n: int)
    /** IllegalArgumentException "Row index is out of bounds. r:%d, c:%d". */
    | RowOutOfBounds(row: int, col: int)
    /** IllegalArgumentException "Col index is out of bounds. r:%d, c:%d". */
    | ColOutOfBounds(row: int, col: int)
    /** IllegalArgumentException "Item is null". */
    | NullItem
    /** NoSuchElementException on an empty container or an exhausted iterator. */
    | NoSuchElement
    /** UnsupportedOperationException from `Iterator.remove`. */
    | Unsupported
  {
    /** The errors Java reports as IllegalArgumentException. */
    predicate IsIllegalArgument() {
      InvalidDimension? || RowOutOfBounds? || ColOutOfBounds? || NullItem?
    }
  }

  /** The outcome of a call that returns a value or throws. */
  datatype Result<+T> = Success(value: T) | Failure(error: Error)

  /** The outcome of a `void` call that may throw. */
  datatype Outcome = Pass | Fail(error: Error)

  /** A Java reference that may be null: `None` stands for `null`. */
  datatype Option<+T> = None | Some(value: T)
}
