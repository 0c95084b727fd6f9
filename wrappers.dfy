/** Failure-carrying result types shared by the parser and its specification. */
module Wrappers {

  /** A value that may be absent: the result of parsing a level index. */
  datatype Option<+T> = None | Some(value: T)

  /** The `Result<()>` of a parsing step that produces nothing but may fail. */
  datatype Outcome<+E> = Pass | Fail(error: E)

  /** The `Result<T>` of a parsing step that produces a value or fails. */
  datatype Result<+T, +E> = Ok(value: T) | Err(error: E)
}
