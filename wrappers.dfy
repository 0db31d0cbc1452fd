/** Failure-compatible result types and the error values the pipeline can produce. */
module Wrappers {

  datatype Option<T> = None | Some(value: T)

  /** The failures that the modelled core can surface. */
  datatype Error =
    | ColumnNotFound(name: string)  // `select` of a name the frame does not have
    | Duplicate(name: string)       // `select` of a name listed twice
    | OutOfBounds                   // `take` of a row index >= the frame height
    | SliceOutOfRange               // the panic of `indices[0..split_idx]` when split_idx > len

  /** A value or an error; usable with `:-`, like Rust's `?`. */
  datatype Result<T> = Ok(value: T) | Err(error: Error) {
    predicate IsFailure() { Err? }

    function PropagateFailure<U>(): Result<U>
      requires Err?
    {
      Err(error)
    }

    function Extract(): T
      requires Ok?
    {
      value
    }
  }
}
