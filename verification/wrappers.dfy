/** Failure-compatible result types shared by the parsers of the QC pipeline.

    The pipeline script signals every problem by a Python exception; the model
    turns each exception into a `PyError` value carried by `Result.Failure`, so
    that "raises" becomes an ordinary, inspectable outcome. */
module Wrappers {

  datatype Option<+T> = None | Some(value: T)

  datatype Result<+R, +E> = Success(value: R) | Failure(error: E) {

    predicate IsFailure() {
      Failure?
    }

    function PropagateFailure<U>(): Result<U, E>
      requires Failure?
    {
      Failure(error)
    }

    function Extract(): R
      requires Success?
    {
      value
    }
  }

  /** The Python exceptions the modelled code can raise.
      - `IndexError`: a field index past the end of the tokenised line;
      - `ValueError(token)`: `int()` or `float()` rejected `token`;
      - `StopIteration`: `next(f)` on a file with no line at all;
      - `ZeroDivisionError`: a percentage over a region set of zero bases. */
  datatype PyError =
    | IndexError
    | ValueError(token: string)
    | StopIteration
    | ZeroDivisionError
}
