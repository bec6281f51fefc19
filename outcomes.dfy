/** Failure-compatible result types for the engine.
    The source signals failure by raising Python exceptions; each raise
    point becomes a `Fail` carrying the class of the exception. */
module Outcomes {

  /** The exception classes the write path can raise. */
  datatype Error =
    | CompositeIndexError   // explicit raise in index_to_row: token/index count mismatch
    | KeyError              // missing dict key or missing row in a table
    | AttributeError        // attribute access on None / on a list
    | TypeError             // iteration over a value that is not a collection
    | ValueError            // int() of a key that is not an integer
    | IndexError            // element 0 of an empty list

  datatype Option<+T> = None | Some(value: T)

  datatype Result<+T> = Ok(value: T) | Fail(error: Error) {
    predicate IsFailure() { Fail? }

    function PropagateFailure<U>(): Result<U>
      requires Fail?
    {
      Fail(error)
    }

    function Extract(): T
      requires Ok?
    {
      value
    }
  }
}
