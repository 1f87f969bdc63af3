/**
  How a translation step ends. Every Go panic that the translator can reach
  (an out-of-range slice or index, or an explicit call to `panic`) is an `Err`
  here, so that callers see it as a value instead of an aborted process.
*/
module Outcomes {

  /** The kinds of Go run-time panic reachable in the translator. */
  datatype Panic =
    | SliceBounds(site: string)    // s[low:high] with low > high or high > len(s)
    | IndexRange(site: string)     // x[i] with i >= len(x)
    | Explicit(message: string)    // panic(message)

  datatype Result<T> = Ok(value: T) | Err(error: Panic) {
    predicate IsFailure() {
      Err?
    }

    function PropagateFailure<U>(): Result<U>
      requires Err?
    {
      Err(error)
    }

    function Extract(): T
      requires Ok?
    {
      value
    }
  }
}
