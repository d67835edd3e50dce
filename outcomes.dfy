/** The two failure kinds of the list and the values that carry them.
    The Go code panics on a bad index or an empty list; here the failure is
    returned to the caller instead, keeping the two kinds apart. */
module Outcomes {

  /** Why an operation refused to run. */
  datatype Error =
    | IndexOutOfBounds   // get, set, remove, swap with an index outside [0, size)
    | EmptyList          // head, tail, pop, dequeue on a list of size 0

  /** The outcome of an operation that returns an element. */
  datatype Result<T> = Ok(value: T) | Err(error: Error)

  /** The outcome of an operation that returns nothing. */
  datatype Outcome = Done | Failed(error: Error)

  /** An index the list accepts: 0 <= index < size. */
  predicate InBounds(index: int, size: nat) {
    0 <= index < size
  }
}
