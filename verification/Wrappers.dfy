/** Option and Result, used for the source's `Option`/`Result` values, and its 64-bit integers. */
module Wrappers {

  datatype Option<+T> = None | Some(value: T)

  datatype Result<+T, +E> = Ok(value: T) | Err(error: E) {
    predicate IsFailure() {
      Err?
    }

    function PropagateFailure<U>(): (r: Result<U, E>)
      requires Err?
    {
      Err(error)
    }

    function Extract(): (t: T)
      requires Ok?
    {
      value
    }
  }

  const TWO_64: int := 0x1_0000_0000_0000_0000

  /** An unsigned 64-bit integer of the source. */
  type u64 = n: int | 0 <= n < TWO_64
}
