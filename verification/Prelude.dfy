/** Option and Result in the shape the Rust sources use them. */
module Prelude {

  datatype Option<+T> = None | Some(value: T)

  /**
    The outcome of a fallible Rust computation. `Panic` is an integer overflow or a division by
    zero in a build with overflow checks: the call neither returns a value nor an error.
   */
  datatype Result<+T, +E> = Ok(value: T) | Err(error: E) | Panic {
    predicate IsFailure() {
      !Ok?
    }

    function PropagateFailure<U>(): (r: Result<U, E>)
      requires !Ok?
      ensures !r.Ok?
    {
      if Err? then Err(error) else Panic
    }

    function Extract(): T
      requires Ok?
    {
      value
    }
  }
}
