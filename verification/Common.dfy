/** Failure-compatible datatypes shared by every component. */
module Common {

  datatype Option<+T> = None | Some(value: T)

  /** The outcome of a call that may throw: a value, or the reason it was refused. */
  datatype Result<+T, +E> = Ok(value: T) | Err(error: E) {

    predicate IsFailure() {
      Err?
    }

    function PropagateFailure<U>(): Result<U, E>
      requires Err?
    {
      Err(error)
    }

    function Extract(): T
      requires Ok?
    {
      value
    }
  }

  function Min(a: int, b: int): int {
    if a < b then a else b
  }

  function Max(a: int, b: int): int {
    if a > b then a else b
  }

  /** A concurrency limit; the source writes "no cap" as Infinity. */
  datatype Cap = Unlimited | AtMost(n: nat)

  predicate Below(n: int, cap: Cap) {
    cap.Unlimited? || n < cap.n
  }

  predicate Within(n: int, cap: Cap) {
    cap.Unlimited? || n <= cap.n
  }
}
