/** Rust's Option and Result, and the way a Rust call ends (it returns or it
    panics), as used by the flowrs nodes of this model. */
module Flow {

  /** Rust's Option<T>. */
  datatype Option<+T> = None | Some(value: T)

  /** Rust's Result<T, E>; node updates return Result<(), UpdateError>, whose
      error is modelled by its message. */
  datatype Result<+T, +E> = Ok(value: T) | Err(error: E)

  /** How a call that may panic ends: it returns a value, or it panics with a message. */
  datatype Exit<+T> = Returned(value: T) | Panicked(message: string)

  /** The queue of an Input after `next()`: the front message, if any, is consumed. */
  function Drop1<T>(queue: seq<T>): (rest: seq<T>)
    ensures queue == [] ==> rest == []
    ensures queue != [] ==> [queue[0]] + rest == queue
  {
    if queue == [] then [] else queue[1..]
  }

  /** The message `next()` yields from a queue, if any. */
  function Front<T>(queue: seq<T>): (m: Option<T>)
    ensures m.None? <==> queue == []
    ensures m.Some? ==> m.value == queue[0]
  {
    if queue == [] then None else Some(queue[0])
  }
}
