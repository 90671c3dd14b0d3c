/** The outcome of an operation of the bridge: a value, or the message the
    code would throw. */
module Results {

  datatype Result<+T> = Ok(value: T) | Err(error: string) {

    predicate IsFailure() {
      Err?
    }

    function PropagateFailure<U>(): Result<U>
      requires Err?
    {
      Err(error)
    }

    function Extract(): T
      requires Ok?
    {
      value
    }
  }

  datatype Option<+T> = None | Some(value: T)

  /** `:- Need(c, m);` fails with message `m` unless `c` holds. */
  function Need(condition: bool, message: string): (r: Result<()>)
    ensures r.Ok? <==> condition
    ensures r.Err? ==> r.error == message
  {
    if condition then Ok(()) else Err(message)
  }
}
