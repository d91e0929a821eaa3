/** The failures the simulator can raise, a result type that carries them,
    and an optional value for attributes a node may not have yet.
    Python raises these as exceptions; here they are values. */
module Errors {

  datatype Error =
    | AssertionFailed     // an `assert` on the arguments did not hold
    | InfeasibleTies      // more peripheral ties requested than the network can hold
    | SampleSize          // `random.sample` asked for a negative or too large sample
    | EmptySequence       // `random.choice` on an empty list
    | ZeroDivision        // a division by zero
    | MissingKey          // a dictionary lookup with an absent key

  datatype Result<+T> = Ok(value: T) | Err(error: Error) {
    predicate IsFailure() { Err? }

    function PropagateFailure<U>(): Result<U>
      requires Err?
    {
      Err(error)
    }

    function Extract(): T
      requires Ok?
    {
      value
    }
  }

  datatype Option<+T> = None | Some(value: T)
}
