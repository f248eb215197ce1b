/** Failure-carrying return values: the Python code signals failure by raising,
    the model by returning `Err`. */
module Wrappers {

  datatype Option<+T> = None | Some(value: T)

  datatype Result<+R, +E> = Ok(value: R) | Err(error: E) {

    /** True if this is an error */
    predicate IsFailure() {
      Err?
    }

    /** Re-types an error so that `:-` can propagate it */
    function PropagateFailure<U>(): Result<U, E>
      requires Err?
    {
      Err(error)
    }

    /** The value carried by `Ok` */
    function Extract(): R
      requires Ok?
    {
      value
    }
  }
}
