/** The value of a Redis key, a nullable column or a Python `None`-able name. */
module Options {

  datatype Option<+T> = None | Some(value: T) {

    /** True when there is no value; lets `:-` propagate a missing one. */
    predicate IsFailure() {
      None?
    }

    function PropagateFailure<U>(): Option<U>
      requires None?
    {
      None
    }

    function Extract(): T
      requires Some?
    {
      value
    }
  }
}
