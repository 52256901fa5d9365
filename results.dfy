/** The outcomes of the modelled operations: a value, or the Python exception
    raised (or the exit taken) instead of it. */
module Results {
  datatype Error =
    | StructError   // struct.unpack got fewer than 4 bytes, or struct.pack a value out of range
    | IndexError    // a port group outside the 4-entry address tuples, or sorting given fewer than five points
    | IllegalMode   // low_level_set_mode was asked for 'alt'
    | InvalidGpio   // check_gpio_valid rejected the pin number
    | BadValue      // do_write got a value that is not 0/1/on/off

  datatype Result<+T> = Ok(value: T) | Err(error: Error) {
    predicate IsFailure() { Err? }
    function PropagateFailure<U>(): Result<U> requires Err? { Err(error) }
    function Extract(): T requires Ok? { value }
  }

  /** The outcome of an operation that returns nothing. */
  datatype Outcome = Done | Fail(error: Error)
}
