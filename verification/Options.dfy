// Shared result types.
module Options {

  datatype Option<+T> = None | Some(value: T)

  /** A call of the system either returns a value or throws. */
  datatype Outcome<+T> = Returned(value: T) | Threw
}
