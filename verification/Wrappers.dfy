module Wrappers {
  datatype Option<+T> = None | Some(value: T)

  /** Outcome of a parser: a value, an exception, or a loop that no longer advances. */
  datatype Parse<+T> = Parsed(value: T) | Throws | Stuck
}
