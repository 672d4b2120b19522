/** Option and Result values used in place of Java's null and exceptions. */
module Wrappers {

  /** An optional value; `None` stands for a Java `null`. */
  datatype Option<+T> = None | Some(value: T)

  /** Either a successful value or a typed error, in place of a thrown exception. */
  datatype Result<+T, +E> = Ok(value: T) | Err(error: E)
}
