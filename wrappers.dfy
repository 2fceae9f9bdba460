/** Option and Result, the two failure-carrying shapes the model uses in place of
    Java's null references and thrown exceptions. */
module Wrappers {

  /** A value that may be absent: Java's nullable reference. */
  datatype Option<+T> = None | Some(value: T)

  /** Either a value or the exception the Java code would throw instead. */
  datatype Result<+T, +E> = Ok(value: T) | Err(error: E)
}
