/** Option and Result, the two shapes every fallible operation of the core returns. */
module Wrappers {

  datatype Option<+T> = None | Some(value: T)

  datatype Result<+T, +E> = Ok(value: T) | Err(error: E)

  /** The unit value `()` of an `Ok(())` result. */
  datatype Unit = Unit
}

/** The error value of the SQL driver (`sqlx::Error`), reduced to the text it displays. */
module Sqlx {

  datatype Error = Error(message: string)
}
