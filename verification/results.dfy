/** Outcome of an adapter operation that can end in libjpeg's `error_exit`. */
module Results {

  /** Either the operation completed with `value`, or it stopped with `error`. */
  datatype Result<+T, +E> = Ok(value: T) | Err(error: E)
}
