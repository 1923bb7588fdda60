/** Go's `(value, error)` and nil-able results. */
module Results {
  datatype Option<+T> = None | Some(value: T)
  datatype Result<+T> = Ok(value: T) | Err(error: string)
}
