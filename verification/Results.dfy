/** Presence and failure: what the source writes as `undefined`/`null` and as a thrown error. */
module Results {
  datatype Option<+T> = None | Some(value: T)

  datatype Outcome<+T, +E> = Ok(value: T) | Err(error: E)
}
