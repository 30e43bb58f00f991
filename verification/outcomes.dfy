/** Optional values and the outcome of a write to the store. */
module Outcomes {

  /** A value that may be absent; used for SQL NULL where the model needs it. */
  datatype Option<T> = None | Some(value: T)

  /** The one error a write statement of the dashboard can raise. */
  datatype DbError = DuplicateKey(key: int)

  /** The outcome of a write: the new table, or the error that aborted the statement. */
  datatype Result<T> = Ok(value: T) | Err(error: DbError)
}
