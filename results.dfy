/** Failure-carrying values: every `panic!` and `todo!()` of the query engine
    becomes an `Err` alternative instead of aborting the process. */
module Results {

  datatype Option<+T> = None | Some(value: T)

  datatype Result<+T, +E> = Ok(value: T) | Err(error: E)
}
