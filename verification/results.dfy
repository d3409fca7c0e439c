/** Failure-carrying values shared by every module of the model.
    `Option` stands for a Python value that may be `None`; `Result` stands for
    a call that either returns a value or raises an exception. */
module Results {

  datatype Option<+T> = None | Some(value: T)

  datatype Result<+T, +E> = Ok(value: T) | Err(error: E)
}
