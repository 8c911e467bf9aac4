/** Failure-carrying wrappers shared by the decoder, the validators and the store.
    `Option` stands for a JavaScript value that may be `undefined`; `Result` for a
    computation that may throw. */
module Results {

  datatype Option<+T> = None | Some(value: T)

  datatype Result<+T, +E> = Ok(value: T) | Err(error: E)

}
