/** Option and Result, the two failure-compatible values the model is built on.
    `None` stands for JavaScript's `undefined`; `Result` stands for the
    `{ data, error }` pair a fetch yields and for neverthrow's `ok`/`err`. */
module Wrappers {

  datatype Option<+T> = None | Some(value: T)

  datatype Result<+T, +E> = Ok(value: T) | Err(error: E)
}
