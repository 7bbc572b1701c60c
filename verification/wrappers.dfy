/** The failure-carrying shapes the model uses: an optional value (a JavaScript
    `null` or a Go "no row"), and a value-or-error result. */
module Wrappers {

  datatype Option<+T> = None | Some(value: T)

  datatype Result<+T, +E> = Ok(value: T) | Err(error: E)
}
