/** The `Result<()>` the game operations return: success, or a refusal
    whose message the model does not keep; and Rust's `Option`. */
module Outcomes {
  datatype Outcome = Ok | Err

  datatype Option<T> = None | Some(value: T)
}
