/** Optional values and the exceptions the modelled Python code can raise. */
module Outcomes {

  datatype Option<T> = None | Some(value: T)

  /** The exceptions that escape from the modelled methods. */
  datatype PyError =
    | TypeError     // `dict + int` in `add_transaction`
    | IndexError    // `chain[0]` of an empty peer chain in `is_chain_valid`
    | RequestError  // a peer that `requests.get` cannot reach

  /** A value, or the exception raised instead of returning one. */
  datatype Result<T> = Ok(value: T) | Raised(error: PyError)
}
