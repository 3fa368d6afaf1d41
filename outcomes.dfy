/** Optional values, the errors the script can raise, and results that carry them. */
module Outcomes {

  datatype Option<+T> = None | Some(value: T)

  /** The Python exceptions the script can end with. */
  datatype Error =
    | KeyError(name: string)   // a column label that is not in the frame
    | TypeError                // an operation between incompatible cell types
    | ValueError               // a value that cannot be converted, or a header list of the wrong length
    | AttributeError           // the `.str` accessor used on a column that holds no strings

  datatype Result<+T> = Ok(value: T) | Err(error: Error)
}
