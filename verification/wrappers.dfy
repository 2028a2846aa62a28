/** The optional-value datatype the rest of the model uses: an absent macro
    argument, and a query or style key that may be missing. */
module Wrappers {

  datatype Option<+T> = None | Some(value: T)
}
